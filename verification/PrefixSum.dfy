/** Prefix sums four lanes at a time: shift and add twice within a vector, then add the
    carry from the vector before, in 32-bit wrapping arithmetic. */
module PrefixSum {
  import opened Arithmetic

  const BASE: nat := 0x1_0000_0000

  predicate IsI32(x: int) { -0x8000_0000 <= x < 0x8000_0000 }

  /** 32-bit wrap-around */
  function WrapI32(x: int): (w: int)
    ensures IsI32(w) && (IsI32(x) ==> w == x)
  {
    (x + 0x8000_0000) % BASE - 0x8000_0000
  }

  lemma WrapI32IsCongruent(x: int)
    ensures (WrapI32(x) - x) % BASE == 0
  {
    var q := (x + 0x8000_0000) / BASE;
    assert WrapI32(x) - x == BASE * -q;
  }

  lemma WrapI32OfSum(x: int, y: int)
    ensures WrapI32(WrapI32(x) + WrapI32(y)) == WrapI32(x + y)
  {
    var p, q := (x + 0x8000_0000) / BASE, (y + 0x8000_0000) / BASE;
    assert WrapI32(x) + WrapI32(y) == x + y - BASE * (p + q);
    ShiftByMultiple(x + y + 0x8000_0000, BASE, p + q);
  }

  // ---- Vectors of four lanes ----

  datatype Lanes = Lanes(a: int, b: int, c: int, d: int)

  /** `_mm_add_epi32` */
  function AddLanes(v: Lanes, w: Lanes): Lanes {
    Lanes(WrapI32(v.a + w.a), WrapI32(v.b + w.b), WrapI32(v.c + w.c), WrapI32(v.d + w.d))
  }

  /** `_mm_slli_si128` by n four-byte lanes: zeros come in, the last lanes fall out. */
  function ShiftLanes(v: Lanes, n: nat): Lanes
    decreases n
  {
    if n == 0 then v else ShiftLanes(Lanes(0, v.a, v.b, v.c), n - 1)
  }

  /** `_mm_set1_epi32` */
  function SetLanes(x: int): Lanes {
    Lanes(x, x, x, x)
  }

  /** `_mm_loadu_si128` */
  function Load(nums: seq<int>, i: nat): Lanes
    requires i + 4 <= |nums|
  {
    Lanes(nums[i], nums[i + 1], nums[i + 2], nums[i + 3])
  }

  /** The sum of the first `k` numbers, as the scalar loop computes it */
  function Sequential(nums: seq<int>, k: nat): (s: int)
    requires k <= |nums|
    ensures IsI32(s)
  {
    if k == 0 then 0 else WrapI32(Sequential(nums, k - 1) + nums[k - 1])
  }

  /** The plain sum, in unbounded integers */
  function Total(nums: seq<int>): int {
    if nums == [] then 0 else Total(nums[..|nums| - 1]) + nums[|nums| - 1]
  }

  lemma TotalOfMore(nums: seq<int>, k: nat)
    requires k < |nums|
    ensures Total(nums[..k + 1]) == Total(nums[..k]) + nums[k]
  {
    assert nums[..k + 1][..k] == nums[..k];
  }

  /** The running sum in 32 bits is the plain sum, wrapped around once at the end. */
  lemma {:induction false} SequentialIsTotal(nums: seq<int>, k: nat)
    requires k <= |nums|
    ensures Sequential(nums, k) == WrapI32(Total(nums[..k]))
  {
    if k > 0 {
      SequentialIsTotal(nums, k - 1);
      TotalOfMore(nums, k - 1);
      SequentialOfMore(nums, k - 1, Total(nums[..k - 1]));
    }
  }

  lemma SequentialOfMore(nums: seq<int>, k: nat, total: int)
    requires k < |nums| && Sequential(nums, k) == WrapI32(total)
    ensures Sequential(nums, k + 1) == WrapI32(total + nums[k])
  {
    var p := (total + 0x8000_0000) / BASE;
    assert WrapI32(total) == total - BASE * p;
    ShiftByMultiple(total + nums[k] + 0x8000_0000, BASE, p);
  }

  ghost predicate AllI32(nums: seq<int>) {
    forall i :: 0 <= i < |nums| ==> IsI32(nums[i])
  }

  /** Shift-and-add twice, then the carry */
  function Scanned(v: Lanes, carry: int): Lanes {
    var v1 := AddLanes(v, ShiftLanes(v, 1));
    var v2 := AddLanes(v1, ShiftLanes(v1, 2));
    AddLanes(v2, SetLanes(carry))
  }

  /** Two wrapped sums, then the carry */
  lemma LaneSum(x: int, y: int, carry: int)
    requires IsI32(carry)
    ensures WrapI32(WrapI32(WrapI32(x) + WrapI32(y)) + carry) == WrapI32(carry + x + y)
  {
    WrapI32OfSum(x, y);
    WrapI32OfSum(x + y, carry);
    assert WrapI32(carry) == carry;
    hide WrapI32;
    assert x + y + carry == carry + x + y;
  }

  lemma ShiftedLanes(v: Lanes)
    ensures ShiftLanes(v, 1) == Lanes(0, v.a, v.b, v.c) && ShiftLanes(v, 2) == Lanes(0, 0, v.a, v.b)
  {
    assert ShiftLanes(Lanes(0, v.a, v.b, v.c), 1) == Lanes(0, 0, v.a, v.b);
  }

  lemma LaneSums(v: Lanes, carry: int)
    requires IsI32(v.a) && IsI32(v.b) && IsI32(v.c) && IsI32(v.d) && IsI32(carry)
    ensures Scanned(v, carry) == Lanes(WrapI32(carry + v.a), WrapI32(carry + v.a + v.b), WrapI32(carry + v.a + v.b + v.c),
                                       WrapI32(carry + v.a + v.b + v.c + v.d))
  {
    hide WrapI32, ShiftLanes;
    ShiftedLanes(v);
    var v1 := AddLanes(v, ShiftLanes(v, 1));
    assert v1 == Lanes(v.a, WrapI32(v.b + v.a), WrapI32(v.c + v.b), WrapI32(v.d + v.c));
    ShiftedLanes(v1);
    var v2 := AddLanes(v1, ShiftLanes(v1, 2));
    assert v2 == Lanes(v.a, WrapI32(v.b + v.a), WrapI32(WrapI32(v.c + v.b) + v.a), WrapI32(WrapI32(v.d + v.c) + WrapI32(v.b + v.a)));
    LaneSum(v.b, v.a, carry);
    LaneSum(v.c + v.b, v.a, carry);
    LaneSum(v.d + v.c, v.b + v.a, carry);
    assert carry + v.b + v.a == carry + v.a + v.b && carry + (v.c + v.b) + v.a == carry + v.a + v.b + v.c;
    assert carry + (v.d + v.c) + (v.b + v.a) == carry + v.a + v.b + v.c + v.d;
  }

  /** The four lanes are the next four sequential sums. */
  lemma LanesAreSequential(nums: seq<int>, i: nat)
    requires i + 4 <= |nums| && AllI32(nums)
    ensures Scanned(Load(nums, i), Sequential(nums, i))
         == Lanes(Sequential(nums, i + 1), Sequential(nums, i + 2), Sequential(nums, i + 3), Sequential(nums, i + 4))
  {
    hide Scanned, WrapI32, Sequential;
    var carry := Sequential(nums, i);
    LaneSums(Load(nums, i), carry);
    SequentialOfMore(nums, i, carry);
    SequentialOfMore(nums, i + 1, carry + nums[i]);
    SequentialOfMore(nums, i + 2, carry + nums[i] + nums[i + 1]);
    SequentialOfMore(nums, i + 3, carry + nums[i] + nums[i + 1] + nums[i + 2]);
  }

  lemma SequentialStep(nums: seq<int>, k: nat)
    requires k < |nums|
    ensures Sequential(nums, k + 1) == WrapI32(Sequential(nums, k) + nums[k])
  {
  }

  /** `_mm_storeu_si128` */
  method Store(a: array<int>, i: nat, v: Lanes)
    requires i + 4 <= a.Length
    modifies a
    ensures a[..] == old(a[..i]) + [v.a, v.b, v.c, v.d] + old(a[i + 4..])
  {
    a[i] := v.a;
    a[i + 1] := v.b;
    a[i + 2] := v.c;
    a[i + 3] := v.d;
  }

  ghost predicate SumsUpTo(a: seq<int>, nums: seq<int>, n: nat) {
    n <= |nums| && n <= |a| && forall k :: 0 <= k < n ==> a[k] == Sequential(nums, k + 1)
  }

  lemma MoreSums(before: seq<int>, after: seq<int>, nums: seq<int>, i: nat, m: nat)
    requires i <= m <= |nums| && m <= |after| == |before| && SumsUpTo(before, nums, i) && before[..i] == after[..i]
    requires forall k :: i <= k < m ==> after[k] == Sequential(nums, k + 1)
    ensures SumsUpTo(after, nums, m)
  {
    hide Sequential;
    forall k | 0 <= k < i ensures after[k] == before[k] {
      assert after[..i][k] == before[..i][k];
    }
  }

  lemma FourMoreSums(before: seq<int>, nums: seq<int>, i: nat)
    requires i + 4 <= |nums| && i + 4 <= |before| && SumsUpTo(before, nums, i)
    ensures var sums := [Sequential(nums, i + 1), Sequential(nums, i + 2), Sequential(nums, i + 3), Sequential(nums, i + 4)];
            var after := before[..i] + sums + before[i + 4..];
            SumsUpTo(after, nums, i + 4) && after[i + 3] == Sequential(nums, i + 4) && after[i + 4..] == before[i + 4..]
  {
    hide Sequential;
  }

  /** The body of the vector loop: four sums stored, and the new carry */
  method SumChunk(prefArray: array<int>, nums: seq<int>, i: nat, carry0: int) returns (carry: int)
    requires i + 4 <= |nums| <= prefArray.Length && AllI32(nums) && carry0 == Sequential(nums, i)
    requires SumsUpTo(prefArray[..], nums, i)
    modifies prefArray
    ensures SumsUpTo(prefArray[..], nums, i + 4) && carry == Sequential(nums, i + 4)
    ensures prefArray[i + 4..] == old(prefArray[i + 4..])
  {
    hide WrapI32, Sequential, AddLanes, ShiftLanes, SetLanes, Load, SumsUpTo;
    var v := Load(nums, i);
    var shift1 := ShiftLanes(v, 1);
    v := AddLanes(v, shift1);
    var shift2 := ShiftLanes(v, 2);
    v := AddLanes(v, shift2);
    v := AddLanes(v, SetLanes(carry0));
    LanesAreSequential(nums, i);
    hide Scanned;
    ghost var before := prefArray[..];
    Store(prefArray, i, v);
    FourMoreSums(before, nums, i);
    assert prefArray[..][i + 4..] == prefArray[i + 4..];
    carry := prefArray[i + 3];
    assert carry == prefArray[..][i + 3];
  }

  /** Every place holds the sum up to it: the exact one where it is an i32, and its
      remainder in 32 bits otherwise. */
  ghost predicate HoldsSums(a: seq<int>, nums: seq<int>) {
    && |a| >= |nums|
    && forall k :: 0 <= k < |nums| ==>
         IsI32(a[k]) && (a[k] - Total(nums[..k + 1])) % BASE == 0
         && (IsI32(Total(nums[..k + 1])) ==> a[k] == Total(nums[..k + 1]))
  }

  lemma SumsAreTotals(a: seq<int>, nums: seq<int>)
    requires SumsUpTo(a, nums, |nums|)
    ensures HoldsSums(a, nums)
  {
    hide WrapI32, Sequential, Total;
    forall k | 0 <= k < |nums|
      ensures IsI32(a[k]) && (a[k] - Total(nums[..k + 1])) % BASE == 0
           && (IsI32(Total(nums[..k + 1])) ==> a[k] == Total(nums[..k + 1]))
    {
      SequentialIsTotal(nums, k + 1);
      WrapI32IsCongruent(Total(nums[..k + 1]));
    }
  }

  /** The vector loop and the scalar tail give the prefix sums, for every length; the
      rest of the array keeps its values. */
  method GoodPrefixSum(prefArray: array<int>, nums: seq<int>)
    requires prefArray.Length >= |nums| && AllI32(nums)
    modifies prefArray
    ensures forall k :: 0 <= k < |nums| ==> prefArray[k] == Sequential(nums, k + 1)
    ensures HoldsSums(prefArray[..], nums)
    ensures prefArray[|nums|..] == old(prefArray[|nums|..])
  {
    assert Sequential(nums, 0) == 0;
    hide WrapI32, Sequential;
    var carry, i := 0, 0;
    while i + 4 <= |nums|
      invariant 0 <= i <= |nums| && carry == Sequential(nums, i)
      invariant SumsUpTo(prefArray[..], nums, i) && prefArray[i..] == old(prefArray[i..])
    {
      ghost var before := prefArray[..];
      carry := SumChunk(prefArray, nums, i, carry);
      i := i + 4;
      assert prefArray[i..] == before[i - 4..][4..];
    }
    while i < |nums|
      invariant 0 <= i <= |nums| && carry == Sequential(nums, i)
      invariant SumsUpTo(prefArray[..], nums, i) && prefArray[i..] == old(prefArray[i..])
    {
      ghost var before := prefArray[..];
      SequentialStep(nums, i);
      prefArray[i] := WrapI32(carry + nums[i]);
      MoreSums(before, prefArray[..], nums, i, i + 1);
      carry := prefArray[i];
      i := i + 1;
      assert prefArray[i..] == before[i - 1..][1..];
    }
    SumsAreTotals(prefArray[..], nums);
  }
}
