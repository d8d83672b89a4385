/** Bitwise operators on unsigned words, as recursion over the binary digits, and
    the facts that the table's bit tricks rest on. */
module Bits {
  import opened Arithmetic

  /** `x & y` */
  function And(x: nat, y: nat): nat
    decreases x
  {
    if x == 0 then 0
    else (if x % 2 == 1 && y % 2 == 1 then 1 else 0) + 2 * And(x / 2, y / 2)
  }

  /** `x & !m`: the digits of `x` that are not digits of `m` */
  function AndNot(x: nat, m: nat): nat
    decreases x
  {
    if x == 0 then 0
    else (if x % 2 == 1 && m % 2 == 0 then 1 else 0) + 2 * AndNot(x / 2, m / 2)
  }

  function Pow2(k: nat): (p: nat)
    ensures p >= 1
  {
    if k == 0 then 1 else 2 * Pow2(k - 1)
  }

  /** The compare result of 16 lanes as a word: lane i is digit i. */
  function Movemask(lanes: seq<bool>): (m: nat)
    ensures m == 0 <==> forall i :: 0 <= i < |lanes| ==> !lanes[i]
  {
    if lanes == [] then 0
    else
      assert forall i :: 1 <= i < |lanes| ==> lanes[i] == lanes[1..][i - 1];
      (if lanes[0] then 1 else 0) + 2 * Movemask(lanes[1..])
  }

  function TrailingZeros(m: nat): nat
    requires m > 0
  {
    if m % 2 == 1 then 0 else 1 + TrailingZeros(m / 2)
  }

  lemma HalfOfRemainder(x: nat, p: nat)
    requires p > 0
    ensures x % (2 * p) == x % 2 + 2 * ((x / 2) % p)
  {
    var q, r := (x / 2) / p, (x / 2) % p;
    assert x == (2 * p) * q + (2 * r + x % 2) by {
      assert x / 2 == p * q + r;
    }
    RemainderUnique(x, 2 * p, q, 2 * r + x % 2);
  }

  /** Masking with a power of two less one is the remainder: the identity the
      probe start relies on when it computes `hash & (capacity - 1)`. */
  lemma {:induction false} LowMaskIsRemainder(x: nat, k: nat)
    ensures And(x, Pow2(k) - 1) == x % Pow2(k)
    decreases k
  {
    if k == 0 {
      AndZero(x);
    } else {
      var p := Pow2(k - 1);
      assert (2 * p - 1) % 2 == 1 && (2 * p - 1) / 2 == p - 1;
      LowMaskIsRemainder(x / 2, k - 1);
      HalfOfRemainder(x, p);
    }
  }

  lemma {:induction false} AndZero(x: nat)
    ensures And(x, 0) == 0
    decreases x
  {
    if x != 0 { AndZero(x / 2); }
  }

  lemma {:induction false} AndSelf(x: nat)
    ensures And(x, x) == x
    decreases x
  {
    if x != 0 { AndSelf(x / 2); }
  }

  /** `x & m` and `x & !m` split `x`. */
  lemma {:induction false} AndNotComplement(x: nat, m: nat)
    ensures And(x, m) + AndNot(x, m) == x
    decreases x
  {
    if x != 0 { AndNotComplement(x / 2, m / 2); }
  }

  /** One turn of the mask loop: the trailing zeros name the lowest lane that is
      set, and `mask & (mask - 1)` clears exactly that lane. */
  lemma {:induction false} LowestLane(lanes: seq<bool>)
    requires Movemask(lanes) > 0
    ensures var l := TrailingZeros(Movemask(lanes));
            && l < |lanes|
            && lanes[l]
            && (forall i :: 0 <= i < l ==> !lanes[i])
            && And(Movemask(lanes), Movemask(lanes) - 1) == Movemask(lanes[l := false]) < Movemask(lanes)
  {
    var m := Movemask(lanes);
    var tail := Movemask(lanes[1..]);
    if lanes[0] {
      AndSelf(tail);
      assert m / 2 == tail && (m - 1) / 2 == tail && (m - 1) % 2 == 0;
      assert lanes[0 := false][1..] == lanes[1..];
    } else {
      assert m == 2 * tail && (m - 1) % 2 == 1 && (m - 1) / 2 == tail - 1;
      LowestLane(lanes[1..]);
      var l := TrailingZeros(m);
      assert l == 1 + TrailingZeros(tail);
      assert lanes[l := false][1..] == lanes[1..][l - 1 := false];
    }
  }
}
