/** Run-length encoding of fixed-width values: [count: u16 LE][value] pairs. */
module Rle {
  import opened Wrappers
  import opened Arithmetic
  import opened Sequences
  import opened Bytes
  import opened EncodingErrors

  const MAX_COUNT: nat := 0xFFFF

  type Value = seq<Byte>

  datatype Run = Run(count: nat, value: Value)

  // ---- Runs of values ----

  function Repeat(count: nat, value: Value): (vs: seq<Value>)
    ensures |vs| == count && forall i :: 0 <= i < count ==> vs[i] == value
  {
    seq(count, _ => value)
  }

  /** The values a list of runs stands for */
  function Expand(runs: seq<Run>): seq<Value> {
    if runs == [] then [] else Repeat(runs[0].count, runs[0].value) + Expand(runs[1..])
  }

  /** How many values at the front equal `value`, up to `cap` */
  function Leading(value: Value, vs: seq<Value>, cap: nat): (n: nat)
    ensures n <= cap && n <= |vs|
    ensures forall i :: 0 <= i < n ==> vs[i] == value
    ensures n < cap && n < |vs| ==> vs[n] != value
  {
    if cap == 0 || vs == [] || vs[0] != value then 0
    else
      var n := Leading(value, vs[1..], cap - 1);
      assert forall i :: 1 <= i < |vs| ==> vs[i] == vs[1..][i - 1];
      n + 1
  }

  lemma {:induction false} LeadingAtLeast(value: Value, vs: seq<Value>, cap: nat, n: nat)
    requires n <= cap && n <= |vs| && forall i :: 0 <= i < n ==> vs[i] == value
    ensures Leading(value, vs, cap) >= n
  {
    if n > 0 {
      forall i | 0 <= i < n - 1 ensures vs[1..][i] == value {
        assert vs[1..][i] == vs[i + 1];
      }
      LeadingAtLeast(value, vs[1..], cap - 1, n - 1);
    }
  }

  /** Take the longest run that a count can hold, again and again */
  function Greedy(vs: seq<Value>): (runs: seq<Run>)
    decreases |vs|
  {
    if vs == [] then []
    else
      var n := Leading(vs[0], vs, MAX_COUNT);
      [Run(n, vs[0])] + Greedy(vs[n..])
  }

  lemma ExpandHead(run: Run, rest: seq<Run>)
    ensures Expand([run] + rest) == Repeat(run.count, run.value) + Expand(rest)
  {
    assert ([run] + rest)[1..] == rest;
  }

  lemma RunIsPrefix(value: Value, vs: seq<Value>, n: nat)
    requires n <= |vs| && forall i :: 0 <= i < n ==> vs[i] == value
    ensures vs == Repeat(n, value) + vs[n..]
  {
  }

  lemma {:induction false} ExpandOfGreedy(vs: seq<Value>)
    ensures Expand(Greedy(vs)) == vs
    decreases |vs|
  {
    if vs != [] {
      var n := Leading(vs[0], vs, MAX_COUNT);
      ExpandOfGreedy(vs[n..]);
      ExpandHead(Run(n, vs[0]), Greedy(vs[n..]));
      RunIsPrefix(vs[0], vs, n);
    }
  }

  ghost predicate CountsFit(runs: seq<Run>) {
    forall i :: 0 <= i < |runs| ==> runs[i].count < 0x1_0000
  }

  /** Adjacent runs share a value only when the first is full; no run is empty. */
  lemma {:induction false} GreedyRunsAreMaximal(vs: seq<Value>)
    ensures CountsFit(Greedy(vs))
    ensures forall i :: 0 <= i < |Greedy(vs)| ==> Greedy(vs)[i].count >= 1
    ensures forall i :: 0 < i < |Greedy(vs)| && Greedy(vs)[i].value == Greedy(vs)[i - 1].value ==>
              Greedy(vs)[i - 1].count == MAX_COUNT
    decreases |vs|
  {
    if vs != [] {
      var n := Leading(vs[0], vs, MAX_COUNT);
      var rest := Greedy(vs[n..]);
      GreedyRunsAreMaximal(vs[n..]);
      assert Greedy(vs) == [Run(n, vs[0])] + rest;
      forall i | 0 < i < |Greedy(vs)| && Greedy(vs)[i].value == Greedy(vs)[i - 1].value
        ensures Greedy(vs)[i - 1].count == MAX_COUNT
      {
        if i > 1 {
          assert rest[i - 1].value == rest[i - 2].value;
        }
      }
    }
  }

  lemma GreedyHead(vs: seq<Value>)
    requires vs != []
    ensures var n := Leading(vs[0], vs, MAX_COUNT); n > 0 && |Greedy(vs)| == 1 + |Greedy(vs[n..])|
  {
  }

  /** Dropping the first value never makes the greedy list longer. */
  lemma {:induction false} GreedyOfTail(vs: seq<Value>)
    requires vs != []
    ensures |Greedy(vs[1..])| <= |Greedy(vs)|
    decreases |vs|
  {
    hide Greedy;
    var n := Leading(vs[0], vs, MAX_COUNT);
    GreedyHead(vs);
    if n > 1 {
      var tail := vs[1..];
      var m := Leading(tail[0], tail, MAX_COUNT);
      assert tail[0] == vs[1] == vs[0];
      GreedyHead(tail);
      LeadingAtLeast(tail[0], tail, MAX_COUNT, n - 1);
      assert m <= n by {
        if n < |vs| { assert tail[n - 1] == vs[n]; }
      }
      assert tail[m..] == vs[m + 1..];
      if m == n {
        assert vs[n + 1..] == vs[n..][1..];
        GreedyOfTail(vs[n..]);
      }
    }
  }

  lemma {:induction false} GreedyOfSuffix(vs: seq<Value>, n: nat)
    requires n <= |vs|
    ensures |Greedy(vs[n..])| <= |Greedy(vs)|
    decreases n
  {
    if n == 0 {
      assert vs[0..] == vs;
    } else {
      GreedyOfSuffix(vs, n - 1);
      GreedyOfTail(vs[n - 1..]);
      assert vs[n - 1..][1..] == vs[n..];
    }
  }

  /** No list of runs with u16 counts for the same values is shorter. */
  lemma {:induction false} GreedyIsShortest(runs: seq<Run>)
    requires CountsFit(runs)
    ensures |Greedy(Expand(runs))| <= |runs|
    decreases |runs|
  {
    if runs != [] {
      var vs, rest := Expand(runs), Expand(runs[1..]);
      var c := runs[0].count;
      GreedyIsShortest(runs[1..]);
      assert vs[c..] == rest;
      if c > 0 {
        var n := Leading(vs[0], vs, MAX_COUNT);
        LeadingAtLeast(vs[0], vs, MAX_COUNT, c);
        assert vs[n..] == rest[n - c..];
        GreedyOfSuffix(rest, n - c);
      } else {
        assert vs == rest;
      }
    }
  }

  /** The pending run in front of values that do not extend it is the next greedy run. */
  lemma PendingRunCloses(count: nat, value: Value, rest: seq<Value>)
    requires 1 <= count <= MAX_COUNT
    requires count == MAX_COUNT || rest == [] || rest[0] != value
    ensures Greedy(Repeat(count, value) + rest) == [Run(count, value)] + Greedy(rest)
  {
    var vs := Repeat(count, value) + rest;
    var n := Leading(value, vs, MAX_COUNT);
    assert vs[0] == value;
    LeadingAtLeast(value, vs, MAX_COUNT, count);
    assert n == count by {
      if rest != [] { assert vs[count] == rest[0]; }
    }
    assert vs[count..] == rest;
  }

  // ---- Bytes ----

  function PairBytes(run: Run): seq<Byte> {
    ToLe(run.count, 2) + run.value
  }

  function PairsBytes(runs: seq<Run>): seq<Byte> {
    if runs == [] then [] else PairsBytes(runs[..|runs| - 1]) + PairBytes(runs[|runs| - 1])
  }

  function Encoded(src: seq<Byte>, stride: nat): seq<Byte>
    requires stride > 0
  {
    PairsBytes(Greedy(Chunks(src, stride)))
  }

  /** The runs in a byte string, or nothing if it ends within a pair */
  function Parsed(src: seq<Byte>, stride: nat): Option<seq<Run>>
    requires stride > 0
  {
    if src == [] then Some([])
    else if |src| < 2 + stride then None
    else match Parsed(src[2 + stride..], stride)
      case None => None
      case Some(rest) => Some([Run(FromLe(src[..2]), src[2..2 + stride])] + rest)
  }

  ghost predicate ValuesOfSize(runs: seq<Run>, stride: nat) {
    forall i :: 0 <= i < |runs| ==> |runs[i].value| == stride
  }

  lemma {:induction false} PairsBytesOfConcat(a: seq<Run>, b: seq<Run>)
    ensures PairsBytes(a + b) == PairsBytes(a) + PairsBytes(b)
  {
    if b == [] {
      assert a + b == a;
    } else {
      assert (a + b)[..|a + b| - 1] == a + b[..|b| - 1];
      PairsBytesOfConcat(a, b[..|b| - 1]);
    }
  }

  lemma {:induction false} PairsSize(runs: seq<Run>, stride: nat)
    requires ValuesOfSize(runs, stride)
    ensures |PairsBytes(runs)| == |runs| * (2 + stride)
  {
    if runs != [] {
      var n := |runs| - 1;
      PairsSize(runs[..n], stride);
      assert |PairBytes(runs[n])| == 2 + stride;
      assert |PairsBytes(runs)| == |PairsBytes(runs[..n])| + (2 + stride);
      hide *;
      OneTimesMore(n, 2 + stride);
    }
  }

  lemma PairsAround(runs: seq<Run>, k: nat)
    requires k < |runs|
    ensures PairsBytes(runs) == (PairsBytes(runs[..k]) + (ToLe(runs[k].count, 2) + runs[k].value)) + PairsBytes(runs[k + 1..])
  {
    hide *;
    Around(runs, k);
    PairsBytesOfConcat(runs[..k] + [runs[k]], runs[k + 1..]);
    PairsBytesOfConcat(runs[..k], [runs[k]]);
    OnePair(runs[k]);
  }

  lemma RunFits(runs: seq<Run>, stride: nat, k: nat)
    requires ValuesOfSize(runs, stride) && CountsFit(runs) && k < |runs|
    ensures ValuesOfSize(runs[..k], stride) && |runs[k].value| == stride && FromLe(ToLe(runs[k].count, 2)) == runs[k].count
  {
    Pow256Values();
    FromLeOfToLe(runs[k].count, 2);
  }

  /** The k-th pair stands at its place: two bytes of count, then the value. */
  lemma PairLayout(runs: seq<Run>, stride: nat, k: nat)
    requires ValuesOfSize(runs, stride) && CountsFit(runs) && k < |runs|
    ensures |PairsBytes(runs)| == |runs| * (2 + stride) && k * (2 + stride) + 2 + stride <= |runs| * (2 + stride)
    ensures var at := k * (2 + stride);
            && FromLe(PairsBytes(runs)[at..at + 2]) == runs[k].count
            && PairsBytes(runs)[at + 2..at + 2 + stride] == runs[k].value
  {
    hide *;
    RunFits(runs, stride, k);
    PairsSize(runs, stride);
    PairsSize(runs[..k], stride);
    OneTimesMore(k, 2 + stride);
    TimesMonotone(k + 1, |runs|, 2 + stride);
    PairsAround(runs, k);
    MiddleParts(PairsBytes(runs[..k]), ToLe(runs[k].count, 2), runs[k].value, PairsBytes(runs[k + 1..]));
  }

  lemma OnePair(run: Run)
    ensures PairsBytes([run]) == PairBytes(run) == ToLe(run.count, 2) + run.value
  {
    assert [run][..0] == [];
  }

  /** Any runs with u16 counts are read back as written. */
  lemma {:induction false} ParsedOfPairs(runs: seq<Run>, stride: nat)
    requires stride > 0 && CountsFit(runs) && ValuesOfSize(runs, stride)
    ensures Parsed(PairsBytes(runs), stride) == Some(runs)
    decreases |runs|
  {
    if runs != [] {
      assert runs == [runs[0]] + runs[1..];
      PairsBytesOfConcat([runs[0]], runs[1..]);
      assert PairsBytes([runs[0]]) == PairBytes(runs[0]) by { assert [runs[0]][..0] == []; }
      var bytes := PairsBytes(runs);
      assert bytes[2 + stride..] == PairsBytes(runs[1..]) && bytes[..2] == ToLe(runs[0].count, 2);
      assert bytes[2..2 + stride] == runs[0].value;
      ParsedOfPairs(runs[1..], stride);
      Pow256Values();
      FromLeOfToLe(runs[0].count, 2);
    }
  }

  lemma {:induction false} GreedyValuesOfSize(vs: seq<Value>, stride: nat)
    requires AllOfSize(vs, stride)
    ensures ValuesOfSize(Greedy(vs), stride)
    decreases |vs|
  {
    if vs != [] {
      var n := Leading(vs[0], vs, MAX_COUNT);
      GreedyValuesOfSize(vs[n..], stride);
    }
  }

  /** Decoding undoes encoding for every stride and every whole number of values. */
  lemma RoundTrip(src: seq<Byte>, stride: nat)
    requires stride > 0 && |src| % stride == 0
    ensures Parsed(Encoded(src, stride), stride) == Some(Greedy(Chunks(src, stride)))
    ensures Concat(Expand(Greedy(Chunks(src, stride)))) == src
  {
    var vs := Chunks(src, stride);
    GreedyRunsAreMaximal(vs);
    GreedyValuesOfSize(vs, stride);
    ParsedOfPairs(Greedy(vs), stride);
    ExpandOfGreedy(vs);
    JoinOfChunks(src, stride);
  }

  lemma NextChunk(rest: seq<Byte>, stride: nat)
    requires stride > 0
    ensures |rest| >= stride ==> Chunks(rest, stride) == Repeat(1, rest[..stride]) + Chunks(rest[stride..], stride)
    ensures |rest| >= stride ==> Chunks(rest, stride) == [rest[..stride]] + Chunks(rest[stride..], stride)
    ensures |rest| < stride ==> Chunks(rest, stride) == []
  {
    if |rest| >= stride {
      assert Repeat(1, rest[..stride]) == [rest[..stride]];
    }
  }

  lemma NoRuns(out0: seq<Byte>)
    ensures out0 + PairsBytes([]) == out0 && Greedy([]) == []
    ensures forall runs: seq<Run> :: [] + runs == runs
  {
  }

  method Encode(src: seq<Byte>, stride: nat, out0: seq<Byte>) returns (out: seq<Byte>)
    requires stride > 0 && (src != [] ==> |src| >= stride)
    ensures out == out0 + Encoded(src, stride)
  {
    hide Greedy, Chunks, Repeat, PairsBytes, ToLe;
    NoRuns(out0);
    NextChunk(src, stride);
    out := out0;
    if src == [] {
      return;
    }
    var prev, count, rest := src[..stride], 1, src[stride..];
    ghost var done, vs := [], Greedy(Chunks(src, stride));
    while |rest| >= stride
      invariant |prev| == stride && 1 <= count <= MAX_COUNT
      invariant vs == done + Greedy(Repeat(count, prev) + Chunks(rest, stride))
      invariant out == out0 + PairsBytes(done)
      decreases |rest|
    {
      var chunk := rest[..stride];
      ghost var later := Chunks(rest[stride..], stride);
      NextChunk(rest, stride);
      if chunk == prev && count < MAX_COUNT {
        RepeatExtends(count, prev, later);
        count := count + 1;
      } else {
        PendingRunCloses(count, prev, Chunks(rest, stride));
        CloseRun(out0, done, Run(count, prev), Greedy([chunk] + later));
        out := out + ToLe(count, 2) + prev;
        done := done + [Run(count, prev)];
        prev, count := chunk, 1;
      }
      rest := rest[stride..];
    }
    NextChunk(rest, stride);
    PendingRunCloses(count, prev, []);
    CloseRun(out0, done, Run(count, prev), []);
    out := out + ToLe(count, 2) + prev;
  }

  lemma RepeatExtends(count: nat, value: Value, later: seq<Value>)
    ensures Repeat(count, value) + ([value] + later) == Repeat(count + 1, value) + later
  {
  }

  lemma CloseRun(out0: seq<Byte>, done: seq<Run>, run: Run, later: seq<Run>)
    ensures (out0 + PairsBytes(done)) + ToLe(run.count, 2) + run.value == out0 + PairsBytes(done + [run])
    ensures done + ([run] + later) == (done + [run]) + later
    ensures done + ([run] + []) == done + [run]
  {
    assert (done + [run])[..|done|] == done;
  }

  /** `count` copies of the value */
  method AppendCopies(out0: seq<Byte>, count: nat, value: Value) returns (out: seq<Byte>)
    ensures out == out0 + Concat(Repeat(count, value))
  {
    out := out0;
    for i := 0 to count
      invariant out == out0 + Concat(Repeat(i, value))
    {
      ConcatStep(Repeat(count, value), i);
      assert Repeat(count, value)[..i] == Repeat(i, value) && Repeat(count, value)[..i + 1] == Repeat(i + 1, value);
      out := out + value;
    }
  }

  /** What decoding gives from here on, after `out` */
  ghost function After(out: seq<Byte>, runs: Option<seq<Run>>): Result<seq<Byte>, EncodingError> {
    match runs
    case None => Err(Truncated)
    case Some(rs) => Ok(out + Concat(Expand(rs)))
  }

  lemma NextPair(rest: seq<Byte>, stride: nat, out: seq<Byte>)
    requires stride > 0 && rest != []
    ensures After(out, Parsed(rest, stride))
         == if |rest| < 2 + stride then Err(Truncated)
            else After(out + Concat(Repeat(FromLe(rest[..2]), rest[2..2 + stride])), Parsed(rest[2 + stride..], stride))
  {
    if |rest| >= 2 + stride && Parsed(rest[2 + stride..], stride).Some? {
      var run, later := Run(FromLe(rest[..2]), rest[2..2 + stride]), Parsed(rest[2 + stride..], stride).value;
      ExpandHead(run, later);
      ConcatOfConcat(Repeat(run.count, run.value), Expand(later));
      var copies := Concat(Repeat(run.count, run.value));
      assert out + (copies + Concat(Expand(later))) == (out + copies) + Concat(Expand(later));
    }
  }

  /** Append the values of the pairs, or report that the input ends within one. */
  method Decode(src: seq<Byte>, stride: nat, out0: seq<Byte>) returns (r: Result<seq<Byte>, EncodingError>)
    requires stride > 0
    ensures r == After(out0, Parsed(src, stride))
  {
    var out, rest := out0, src;
    while rest != []
      invariant After(out0, Parsed(src, stride)) == After(out, Parsed(rest, stride))
      decreases |rest|
    {
      hide Parsed, After;
      NextPair(rest, stride, out);
      if |rest| < 2 + stride {
        return Err(Truncated);
      }
      var count, value := FromLe(rest[..2]), rest[2..2 + stride];
      out := AppendCopies(out, count, value);
      rest := rest[2 + stride..];
    }
    assert out + Concat(Expand([])) == out;
    return Ok(out);
  }
}
