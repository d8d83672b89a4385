/** Sequences of sequences, filtering, and distinct elements. */
module Sequences {

  /** All the elements, lot after lot */
  ghost function Concat<T>(lots: seq<seq<T>>): seq<T> {
    if lots == [] then [] else Concat(lots[..|lots| - 1]) + lots[|lots| - 1]
  }

  lemma ConcatStep<T>(lots: seq<seq<T>>, i: nat)
    requires i < |lots|
    ensures Concat(lots[..i + 1]) == Concat(lots[..i]) + lots[i]
  {
    assert lots[..i + 1][..i] == lots[..i];
  }

  lemma {:induction false} ConcatOfConcat<T>(a: seq<seq<T>>, b: seq<seq<T>>)
    ensures Concat(a + b) == Concat(a) + Concat(b)
  {
    if b == [] {
      assert a + b == a;
    } else {
      var front, last := b[..|b| - 1], b[|b| - 1];
      ConcatOfConcat(a, front);
      assert (a + b)[..|a + b| - 1] == a + front;
      assert Concat(a + b) == Concat(a) + Concat(front) + last == Concat(a) + (Concat(front) + last);
    }
  }

  lemma ConcatOfOne<T>(lot: seq<T>)
    ensures Concat([lot]) == lot
  {
    assert [lot][..0] == [];
    assert Concat<T>([]) + lot == lot;
  }

  lemma ConcatHead<T>(lots: seq<seq<T>>)
    requires lots != []
    ensures Concat(lots) == lots[0] + Concat(lots[1..])
  {
    assert lots == [lots[0]] + lots[1..];
    ConcatOfConcat([lots[0]], lots[1..]);
    ConcatOfOne(lots[0]);
  }

  lemma Associates<T>(a: seq<T>, b: seq<T>, c: seq<T>)
    ensures (a + b) + c == a + (b + c)
  {
  }

  lemma Around<T>(s: seq<T>, i: nat)
    requires i < |s|
    ensures s == s[..i] + [s[i]] + s[i + 1..]
  {
  }

  lemma OneTaken<T>(s: seq<T>, i: nat, later: seq<T>)
    requires i < |s|
    ensures s[i..] + later == [s[i]] + (s[i + 1..] + later)
    ensures i + 1 == |s| ==> s[i..] + later == [s[i]] + later
  {
  }

  lemma Whole<T>(s: seq<T>)
    ensures s[..|s|] == s
  {
  }

  lemma Prefix<T>(s: seq<T>, k: nat)
    requires 0 < k <= |s|
    ensures s[..k] == s[..k - 1] + [s[k - 1]]
  {
  }

  /** Reading the first part of what is left */
  lemma ReadPart<T>(s: seq<T>, i: nat, x: seq<T>, y: seq<T>, rest: seq<T>)
    requires i <= |s| && s[i..] == (x + y) + rest
    ensures i + |x| <= |s| && s[i..i + |x|] == x && s[i + |x|..] == y + rest
  {
    assert s[i..][..|x|] == x && s[i..][|x|..] == y + rest;
    assert s[i..][..|x|] == s[i..i + |x|] && s[i..][|x|..] == s[i + |x|..];
  }

  /** Two parts in the middle of a sequence */
  lemma MiddleParts<T>(front: seq<T>, a: seq<T>, b: seq<T>, back: seq<T>)
    ensures var s, at := (front + (a + b)) + back, |front|;
            s[at..at + |a|] == a && s[at + |a|..at + |a| + |b|] == b && |s| == at + |a| + |b| + |back|
  {
  }

  lemma SliceAfter<T>(a: seq<T>, b: seq<T>, from: nat, to: nat)
    requires from <= to <= |b|
    ensures (a + b)[|a| + from..|a| + to] == b[from..to]
  {
  }

  /** `b` with its first `j` places taken over from `a` */
  ghost function Overwritten<T>(a: seq<T>, b: seq<T>, j: nat): seq<T>
    requires j <= |a| == |b|
  {
    a[..j] + b[j..]
  }

  lemma OverwritesAll<T>(a: seq<T>, b: seq<T>)
    requires |a| == |b|
    ensures Overwritten(a, b, 0) == b && Overwritten(a, b, |a|) == a
  {
  }

  lemma OverwritesNext<T>(a: seq<T>, b: seq<T>, j: nat)
    requires j < |a| == |b|
    ensures var s := Overwritten(a, b, j); j < |s| && s[j] == b[j] && s[j := a[j]] == Overwritten(a, b, j + 1)
  {
  }

  /** The elements that `keep` holds of, in order */
  function Kept<T>(keep: T -> bool, s: seq<T>): seq<T> {
    if s == [] then []
    else Kept(keep, s[..|s| - 1]) + if keep(s[|s| - 1]) then [s[|s| - 1]] else []
  }

  lemma {:induction false} KeptOfConcat<T>(keep: T -> bool, a: seq<T>, b: seq<T>)
    ensures Kept(keep, a + b) == Kept(keep, a) + Kept(keep, b)
  {
    if b == [] {
      assert a + b == a;
    } else {
      assert (a + b)[..|a + b| - 1] == a + b[..|b| - 1];
      KeptOfConcat(keep, a, b[..|b| - 1]);
    }
  }

  lemma {:induction false} KeptIsShorter<T>(keep: T -> bool, s: seq<T>)
    ensures |Kept(keep, s)| <= |s|
  {
    if s != [] { KeptIsShorter(keep, s[..|s| - 1]); }
  }

  /** The places of `s` whose element `keep` holds of, in order */
  ghost predicate AreKeptPlaces<T>(keep: T -> bool, s: seq<T>, places: seq<nat>) {
    && (forall i :: 0 <= i < |places| ==> places[i] < |s| && keep(s[places[i]]))
    && (forall i, j :: 0 <= i < j < |places| ==> places[i] < places[j])
    && (forall k :: 0 <= k < |s| && keep(s[k]) ==> k in places)
  }

  lemma PassedPlace<T>(keep: T -> bool, s: seq<T>, x: T, places: seq<nat>)
    requires AreKeptPlaces(keep, s, places) && !keep(x)
    ensures AreKeptPlaces(keep, s + [x], places)
  {
  }

  lemma KeptPlace<T>(keep: T -> bool, s: seq<T>, x: T, places: seq<nat>)
    requires AreKeptPlaces(keep, s, places) && keep(x)
    ensures AreKeptPlaces(keep, s + [x], places + [|s|])
  {
    var more := places + [|s|];
    assert more[|places|] == |s|;
    forall k | 0 <= k < |s| && keep(s[k]) ensures k in more {
      assert k in places;
    }
  }

  /** Each element that `keep` holds of is kept once, at its turn, and no other. */
  lemma {:induction false} KeptMeans<T>(keep: T -> bool, s: seq<T>) returns (places: seq<nat>)
    ensures AreKeptPlaces(keep, s, places) && |Kept(keep, s)| == |places|
    ensures forall i :: 0 <= i < |places| ==> places[i] < |s| && Kept(keep, s)[i] == s[places[i]]
  {
    places := [];
    if s != [] {
      var front, x := s[..|s| - 1], s[|s| - 1];
      places := KeptMeans(keep, front);
      assert s == front + [x];
      hide AreKeptPlaces;
      if keep(x) {
        KeptPlace(keep, front, x, places);
        places := places + [|front|];
      } else {
        PassedPlace(keep, front, x, places);
      }
    }
  }

  /** Every element taken through `f` */
  ghost function Projected<R, S>(f: R -> S, rows: seq<R>): (projected: seq<S>)
    ensures |projected| == |rows| && forall i :: 0 <= i < |rows| ==> projected[i] == f(rows[i])
  {
    seq(|rows|, i requires 0 <= i < |rows| => f(rows[i]))
  }

  ghost function Elements<T>(s: seq<T>): set<T> {
    set x | x in s
  }

  lemma {:induction false} InSomeLot<T>(lots: seq<seq<T>>, x: T)
    requires x in Concat(lots)
    ensures exists i :: 0 <= i < |lots| && x in lots[i]
  {
    if x !in lots[|lots| - 1] {
      InSomeLot(lots[..|lots| - 1], x);
    }
  }

  lemma {:induction false} LotIsIn<T>(lots: seq<seq<T>>, i: nat, x: T)
    requires i < |lots| && x in lots[i]
    ensures x in Concat(lots)
  {
    if i < |lots| - 1 {
      LotIsIn(lots[..|lots| - 1], i, x);
    }
  }

  ghost predicate Distinct<T>(s: seq<T>) {
    forall i, j :: 0 <= i < j < |s| ==> s[i] != s[j]
  }

  /** The distinct elements, in order of first occurrence */
  function FirstSeen<T(==)>(s: seq<T>): (d: seq<T>)
    ensures forall x :: x in d ==> x in s
    ensures forall x :: x in s ==> x in d
    ensures Distinct(d)
  {
    if s == [] then []
    else
      var before := FirstSeen(s[..|s| - 1]);
      var x := s[|s| - 1];
      assert s == s[..|s| - 1] + [x];
      if x in before then before else before + [x]
  }

  /** The places of first occurrences, in order */
  ghost predicate AreFirstPlaces<T>(s: seq<T>, places: seq<nat>) {
    && (forall i :: 0 <= i < |places| ==> places[i] < |s| && s[places[i]] !in s[..places[i]])
    && (forall i, j :: 0 <= i < j < |places| ==> places[i] < places[j])
  }

  lemma FirstPlacesStay<T>(s: seq<T>, x: T, places: seq<nat>)
    requires AreFirstPlaces(s, places)
    ensures AreFirstPlaces(s + [x], places)
    ensures x !in s ==> AreFirstPlaces(s + [x], places + [|s|])
  {
    forall i | 0 <= i < |places| ensures (s + [x])[places[i]] !in (s + [x])[..places[i]] {
      assert (s + [x])[..places[i]] == s[..places[i]];
    }
    assert (s + [x])[..|s|] == s;
  }

  /** Each element is seen where it first occurs. */
  lemma {:induction false} FirstSeenMeans<T>(s: seq<T>) returns (places: seq<nat>)
    ensures AreFirstPlaces(s, places) && |FirstSeen(s)| == |places|
    ensures forall i :: 0 <= i < |places| ==> places[i] < |s| && FirstSeen(s)[i] == s[places[i]]
  {
    places := [];
    if s != [] {
      var front, x := s[..|s| - 1], s[|s| - 1];
      places := FirstSeenMeans(front);
      assert s == front + [x];
      hide AreFirstPlaces;
      FirstPlacesStay(front, x, places);
      if x !in FirstSeen(front) {
        places := places + [|front|];
      }
    }
  }

  lemma {:induction false} FirstSeenExtends<T>(a: seq<T>, b: seq<T>)
    ensures FirstSeen(a) <= FirstSeen(a + b)
  {
    if b == [] {
      assert a + b == a;
    } else {
      assert (a + b)[..|a + b| - 1] == a + b[..|b| - 1];
      FirstSeenExtends(a, b[..|b| - 1]);
    }
  }

  lemma FirstSeenStep<T>(s: seq<T>, x: T)
    ensures FirstSeen(s + [x]) == if x in FirstSeen(s) then FirstSeen(s) else FirstSeen(s) + [x]
  {
    assert (s + [x])[..|s|] == s;
  }
}
