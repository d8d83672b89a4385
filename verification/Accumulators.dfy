/** The accumulators: per-group state in growing vectors, updated row by row or, when
    there is a single group, by a fast path. Every one refines `Absorb`. */
module Accumulators {
  import opened Wrappers
  import opened Sequences
  import opened Aggregates
  import Catalog
  import E = Expressions

  // ---- The specification of update and merge ----

  /** `resize` to at least `n` groups, with fresh groups at the unit */
  ghost function Grow(f: Aggregator, cells: seq<Cell>, n: nat): (r: seq<Cell>)
    requires AllShaped(f, cells)
    ensures AllShaped(f, r) && |r| >= n && |r| >= |cells| && cells <= r
    ensures |r| == if |cells| < n then n else |cells|
    ensures forall i :: |cells| <= i < |r| ==> r[i] == Unit(f)
  {
    if |cells| < n then cells + seq(n - |cells|, _ => Unit(f)) else cells
  }

  predicate IndicesBelow(indices: seq<nat>, n: nat) {
    forall i :: 0 <= i < |indices| ==> indices[i] < n
  }

  /** Row i's cell is added to group `indices[i]`, row after row. */
  ghost function Absorb(f: Aggregator, cells: seq<Cell>, indices: seq<nat>, incoming: seq<Cell>): (r: seq<Cell>)
    requires AllShaped(f, cells) && AllShaped(f, incoming)
    requires |indices| == |incoming| && IndicesBelow(indices, |cells|)
    ensures |r| == |cells| && AllShaped(f, r)
  {
    if indices == [] then cells
    else
      var n := |indices| - 1;
      var before := Absorb(f, cells, indices[..n], incoming[..n]);
      before[indices[n] := Combine(f, before[indices[n]], incoming[n])]
  }

  /** The cells of the rows that belong to group `g` */
  ghost function Pick(f: Aggregator, indices: seq<nat>, incoming: seq<Cell>, g: nat): (r: seq<Cell>)
    requires |indices| == |incoming| && AllShaped(f, incoming)
    ensures AllShaped(f, r)
  {
    if indices == [] then []
    else
      var n := |indices| - 1;
      Pick(f, indices[..n], incoming[..n], g) + if indices[n] == g then [incoming[n]] else []
  }

  /** Every group gains the total of its own rows. */
  lemma {:induction false} AbsorbAddsTotals(f: Aggregator, cells: seq<Cell>, indices: seq<nat>, incoming: seq<Cell>, g: nat)
    requires AllShaped(f, cells) && AllShaped(f, incoming)
    requires |indices| == |incoming| && IndicesBelow(indices, |cells|) && g < |cells|
    ensures Absorb(f, cells, indices, incoming)[g] == Combine(f, cells[g], Total(f, Pick(f, indices, incoming, g)))
  {
    if indices == [] {
      UnitIsNeutral(f, cells[g]);
    } else {
      var n := |indices| - 1;
      AbsorbAddsTotals(f, cells, indices[..n], incoming[..n], g);
      var picked := Pick(f, indices[..n], incoming[..n], g);
      if indices[n] == g {
        assert (picked + [incoming[n]])[..|picked|] == picked;
        CombineAssociates(f, cells[g], Total(f, picked), incoming[n]);
      } else {
        assert picked + [] == picked;
      }
    }
  }

  /** With a single group the rows can be totalled first and added once. */
  lemma {:induction false} AbsorbSingleGroup(f: Aggregator, cells: seq<Cell>, indices: seq<nat>, incoming: seq<Cell>)
    requires AllShaped(f, cells) && AllShaped(f, incoming) && |cells| > 0
    requires |indices| == |incoming| && IndicesBelow(indices, 1)
    ensures Absorb(f, cells, indices, incoming) == cells[0 := Combine(f, cells[0], Total(f, incoming))]
  {
    if indices == [] {
      UnitIsNeutral(f, cells[0]);
    } else {
      var n := |indices| - 1;
      AbsorbSingleGroup(f, cells, indices[..n], incoming[..n]);
      CombineAssociates(f, cells[0], Total(f, incoming[..n]), incoming[n]);
    }
  }

  /** The first `n` rows absorbed */
  ghost function Absorbed(f: Aggregator, cells: seq<Cell>, indices: seq<nat>, incoming: seq<Cell>, n: nat): (r: seq<Cell>)
    requires AllShaped(f, cells) && AllShaped(f, incoming)
    requires n <= |indices| == |incoming| && IndicesBelow(indices, |cells|)
    ensures |r| == |cells| && AllShaped(f, r)
  {
    Absorb(f, cells, indices[..n], incoming[..n])
  }

  lemma AbsorbBounds(f: Aggregator, cells: seq<Cell>, indices: seq<nat>, incoming: seq<Cell>)
    requires AllShaped(f, cells) && AllShaped(f, incoming)
    requires |indices| == |incoming| && IndicesBelow(indices, |cells|)
    ensures Absorbed(f, cells, indices, incoming, 0) == cells
    ensures Absorbed(f, cells, indices, incoming, |indices|) == Absorb(f, cells, indices, incoming)
  {
    Whole(indices);
    Whole(incoming);
  }

  /** One more row */
  lemma AbsorbStep(f: Aggregator, cells: seq<Cell>, indices: seq<nat>, incoming: seq<Cell>, i: nat)
    requires AllShaped(f, cells) && AllShaped(f, incoming) && i < |indices|
    requires |indices| == |incoming| && IndicesBelow(indices, |cells|)
    ensures indices[i] < |cells| && Shaped(f, incoming[i])
    ensures var before := Absorbed(f, cells, indices, incoming, i);
            Shaped(f, before[indices[i]])
            && Absorbed(f, cells, indices, incoming, i + 1) == before[indices[i] := Combine(f, before[indices[i]], incoming[i])]
  {
    assert indices[..i + 1][..i] == indices[..i] && incoming[..i + 1][..i] == incoming[..i];
  }

  /** A column that `update` (or `merge`, when `merging`) can read for `f` */
  ghost predicate ColumnFits(merging: bool, f: Aggregator, column: seq<Datum>) {
    forall i :: 0 <= i < |column| ==> if merging then Typed(f, column[i]) else column[i].Scalar?
  }

  ghost function IncomingCells(merging: bool, f: Aggregator, column: seq<Datum>): (cells: seq<Cell>)
    requires ColumnFits(merging, f, column)
    ensures |cells| == |column| && AllShaped(f, cells)
    ensures forall i :: 0 <= i < |column| ==> cells[i] == Incoming(merging, f, column[i])
  {
    seq(|column|, i requires 0 <= i < |column| => Incoming(merging, f, column[i]))
  }

  ghost function Emitted(f: Aggregator, cells: seq<Cell>): (out: seq<Datum>)
    requires AllShaped(f, cells)
    ensures |out| == |cells| && forall i :: 0 <= i < |cells| ==> out[i] == Emit(f, cells[i])
  {
    seq(|cells|, i requires 0 <= i < |cells| => Emit(f, cells[i]))
  }

  /** Vec::resize */
  function Resized<T>(s: seq<T>, n: nat, default: T): (r: seq<T>)
    ensures |r| == if |s| < n then n else |s|
    ensures s <= r && forall i :: |s| <= i < |r| ==> r[i] == default
  {
    if |s| < n then s + seq(n - |s|, _ => default) else s
  }

  function Nums(ns: seq<int>): (cells: seq<Cell>)
    ensures |cells| == |ns| && forall i :: 0 <= i < |ns| ==> cells[i] == Num(ns[i])
  {
    seq(|ns|, i requires 0 <= i < |ns| => Num(ns[i]))
  }

  lemma BelowMore(indices: seq<nat>, n: nat, m: nat)
    requires IndicesBelow(indices, n) && n <= m
    ensures IndicesBelow(indices, m)
  {
  }

  lemma NumsCombine(f: Aggregator, m: int, n: int, incoming: Cell)
    requires f.Count? || f.Sum?
    requires var signed := f.Sum? && f.signed; incoming == Num(n) || incoming == Num(Wrap(signed, n))
    requires Shaped(f, Num(m)) && Shaped(f, incoming)
    ensures Combine(f, Num(m), incoming) == Num(Wrap(f.Sum? && f.signed, m + n))
  {
    hide Wrap;
    WrapAbsorbs(f.Sum? && f.signed, n, m);
  }

  /** One row more, for an aggregate that adds: COUNT and SUM */
  lemma NumStep(f: Aggregator, cells: seq<Cell>, ns: seq<int>, g: nat, incoming: Cell, n: int)
    requires (f.Count? || f.Sum?) && g < |cells| && cells == Nums(ns) && AllShaped(f, cells) && Shaped(f, incoming)
    requires var signed := f.Sum? && f.signed; incoming == Num(n) || incoming == Num(Wrap(signed, n))
    ensures g < |ns| && Nums(ns[g := Wrap(f.Sum? && f.signed, ns[g] + n)]) == cells[g := Combine(f, cells[g], incoming)]
  {
    hide Wrap;
    NumsCombine(f, ns[g], n, incoming);
  }

  lemma PartialCount(column: seq<Datum>, i: nat)
    requires ColumnFits(true, Count, column) && i < |column|
    ensures column[i].Scalar? && IncomingCells(true, Count, column)[i] == Num(column[i].v)
    ensures Shaped(Count, IncomingCells(true, Count, column)[i])
  {
  }

  // ---- COUNT ----

  class CountAccumulator {
    const columnName: Catalog.Name
    var counts: seq<int>

    ghost function Model(): (cells: seq<Cell>)
      reads this
    {
      Nums(counts)
    }

    /** The name of the output column, by which `merge` finds it again */
    function OutputField(): Catalog.Name {
      E.Ascii("count(") + columnName + E.Ascii(")")
    }

    constructor (columnName: Catalog.Name)
      ensures Model() == [] && this.columnName == columnName
    {
      this.columnName := columnName;
      counts := [];
    }

    method EnsureCapacity(numGroups: nat)
      requires AllShaped(Count, Model())
      modifies this
      ensures Model() == Grow(Count, old(Model()), numGroups)
    {
      counts := Resized(counts, numGroups, 0);
    }

    method Update(column: seq<Datum>, indices: seq<nat>, numGroups: nat)
      requires AllShaped(Count, Model()) && ColumnFits(false, Count, column)
      requires |indices| == |column| && IndicesBelow(indices, numGroups)
      modifies this
      ensures Model() == Absorb(Count, Grow(Count, old(Model()), numGroups), indices, IncomingCells(false, Count, column))
    {
      hide Wrap, Total;
      counts := Resized(counts, numGroups, 0);
      ghost var cells, incoming := Grow(Count, old(Model()), numGroups), IncomingCells(false, Count, column);
      assert Model() == cells;
      if numGroups == 1 {
        AbsorbSingleGroup(Count, cells, indices, incoming);
        TotalOfOnes(incoming);
        WrapAbsorbs(false, |indices|, counts[0]);
        counts := counts[0 := Wrap(false, counts[0] + |indices|)];
        assert Model() == cells[0 := Combine(Count, cells[0], Total(Count, incoming))];
        return;
      }
      CountRows(indices, cells, incoming);
    }

    method AddCount(g: nat, n: int)
      requires AllShaped(Count, Model()) && g < |Model()| && Shaped(Count, Num(n))
      modifies this
      ensures Model() == old(Model())[g := Combine(Count, old(Model())[g], Num(n))]
    {
      NumStep(Count, Nums(counts), counts, g, Num(n), n);
      counts := counts[g := Wrap(false, counts[g] + n)];
    }

    /** The row loop of `update` */
    method CountRows(indices: seq<nat>, ghost cells: seq<Cell>, ghost incoming: seq<Cell>)
      requires AllShaped(Count, cells) && Model() == cells
      requires |indices| == |incoming| && IndicesBelow(indices, |cells|)
      requires AllShaped(Count, incoming) && forall i :: 0 <= i < |incoming| ==> incoming[i] == Num(1)
      modifies this
      ensures Model() == Absorb(Count, cells, indices, incoming)
    {
      hide *;
      AbsorbBounds(Count, cells, indices, incoming);
      for i := 0 to |indices|
        invariant Model() == Absorbed(Count, cells, indices, incoming, i)
      {
        AbsorbStep(Count, cells, indices, incoming, i);
        AddCount(indices[i], 1);
      }
    }

    method Merge(column: seq<Datum>, indices: seq<nat>, numGroups: nat)
      requires AllShaped(Count, Model()) && ColumnFits(true, Count, column)
      requires |indices| == |column| && IndicesBelow(indices, numGroups)
      modifies this
      ensures Model() == Absorb(Count, Grow(Count, old(Model()), numGroups), indices, IncomingCells(true, Count, column))
    {
      hide *;
      EnsureCapacity(numGroups);
      ghost var cells, incoming := Model(), IncomingCells(true, Count, column);
      BelowMore(indices, numGroups, |cells|);
      AbsorbBounds(Count, cells, indices, incoming);
      for i := 0 to |indices|
        invariant Model() == Absorbed(Count, cells, indices, incoming, i)
      {
        PartialCount(column, i);
        AbsorbStep(Count, cells, indices, incoming, i);
        AddCount(indices[i], column[i].v);
      }
    }

    method Materialize() returns (out: seq<Datum>)
      requires AllShaped(Count, Model())
      modifies this
      ensures out == Emitted(Count, old(Model())) && Model() == []
    {
      out := seq(|counts|, i requires 0 <= i < |counts| reads this => Scalar(counts[i]));
      counts := [];
    }
  }

  lemma {:induction false} TotalOfOnes(ones: seq<Cell>)
    requires forall i :: 0 <= i < |ones| ==> ones[i] == Num(1)
    ensures AllShaped(Count, ones) && Total(Count, ones) == Num(Wrap(false, |ones|))
  {
    if ones != [] {
      TotalOfOnes(ones[..|ones| - 1]);
      WrapAbsorbs(false, |ones| - 1, 1);
    }
  }

  // ---- SUM ----

  /** `acc` is the sum of the first `i` values of the column. */
  ghost predicate SummedUpTo(signed: bool, column: seq<Datum>, i: nat, acc: int) {
    && ColumnFits(false, Sum(signed), column) && i <= |column|
    && Num(acc) == Total(Sum(signed), IncomingCells(false, Sum(signed), column)[..i])
  }

  lemma SumStarts(signed: bool, column: seq<Datum>)
    requires ColumnFits(false, Sum(signed), column)
    ensures SummedUpTo(signed, column, 0, 0)
  {
  }

  /** One more summand */
  lemma SumStep(signed: bool, column: seq<Datum>, i: nat, acc: int)
    requires SummedUpTo(signed, column, i, acc) && i < |column|
    ensures column[i].Scalar? && SummedUpTo(signed, column, i + 1, Wrap(signed, acc + column[i].v))
  {
    var incoming := IncomingCells(false, Sum(signed), column);
    assert incoming[..i + 1][..i] == incoming[..i];
    WrapAbsorbs(signed, column[i].v, acc);
    hide Wrap;
  }

  lemma SumEnds(signed: bool, column: seq<Datum>, acc: int)
    requires SummedUpTo(signed, column, |column|, acc)
    ensures ColumnFits(false, Sum(signed), column) && Num(acc) == Total(Sum(signed), IncomingCells(false, Sum(signed), column))
  {
    var incoming := IncomingCells(false, Sum(signed), column);
    assert incoming[..|column|] == incoming;
  }

  class SumAccumulator {
    const columnName: Catalog.Name
    const signed: bool
    var runningSums: seq<int>

    ghost function Model(): (cells: seq<Cell>)
      reads this
    {
      Nums(runningSums)
    }

    /** The name of the output column, by which `merge` finds it again */
    function OutputField(): Catalog.Name {
      E.Ascii("sum(") + columnName + E.Ascii(")")
    }

    constructor (columnName: Catalog.Name, signed: bool)
      ensures Model() == [] && this.columnName == columnName && this.signed == signed
    {
      this.columnName, this.signed := columnName, signed;
      runningSums := [];
    }

    method EnsureCapacity(numGroups: nat)
      requires AllShaped(Sum(signed), Model())
      modifies this
      ensures Model() == Grow(Sum(signed), old(Model()), numGroups)
    {
      runningSums := Resized(runningSums, numGroups, 0);
    }

    method Update(column: seq<Datum>, indices: seq<nat>, numGroups: nat)
      requires AllShaped(Sum(signed), Model()) && ColumnFits(false, Sum(signed), column)
      requires |indices| == |column| && IndicesBelow(indices, numGroups)
      modifies this
      ensures Model()
           == Absorb(Sum(signed), Grow(Sum(signed), old(Model()), numGroups), indices, IncomingCells(false, Sum(signed), column))
    {
      ghost var f := Sum(signed);
      ghost var cells, incoming := Grow(f, old(Model()), numGroups), IncomingCells(false, f, column);
      runningSums := Resized(runningSums, numGroups, 0);
      assert Model() == cells;
      if numGroups == 1 {
        var acc := SumAll(column);
        AbsorbSingleGroup(f, cells, indices, incoming);
        runningSums := runningSums[0 := Wrap(signed, runningSums[0] + acc)];
        assert Model() == cells[0 := Combine(f, cells[0], Total(f, incoming))];
        return;
      }
      AddRows(column, indices, cells, incoming);
    }

    /** The sum of a whole column, in the widened type */
    method SumAll(column: seq<Datum>) returns (acc: int)
      requires ColumnFits(false, Sum(signed), column)
      ensures Num(acc) == Total(Sum(signed), IncomingCells(false, Sum(signed), column))
    {
      SumStarts(signed, column);
      hide *;
      acc := 0;
      for i := 0 to |column|
        invariant SummedUpTo(signed, column, i, acc)
      {
        SumStep(signed, column, i, acc);
        acc := Wrap(signed, acc + column[i].v);
      }
      SumEnds(signed, column, acc);
    }

    /** The row loop that `update` and `merge` share */
    method AddRows(column: seq<Datum>, indices: seq<nat>, ghost cells: seq<Cell>, ghost incoming: seq<Cell>)
      requires AllShaped(Sum(signed), cells) && Model() == cells
      requires |indices| == |column| == |incoming| && IndicesBelow(indices, |cells|)
      requires forall i :: 0 <= i < |column| ==> column[i].Scalar? && incoming[i] == Num(Wrap(signed, column[i].v))
      requires AllShaped(Sum(signed), incoming)
      modifies this
      ensures Model() == Absorb(Sum(signed), cells, indices, incoming)
    {
      AbsorbBounds(Sum(signed), cells, indices, incoming);
      for i := 0 to |indices|
        invariant Nums(runningSums) == Absorbed(Sum(signed), cells, indices, incoming, i)
      {
        AbsorbStep(Sum(signed), cells, indices, incoming, i);
        NumStep(Sum(signed), Nums(runningSums), runningSums, indices[i], incoming[i], column[i].v);
        hide *;
        runningSums := runningSums[indices[i] := Wrap(signed, runningSums[indices[i]] + column[i].v)];
      }
    }

    method Merge(column: seq<Datum>, indices: seq<nat>, numGroups: nat)
      requires AllShaped(Sum(signed), Model()) && ColumnFits(true, Sum(signed), column)
      requires |indices| == |column| && IndicesBelow(indices, numGroups)
      modifies this
      ensures Model()
           == Absorb(Sum(signed), Grow(Sum(signed), old(Model()), numGroups), indices, IncomingCells(true, Sum(signed), column))
    {
      ghost var f := Sum(signed);
      ghost var cells, incoming := Grow(f, old(Model()), numGroups), IncomingCells(true, f, column);
      runningSums := Resized(runningSums, numGroups, 0);
      assert Model() == cells;
      AddRows(column, indices, cells, incoming);
    }

    method Materialize() returns (out: seq<Datum>)
      requires AllShaped(Sum(signed), Model())
      modifies this
      ensures out == Emitted(Sum(signed), old(Model())) && Model() == []
    {
      out := seq(|runningSums|, i requires 0 <= i < |runningSums| reads this => Scalar(runningSums[i]));
      runningSums := [];
    }
  }

  // ---- MIN and MAX ----

  /** The library's minimum (or maximum) kernel: nothing for an empty array, else a
      bound that one of the values attains */
  function KernelBest(f: Aggregator, column: seq<Datum>): (m: Option<int>)
    requires forall i :: 0 <= i < |column| ==> column[i].Scalar?
    ensures m.None? <==> column == []
    ensures m.Some? ==> exists i :: 0 <= i < |column| && column[i].v == m.value
    ensures m.Some? ==> forall i :: 0 <= i < |column| ==> !Beats(f, column[i].v, m.value)
  {
    if column == [] then None
    else
      var rest := KernelBest(f, column[1..]);
      assert forall i :: 1 <= i < |column| ==> column[i] == column[1..][i - 1];
      if rest.None? || Beats(f, column[0].v, rest.value) then Some(column[0].v) else rest
  }

  lemma KernelBestIsTotal(f: Aggregator, column: seq<Datum>, cells: seq<Cell>)
    requires f.Min? || f.Max?
    requires |cells| == |column|
    requires forall i :: 0 <= i < |column| ==> column[i].Scalar? && cells[i] == Best(Some(column[i].v))
    ensures AllShaped(f, cells) && Total(f, cells) == Best(KernelBest(f, column))
  {
    var xs := seq(|column|, i requires 0 <= i < |column| => column[i].v);
    TotalMeans(f, xs);
    assert cells == Lifted(f, xs);
    KernelAttains(f, column, xs);
    hide KernelBest, Total, Lifted, Combine;
    var m, total := KernelBest(f, column), Total(f, Lifted(f, xs)).value;
    if m.Some? && total.Some? {
      assert !Beats(f, total.value, m.value) && !Beats(f, m.value, total.value);
    }
  }

  /** The kernel's result among the values */
  lemma KernelAttains(f: Aggregator, column: seq<Datum>, xs: seq<int>)
    requires |xs| == |column| && forall i :: 0 <= i < |column| ==> column[i].Scalar? && xs[i] == column[i].v
    ensures KernelBest(f, column).None? <==> xs == []
    ensures KernelBest(f, column).Some? ==>
              KernelBest(f, column).value in xs && forall x :: x in xs ==> !Beats(f, x, KernelBest(f, column).value)
  {
    var m := KernelBest(f, column);
    hide KernelBest, Beats;
    if m.Some? {
      var i :| 0 <= i < |column| && column[i].v == m.value;
      assert xs[i] in xs;
      forall x | x in xs ensures !Beats(f, x, m.value) {
        var k :| 0 <= k < |xs| && xs[k] == x;
        assert !Beats(f, column[k].v, m.value);
      }
    }
  }

  function Bests(hasValue: seq<bool>, running: seq<int>): (cells: seq<Cell>)
    requires |hasValue| == |running|
    ensures |cells| == |running|
    ensures forall i :: 0 <= i < |cells| ==> cells[i] == Best(if hasValue[i] then Some(running[i]) else None)
  {
    seq(|running|, i requires 0 <= i < |running| => Best(if hasValue[i] then Some(running[i]) else None))
  }

  /** MIN or MAX, as `func` says */
  class ExtremeAccumulator {
    const columnName: Catalog.Name
    const func: Aggregator
    var hasValue: seq<bool>
    var running: seq<int>

    ghost predicate Valid()
      reads this
    {
      && (func.Min? || func.Max?) && |hasValue| == |running|
      && forall i :: 0 <= i < |running| ==> hasValue[i] || running[i] == 0
    }

    ghost function Model(): (cells: seq<Cell>)
      reads this
      requires Valid()
      ensures AllShaped(func, cells)
    {
      Bests(hasValue, running)
    }

    /** The name of the output column, by which `merge` finds it again */
    function OutputField(): Catalog.Name {
      E.Ascii(if func.Min? then "min(" else "max(") + columnName + E.Ascii(")")
    }

    constructor (columnName: Catalog.Name, func: Aggregator)
      requires func.Min? || func.Max?
      ensures Valid() && Model() == [] && this.columnName == columnName && this.func == func
    {
      this.columnName, this.func := columnName, func;
      hasValue, running := [], [];
    }

    method EnsureCapacity(numGroups: nat)
      requires Valid()
      modifies this
      ensures Valid() && Model() == Grow(func, old(Model()), numGroups)
    {
      hasValue, running := Resized(hasValue, numGroups, false), Resized(running, numGroups, 0);
    }

    /** Both `update` and `merge`: a MIN of MINs is read like a MIN of values. */
    method UpdateOrMerge(ghost merging: bool, column: seq<Datum>, indices: seq<nat>, numGroups: nat)
      requires Valid() && ColumnFits(merging, func, column)
      requires |indices| == |column| && IndicesBelow(indices, numGroups)
      modifies this
      ensures Valid()
      ensures Model() == Absorb(func, Grow(func, old(Model()), numGroups), indices, IncomingCells(merging, func, column))
    {
      EnsureCapacity(numGroups);
      if numGroups == 1 {
        var partial := KernelBest(func, column);
        KernelBestIsTotal(func, column, IncomingCells(merging, func, column));
        AbsorbSingleGroup(func, Model(), indices, IncomingCells(merging, func, column));
        AddToFirst(partial);
      } else {
        AddRows(column, indices, IncomingCells(merging, func, column));
      }
    }

    /** The fast path's last step: the kernel's result against the only group */
    method AddToFirst(partial: Option<int>)
      requires Valid() && |running| > 0
      modifies this
      ensures Valid()
      ensures Model() == old(Model())[0 := Combine(func, old(Model())[0], Best(partial))]
    {
      if partial.Some? {
        if hasValue[0] {
          if Beats(func, partial.value, running[0]) {
            running := running[0 := partial.value];
          }
        } else {
          running, hasValue := running[0 := partial.value], hasValue[0 := true];
        }
      }
    }

    method AddRows(column: seq<Datum>, indices: seq<nat>, ghost incoming: seq<Cell>)
      requires Valid() && |indices| == |column| == |incoming| && IndicesBelow(indices, |running|)
      requires forall i :: 0 <= i < |column| ==> column[i].Scalar? && incoming[i] == Best(Some(column[i].v))
      requires AllShaped(func, incoming)
      modifies this
      ensures Valid()
      ensures Model() == Absorb(func, old(Model()), indices, incoming)
    {
      AbsorbBounds(func, old(Model()), indices, incoming);
      for i := 0 to |indices|
        invariant Valid() && |running| == |old(Model())|
        invariant Model() == Absorbed(func, old(Model()), indices, incoming, i)
      {
        AbsorbStep(func, old(Model()), indices, incoming, i);
        AddRow(indices[i], column[i].v);
      }
    }

    method AddRow(g: nat, value: int)
      requires Valid() && g < |running|
      modifies this
      ensures Valid()
      ensures Model() == old(Model())[g := Combine(func, old(Model())[g], Best(Some(value)))]
    {
      if !hasValue[g] {
        running, hasValue := running[g := value], hasValue[g := true];
      } else if Beats(func, value, running[g]) {
        running := running[g := value];
      }
    }

    method Materialize() returns (out: seq<Datum>)
      requires Valid()
      modifies this
      ensures Valid() && out == Emitted(func, old(Model())) && Model() == []
    {
      out := seq(|running|, i requires 0 <= i < |running| reads this => Scalar(running[i]));
      hasValue, running := [], [];
    }
  }

  // ---- AVG ----

  function Means(sums: seq<int>, counts: seq<int>): (cells: seq<Cell>)
    requires |sums| == |counts|
    ensures |cells| == |sums| && forall i :: 0 <= i < |cells| ==> cells[i] == Mean(sums[i], counts[i])
  {
    seq(|sums|, i requires 0 <= i < |sums| => Mean(sums[i], counts[i]))
  }

  lemma MeanStep(cells: seq<Cell>, sums: seq<int>, counts: seq<int>, g: nat, v: int, n: int)
    requires |sums| == |counts| && g < |cells| && cells == Means(sums, counts) && AllShaped(Avg, cells) && Shaped(Avg, Mean(v, n))
    ensures g < |sums|
    ensures Means(sums[g := sums[g] + v], counts[g := Wrap(false, counts[g] + n)]) == cells[g := Combine(Avg, cells[g], Mean(v, n))]
  {
    hide Wrap;
  }

  lemma IncomingMean(merging: bool, column: seq<Datum>, i: nat)
    requires ColumnFits(merging, Avg, column) && i < |column|
    ensures var c := IncomingCells(merging, Avg, column)[i];
            Shaped(Avg, c) && if merging then column[i].Pair? && c == Mean(column[i].sum, column[i].count)
                              else column[i].Scalar? && c == Mean(column[i].v, 1)
  {
  }

  class AvgAccumulator {
    const columnName: Catalog.Name
    var runningCounts: seq<int>
    var runningSums: seq<int>

    ghost predicate Valid()
      reads this
    {
      |runningCounts| == |runningSums| && AllShaped(Avg, Means(runningSums, runningCounts))
    }

    ghost function Model(): (cells: seq<Cell>)
      reads this
      requires Valid()
    {
      Means(runningSums, runningCounts)
    }

    /** The name of the output column, by which `merge` finds it again */
    function OutputField(): Catalog.Name {
      E.Ascii("avg(") + columnName + E.Ascii(")")
    }

    constructor (columnName: Catalog.Name)
      ensures Valid() && Model() == [] && this.columnName == columnName
    {
      this.columnName := columnName;
      runningCounts, runningSums := [], [];
    }

    method EnsureCapacity(numGroups: nat)
      requires Valid()
      modifies this
      ensures Valid() && Model() == Grow(Avg, old(Model()), numGroups)
    {
      runningCounts, runningSums := Resized(runningCounts, numGroups, 0), Resized(runningSums, numGroups, 0);
      assert Means(runningSums, runningCounts) == Grow(Avg, old(Model()), numGroups);
    }

    method AddPair(g: nat, v: int, n: int)
      requires Valid() && g < |Model()| && Shaped(Avg, Mean(v, n))
      modifies this
      ensures Valid() && Model() == old(Model())[g := Combine(Avg, old(Model())[g], Mean(v, n))]
    {
      MeanStep(Means(runningSums, runningCounts), runningSums, runningCounts, g, v, n);
      runningSums := runningSums[g := runningSums[g] + v];
      runningCounts := runningCounts[g := Wrap(false, runningCounts[g] + n)];
    }

    method Update(column: seq<Datum>, indices: seq<nat>, numGroups: nat)
      requires Valid() && ColumnFits(false, Avg, column)
      requires |indices| == |column| && IndicesBelow(indices, numGroups)
      modifies this
      ensures Valid()
      ensures Model() == Absorb(Avg, Grow(Avg, old(Model()), numGroups), indices, IncomingCells(false, Avg, column))
    {
      hide *;
      EnsureCapacity(numGroups);
      ghost var cells, incoming := Model(), IncomingCells(false, Avg, column);
      BelowMore(indices, numGroups, |cells|);
      AbsorbBounds(Avg, cells, indices, incoming);
      for i := 0 to |indices|
        invariant Valid() && Model() == Absorbed(Avg, cells, indices, incoming, i)
      {
        IncomingMean(false, column, i);
        AbsorbStep(Avg, cells, indices, incoming, i);
        AddPair(indices[i], column[i].v, 1);
      }
    }

    method Merge(column: seq<Datum>, indices: seq<nat>, numGroups: nat)
      requires Valid() && ColumnFits(true, Avg, column)
      requires |indices| == |column| && IndicesBelow(indices, numGroups)
      modifies this
      ensures Valid()
      ensures Model() == Absorb(Avg, Grow(Avg, old(Model()), numGroups), indices, IncomingCells(true, Avg, column))
    {
      hide *;
      EnsureCapacity(numGroups);
      ghost var cells, incoming := Model(), IncomingCells(true, Avg, column);
      BelowMore(indices, numGroups, |cells|);
      AbsorbBounds(Avg, cells, indices, incoming);
      for i := 0 to |indices|
        invariant Valid() && Model() == Absorbed(Avg, cells, indices, incoming, i)
      {
        IncomingMean(true, column, i);
        AbsorbStep(Avg, cells, indices, incoming, i);
        AddPair(indices[i], column[i].sum, column[i].count);
      }
    }

    /** The pair of sum and count; the final division is left to the reader. */
    method Materialize() returns (out: seq<Datum>)
      requires Valid()
      modifies this
      ensures Valid() && out == Emitted(Avg, old(Model())) && Model() == []
    {
      out := seq(|runningSums|, i requires 0 <= i < |runningSums| && |runningCounts| == |runningSums| reads this =>
        Pair(runningSums[i], runningCounts[i]));
      runningCounts, runningSums := [], [];
    }
  }
}
