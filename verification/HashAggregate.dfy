/** The two aggregation operators. `HashAggregateExec` folds input rows into partial
    states and `MergeAggregateExec` folds partial states into the answer; their code
    is the same but for which half of an accumulator they call and for the one row a
    merge without GROUP BY always has, so one class with a flag models both. */
module HashAggregate {
  import opened Wrappers
  import opened Sequences
  import opened Aggregates
  import opened Accumulators
  import Catalog

  // ---- The specification ----

  /** A merge without GROUP BY starts with its one group. */
  function InitialGroups<K>(merging: bool, grouped: bool): seq<Option<K>> {
    if merging && !grouped then [None] else []
  }

  ghost function GroupsOf<K>(merging: bool, grouped: bool, rows: seq<Row<K>>): seq<Option<K>> {
    FirstSeen(InitialGroups(merging, grouped) + KeysOf(rows))
  }

  ghost predicate Keyed<K>(grouped: bool, rows: seq<Row<K>>) {
    forall i :: 0 <= i < |rows| ==> rows[i].key.Some? == grouped
  }

  /** Aggregate `j` of every group, in the groups' order */
  ghost function Totals<K>(merging: bool, fs: seq<Aggregator>, j: nat, rows: seq<Row<K>>, groups: seq<Option<K>>): (cells: seq<Cell>)
    requires j < |fs| && RowsFit(merging, fs, rows)
    ensures |cells| == |groups| && AllShaped(fs[j], cells)
    ensures forall i :: 0 <= i < |groups| ==> cells[i] == GroupTotal(merging, fs, j, rows, groups[i])
  {
    seq(|groups|, i requires 0 <= i < |groups| => GroupTotal(merging, fs, j, rows, groups[i]))
  }

  ghost function AllTotals<K>(merging: bool, fs: seq<Aggregator>, rows: seq<Row<K>>,
                              groups: seq<Option<K>>): (models: seq<seq<Cell>>)
    requires RowsFit(merging, fs, rows)
    ensures |models| == |fs| && forall j :: 0 <= j < |fs| ==> models[j] == Totals(merging, fs, j, rows, groups)
  {
    seq(|fs|, j requires 0 <= j < |fs| => Totals(merging, fs, j, rows, groups))
  }

  ghost function OutputRow<K>(merging: bool, fs: seq<Aggregator>, rows: seq<Row<K>>, group: Option<K>): (r: Row<K>)
    requires RowsFit(merging, fs, rows)
    ensures r.key == group && RowFits(true, fs, r)
    ensures forall j :: 0 <= j < |fs| ==> r.data[j] == Emit(fs[j], GroupTotal(merging, fs, j, rows, group))
  {
    Row(group, seq(|fs|, j requires 0 <= j < |fs| => Emit(fs[j], GroupTotal(merging, fs, j, rows, group))))
  }

  /** One output row per group, in first-seen order */
  ghost function Answer<K>(merging: bool, grouped: bool, fs: seq<Aggregator>, rows: seq<Row<K>>): (out: seq<Row<K>>)
    requires RowsFit(merging, fs, rows)
    ensures var groups := GroupsOf(merging, grouped, rows);
            && |out| == |groups|
            && forall i :: 0 <= i < |groups| ==> out[i] == OutputRow(merging, fs, rows, groups[i])
  {
    var groups := GroupsOf(merging, grouped, rows);
    seq(|groups|, i requires 0 <= i < |groups| => OutputRow(merging, fs, rows, groups[i]))
  }

  ghost function Column<K>(merging: bool, fs: seq<Aggregator>, rows: seq<Row<K>>, j: nat): (column: seq<Datum>)
    requires j < |fs| && RowsFit(merging, fs, rows)
    ensures |column| == |rows| && ColumnFits(merging, fs[j], column)
    ensures forall i :: 0 <= i < |rows| ==> column[i] == rows[i].data[j]
  {
    seq(|rows|, i requires 0 <= i < |rows| => rows[i].data[j])
  }

  /** `indices` sends every row to the place of its key among `groups`. */
  ghost predicate Indexes<K>(rows: seq<Row<K>>, indices: seq<nat>, groups: seq<Option<K>>) {
    && |indices| == |rows| && IndicesBelow(indices, |groups|)
    && forall i :: 0 <= i < |rows| ==> groups[indices[i]] == rows[i].key
  }

  /** Picking a group's rows by index is picking them by key. */
  lemma {:induction false} PickIsCellsOf<K>(merging: bool, fs: seq<Aggregator>, j: nat, rows: seq<Row<K>>, indices: seq<nat>,
                                            groups: seq<Option<K>>, g: nat)
    requires j < |fs| && RowsFit(merging, fs, rows) && Indexes(rows, indices, groups) && Distinct(groups) && g < |groups|
    ensures Pick(fs[j], indices, IncomingCells(merging, fs[j], Column(merging, fs, rows, j)), g) ==
            CellsOf(merging, fs, j, rows, groups[g])
  {
    if rows != [] {
      var n := |rows| - 1;
      PickIsCellsOf(merging, fs, j, rows[..n], indices[..n], groups, g);
      assert IncomingCells(merging, fs[j], Column(merging, fs, rows, j))[..n] ==
             IncomingCells(merging, fs[j], Column(merging, fs, rows[..n], j));
      assert indices[n] == g <==> rows[n].key == groups[g];
      assert CellsOf(merging, fs, j, rows[..n], groups[g]) + [] == CellsOf(merging, fs, j, rows[..n], groups[g]);
    }
  }

  /** One batch: absorbing it takes the totals of the rows so far to the totals with
      the batch, whatever groups it adds. */
  lemma BatchAddsTotals<K>(merging: bool, fs: seq<Aggregator>, j: nat, rows: seq<Row<K>>, groups: seq<Option<K>>,
                           batch: seq<Row<K>>, indices: seq<nat>, groups': seq<Option<K>>)
    requires j < |fs| && RowsFit(merging, fs, rows) && RowsFit(merging, fs, batch)
    requires groups <= groups' && Distinct(groups') && Indexes(batch, indices, groups')
    requires forall i :: |groups| <= i < |groups'| ==> groups'[i] !in KeysOf(rows)
    ensures RowsFit(merging, fs, rows + batch)
    ensures Absorb(fs[j], Grow(fs[j], Totals(merging, fs, j, rows, groups), |groups'|), indices,
                   IncomingCells(merging, fs[j], Column(merging, fs, batch, j))) ==
            Totals(merging, fs, j, rows + batch, groups')
  {
    var f, cells := fs[j], Grow(fs[j], Totals(merging, fs, j, rows, groups), |groups'|);
    var incoming := IncomingCells(merging, f, Column(merging, fs, batch, j));
    forall g | 0 <= g < |groups'|
      ensures Absorb(f, cells, indices, incoming)[g] == GroupTotal(merging, fs, j, rows + batch, groups'[g])
    {
      AbsorbAddsTotals(f, cells, indices, incoming, g);
      PickIsCellsOf(merging, fs, j, batch, indices, groups', g);
      GroupTotalOfConcat(merging, fs, j, rows, batch, groups'[g]);
      if g >= |groups| {
        KeysHaveCells(merging, fs, j, rows, groups'[g]);
      }
    }
  }

  // ---- The accumulators of a query ----

  /** A boxed accumulator of any kind */
  datatype Accumulator =
    | CountBox(count: CountAccumulator)
    | SumBox(sum: SumAccumulator)
    | ExtremeBox(extreme: ExtremeAccumulator)
    | AvgBox(avg: AvgAccumulator)
  {
    function Func(): Aggregator {
      match this
      case CountBox(_) => Count
      case SumBox(s) => Sum(s.signed)
      case ExtremeBox(e) => e.func
      case AvgBox(_) => Avg
    }

    /** The name of the output column */
    function OutputField(): Catalog.Name {
      match this
      case CountBox(c) => c.OutputField()
      case SumBox(s) => s.OutputField()
      case ExtremeBox(e) => e.OutputField()
      case AvgBox(a) => a.OutputField()
    }

    function Obj(): object {
      match this
      case CountBox(c) => c
      case SumBox(s) => s
      case ExtremeBox(e) => e
      case AvgBox(a) => a
    }

    ghost predicate Valid()
      reads Obj()
    {
      match this
      case CountBox(c) => AllShaped(Count, c.Model())
      case SumBox(s) => AllShaped(Sum(s.signed), s.Model())
      case ExtremeBox(e) => e.Valid()
      case AvgBox(a) => a.Valid()
    }

    ghost function Model(): (cells: seq<Cell>)
      reads Obj()
      requires Valid()
      ensures AllShaped(Func(), cells)
    {
      match this
      case CountBox(c) => c.Model()
      case SumBox(s) => s.Model()
      case ExtremeBox(e) => e.Model()
      case AvgBox(a) => a.Model()
    }

    method EnsureCapacity(numGroups: nat)
      requires Valid()
      modifies Obj()
      ensures Valid() && Model() == Grow(Func(), old(Model()), numGroups)
    {
      match this
      case CountBox(c) => c.EnsureCapacity(numGroups);
      case SumBox(s) => s.EnsureCapacity(numGroups);
      case ExtremeBox(e) => e.EnsureCapacity(numGroups);
      case AvgBox(a) => a.EnsureCapacity(numGroups);
    }

    method UpdateOrMerge(merging: bool, column: seq<Datum>, indices: seq<nat>, numGroups: nat)
      requires Valid() && ColumnFits(merging, Func(), column)
      requires |indices| == |column| && IndicesBelow(indices, numGroups)
      modifies Obj()
      ensures Valid()
      ensures Model() == Absorb(Func(), Grow(Func(), old(Model()), numGroups), indices, IncomingCells(merging, Func(), column))
    {
      match this
      case CountBox(c) =>
        if merging { c.Merge(column, indices, numGroups); } else { c.Update(column, indices, numGroups); }
      case SumBox(s) =>
        if merging { s.Merge(column, indices, numGroups); } else { s.Update(column, indices, numGroups); }
      case ExtremeBox(e) =>
        e.UpdateOrMerge(merging, column, indices, numGroups);
      case AvgBox(a) =>
        if merging { a.Merge(column, indices, numGroups); } else { a.Update(column, indices, numGroups); }
    }

    method Materialize() returns (out: seq<Datum>)
      requires Valid()
      modifies Obj()
      ensures Valid() && out == Emitted(Func(), old(Model())) && Model() == []
    {
      match this
      case CountBox(c) => out := c.Materialize();
      case SumBox(s) => out := s.Materialize();
      case ExtremeBox(e) => out := e.Materialize();
      case AvgBox(a) => out := a.Materialize();
    }
  }

  // ---- The operator ----

  class AggregateExec<K(==)> {
    const merging: bool
    const grouped: bool
    const accumulators: seq<Accumulator>
    ghost const fs: seq<Aggregator>

    var child: seq<seq<Row<K>>>       // the batches the child will still produce
    var groupToIndex: map<K, nat>
    var emitted: bool
    ghost var rows: seq<Row<K>>       // the rows drained so far
    ghost var groups: seq<Option<K>>  // the groups, by index

    ghost predicate Wired()
    {
      && |fs| == |accumulators| && (grouped || |fs| > 0)
      && (forall j :: 0 <= j < |fs| ==> fs[j] == accumulators[j].Func())
      && (forall i, j :: 0 <= i < j < |accumulators| ==> accumulators[i].Obj() != accumulators[j].Obj())
      && (forall j :: 0 <= j < |accumulators| ==> accumulators[j].Obj() != this)
    }

    ghost function Boxes(): set<object> {
      set j | 0 <= j < |accumulators| :: accumulators[j].Obj()
    }

    ghost predicate ModelsAre(models: seq<seq<Cell>>)
      reads Boxes()
    {
      && |models| == |accumulators|
      && forall j :: 0 <= j < |accumulators| ==> accumulators[j].Valid() && accumulators[j].Model() == models[j]
    }

    /** The index is a bijection between the keys seen and 0..n, in first-seen order. */
    ghost predicate IndexIsBijection()
      reads this`groupToIndex, this`groups
    {
      && Distinct(groups)
      && (grouped ==>
           && |groupToIndex| == |groups|
           && (forall i :: 0 <= i < |groups| ==>
                groups[i].Some? && groups[i].value in groupToIndex && groupToIndex[groups[i].value] == i)
           && (forall k :: k in groupToIndex ==> groupToIndex[k] < |groups| && groups[groupToIndex[k]] == Some(k)))
      && (!grouped ==> |groupToIndex| == 0 && (groups == [] || groups == [None]))
    }

    ghost predicate Draining()
      reads this, Boxes()
    {
      && Wired() && IndexIsBijection()
      && RowsFit(merging, fs, rows) && Keyed(grouped, rows)
      && groups == GroupsOf(merging, grouped, rows)
      && ModelsAre(AllTotals(merging, fs, rows, groups))
    }

    constructor (merging: bool, grouped: bool, accumulators: seq<Accumulator>, child: seq<seq<Row<K>>>)
      requires grouped || |accumulators| > 0
      requires forall i, j :: 0 <= i < j < |accumulators| ==> accumulators[i].Obj() != accumulators[j].Obj()
      requires forall j :: 0 <= j < |accumulators| ==> accumulators[j].Valid() && accumulators[j].Model() == []
      modifies set j | 0 <= j < |accumulators| :: accumulators[j].Obj()
      ensures Draining() && rows == [] && !emitted && this.child == child
      ensures this.merging == merging && this.grouped == grouped && this.accumulators == accumulators
    {
      this.merging, this.grouped, this.accumulators, this.child := merging, grouped, accumulators, child;
      fs := seq(|accumulators|, j requires 0 <= j < |accumulators| => accumulators[j].Func());
      groupToIndex, emitted, rows, groups := map[], false, [], InitialGroups(merging, grouped);
      new;
      hide FirstSeen, KeysOf, GroupsOf, AllTotals, Accumulator.Valid;
      Start();
    }

    /** Every accumulator is empty; a merge without GROUP BY gets its one group. */
    method Start()
      requires Wired() && ModelsAre(seq(|fs|, _ => [])) && rows == [] && groupToIndex == map[]
      requires groups == InitialGroups(merging, grouped)
      modifies Boxes()
      ensures Draining()
    {
      hide ModelsAre, Wired, FirstSeen, KeysOf, GroupsOf, AllTotals;
      InitialGroupsAreSeen<K>(merging, grouped);
      UnitsAreTotals(merging, fs, groups);
      if merging && !grouped {
        EnsureOneGroup();
      }
    }

    method EnsureOne(j: nat, ghost models: seq<seq<Cell>>)
      requires Wired() && ModelsAre(models) && j < |accumulators| && models[j] == []
      modifies accumulators[j].Obj()
      ensures ModelsAre(models[j := [Unit(fs[j])]])
    {
      accumulators[j].EnsureCapacity(1);
      assert accumulators[j].Model() == [Unit(fs[j])];
    }

    /** A merge without GROUP BY gives its one group room before any batch arrives. */
    method EnsureOneGroup()
      requires Wired() && ModelsAre(seq(|fs|, _ => []))
      modifies Boxes()
      ensures ModelsAre(seq(|fs|, j requires 0 <= j < |fs| => [Unit(fs[j])]))
    {
      ghost var models := seq(|fs|, _ => []);
      for j := 0 to |accumulators|
        invariant ModelsAre(models)
        invariant forall i :: 0 <= i < |fs| ==> models[i] == if i < j then [Unit(fs[i])] else []
      {
        EnsureOne(j, models);
        models := models[j := [Unit(fs[j])]];
      }
      assert models == seq(|fs|, j requires 0 <= j < |fs| => [Unit(fs[j])]);
    }

    /** The index of one key, given the next free index if it is new */
    method IndexOf(key: K) returns (idx: nat)
      requires grouped && IndexIsBijection()
      modifies this`groupToIndex, this`groups
      ensures IndexIsBijection()
      ensures groups == if Some(key) in old(groups) then old(groups) else old(groups) + [Some(key)]
      ensures idx < |groups| && groups[idx] == Some(key)
    {
      var nextIdx := |groupToIndex|;
      if key !in groupToIndex {
        assert Some(key) !in groups;
        groupToIndex := groupToIndex[key := nextIdx];
        groups := groups + [Some(key)];
      }
      idx := groupToIndex[key];
    }

    /** The group index of every row of the batch, adding the keys not seen before */
    method AssignIndices(batch: seq<Row<K>>, ghost seen: seq<Option<K>>) returns (indices: seq<nat>)
      requires grouped && IndexIsBijection() && Keyed(true, batch) && groups == FirstSeen(seen)
      modifies this`groupToIndex, this`groups
      ensures IndexIsBijection() && groups == FirstSeen(seen + KeysOf(batch)) && old(groups) <= groups
      ensures Indexes(batch, indices, groups)
    {
      indices := [];
      ghost var keys := seen;
      for i := 0 to |batch|
        invariant IndexIsBijection() && old(groups) <= groups && groups == FirstSeen(keys)
        invariant keys == seen + KeysOf(batch[..i])
        invariant Indexes(batch[..i], indices, groups)
      {
        FirstSeenStep(keys, batch[i].key);
        KeysOfStep(seen, batch, i);
        keys := keys + [batch[i].key];
        ghost var before, indexed := groups, indices;
        var idx := IndexOf(batch[i].key.value);
        indices := indices + [idx];
        IndexesStep(batch, i, indexed, before, idx, groups);
      }
      assert batch[..|batch|] == batch;
    }

    /** Accumulator `j` updates (or merges) its own column; the others stay as they are. */
    method UpdateOne(j: nat, column: seq<Datum>, indices: seq<nat>, numGroups: nat, ghost models: seq<seq<Cell>>)
      requires Wired() && ModelsAre(models) && j < |accumulators| && ColumnFits(merging, fs[j], column)
      requires |indices| == |column| && IndicesBelow(indices, numGroups)
      modifies accumulators[j].Obj()
      ensures AllShaped(fs[j], models[j])
      ensures ModelsAre(models[j := Absorb(fs[j], Grow(fs[j], models[j], numGroups), indices, IncomingCells(merging, fs[j], column))])
    {
      accumulators[j].UpdateOrMerge(merging, column, indices, numGroups);
    }

    /** Every accumulator takes the batch: from the totals of the rows so far to the
        totals with the batch. */
    /** `batch` comes after the rows so far, whose groups are `before`; `indices` places it
        among the groups there are now. */
    ghost predicate Follows(batch: seq<Row<K>>, indices: seq<nat>, before: seq<Option<K>>)
      reads `rows, `groups
    {
      && RowsFit(merging, fs, rows) && RowsFit(merging, fs, batch) && RowsFit(merging, fs, rows + batch)
      && before <= groups && Distinct(groups) && Indexes(batch, indices, groups)
      && forall i :: |before| <= i < |groups| ==> groups[i] !in KeysOf(rows)
    }

    /** The first `j` accumulators hold the totals with the batch, the others those before. */
    ghost predicate UpdatedUpTo(batch: seq<Row<K>>, indices: seq<nat>, before: seq<Option<K>>, j: nat)
      requires Wired() && Follows(batch, indices, before) && j <= |accumulators|
      reads `rows, `groups, Boxes()
    {
      ModelsAre(Overwritten(AllTotals(merging, fs, rows + batch, groups), AllTotals(merging, fs, rows, before), j))
    }

    method UpdateColumn(batch: seq<Row<K>>, indices: seq<nat>, numGroups: nat, ghost before: seq<Option<K>>, j: nat)
      requires Wired() && Follows(batch, indices, before) && numGroups == |groups| && j < |accumulators|
      requires UpdatedUpTo(batch, indices, before, j)
      modifies accumulators[j].Obj()
      ensures UpdatedUpTo(batch, indices, before, j + 1)
    {
      ghost var first, after := AllTotals(merging, fs, rows, before), AllTotals(merging, fs, rows + batch, groups);
      OverwritesNext(after, first, j);
      var column := seq(|batch|, r requires 0 <= r < |batch| && RowFits(merging, fs, batch[r]) && j < |fs| => batch[r].data[j]);
      assert column == Column(merging, fs, batch, j);
      BatchAddsTotals(merging, fs, j, rows, before, batch, indices, groups);
      hide Overwritten, Column, AllTotals, Totals, Absorb, Grow, IncomingCells;
      UpdateOne(j, column, indices, numGroups, Overwritten(after, first, j));
    }

    lemma UpdateStartsAndEnds(batch: seq<Row<K>>, indices: seq<nat>, before: seq<Option<K>>)
      requires Wired() && Follows(batch, indices, before)
      ensures RowsFit(merging, fs, rows + batch)
      ensures UpdatedUpTo(batch, indices, before, 0) <==> ModelsAre(AllTotals(merging, fs, rows, before))
      ensures UpdatedUpTo(batch, indices, before, |accumulators|) <==> ModelsAre(AllTotals(merging, fs, rows + batch, groups))
    {
      OverwritesAll(AllTotals(merging, fs, rows + batch, groups), AllTotals(merging, fs, rows, before));
    }

    method UpdateAll(batch: seq<Row<K>>, indices: seq<nat>, numGroups: nat, ghost before: seq<Option<K>>)
      requires Wired() && Follows(batch, indices, before) && numGroups == |groups|
      requires ModelsAre(AllTotals(merging, fs, rows, before))
      modifies Boxes()
      ensures RowsFit(merging, fs, rows + batch) && ModelsAre(AllTotals(merging, fs, rows + batch, groups))
    {
      hide Follows, RowsFit, Totals, AllTotals, ModelsAre, Overwritten, UpdatedUpTo;
      UpdateStartsAndEnds(batch, indices, before);
      for j := 0 to |accumulators|
        invariant UpdatedUpTo(batch, indices, before, j)
      {
        UpdateColumn(batch, indices, numGroups, before, j);
      }
      UpdateStartsAndEnds(batch, indices, before);
    }

    /** The group index of every row: all zeros without GROUP BY */
    method IndexBatch(batch: seq<Row<K>>) returns (indices: seq<nat>, numGroups: nat)
      requires IndexIsBijection() && groups == GroupsOf(merging, grouped, rows)
      requires Keyed(grouped, rows) && Keyed(grouped, batch) && (batch != [] || merging || grouped)
      modifies this`groupToIndex, this`groups
      ensures IndexIsBijection() && groups == GroupsOf(merging, grouped, rows + batch)
      ensures Indexes(batch, indices, groups) && numGroups == |groups|
      ensures old(groups) <= groups && Distinct(groups)
    {
      hide FirstSeen, KeysOf;
      GroupsGrow(merging, grouped, rows, batch);
      if !grouped {
        indices, numGroups := seq(|batch|, _ => 0), 1;
        OneGroup(merging, rows);
        OneGroup(merging, rows + batch);
        groups := [None];
        assert IndexIsBijection();
      } else {
        indices := AssignIndices(batch, InitialGroups(merging, grouped) + KeysOf(rows));
        numGroups := |groupToIndex|;
      }
    }

    /** Indexing rows leaves the accumulators alone. */
    twostate lemma ModelsUntouched(models: seq<seq<Cell>>)
      requires Wired() && old(ModelsAre(models))
      requires forall j :: 0 <= j < |accumulators| ==> unchanged(accumulators[j].Obj())
      ensures ModelsAre(models)
    {
    }

    /** The pass over one batch: index its rows, then feed every accumulator. */
    method DrainBatch(batch: seq<Row<K>>)
      requires Draining() && RowsFit(merging, fs, batch) && Keyed(grouped, batch)
      requires batch != [] || merging || grouped
      modifies this`groupToIndex, this`groups, this`rows, Boxes()
      ensures Draining() && rows == old(rows) + batch
    {
      hide FirstSeen, KeysOf, AllTotals, Indexes, GroupsOf, ModelsAre, Wired, IndexIsBijection, InitialGroups;
      ghost var before, models := groups, AllTotals(merging, fs, rows, groups);
      label start:
      var indices, numGroups := IndexBatch(batch);
      ModelsUntouched@start(models);
      NewGroupsAreNew(merging, grouped, rows, before, groups);
      UpdateAll(batch, indices, numGroups, before);
      rows := rows + batch;
    }

    /** The keys by index, placed by walking the map in any order: no index is left
        without its key. */
    method OrderedKeys() returns (ordered: seq<Option<K>>)
      requires grouped && IndexIsBijection()
      ensures ordered == groups
    {
      ordered := seq(|groupToIndex|, _ => None);
      var todo := groupToIndex.Keys;
      while todo != {}
        invariant todo <= groupToIndex.Keys && |ordered| == |groups|
        invariant forall k :: k in groupToIndex && k !in todo ==> ordered[groupToIndex[k]] == Some(k)
      {
        var k :| k in todo;
        ordered := ordered[groupToIndex[k] := Some(k)];
        todo := todo - {k};
      }
    }

    /** The key column; without GROUP BY there is none, and the aggregates give the
        number of rows. */
    method OutputKeys(columns: seq<seq<Datum>>) returns (keys: seq<Option<K>>)
      requires IndexIsBijection()
      requires !grouped ==> columns != [] && |columns[0]| == |groups|
      ensures keys == groups
    {
      if grouped {
        keys := OrderedKeys();
      } else {
        keys := seq(|columns[0]|, _ => None);
      }
    }

    method MaterializeOne(j: nat, ghost models: seq<seq<Cell>>) returns (column: seq<Datum>)
      requires Wired() && ModelsAre(models) && j < |accumulators|
      modifies accumulators[j].Obj()
      ensures AllShaped(fs[j], models[j]) && column == Emitted(fs[j], models[j])
      ensures ModelsAre(models[j := []])
    {
      column := accumulators[j].Materialize();
    }

    /** Every accumulator's output column */
    method MaterializeAll() returns (columns: seq<seq<Datum>>)
      requires Wired() && RowsFit(merging, fs, rows) && ModelsAre(AllTotals(merging, fs, rows, groups))
      modifies Boxes()
      ensures |columns| == |fs| && unchanged(this)
      ensures forall j :: 0 <= j < |fs| ==> |columns[j]| == |groups|
      ensures forall j :: 0 <= j < |fs| ==> columns[j] == Emitted(fs[j], Totals(merging, fs, j, rows, groups))
    {
      columns := [];
      ghost var models := AllTotals(merging, fs, rows, groups);
      for j := 0 to |accumulators|
        invariant |columns| == j && ModelsAre(models) && unchanged(this)
        invariant forall i :: j <= i < |fs| ==> models[i] == Totals(merging, fs, i, rows, groups)
        invariant forall i :: 0 <= i < j ==> columns[i] == Emitted(fs[i], Totals(merging, fs, i, rows, groups))
      {
        var column := MaterializeOne(j, models);
        columns := columns + [column];
        models := models[j := []];
      }
    }

    /** The batches that the child may produce: without GROUP BY a partial aggregation
        must get no empty one. */
    ghost predicate ChildFits()
      reads this
    {
      forall i :: 0 <= i < |child| ==>
        && RowsFit(merging, fs, child[i]) && Keyed(grouped, child[i])
        && (child[i] != [] || merging || grouped)
    }

    /** Drain the child, then emit one batch with a row per group; nothing after that. */
    method NextBatch() returns (out: Option<seq<Row<K>>>)
      requires !emitted ==> Draining() && ChildFits() && rows == []
      modifies this`child, this`groupToIndex, this`groups, this`rows, this`emitted, Boxes()
      ensures emitted
      ensures old(emitted) ==> out == None
      ensures !old(emitted) ==> RowsFit(merging, fs, Concat(old(child))) && child == []
      ensures !old(emitted) ==> out == Some(Answer(merging, grouped, fs, Concat(old(child))))
    {
      if emitted {
        return None;
      }
      DrainChild();
      var batch := Emit();
      emitted := true;
      return Some(batch);
    }

    /** The output batch: the keys in index order beside the accumulators' columns */
    method Emit() returns (out: seq<Row<K>>)
      requires Draining()
      modifies Boxes()
      ensures RowsFit(merging, fs, rows) && out == Answer(merging, grouped, fs, rows)
    {
      var columns := MaterializeAll();
      var keys := OutputKeys(columns);
      out := Rows(keys, columns);
      ColumnsAreAnswer(merging, grouped, fs, rows, columns, out);
    }

    method DrainNext(ghost batches: seq<seq<Row<K>>>, ghost i: nat)
      requires i < |batches| && child == batches[i..] && rows == Concat(batches[..i])
      requires Draining() && ChildFits()
      modifies this`child, this`groupToIndex, this`groups, this`rows, Boxes()
      ensures Draining() && ChildFits()
      ensures child == batches[i + 1..] && rows == Concat(batches[..i + 1])
    {
      var batch := child[0];
      child := child[1..];
      DrainBatch(batch);
      ConcatStep(batches, i);
    }

    method DrainChild()
      requires Draining() && ChildFits() && rows == []
      modifies this`child, this`groupToIndex, this`groups, this`rows, Boxes()
      ensures Draining() && child == [] && rows == Concat(old(child))
    {
      ghost var batches, i := child, 0;
      while child != []
        invariant 0 <= i <= |batches| && child == batches[i..] && rows == Concat(batches[..i])
        invariant Draining() && ChildFits()
        decreases |child|
      {
        DrainNext(batches, i);
        i := i + 1;
      }
      assert batches[..|batches|] == batches;
    }
  }

  /** The rows of a batch with these key and aggregate columns */
  function Rows<K>(keys: seq<Option<K>>, columns: seq<seq<Datum>>): (rows: seq<Row<K>>)
    requires forall j :: 0 <= j < |columns| ==> |columns[j]| == |keys|
    ensures |rows| == |keys|
    ensures forall i :: 0 <= i < |keys| ==> rows[i].key == keys[i] && |rows[i].data| == |columns|
    ensures forall i, j :: 0 <= i < |keys| && 0 <= j < |columns| ==> rows[i].data[j] == columns[j][i]
  {
    seq(|keys|, i requires 0 <= i < |keys| => Row(keys[i], seq(|columns|, j requires 0 <= j < |columns| => columns[j][i])))
  }

  lemma ColumnsAreAnswer<K>(merging: bool, grouped: bool, fs: seq<Aggregator>, rows: seq<Row<K>>,
                            columns: seq<seq<Datum>>, out: seq<Row<K>>)
    requires RowsFit(merging, fs, rows) && |columns| == |fs|
    requires forall j :: 0 <= j < |fs| ==> |columns[j]| == |GroupsOf(merging, grouped, rows)|
    requires forall j :: 0 <= j < |fs| ==>
               columns[j] == Emitted(fs[j], Totals(merging, fs, j, rows, GroupsOf(merging, grouped, rows)))
    requires out == Rows(GroupsOf(merging, grouped, rows), columns)
    ensures out == Answer(merging, grouped, fs, rows)
  {
    var groups := GroupsOf(merging, grouped, rows);
    forall i | 0 <= i < |groups| ensures out[i] == OutputRow(merging, fs, rows, groups[i]) {
      assert out[i].data == OutputRow(merging, fs, rows, groups[i]).data;
    }
  }

  lemma NewGroupsAreNew<K>(merging: bool, grouped: bool, rows: seq<Row<K>>, before: seq<Option<K>>, groups: seq<Option<K>>)
    requires before == GroupsOf(merging, grouped, rows) && before <= groups && Distinct(groups)
    ensures forall i :: |before| <= i < |groups| ==> groups[i] !in KeysOf(rows)
  {
    GroupsGrow(merging, grouped, rows, []);
    forall i | |before| <= i < |groups| ensures groups[i] !in before {
    }
  }

  lemma FitsConcat<K>(merging: bool, fs: seq<Aggregator>, a: seq<Row<K>>, b: seq<Row<K>>)
    requires RowsFit(merging, fs, a) && RowsFit(merging, fs, b)
    ensures RowsFit(merging, fs, a + b)
  {
  }

  lemma GroupsGrow<K>(merging: bool, grouped: bool, rows: seq<Row<K>>, batch: seq<Row<K>>)
    ensures GroupsOf(merging, grouped, rows) <= GroupsOf(merging, grouped, rows + batch)
    ensures GroupsOf(merging, grouped, rows + batch)
         == FirstSeen((InitialGroups(merging, grouped) + KeysOf(rows)) + KeysOf(batch))
    ensures forall k :: k in KeysOf(rows) ==> k in GroupsOf(merging, grouped, rows)
  {
    hide FirstSeen, KeysOf;
    var initial := InitialGroups<K>(merging, grouped);
    KeysOfConcat(rows, batch);
    Associates(initial, KeysOf(rows), KeysOf(batch));
    hide InitialGroups;
    FirstSeenExtends(initial + KeysOf(rows), KeysOf(batch));
  }

  /** Without GROUP BY there is one group as soon as there is a row. */
  lemma {:induction false} OneGroup<K>(merging: bool, rows: seq<Row<K>>)
    requires Keyed(false, rows)
    ensures GroupsOf(merging, false, rows) == if merging || rows != [] then [None] else []
  {
    if rows == [] {
      InitialGroupsAreSeen<K>(merging, false);
    } else {
      var n := |rows| - 1;
      OneGroup(merging, rows[..n]);
      KeysOfStep(InitialGroups(merging, false), rows, n);
      FirstSeenStep(InitialGroups(merging, false) + KeysOf(rows[..n]), rows[n].key);
      assert rows[..n + 1] == rows;
    }
  }

  lemma KeysOfStep<K>(seen: seq<Option<K>>, rows: seq<Row<K>>, i: nat)
    requires i < |rows|
    ensures seen + KeysOf(rows[..i + 1]) == (seen + KeysOf(rows[..i])) + [rows[i].key]
  {
    assert KeysOf(rows[..i + 1]) == KeysOf(rows[..i]) + [rows[i].key];
  }

  lemma IndexesStep<K>(rows: seq<Row<K>>, i: nat, indices: seq<nat>, groups: seq<Option<K>>, idx: nat, groups': seq<Option<K>>)
    requires i < |rows| && Indexes(rows[..i], indices, groups) && groups <= groups'
    requires idx < |groups'| && groups'[idx] == rows[i].key
    ensures Indexes(rows[..i + 1], indices + [idx], groups')
  {
  }

  lemma UnitsAreTotals<K>(merging: bool, fs: seq<Aggregator>, groups: seq<Option<K>>)
    ensures groups == [] ==> AllTotals(merging, fs, [], groups) == seq(|fs|, _ => [])
    ensures groups == [None] ==> AllTotals(merging, fs, [], groups) == seq(|fs|, j requires 0 <= j < |fs| => [Unit(fs[j])])
  {
    if groups == [None] {
      forall j | 0 <= j < |fs| ensures Totals(merging, fs, j, [], groups) == [Unit(fs[j])] {
        assert GroupTotal(merging, fs, j, [], groups[0]) == Unit(fs[j]);
      }
    }
  }

  lemma InitialGroupsAreSeen<K>(merging: bool, grouped: bool)
    ensures GroupsOf<K>(merging, grouped, []) == InitialGroups(merging, grouped)
  {
    var initial := InitialGroups<K>(merging, grouped);
    assert initial + KeysOf<K>([]) == initial;
    FirstSeenStep<Option<K>>([], None);
    var none: seq<Option<K>> := [];
    assert none + [None] == [None];
  }
}
