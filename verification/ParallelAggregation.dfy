/** Partial aggregation and merge: however the rows are dealt out into lots, merging
    the lots' partial answers gives the answer for all the rows. */
module ParallelAggregation {
  import opened Wrappers
  import opened Sequences
  import opened Aggregates
  import opened HashAggregate
  import opened Gather

  /** The batches the merge receives: the partial answer of every lot, in order of arrival */
  ghost function PartialBatches<K>(grouped: bool, fs: seq<Aggregator>, lots: seq<seq<Row<K>>>): (batches: seq<seq<Row<K>>>)
    requires forall i :: 0 <= i < |lots| ==> RowsFit(false, fs, lots[i])
    ensures |batches| == |lots|
    ensures forall i :: 0 <= i < |lots| ==> batches[i] == Answer(false, grouped, fs, lots[i])
  {
    seq(|lots|, i requires 0 <= i < |lots| => Answer(false, grouped, fs, lots[i]))
  }

  ghost function Partials<K>(grouped: bool, fs: seq<Aggregator>, lots: seq<seq<Row<K>>>): (rows: seq<Row<K>>)
    requires forall i :: 0 <= i < |lots| ==> RowsFit(false, fs, lots[i])
    ensures RowsFit(true, fs, rows)
  {
    PartialsFit(grouped, fs, lots);
    Concat(PartialBatches(grouped, fs, lots))
  }

  lemma PartialsStep<K>(grouped: bool, fs: seq<Aggregator>, lots: seq<seq<Row<K>>>)
    requires lots != [] && forall i :: 0 <= i < |lots| ==> RowsFit(false, fs, lots[i])
    ensures Concat(PartialBatches(grouped, fs, lots)) ==
            Concat(PartialBatches(grouped, fs, lots[..|lots| - 1])) + Answer(false, grouped, fs, lots[|lots| - 1])
  {
    assert PartialBatches(grouped, fs, lots)[..|lots| - 1] == PartialBatches(grouped, fs, lots[..|lots| - 1]);
  }

  lemma {:induction false} PartialsFit<K>(grouped: bool, fs: seq<Aggregator>, lots: seq<seq<Row<K>>>)
    requires forall i :: 0 <= i < |lots| ==> RowsFit(false, fs, lots[i])
    ensures RowsFit(true, fs, Concat(PartialBatches(grouped, fs, lots)))
  {
    if lots != [] {
      var n := |lots| - 1;
      PartialsFit(grouped, fs, lots[..n]);
      PartialsStep(grouped, fs, lots);
      FitsConcat(true, fs, Concat(PartialBatches(grouped, fs, lots[..n])), Answer(false, grouped, fs, lots[n]));
    }
  }

  lemma {:induction false} LotsFit<K>(fs: seq<Aggregator>, lots: seq<seq<Row<K>>>)
    requires forall i :: 0 <= i < |lots| ==> RowsFit(false, fs, lots[i])
    ensures RowsFit(false, fs, Concat(lots))
  {
    if lots != [] {
      LotsFit(fs, lots[..|lots| - 1]);
      FitsConcat(false, fs, Concat(lots[..|lots| - 1]), lots[|lots| - 1]);
    }
  }

  /** A group that has a row has a value, so its partial state survives the trip
      through an output column. */
  lemma {:induction false} GroupWithRowsHasValue<K>(fs: seq<Aggregator>, j: nat, rows: seq<Row<K>>, key: Option<K>)
    requires j < |fs| && RowsFit(false, fs, rows)
    ensures key in KeysOf(rows) ==> GroupTotal(false, fs, j, rows, key) != Best(None)
  {
    if rows != [] {
      var n := |rows| - 1;
      GroupWithRowsHasValue(fs, j, rows[..n], key);
      assert KeysOf(rows) == KeysOf(rows[..n]) + [rows[n].key];
      var before := CellsOf(false, fs, j, rows[..n], key);
      if rows[n].key == key {
        var cell := Incoming(false, fs[j], rows[n].data[j]);
        assert CellsOf(false, fs, j, rows, key) == before + [cell];
        assert (before + [cell])[..|before|] == before;
      }
    }
  }

  /** Rows with distinct keys: a key's cells are those of its only row. */
  lemma {:induction false} CellsOfDistinctRows<K>(fs: seq<Aggregator>, j: nat, rows: seq<Row<K>>, key: Option<K>)
    requires j < |fs| && RowsFit(true, fs, rows) && Distinct(KeysOf(rows))
    ensures key !in KeysOf(rows) ==> CellsOf(true, fs, j, rows, key) == []
    ensures forall i :: 0 <= i < |rows| && rows[i].key == key ==>
              CellsOf(true, fs, j, rows, key) == [Read(fs[j], rows[i].data[j])]
  {
    if rows != [] {
      var n := |rows| - 1;
      assert KeysOf(rows) == KeysOf(rows[..n]) + [rows[n].key];
      CellsOfDistinctRows(fs, j, rows[..n], key);
      KeysHaveCells(true, fs, j, rows[..n], key);
    }
  }

  lemma TotalOfOne(f: Aggregator, c: Cell)
    requires Shaped(f, c)
    ensures Total(f, [c]) == c
  {
    UnitIsNeutral(f, c);
    assert [c][..0] == [];
  }

  lemma AnswerKeys<K>(grouped: bool, fs: seq<Aggregator>, lot: seq<Row<K>>)
    requires RowsFit(false, fs, lot)
    ensures var partial := Answer(false, grouped, fs, lot);
            && RowsFit(true, fs, partial) && Distinct(KeysOf(partial))
            && KeysOf(partial) == GroupsOf(false, grouped, lot)
            && forall key :: key in KeysOf(partial) <==> key in KeysOf(lot)
  {
    assert InitialGroups<K>(false, grouped) + KeysOf(lot) == KeysOf(lot);
    assert KeysOf(Answer(false, grouped, fs, lot)) == GroupsOf(false, grouped, lot);
  }

  /** What one lot's partial answer brings to the merge of a group: the lot's own total */
  lemma PartialTotal<K>(grouped: bool, fs: seq<Aggregator>, j: nat, lot: seq<Row<K>>, key: Option<K>)
    requires j < |fs| && RowsFit(false, fs, lot)
    ensures RowsFit(true, fs, Answer(false, grouped, fs, lot))
    ensures GroupTotal(true, fs, j, Answer(false, grouped, fs, lot), key) == GroupTotal(false, fs, j, lot, key)
  {
    var partial, total := Answer(false, grouped, fs, lot), GroupTotal(false, fs, j, lot, key);
    AnswerKeys(grouped, fs, lot);
    CellsOfDistinctRows(fs, j, partial, key);
    if key in KeysOf(partial) {
      var i :| 0 <= i < |partial| && KeysOf(partial)[i] == key;
      GroupWithRowsHasValue(fs, j, lot, key);
      ReadOfEmit(fs[j], total);
      assert partial[i] == OutputRow(false, fs, lot, key);
      TotalOfOne(fs[j], total);
    } else {
      KeysHaveCells(false, fs, j, lot, key);
    }
  }

  /** Merging the partial totals gives the total of all rows. */
  lemma {:induction false} MergedTotals<K>(grouped: bool, fs: seq<Aggregator>, j: nat, lots: seq<seq<Row<K>>>, key: Option<K>)
    requires j < |fs| && forall i :: 0 <= i < |lots| ==> RowsFit(false, fs, lots[i])
    ensures RowsFit(false, fs, Concat(lots))
    ensures GroupTotal(true, fs, j, Partials(grouped, fs, lots), key) == GroupTotal(false, fs, j, Concat(lots), key)
  {
    LotsFit(fs, lots);
    if lots != [] {
      var n := |lots| - 1;
      MergedTotals(grouped, fs, j, lots[..n], key);
      PartialTotal(grouped, fs, j, lots[n], key);
      PartialsStep(grouped, fs, lots);
      GroupTotalOfConcat(true, fs, j, Partials(grouped, fs, lots[..n]), Answer(false, grouped, fs, lots[n]), key);
      GroupTotalOfConcat(false, fs, j, Concat(lots[..n]), lots[n], key);
    }
  }

  lemma {:induction false} MergedKeys<K>(grouped: bool, fs: seq<Aggregator>, lots: seq<seq<Row<K>>>, key: Option<K>)
    requires forall i :: 0 <= i < |lots| ==> RowsFit(false, fs, lots[i])
    ensures key in KeysOf(Partials(grouped, fs, lots)) <==> key in KeysOf(Concat(lots))
  {
    if lots != [] {
      var n := |lots| - 1;
      MergedKeys(grouped, fs, lots[..n], key);
      AnswerKeys(grouped, fs, lots[n]);
      PartialsStep(grouped, fs, lots);
      KeysOfConcat(Partials(grouped, fs, lots[..n]), Answer(false, grouped, fs, lots[n]));
      KeysOfConcat(Concat(lots[..n]), lots[n]);
    }
  }

  // ---- The sequential answer ----

  /** What the query means: every group that has a row (and the one group of a query
      without GROUP BY even if no row qualifies), with the totals of its rows in
      table order */
  ghost function Meaning<K>(grouped: bool, fs: seq<Aggregator>, rows: seq<Row<K>>): map<Option<K>, seq<Datum>>
    requires RowsFit(false, fs, rows)
  {
    map key | key in InitialGroups<K>(true, grouped) + KeysOf(rows) :: GroupMeaning(fs, rows, key)
  }

  ghost function GroupMeaning<K>(fs: seq<Aggregator>, rows: seq<Row<K>>, key: Option<K>): (data: seq<Datum>)
    requires RowsFit(false, fs, rows)
    ensures |data| == |fs| && forall j :: 0 <= j < |fs| ==> data[j] == Emit(fs[j], GroupTotal(false, fs, j, rows, key))
  {
    seq(|fs|, j requires 0 <= j < |fs| => Emit(fs[j], GroupTotal(false, fs, j, rows, key)))
  }

  /** The rows `out` as a map from key to aggregates: each key once */
  ghost predicate IsMap<K>(out: seq<Row<K>>, m: map<Option<K>, seq<Datum>>) {
    && Distinct(KeysOf(out))
    && (forall i :: 0 <= i < |out| ==> out[i].key in m && out[i].data == m[out[i].key])
    && (forall key :: key in m ==> key in KeysOf(out))
  }

  lemma MergedRow<K>(grouped: bool, fs: seq<Aggregator>, lots: seq<seq<Row<K>>>, table: seq<Row<K>>, key: Option<K>)
    requires forall i :: 0 <= i < |lots| ==> RowsFit(false, fs, lots[i])
    requires multiset(Concat(lots)) == multiset(table) && RowsFit(false, fs, table)
    ensures OutputRow(true, fs, Partials(grouped, fs, lots), key).data == GroupMeaning(fs, table, key)
  {
    LotsFit(fs, lots);
    forall j | 0 <= j < |fs|
      ensures GroupTotal(true, fs, j, Partials(grouped, fs, lots), key) == GroupTotal(false, fs, j, table, key)
    {
      MergedTotals(grouped, fs, j, lots, key);
      GroupTotalOfPermutation(false, fs, j, Concat(lots), table, key);
    }
  }

  lemma MergedGroups<K>(grouped: bool, fs: seq<Aggregator>, lots: seq<seq<Row<K>>>, table: seq<Row<K>>, key: Option<K>)
    requires forall i :: 0 <= i < |lots| ==> RowsFit(false, fs, lots[i])
    requires multiset(Concat(lots)) == multiset(table)
    ensures key in GroupsOf(true, grouped, Partials(grouped, fs, lots)) <==>
            key in InitialGroups<K>(true, grouped) + KeysOf(table)
  {
    MergedKeys(grouped, fs, lots, key);
    SameKeys(Concat(lots), table, key);
  }

  lemma AnswerIsMap<K>(grouped: bool, fs: seq<Aggregator>, merged: seq<Row<K>>, table: seq<Row<K>>)
    requires RowsFit(true, fs, merged) && RowsFit(false, fs, table)
    requires forall key :: key in GroupsOf(true, grouped, merged) <==> key in InitialGroups<K>(true, grouped) + KeysOf(table)
    requires forall key :: OutputRow(true, fs, merged, key).data == GroupMeaning(fs, table, key)
    ensures IsMap(Answer(true, grouped, fs, merged), Meaning(grouped, fs, table))
  {
    assert KeysOf(Answer(true, grouped, fs, merged)) == GroupsOf(true, grouped, merged);
  }

  /** The merge of the lots' partial answers is the sequential answer for any table
      that the lots are a rearrangement of. */
  lemma MergeIsMeaning<K>(grouped: bool, fs: seq<Aggregator>, lots: seq<seq<Row<K>>>, table: seq<Row<K>>)
    requires forall i :: 0 <= i < |lots| ==> RowsFit(false, fs, lots[i])
    requires multiset(Concat(lots)) == multiset(table)
    ensures RowsFit(false, fs, table)
    ensures IsMap(Answer(true, grouped, fs, Partials(grouped, fs, lots)), Meaning(grouped, fs, table))
  {
    LotsFit(fs, lots);
    PermutationFits(false, fs, Concat(lots), table);
    var merged := Partials(grouped, fs, lots);
    forall key ensures key in GroupsOf(true, grouped, merged) <==> key in InitialGroups<K>(true, grouped) + KeysOf(table) {
      MergedGroups(grouped, fs, lots, table, key);
    }
    forall key ensures OutputRow(true, fs, merged, key).data == GroupMeaning(fs, table, key) {
      MergedRow(grouped, fs, lots, table, key);
    }
    AnswerIsMap(grouped, fs, merged, table);
  }

  lemma SameKeys<K>(a: seq<Row<K>>, b: seq<Row<K>>, key: Option<K>)
    requires multiset(a) == multiset(b)
    ensures key in KeysOf(a) <==> key in KeysOf(b)
  {
    forall i | 0 <= i < |a| ensures a[i].key in KeysOf(b) {
      assert a[i] in multiset(b);
      var k :| 0 <= k < |b| && b[k] == a[i];
      assert KeysOf(b)[k] == a[i].key;
    }
    forall i | 0 <= i < |b| ensures b[i].key in KeysOf(a) {
      assert b[i] in multiset(a);
      var k :| 0 <= k < |a| && a[k] == b[i];
      assert KeysOf(a)[k] == b[i].key;
    }
  }

  lemma {:induction false} LotsOfFittingRows<K>(fs: seq<Aggregator>, lots: seq<seq<Row<K>>>)
    requires RowsFit(false, fs, Concat(lots))
    ensures forall i :: 0 <= i < |lots| ==> RowsFit(false, fs, lots[i])
  {
    if lots != [] {
      var n := |lots| - 1;
      PartsFit(false, fs, Concat(lots[..n]), lots[n]);
      LotsOfFittingRows(fs, lots[..n]);
      assert forall i :: 0 <= i < n ==> lots[i] == lots[..n][i];
    }
  }

  /** Every run of the parallel pipeline, with any number of workers and any schedule,
      ends with the answer that folding the table in order gives: each worker sends
      the partial answer of the rows it folded, and the merge reads these in order of
      arrival. */
  lemma EveryScheduleGivesTheMeaning<K>(q: Query<Row<K>>, states: seq<State<Row<K>>>, steps: seq<Step>,
                                        grouped: bool, fs: seq<Aggregator>)
    requires IsRun(q, states, steps) && Initial(q, states[0]) && EndOfStream(states[|steps|])
    requires RowsFit(false, fs, KeptTable(q))
    ensures var lots := MessageRows(states[|steps|].delivered);
            && (forall i :: 0 <= i < |lots| ==> RowsFit(false, fs, lots[i]))
            && IsMap(Answer(true, grouped, fs, Partials(grouped, fs, lots)), Meaning(grouped, fs, KeptTable(q)))
  {
    var lots := MessageRows(states[|steps|].delivered);
    EndOfStreamIsComplete(q, states, steps);
    PermutationFits(false, fs, KeptTable(q), Concat(lots));
    LotsOfFittingRows(fs, lots);
    MergeIsMeaning(grouped, fs, lots, KeptTable(q));
  }
}
