/** The queries of the frontend, answered: what the parallel pipeline delivers or merges
    for a SELECT statement is what its plan, as written, means over everything inserted. */
module QueryAnswers {
  import opened Wrappers
  import opened Sequences
  import opened Catalog
  import opened Expressions
  import opened LogicalPlans
  import opened Lowering
  import opened Scans
  import opened Projections
  import opened GroupedTotals
  import opened Exchange
  import opened Queries
  import opened EndToEnd
  import A = Aggregates
  import H = HashAggregate
  import G = Gather
  import P = PhysicalPlans
  import PA = ParallelAggregation
  import QM = QueryMeaning

  /** The scan that is built for the query */
  ghost predicate ScanFor(t: Table, round: Rounding, q: SelectQuery, s: TableScan) {
    && s.Fits(t) && s.skipping && s.condition == PreparedFilter(t.schema, round, q)
    && NameSet(s.columns) == ScannedColumns(t.schema, q)
  }

  // ---- Projecting rows ----

  /** A row under the names of the SELECT list, if it has them all */
  function ProjectTo(names: seq<Name>): Row -> Option<Row> {
    row => Named(names, Lookups(row, names))
  }

  lemma {:induction false} NamedKeys(names: seq<Name>, values: seq<Option<Value>>)
    requires |names| == |values| && Named(names, values).Some?
    ensures Named(names, values).value.Keys == Elements(names)
  {
    if names != [] {
      var last := |names| - 1;
      NamedKeys(names[..last], values[..last]);
      assert names == names[..last] + [names[last]];
    }
  }

  lemma {:induction false} NamedLookups(row: Row, names: seq<Name>)
    requires forall i :: 0 <= i < |names| ==> names[i] in row
    ensures Named(names, Lookups(row, names)).Some?
    ensures var m := Named(names, Lookups(row, names)).value; forall k :: k in m ==> k in row && m[k] == row[k]
  {
    if names != [] {
      var last := |names| - 1;
      NamedLookups(row, names[..last]);
      assert Lookups(row, names)[..last] == Lookups(row, names[..last]);
    }
  }

  /** A row projected to all its names is the row. */
  lemma AllNamesKeepRow(row: Row, names: seq<Name>)
    requires row.Keys == Elements(names)
    ensures ProjectTo(names)(row) == Some(row)
  {
    forall i | 0 <= i < |names| ensures names[i] in row {
      assert names[i] in Elements(names);
    }
    NamedLookups(row, names);
    NamedKeys(names, Lookups(row, names));
    var m := Named(names, Lookups(row, names)).value;
    assert m.Keys == row.Keys;
    assert m == row;
  }

  lemma {:induction false} MappedIsProjected<T>(f: Row -> Option<T>, rows: seq<Row>)
    requires Mapped(f, rows).Some?
    ensures Projected(f, rows) == Projected(x => Some(x), Mapped(f, rows).value)
  {
    MappedAt(f, rows);
  }

  /** Grouped rows have exactly the names of the group columns and the aggregates. */
  lemma GroupedNames(summary: Summary, groupBy: seq<Name>, specs: seq<AggSpec>, rows: seq<Row>)
    requires Grouped(summary, groupBy, specs, rows).Some?
    ensures forall i :: 0 <= i < |Grouped(summary, groupBy, specs, rows).value| ==>
              Grouped(summary, groupBy, specs, rows).value[i].Keys == Elements(groupBy + OutputNames(specs))
  {
    var keys := Mapped(row => AllOf(Lookups(row, groupBy)), rows).value;
    var groups := if groupBy == [] then [[]] else FirstSeen(keys);
    var out := Grouped(summary, groupBy, specs, rows).value;
    GroupRowsAt(summary, groupBy, specs, rows, keys, groups);
    forall i | 0 <= i < |out| ensures out[i].Keys == Elements(groupBy + OutputNames(specs)) {
      GroupRowNames(summary, groupBy, specs, rows, keys, groups[i]);
    }
  }

  lemma GroupRowNames(summary: Summary, groupBy: seq<Name>, specs: seq<AggSpec>, rows: seq<Row>, keys: seq<seq<Value>>, key: seq<Value>)
    requires GroupRow(summary, groupBy, specs, rows, keys, key).Some?
    ensures GroupRow(summary, groupBy, specs, rows, keys, key).value.Keys == Elements(groupBy + OutputNames(specs))
  {
    var results := seq(|specs|, i requires 0 <= i < |specs| => Summarized(summary, specs[i], rows, keys, key));
    NamedKeys(groupBy + OutputNames(specs), Somes(key) + results);
  }

  /** A SELECT list that fits names everything, so projecting changes nothing. */
  lemma FittingListKeepsRows(groupBy: seq<Name>, specs: seq<AggSpec>, items: seq<Name>, rows: seq<Row>)
    requires SelectListFits(groupBy, OutputNames(specs), items)
    requires forall i :: 0 <= i < |rows| ==> rows[i].Keys == Elements(groupBy + OutputNames(specs))
    ensures Mapped(ProjectTo(items), rows) == Some(rows)
  {
    FittingNames(groupBy, OutputNames(specs), items);
    hide SelectListFits, Elements;
    MappedToItself(items, rows);
  }

  lemma {:induction false} MappedToItself(items: seq<Name>, rows: seq<Row>)
    requires forall i :: 0 <= i < |rows| ==> rows[i].Keys == Elements(items)
    ensures Mapped(ProjectTo(items), rows) == Some(rows)
  {
    if rows != [] {
      MappedToItself(items, rows[..|rows| - 1]);
      AllNamesKeepRow(rows[|rows| - 1], items);
      assert rows == rows[..|rows| - 1] + [rows[|rows| - 1]];
      hide ProjectTo;
    }
  }

  lemma FittingNames(groupBy: seq<Name>, outputs: seq<Name>, items: seq<Name>)
    requires SelectListFits(groupBy, outputs, items)
    ensures Elements(items) == Elements(groupBy + outputs)
  {
    forall name | name in groupBy + outputs ensures name in items {
      if name in groupBy {
        var i :| 0 <= i < |groupBy| && groupBy[i] == name;
      } else {
        var j :| 0 <= j < |outputs| && outputs[j] == name;
      }
    }
    forall name | name in items ensures name in groupBy + outputs {
      var k :| 0 <= k < |items| && items[k] == name;
    }
  }

  // ---- Running the prepared plan ----

  /** The source of the plan gives what the scan gives. */
  lemma SourceAnswers(t: Table, round: Rounding, q: SelectQuery, s: TableScan, summary: Summary)
    requires ScanFor(t, round, q, s)
    ensures s.Answer(t).Some?
    ensures P.RunAnswer(summary, SourcePlan(q.table, s.condition, NameSet(s.columns)), t.Wholes()) == s.Answer(t)
  {
    ScanAnswers(t, s);
    PartsAreNarrowed(t, s);
    assert t.Rows() == P.AllRows(t.Wholes());
    hide P.ZonesBound, Selected, P.AllRows, P.Unskipped, TableScan.Fits, NameSet, P.CanSkip, EmittedRows, Passed;
    if s.condition.Some? {
      FilterAnswers(t.Wholes(), s.condition.value, NameSet(s.columns), summary, q.table);
    }
  }

  lemma FilterAnswers(parts: seq<P.Part>, condition: PhysicalExpr, columns: set<Name>, summary: Summary, table: Name)
    requires forall i :: 0 <= i < |parts| ==> P.ZonesBound(parts[i])
    requires Selected(Filtering.Test(condition), P.RestrictAll(P.AllRows(parts), columns)).Some?
    ensures P.RunAnswer(summary, SourcePlan(table, Some(condition), columns), parts)
         == Selected(Filtering.Test(condition), P.RestrictAll(P.AllRows(parts), columns))
  {
    var test := row => Truth(EvalPhysical(condition, row));
    hide P.ZonesBound, Selected, P.AllRows, P.Unskipped;
    SelectedSame(Filtering.Test(condition), test, P.RestrictAll(P.AllRows(parts), columns));
    P.SkippingKeepsSelection(condition, parts, columns);
    var scan := P.ZoneMapScan(table, columns, condition);
    assert P.RunAnswer(summary, scan, parts) == Some(P.RestrictAll(P.AllRows(P.Unskipped(condition, parts)), columns));
  }

  /** The projection and the aggregation over the source's rows */
  lemma TopAnswers(summary: Summary, items: seq<PhysicalExpr>, aggregating: bool, groupBy: seq<PhysicalExpr>, specs: seq<AggSpec>,
                   source: P.PhysicalPlan, parts: seq<P.Part>, rows: seq<Row>, itemNames: seq<Name>, groupNames: seq<Name>)
    requires P.RunAnswer(summary, source, parts) == Some(rows)
    requires P.RefNames(items) == Some(itemNames) && P.RefNames(groupBy) == Some(groupNames)
    ensures var grouped := if aggregating then Grouped(summary, groupNames, specs, rows) else Some(rows);
            P.RunAnswer(summary, TopPlan(items, aggregating, groupBy, specs, source), parts)
            == if grouped.None? then None else Mapped(ProjectTo(itemNames), grouped.value)
  {
    hide Mapped, Grouped, Named, P.RefNames;
    if aggregating {
      assert P.RunAnswer(summary, P.AggregateRows(groupBy, specs, source), parts) == Grouped(summary, groupNames, specs, rows);
    }
    assert forall rows: seq<Row> :: Mapped(row => Named(itemNames, Lookups(row, itemNames)), rows) == Mapped(ProjectTo(itemNames), rows);
  }

  /** The answer of the query as written, in terms of what the scan gives */
  lemma AnswerAsWritten(t: Table, round: Rounding, q: SelectQuery, s: TableScan, summary: Summary)
    requires ScanFor(t, round, q, s) && Accepts(t.schema, q) && q.limit.None?
    requires Answer(summary, PlanOf(q), t.Rows()).Some?
    ensures s.Answer(t).Some? && NamesOf(q.items).Some? && NamesOf(q.groupBy).Some? && SpecsOf(AggregatesIn(q.items)).Some?
    ensures var groupBy, specs := NamesOf(q.groupBy).value, SpecsOf(AggregatesIn(q.items)).value;
            var grouped := if IsAggregating(q) then Grouped(summary, groupBy, specs, s.Answer(t).value) else s.Answer(t);
            grouped.Some? && Answer(summary, PlanOf(q), t.Rows()) == Mapped(ProjectTo(NamesOf(q.items).value), grouped.value)
  {
    PartsAreNarrowed(t, s);
    assert t.Rows() == P.AllRows(t.Wholes());
    hide *;
    PlanIsGood(t.schema, q);
    QueryNames(round, q, t.schema);
    QueryIsPrepared(t.schema, round, q);
    QM.QueryMeaningIsKept(summary, t.schema, round, PlanOf(q), t.Wholes());
    SourceAnswers(t, round, q, s, summary);
    var source := SourcePlan(q.table, s.condition, NameSet(s.columns));
    SourceOfScan(t, round, q, s);
    TopAnswers(summary, LowerExprs(round, q.items).value, IsAggregating(q), LowerExprs(round, q.groupBy).value,
               SpecsOf(AggregatesIn(q.items)).value, source, t.Wholes(), s.Answer(t).value, NamesOf(q.items).value, NamesOf(q.groupBy).value);
  }

  lemma SourceOfScan(t: Table, round: Rounding, q: SelectQuery, s: TableScan)
    requires ScanFor(t, round, q, s)
    ensures SourcePlan(q.table, PreparedFilter(t.schema, round, q), ScannedColumns(t.schema, q))
         == SourcePlan(q.table, s.condition, NameSet(s.columns))
  {
    hide PreparedFilter, ScannedColumns, NameSet;
  }

  lemma QueryNames(round: Rounding, q: SelectQuery, schema: seq<ColumnSchema>)
    requires Accepts(schema, q)
    ensures NamesOf(q.items).Some? && NamesOf(q.groupBy).Some? && SpecsOf(AggregatesIn(q.items)).Some?
    ensures LowerExprs(round, q.items).Some? && P.RefNames(LowerExprs(round, q.items).value) == NamesOf(q.items)
    ensures LowerExprs(round, q.groupBy).Some? && P.RefNames(LowerExprs(round, q.groupBy).value) == NamesOf(q.groupBy)
    ensures NamedAfter(SpecsOf(AggregatesIn(q.items)).value)
  {
    ItemNames(q.items);
    NamesLower(round, q.items);
    ColumnNames(q.groupBy, ColumnsOf(q.groupBy));
    NamesLower(round, q.groupBy);
    AggregateSpecs(q.items);
  }

  // ---- Streaming queries ----

  /** The scan reads every column of the SELECT list, so the workers' projections find
      them all. */
  lemma ItemsAreScanned(t: Table, round: Rounding, q: SelectQuery, s: TableScan)
    requires ScanFor(t, round, q, s) && Accepts(t.schema, q) && !IsAggregating(q)
    ensures NamesOf(q.items).Some? && PicksOf(FieldNames(s.columns), NamesOf(q.items).value).Some?
  {
    ItemNames(q.items);
    NoAggregatesIn(q.items);
    assert ColumnsOf(q.items) <= Collected(OptimizedPlan(t.schema, q));
    NamesAreColumns(q.items, NameSet(s.columns));
    var names := NamesOf(q.items).value;
    forall k | 0 <= k < |names| ensures names[k] in FieldNames(s.columns) {
      assert names[k] in NameSet(s.columns);
      var c :| 0 <= c < |s.columns| && s.columns[c].name == names[k];
      assert FieldNames(s.columns)[c] == names[k];
    }
  }

  /** A query without aggregates: whatever the schedule, when the receiver sees the end,
      the rows that have arrived, projected by the workers, are the query's answer. */
  lemma EveryScheduleDeliversAsWritten(t: Table, round: Rounding, q: SelectQuery, s: TableScan, summary: Summary,
                                       states: seq<G.State<Row>>, steps: seq<G.Step>)
    requires ScanFor(t, round, q, s) && Accepts(t.schema, q) && q.limit.None? && !IsAggregating(q)
    requires Answer(summary, PlanOf(q), t.Rows()).Some?
    requires var p := Pipeline(t, s, false); G.IsRun(p, states, steps) && G.Initial(p, states[0])
    requires G.EndOfStream(states[|steps|])
    ensures NamesOf(q.items).Some? && PicksOf(FieldNames(s.columns), NamesOf(q.items).value).Some?
    ensures multiset(Projected(ProjectTo(NamesOf(q.items).value), Concat(G.MessageRows(states[|steps|].delivered))))
         == multiset(Projected(row => Some(row), Answer(summary, PlanOf(q), t.Rows()).value))
  {
    AnswerAsWritten(t, round, q, s, summary);
    ItemsAreScanned(t, round, q, s);
    assert s.Fits(t);
    assert G.RowsIn(states[|steps|].delivered) == multiset(Concat(G.MessageRows(states[|steps|].delivered)));
    hide *;
    EveryScheduleDeliversTheAnswer(t, s, states, steps);
    var names, received := NamesOf(q.items).value, Concat(G.MessageRows(states[|steps|].delivered));
    A.ProjectedPermutation(ProjectTo(names), received, s.Answer(t).value);
    MappedIsProjected(ProjectTo(names), s.Answer(t).value);
  }

  // ---- Aggregating queries ----

  /** The rows of a partial result as the merge reads them */
  ghost function Received(w: Wires, sent: seq<A.Row<seq<Value>>>): (received: seq<A.Row<seq<Value>>>)
    requires forall i :: 0 <= i < |sent| ==> Reaches(w, sent[i])
    ensures |received| == |sent| && forall i :: 0 <= i < |sent| ==> received[i] == Rewired(w, sent[i])
  {
    seq(|sent|, i requires 0 <= i < |sent| => Rewired(w, sent[i]))
  }

  /** What the workers send, batch after batch */
  ghost function Sent(schema: seq<ColumnSchema>, groupBy: seq<Name>, specs: seq<AggSpec>, lots: seq<seq<Row>>): seq<A.Row<seq<Value>>> {
    InputLotsFit(schema, groupBy, specs, lots);
    PA.Partials(groupBy != [], Funcs(schema, specs), ProjectedLots(Input(groupBy, specs), lots))
  }

  lemma InputLotsFit(schema: seq<ColumnSchema>, groupBy: seq<Name>, specs: seq<AggSpec>, lots: seq<seq<Row>>)
    ensures var inputs := ProjectedLots(Input(groupBy, specs), lots);
            forall i :: 0 <= i < |inputs| ==> A.RowsFit(false, Funcs(schema, specs), inputs[i])
  {
    forall i | 0 <= i < |lots| ensures A.RowsFit(false, Funcs(schema, specs), Projected(Input(groupBy, specs), lots[i])) {
      InputsFit(schema, groupBy, specs, lots[i]);
    }
  }

  /** Every row that a worker sends is consistent. */
  lemma SentIsConsistent(schema: seq<ColumnSchema>, groupBy: seq<Name>, specs: seq<AggSpec>, lots: seq<seq<Row>>)
    requires NamedAfter(specs) && forall row :: row in Concat(lots) ==> KeysBy(groupBy)(row).Some?
    ensures forall r :: r in Sent(schema, groupBy, specs, lots) ==> ConsistentRow(groupBy, OutputNames(specs), r)
  {
    InputLotsFit(schema, groupBy, specs, lots);
    var fs, inputs := Funcs(schema, specs), ProjectedLots(Input(groupBy, specs), lots);
    var batches := PA.PartialBatches(groupBy != [], fs, inputs);
    hide A.RowsFit, ConsistentRow, KeysBy, PA.PartialBatches;
    forall r | r in Sent(schema, groupBy, specs, lots) ensures ConsistentRow(groupBy, OutputNames(specs), r) {
      InSomeLot(batches, r);
      var i :| 0 <= i < |batches| && r in batches[i];
      LotHasKeys(groupBy, lots, i);
      PartialIsConsistent(schema, groupBy, specs, lots[i]);
    }
  }

  lemma LotHasKeys(groupBy: seq<Name>, lots: seq<seq<Row>>, i: nat)
    requires i < |lots| && forall row :: row in Concat(lots) ==> KeysBy(groupBy)(row).Some?
    ensures forall k :: 0 <= k < |lots[i]| ==> KeysBy(groupBy)(lots[i][k]).Some?
  {
    forall k | 0 <= k < |lots[i]| ensures KeysBy(groupBy)(lots[i][k]).Some? {
      LotIsIn(lots, i, lots[i][k]);
    }
  }

  /** Through wires that lead each name to itself, consistent rows arrive as they were. */
  lemma ReceivedIsSent(groupBy: seq<Name>, outputs: seq<Name>, w: Wires, sent: seq<A.Row<seq<Value>>>)
    requires Leads(groupBy, w.keys) && Leads(outputs, w.states)
    requires forall r :: r in sent ==> ConsistentRow(groupBy, outputs, r)
    ensures (forall i :: 0 <= i < |sent| ==> Reaches(w, sent[i])) && Received(w, sent) == sent
  {
    hide Leads, ConsistentRow, Reaches, Rewired;
    forall i | 0 <= i < |sent| ensures Reaches(w, sent[i]) && Rewired(w, sent[i]) == sent[i] {
      assert sent[i] in sent;
      RewiredIsSame(groupBy, outputs, w, sent[i]);
    }
  }

  /** The rows that arrive have group keys, because the answer's rows have. */
  lemma RowsHaveKeys(groupBy: seq<Name>, lots: seq<seq<Row>>, rows: seq<Row>)
    requires Mapped(KeysBy(groupBy), rows).Some? && multiset(Concat(lots)) == multiset(rows)
    ensures forall row :: row in Concat(lots) ==> KeysBy(groupBy)(row).Some?
  {
    MappedAt(KeysBy(groupBy), rows);
    forall row | row in Concat(lots) ensures KeysBy(groupBy)(row).Some? {
      assert row in multiset(rows);
      var i :| 0 <= i < |rows| && rows[i] == row;
    }
  }

  /** The merge of what it received, under the names of the query */
  ghost function Merged(schema: seq<ColumnSchema>, quotient: Quotient, groupBy: seq<Name>, specs: seq<AggSpec>,
                        lots: seq<seq<Row>>): seq<Option<Row>> {
    Projected(Label(quotient, groupBy, specs),
              H.Answer(true, groupBy != [], Funcs(schema, specs), Sent(schema, groupBy, specs, lots)))
  }

  /** An aggregating query: every schedule of any number of workers. The merge finds the
      columns it looks for exactly if the SELECT list fits; it then reads each row as it
      was sent, and the merged rows are the answer of the query as written. */
  lemma EveryScheduleAnswersAsWritten(t: Table, round: Rounding, q: SelectQuery, s: TableScan, quotient: Quotient,
                                      states: seq<G.State<Row>>, steps: seq<G.Step>)
    requires ScanFor(t, round, q, s) && Accepts(t.schema, q) && q.limit.None? && IsAggregating(q)
    requires Answer(TotalsSummary(t.schema, quotient), PlanOf(q), t.Rows()).Some?
    requires var p := Pipeline(t, s, true); G.IsRun(p, states, steps) && G.Initial(p, states[0])
    requires G.EndOfStream(states[|steps|])
    ensures NamesOf(q.items).Some? && NamesOf(q.groupBy).Some? && SpecsOf(AggregatesIn(q.items)).Some?
    ensures var items, groupBy, specs := NamesOf(q.items).value, NamesOf(q.groupBy).value, SpecsOf(AggregatesIn(q.items)).value;
            var wiring, lots := Wiring(groupBy, OutputNames(specs), items), G.MessageRows(states[|steps|].delivered);
            var sent := Sent(t.schema, groupBy, specs, lots);
            && (wiring.Some? <==> SelectListFits(groupBy, OutputNames(specs), items))
            && (wiring.Some? ==>
                  && (forall i :: 0 <= i < |sent| ==> Reaches(wiring.value, sent[i])) && Received(wiring.value, sent) == sent
                  && multiset(Merged(t.schema, quotient, groupBy, specs, lots))
                  == multiset(Projected(row => Some(row), Answer(TotalsSummary(t.schema, quotient), PlanOf(q), t.Rows()).value)))
  {
    AnswerAsWritten(t, round, q, s, TotalsSummary(t.schema, quotient));
    QueryNames(round, q, t.schema);
    assert s.Fits(t);
    var items, groupBy, specs := NamesOf(q.items).value, NamesOf(q.groupBy).value, SpecsOf(AggregatesIn(q.items)).value;
    hide *;
    WiredExactlyWhen(groupBy, OutputNames(specs), items);
    if Wiring(groupBy, OutputNames(specs), items).Some? {
      MergeAnswersScan(t, s, quotient, groupBy, specs, states, steps);
      FittingAnswer(TotalsSummary(t.schema, quotient), groupBy, specs, items, s.Answer(t).value);
      ReceivedIsSent(groupBy, OutputNames(specs), Wiring(groupBy, OutputNames(specs), items).value,
                     Sent(t.schema, groupBy, specs, G.MessageRows(states[|steps|].delivered)));
    }
  }

  lemma FittingAnswer(summary: Summary, groupBy: seq<Name>, specs: seq<AggSpec>, items: seq<Name>, rows: seq<Row>)
    requires SelectListFits(groupBy, OutputNames(specs), items) && Grouped(summary, groupBy, specs, rows).Some?
    ensures Mapped(ProjectTo(items), Grouped(summary, groupBy, specs, rows).value) == Grouped(summary, groupBy, specs, rows)
  {
    GroupedNames(summary, groupBy, specs, rows);
    hide *;
    FittingListKeepsRows(groupBy, specs, items, Grouped(summary, groupBy, specs, rows).value);
  }

  /** What the workers send is consistent, and its merge is the grouping of the scan's rows. */
  lemma MergeAnswersScan(t: Table, s: TableScan, quotient: Quotient, groupBy: seq<Name>, specs: seq<AggSpec>,
                         states: seq<G.State<Row>>, steps: seq<G.Step>)
    requires s.Fits(t) && s.Answer(t).Some? && NamedAfter(specs)
    requires Grouped(TotalsSummary(t.schema, quotient), groupBy, specs, s.Answer(t).value).Some?
    requires var p := Pipeline(t, s, true); G.IsRun(p, states, steps) && G.Initial(p, states[0])
    requires G.EndOfStream(states[|steps|])
    ensures var lots := G.MessageRows(states[|steps|].delivered);
            && (forall r :: r in Sent(t.schema, groupBy, specs, lots) ==> ConsistentRow(groupBy, OutputNames(specs), r))
            && multiset(Merged(t.schema, quotient, groupBy, specs, lots))
            == multiset(Projected(row => Some(row), Grouped(TotalsSummary(t.schema, quotient), groupBy, specs, s.Answer(t).value).value))
  {
    var rows, lots, fs := s.Answer(t).value, G.MessageRows(states[|steps|].delivered), Funcs(t.schema, specs);
    assert Mapped(KeysBy(groupBy), rows).Some? by { GroupedHasKeys(TotalsSummary(t.schema, quotient), groupBy, specs, rows); }
    assert G.RowsIn(states[|steps|].delivered) == multiset(Concat(lots));
    assert Merged(t.schema, quotient, groupBy, specs, lots)
        == Projected(Label(quotient, groupBy, specs), H.Answer(true, groupBy != [], fs, Sent(t.schema, groupBy, specs, lots)));
    InputLotsFit(t.schema, groupBy, specs, lots);
    assert Sent(t.schema, groupBy, specs, lots) == PA.Partials(groupBy != [], fs, ProjectedLots(Input(groupBy, specs), lots));
    hide *;
    PipelineDelivers(t, s, states, steps);
    RowsHaveKeys(groupBy, lots, rows);
    SentIsConsistent(t.schema, groupBy, specs, lots);
    InputsFit(t.schema, groupBy, specs, rows);
    EveryScheduleAnswersTheQuery(t, s, Input(groupBy, specs), groupBy != [], fs, states, steps);
    MergedIsGrouped(t.schema, quotient, groupBy, specs, rows, H.Answer(true, groupBy != [], fs, Sent(t.schema, groupBy, specs, lots)));
  }

  lemma GroupedHasKeys(summary: Summary, groupBy: seq<Name>, specs: seq<AggSpec>, rows: seq<Row>)
    requires Grouped(summary, groupBy, specs, rows).Some?
    ensures Mapped(KeysBy(groupBy), rows).Some?
  {
    assert Mapped(row => AllOf(Lookups(row, groupBy)), rows) == Mapped(KeysBy(groupBy), rows);
  }

  lemma PipelineDelivers(t: Table, s: TableScan, states: seq<G.State<Row>>, steps: seq<G.Step>)
    requires s.Fits(t) && s.Answer(t).Some?
    requires var p := Pipeline(t, s, true); G.IsRun(p, states, steps) && G.Initial(p, states[0])
    requires G.EndOfStream(states[|steps|])
    ensures G.RowsIn(states[|steps|].delivered) == multiset(s.Answer(t).value)
  {
    hide *;
    PipelineKeepsAnswer(t, s, true);
    G.EndOfStreamIsComplete(Pipeline(t, s, true), states, steps);
  }

  // ---- A SELECT list that does not fit ----

  lemma {:induction false} NamedIfAll(names: seq<Name>, values: seq<Option<Value>>)
    requires |names| == |values| && forall i :: 0 <= i < |values| ==> values[i].Some?
    ensures Named(names, values).Some?
  {
    if names != [] { NamedIfAll(names[..|names| - 1], values[..|names| - 1]); }
  }

  lemma MappedOne<T>(f: Row -> Option<T>, row: Row)
    requires f(row).Some?
    ensures Mapped(f, [row]) == Some([f(row).value])
  {
    var rows, none: seq<T> := [row], [];
    assert rows[..|rows| - 1] == [] && none + [f(row).value] == [f(row).value];
  }

  lemma OneKey(row: Row, name: Name)
    requires name in row
    ensures KeysBy([name])(row) == Some([row[name]])
  {
    var options: seq<Option<Value>> := [Some(row[name])];
    var none: seq<Value> := [];
    assert Lookups(row, [name]) == options && options[..|options| - 1] == [] && none + [row[name]] == [row[name]];
    assert AllOf(options[..|options| - 1]) == Some([]) && AllOf(options) == Some([row[name]]);
  }

  lemma OneName(e: LogicalExpr)
    requires NameOf(e).Some?
    ensures NamesOf([e]) == Some([NameOf(e).value])
  {
    var es, none: seq<Name> := [e], [];
    assert es[..|es| - 1] == [] && none + [NameOf(e).value] == [NameOf(e).value];
  }

  lemma OneSpec(e: LogicalExpr)
    requires e.Aggregate?
    ensures SpecsOf([e]) == Some([SpecOf(e).value]) && AggregatesIn([e]) == [e]
  {
    var es, none: seq<LogicalExpr>, noSpec: seq<AggSpec> := [e], [], [];
    assert es[..|es| - 1] == [] && none + [e] == [e] && noSpec + [SpecOf(e).value] == [SpecOf(e).value];
    assert AggregatesIn(es[..|es| - 1]) == [] && AggregatesIn(es) == [e];
  }

  lemma OneGroup(summary: Summary, groupBy: seq<Name>, specs: seq<AggSpec>, rows: seq<Row>, keys: seq<seq<Value>>, key: seq<Value>)
    requires GroupRow(summary, groupBy, specs, rows, keys, key).Some?
    ensures GroupRows(summary, groupBy, specs, rows, keys, [key]) == Some([GroupRow(summary, groupBy, specs, rows, keys, key).value])
  {
    hide GroupRow;
    var groups, none: seq<Row> := [key], [];
    var row := GroupRow(summary, groupBy, specs, rows, keys, key).value;
    assert groups[..|groups| - 1] == [] && none + [row] == [row];
  }

  lemma OneSeen<T>(x: T)
    ensures FirstSeen([x]) == [x]
  {
    assert [x][..0] == [];
  }

  /** Counting in a group of one row */
  lemma OneCounts(schema: seq<ColumnSchema>, quotient: Quotient, country: Name, spec: AggSpec, row: Row)
    requires country in row && spec.column in row && spec.func == Count
    ensures GroupRow(TotalsSummary(schema, quotient), [country], [spec], [row], [[row[country]]], [row[country]]).Some?
  {
    var summary, key := TotalsSummary(schema, quotient), [row[country]];
    MappedOne(row => Lookup(row, spec.column), row);
    var results := seq(1, i requires 0 <= i < 1 => Summarized(summary, [spec][i], [row], [key], key));
    assert results[0].Some?;
    NamedIfAll([country] + OutputNames([spec]), Somes(key) + results);
  }

  /** Counting in a table of one row */
  lemma CountsOneGroup(schema: seq<ColumnSchema>, quotient: Quotient, country: Name, spec: AggSpec, row: Row)
    requires country in row && spec.column in row && spec.func == Count
    ensures Grouped(TotalsSummary(schema, quotient), [country], [spec], [row]).Some?
    ensures Mapped(ProjectTo([spec.outputName]), Grouped(TotalsSummary(schema, quotient), [country], [spec], [row]).value).Some?
  {
    var summary, names, key := TotalsSummary(schema, quotient), [country], [row[country]];
    OneKey(row, country);
    MappedOne(KeysBy(names), row);
    assert Mapped(row => AllOf(Lookups(row, names)), [row]) == Mapped(KeysBy(names), [row]);
    OneSeen(key);
    OneCounts(schema, quotient, country, spec, row);
    OneGroup(summary, names, [spec], [row], [key], key);
    var out := GroupRow(summary, names, [spec], [row], [key], key).value;
    hide GroupRow, GroupRows, FirstSeen, Mapped, Lookups, Named;
    assert Grouped(summary, names, [spec], [row]) == Some([out]);
    GroupedNames(summary, names, [spec], [row]);
    assert [out][0] == out;
    ProjectsOne(names, spec, out);
  }

  lemma ProjectsOne(groupBy: seq<Name>, spec: AggSpec, out: Row)
    requires out.Keys == Elements(groupBy + OutputNames([spec]))
    ensures Mapped(ProjectTo([spec.outputName]), [out]).Some?
  {
    var fields := groupBy + OutputNames([spec]);
    assert fields[|groupBy|] == spec.outputName && spec.outputName in Elements(fields);
    NamedLookups(out, [spec.outputName]);
    MappedOne(ProjectTo([spec.outputName]), out);
  }

  lemma AnswerOfSelected(summary: Summary, table: Name, groupBy: seq<LogicalExpr>, items: seq<LogicalExpr>, rows: seq<Row>)
    requires AllColumns(groupBy) && NamesOf(groupBy).Some? && SpecsOf(items).Some? && NamesOf(items).Some?
    requires Grouped(summary, NamesOf(groupBy).value, SpecsOf(items).value, rows).Some?
    ensures Answer(summary, Project(items, Aggregation(groupBy, items, Scan(table))), rows)
         == Mapped(ProjectTo(NamesOf(items).value), Grouped(summary, NamesOf(groupBy).value, SpecsOf(items).value, rows).value)
  {
    hide Grouped, Mapped, NamesOf, SpecsOf, Named;
    var names, grouped := NamesOf(items).value, Grouped(summary, NamesOf(groupBy).value, SpecsOf(items).value, rows).value;
    assert Answer(summary, Scan(table), rows) == Some(rows);
    assert Answer(summary, Aggregation(groupBy, items, Scan(table)), rows) == Some(grouped);
    assert Mapped(row => Named(names, Lookups(row, names)), grouped) == Mapped(ProjectTo(names), grouped);
  }

  /** `SELECT COUNT(id) FROM users GROUP BY country` is accepted and has an answer, but the
      merge looks for a column that the workers did not send. */
  lemma OmittedGroupColumnIsMissed(schema: seq<ColumnSchema>, quotient: Quotient, users: Name, country: Name, id: Name, row: Row)
    requires country in row && id in row
    ensures var q := SelectQuery(users, None, [Column(users, country)], [Aggregate(Count, id)], None);
            && Accepts(schema, q) && IsAggregating(q) && Answer(TotalsSummary(schema, quotient), PlanOf(q), [row]).Some?
            && Wiring([country], [OutputName(Count, id)], [OutputName(Count, id)]).None?
  {
    var items, count := [OutputName(Count, id)], Aggregate(Count, id);
    var q := SelectQuery(users, None, [Column(users, country)], [count], None);
    OneSpec(count);
    OneName(count);
    OneName(Column(users, country));
    CountsOneGroup(schema, quotient, country, SpecOf(count).value, row);
    assert PlanOf(q) == Project(q.items, Aggregation(q.groupBy, q.items, Scan(users)));
    AnswerOfSelected(TotalsSummary(schema, quotient), users, q.groupBy, q.items, [row]);
    hide *;
    WiredExactlyWhen([country], items, items);
    OmittedDoesNotFit(country, OutputName(Count, id));
  }

  lemma OmittedDoesNotFit(name: Name, output: Name)
    ensures !SelectListFits([name], [output], [output])
  {
    assert [name][0] in [output] <==> name == output;
    assert [output][0] in [name] <==> name == output;
  }
}
