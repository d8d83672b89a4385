/** From inserted batches to answers: the parts built of them are scanned granule by
    granule, filtered, and aggregated by any number of workers. */
module EndToEnd {
  import opened Wrappers
  import opened Sequences
  import opened Bytes
  import opened Catalog
  import opened ColumnFormat
  import opened Granules
  import opened Expressions
  import opened TableWriter
  import opened Scans
  import opened Runtime
  import opened Filtering
  import A = Aggregates
  import H = HashAggregate
  import G = Gather
  import L = LogicalPlans
  import P = PhysicalPlans
  import PA = ParallelAggregation

  // ---- A table and a scan of it ----

  /** An inserted batch and the directory that was built of it */
  datatype Insert = Insert(batch: seq<Chunk>, rows: nat, dir: PartDir)

  datatype Table = Table(lz4: Lz4, utf8: seq<Byte> -> bool, schema: seq<ColumnSchema>, inserts: seq<Insert>) {
    /** `BuildPart` made every directory, of a batch with rows. */
    ghost predicate Valid() {
      && DistinctNames(schema)
      && forall i :: 0 <= i < |inserts| ==>
           inserts[i].rows > 0 && Built(lz4, utf8, schema, inserts[i].batch, inserts[i].rows, inserts[i].dir)
    }

    /** An inserted batch as rows, with the zone map of its part */
    ghost function Whole(i: nat): P.Part
      requires Valid() && i < |inserts|
    {
      P.Part(RowsOf(utf8, schema, inserts[i].batch, inserts[i].rows), ZonesIn(utf8, inserts[i].dir))
    }

    ghost function Wholes(): (wholes: seq<P.Part>)
      requires Valid()
      ensures |wholes| == |inserts| && forall i :: 0 <= i < |inserts| ==> wholes[i] == Whole(i)
    {
      seq(|inserts|, i requires 0 <= i < |inserts| => Whole(i))
    }

    /** Everything that was inserted, row by row */
    ghost function Rows(): seq<Row>
      requires Valid()
    {
      P.AllRows(Wholes())
    }

    function Dirs(): (dirs: seq<PartDir>)
      ensures |dirs| == |inserts| && forall i :: 0 <= i < |inserts| ==> dirs[i] == inserts[i].dir
    {
      seq(|inserts|, i requires 0 <= i < |inserts| => inserts[i].dir)
    }
  }

  /** Some columns of the table, a condition on them if there is a filter, and whether
      the scan skips by it */
  datatype TableScan = TableScan(columns: seq<ColumnSchema>, picks: seq<nat>, condition: Option<PhysicalExpr>, skipping: bool) {
    ghost predicate Fits(t: Table) {
      && t.Valid() && columns != [] && Picks(t.schema, columns, picks) && DistinctNames(columns)
      && (condition.Some? ==> GoodCondition(columns, condition.value))
    }

    function Skip(): Option<PhysicalExpr> {
      if skipping then condition else None
    }

    /** The scanned columns of every part */
    ghost function Parts(t: Table): (parts: seq<PartData>)
      requires Fits(t)
      ensures |parts| == |t.inserts|
      ensures forall i :: 0 <= i < |t.inserts| ==>
                |t.inserts[i].batch| == |t.schema| && parts[i] == Picked(t.inserts[i].batch, picks, t.inserts[i].rows)
    {
      seq(|t.inserts|, i requires 0 <= i < |t.inserts| => Picked(t.inserts[i].batch, picks, t.inserts[i].rows))
    }

    /** The inserted rows, those that satisfy the condition if there is one, with the
        scanned columns of each */
    ghost function Answer(t: Table): Option<seq<Row>>
      requires Fits(t)
    {
      var rows := P.RestrictAll(t.Rows(), NameSet(columns));
      if condition.None? then Some(rows) else L.Selected(Test(condition.value), rows)
    }
  }

  lemma InsertIsScanned(t: Table, s: TableScan, i: nat)
    requires s.Fits(t) && i < |t.inserts|
    ensures var x, part := t.inserts[i], s.Parts(t)[i];
            && WholePart(part) && DirHolds(t.lz4, t.utf8, s.columns, x.dir, part) && TypedPart(s.columns, part)
            && TakenFrom(t.utf8, s.columns, x.dir, part, t.Whole(i))
  {
    hide P.ZonesBound, FileHolds, Runnable, NoFloats;
    var x := t.inserts[i];
    assert Built(t.lz4, t.utf8, t.schema, x.batch, x.rows, x.dir);
    WrittenPartScans(t.lz4, t.utf8, t.schema, x.batch, x.rows, x.dir, s.columns, s.picks);
  }

  // ---- One worker ----

  lemma EveryInsertIsScanned(t: Table, s: TableScan)
    requires s.Fits(t)
    ensures AllWhole(s.Parts(t)) && (forall i :: 0 <= i < |t.inserts| ==> TypedPart(s.columns, s.Parts(t)[i]))
    ensures forall i :: 0 <= i < |t.inserts| ==> DirHolds(t.lz4, t.utf8, s.columns, t.Dirs()[i], s.Parts(t)[i])
    ensures forall i :: 0 <= i < |t.inserts| ==> TakenFrom(t.utf8, s.columns, t.Dirs()[i], s.Parts(t)[i], t.Wholes()[i])
  {
    hide TypedPart, DirHolds, TakenFrom, GoodCondition, Picks, Built;
    forall i | 0 <= i < |t.inserts|
      ensures WholePart(s.Parts(t)[i]) && TypedPart(s.columns, s.Parts(t)[i])
      ensures DirHolds(t.lz4, t.utf8, s.columns, t.Dirs()[i], s.Parts(t)[i])
      ensures TakenFrom(t.utf8, s.columns, t.Dirs()[i], s.Parts(t)[i], t.Wholes()[i])
    {
      InsertIsScanned(t, s, i);
    }
  }

  lemma PartsAreNarrowed(t: Table, s: TableScan)
    requires s.Fits(t)
    ensures forall i :: 0 <= i < |t.inserts| ==> ScannedPart(s.columns, s.Parts(t)[i])
    ensures forall i :: 0 <= i < |t.inserts| ==> P.ZonesBound(t.Wholes()[i])
    ensures Narrowed(PlanParts(t.utf8, s.columns, t.Dirs(), s.Parts(t)), t.Wholes(), NameSet(s.columns))
  {
    EveryInsertIsScanned(t, s);
    hide TypedPart, DirHolds, P.ZonesBound, GoodCondition, ZonesIn, Built, PartRows, L.Selected, P.AllRows, NameSet;
  }

  /** What a worker on its own passes on: the batches of the scan, filtered if there is a
      condition */
  ghost function Passed(t: Table, s: TableScan): (batches: seq<Batch>)
    requires s.Fits(t)
    ensures AreBatches(s.columns, batches)
  {
    EveryInsertIsScanned(t, s);
    ScanEmitsRows(t.utf8, s.columns, s.Skip(), t.Dirs(), s.Parts(t));
    var batches := BatchesFrom(t.utf8, s.Skip(), t.Dirs(), s.Parts(t), 0);
    if s.condition.None? then batches
    else
      ScanEvaluates(t.utf8, s.columns, s.condition.value, s.Skip(), t.Dirs(), s.Parts(t), 0);
      FilteredAll(s.columns, s.condition.value, batches)
  }

  /** The rows that come out are the inserted rows that satisfy the condition, in order,
      whether parts are skipped or not. */
  lemma ScanAnswers(t: Table, s: TableScan)
    requires s.Fits(t)
    ensures s.Answer(t) == Some(EmittedRows(s.columns, Passed(t, s)))
  {
    EveryInsertIsScanned(t, s);
    PartsAreNarrowed(t, s);
    hide TypedPart, TakenFrom, FilteredAll, BatchesFrom, AllWhole, EmittedRows, P.AllRows, NameSet, P.ZonesBound, GoodCondition, L.Selected;
    if s.condition.None? {
      ScanEmitsRows(t.utf8, s.columns, None, t.Dirs(), s.Parts(t));
      NarrowedRows(PlanParts(t.utf8, s.columns, t.Dirs(), s.Parts(t)), t.Wholes(), NameSet(s.columns));
    } else {
      FilteredScanSelects(t.utf8, s.columns, s.condition.value, s.Skip(), t.Dirs(), s.Parts(t), t.Wholes());
    }
  }

  /** A worker on its own: it opens the scan, puts the filter on top if there is one, and
      pulls batches until there are none. */
  method Scan(t: Table, s: TableScan) returns (batches: seq<Batch>)
    requires s.Fits(t)
    ensures AreBatches(s.columns, batches) && s.Answer(t) == Some(EmittedRows(s.columns, batches))
  {
    EveryInsertIsScanned(t, s);
    ScanAnswers(t, s);
    ghost var passed, coming := Passed(t, s), BatchesFrom(t.utf8, s.Skip(), t.Dirs(), s.Parts(t), 0);
    assert |s.columns| > 0 && (s.condition.None? ==> passed == coming);
    if s.condition.Some? {
      ScanEvaluates(t.utf8, s.columns, s.condition.value, s.Skip(), t.Dirs(), s.Parts(t), 0);
      assert GoodCondition(s.columns, s.condition.value) && passed == FilteredAll(s.columns, s.condition.value, coming);
    }
    hide *;
    var source := new G.PartWorkSource(t.Dirs());
    var scan := new ScanExec(t.lz4, t.utf8, s.columns, s.Skip(), source, s.Parts(t));
    match s.condition
    case None => batches := DrainScan(scan);
    case Some(condition) =>
      var filter := new FilterExec(condition, scan);
      batches := Drain(filter);
  }

  method DrainScan(scan: ScanExec) returns (batches: seq<Batch>)
    requires scan.Valid()
    modifies scan, scan.source, Objects(scan.readers)
    ensures batches == old(scan.Pending())
  {
    hide ScanExec.Pending, ScanExec.Valid;
    batches := [];
    ghost var coming := scan.Pending();
    while true
      invariant scan.Valid() && fresh(Objects(scan.readers) - old(Objects(scan.readers)))
      invariant batches + scan.Pending() == coming
      decreases |scan.Pending()|
    {
      ghost var pending := scan.Pending();
      var out := scan.NextBatch();
      if out.None? {
        return;
      }
      assert pending == [pending[0]] + pending[1..];
      Associates(batches, [pending[0]], pending[1..]);
      batches := batches + [out.value];
    }
  }

  method Drain(filter: FilterExec) returns (batches: seq<Batch>)
    requires filter.Valid() && GoodCondition(filter.child.columns, filter.condition)
    modifies filter.child, filter.child.source, Objects(filter.child.readers)
    ensures batches == old(filter.Passing())
  {
    hide GoodCondition, Pulled, FilteredAll, ScanExec.Pending, ScanExec.Valid, AllEvaluate, FilterExec.Passing, IsBatch;
    batches := [];
    ghost var coming := filter.Passing();
    while true
      invariant filter.Valid() && GoodCondition(filter.child.columns, filter.condition)
      invariant fresh(Objects(filter.child.readers) - old(Objects(filter.child.readers)))
      invariant batches + filter.Passing() == coming
      decreases |filter.Passing()|
    {
      ghost var passing := filter.Passing();
      var out := filter.NextBatch();
      if out.None? {
        return;
      }
      assert passing == [passing[0]] + passing[1..];
      Associates(batches, [passing[0]], passing[1..]);
      batches := batches + [out.value.value];
    }
  }

  // ---- Any number of workers ----

  /** What the step system of `Gather` calls keeping a row */
  function Keeps(condition: Option<PhysicalExpr>): Row -> bool {
    row => condition.None? || Truth(EvalPhysical(condition.value, row)) == Some(true)
  }

  /** The granules of a part that are read: none if its zone map rules it out */
  ghost function GranulesRead(t: Table, s: TableScan, i: nat): seq<seq<Row>>
    requires s.Fits(t) && i < |t.inserts|
  {
    InsertIsScanned(t, s, i);
    if Skipped(t.utf8, s.Skip(), t.inserts[i].dir) then [] else AllGranules(PartRows(s.columns, s.Parts(t)[i]))
  }

  /** The parallel pipeline over the table */
  ghost function Pipeline(t: Table, s: TableScan, aggregating: bool): (q: G.Query<Row>)
    requires s.Fits(t)
    ensures |q.parts| == |t.inserts| && forall i :: 0 <= i < |t.inserts| ==> q.parts[i] == GranulesRead(t, s, i)
    ensures q.keep == Keeps(s.condition) && q.aggregating == aggregating
  {
    G.Query(seq(|t.inserts|, i requires 0 <= i < |t.inserts| => GranulesRead(t, s, i)), Keeps(s.condition), aggregating)
  }

  /** What a worker passes on of one batch */
  ghost function PassedOn(s: TableScan, batch: Batch): Batch
    requires s.condition.Some? ==> GoodCondition(s.columns, s.condition.value) && Evaluates(s.columns, s.condition.value, batch)
  {
    if s.condition.None? then batch else Filtered(s.columns, s.condition.value, batch)
  }

  /** A granule of the step system is a batch of the scan, and what it keeps of it is what
      the worker passes on. */
  lemma GranuleIsBatch(t: Table, s: TableScan, i: nat, g: nat)
    requires s.Fits(t) && i < |t.inserts| && g < |GranulesRead(t, s, i)|
    ensures var part := s.Parts(t)[i];
            && WholePart(part) && g < GranuleCount(part.rows) && IsBatch(s.columns, BatchOf(part, g))
            && (s.condition.Some? ==> Evaluates(s.columns, s.condition.value, BatchOf(part, g)))
            && var (batch, passed) := (BatchOf(part, g), PassedOn(s, BatchOf(part, g)));
               && IsBatch(s.columns, passed)
               && GranulesRead(t, s, i)[g] == RowsIn(s.columns, batch, batch[0].Length())
               && Kept(Keeps(s.condition), GranulesRead(t, s, i)[g]) == RowsIn(s.columns, passed, passed[0].Length())
  {
    InsertIsScanned(t, s, i);
    var part := s.Parts(t)[i];
    hide DirHolds, TakenFrom, NoFloats, Runnable, RowsIn, Filtered, L.Selected, Kept, GoodCondition;
    BatchRowsAreGranule(s.columns, part, g);
    var batch := BatchOf(part, g);
    if s.condition.None? {
      AllKept(GranulesRead(t, s, i)[g]);
    } else {
      TypedPartEvaluates(s.columns, s.condition.value, part);
      assert PartBatches(part)[g] == batch;
      FilteredBatchRows(s.columns, s.condition.value, batch);
      SelectedIsKept(s.condition.value, GranulesRead(t, s, i)[g]);
    }
  }

  lemma {:induction false} SelectedIsKept(condition: PhysicalExpr, rows: seq<Row>)
    requires L.Selected(Test(condition), rows).Some?
    ensures L.Selected(Test(condition), rows) == Some(Kept(Keeps(Some(condition)), rows))
  {
    if rows != [] {
      SelectedIsKept(condition, rows[..|rows| - 1]);
    }
  }

  lemma {:induction false} AllKept(rows: seq<Row>)
    ensures Kept(Keeps(None), rows) == rows
  {
    if rows != [] {
      AllKept(rows[..|rows| - 1]);
      assert rows == rows[..|rows| - 1] + [rows[|rows| - 1]];
    }
  }

  lemma {:induction false} ReadLots(skip: Option<PhysicalExpr>, parts: seq<P.Part>, lots: seq<seq<Row>>)
    requires |lots| == |parts|
    requires forall i :: 0 <= i < |parts| ==>
               lots[i] == if skip.Some? && P.CanSkip(skip.value, parts[i].zones) then [] else parts[i].rows
    ensures Concat(lots) == P.AllRows(Read(skip, parts))
  {
    hide P.CanSkip;
    if parts != [] {
      var n := |parts| - 1;
      ReadLots(skip, parts[..n], lots[..n]);
      if skip.Some? {
        var kept := P.Unskipped(skip.value, parts[..n]);
        assert (kept + [parts[n]])[..|kept|] == kept;
        assert kept + [] == kept && Concat(lots[..n]) + [] == Concat(lots[..n]);
      }
    }
  }

  lemma PipelineRows(t: Table, s: TableScan, aggregating: bool)
    requires s.Fits(t)
    ensures forall i :: 0 <= i < |t.inserts| ==> ScannedPart(s.columns, s.Parts(t)[i])
    ensures Concat(G.PartRows(Pipeline(t, s, aggregating))) == P.AllRows(Read(s.Skip(), PlanParts(t.utf8, s.columns, t.Dirs(), s.Parts(t))))
  {
    EveryInsertIsScanned(t, s);
    hide TypedPart, DirHolds, P.ZonesBound, GoodCondition, P.CanSkip, ZonesIn, Built, PartRows, AllGranules;
    var q, all := Pipeline(t, s, aggregating), PlanParts(t.utf8, s.columns, t.Dirs(), s.Parts(t));
    forall i | 0 <= i < |all|
      ensures G.PartRows(q)[i] == if s.Skip().Some? && P.CanSkip(s.Skip().value, all[i].zones) then [] else all[i].rows
    {
      GranulesJoin(all[i].rows);
      assert q.parts[i] == GranulesRead(t, s, i);
    }
    ReadLots(s.Skip(), all, G.PartRows(q));
  }

  /** The rows the pipeline keeps are the inserted rows that satisfy the condition. */
  lemma PipelineKeepsAnswer(t: Table, s: TableScan, aggregating: bool)
    requires s.Fits(t)
    ensures s.Answer(t) == Some(G.KeptTable(Pipeline(t, s, aggregating)))
  {
    var q, all := Pipeline(t, s, aggregating), PlanParts(t.utf8, s.columns, t.Dirs(), s.Parts(t));
    assert G.KeptTable(q) == Kept(Keeps(s.condition), Concat(G.PartRows(q)));
    ScanAnswers(t, s);
    PartsAreNarrowed(t, s);
    PipelineRows(t, s, aggregating);
    hide Kept, P.AllRows, Narrowed, L.Selected, P.ZonesBound, ScannedPart, NameSet, EmittedRows, Passed, PlanParts, P.Unskipped, GoodCondition;
    if s.condition.None? {
      AllKept(P.AllRows(all));
      NarrowedRows(all, t.Wholes(), NameSet(s.columns));
    } else {
      ReadKeepsSelection(s.condition.value, s.Skip(), all, t.Wholes(), NameSet(s.columns));
      SelectedIsKept(s.condition.value, P.AllRows(Read(s.Skip(), all)));
    }
  }

  /** Streaming: whatever the schedule, when the receiver sees the end it has received
      exactly the inserted rows that satisfy the condition. */
  lemma EveryScheduleDeliversTheAnswer(t: Table, s: TableScan, states: seq<G.State<Row>>, steps: seq<G.Step>)
    requires s.Fits(t)
    requires var q := Pipeline(t, s, false); G.IsRun(q, states, steps) && G.Initial(q, states[0])
    requires G.EndOfStream(states[|steps|])
    ensures s.Answer(t).Some? && G.RowsIn(states[|steps|].delivered) == multiset(s.Answer(t).value)
  {
    PipelineKeepsAnswer(t, s, false);
    G.EndOfStreamIsComplete(Pipeline(t, s, false), states, steps);
  }

  // ---- Aggregation over any number of workers ----

  ghost function ProjectedLots<R, S>(f: R -> S, lots: seq<seq<R>>): (projected: seq<seq<S>>)
    ensures |projected| == |lots| && forall i :: 0 <= i < |lots| ==> projected[i] == Projected(f, lots[i])
  {
    seq(|lots|, i requires 0 <= i < |lots| => Projected(f, lots[i]))
  }

  lemma {:induction false} ProjectedConcat<R, S>(f: R -> S, lots: seq<seq<R>>)
    ensures Concat(ProjectedLots(f, lots)) == Projected(f, Concat(lots))
  {
    if lots != [] {
      var n := |lots| - 1;
      ProjectedConcat(f, lots[..n]);
      assert ProjectedLots(f, lots)[..n] == ProjectedLots(f, lots[..n]);
    }
  }

  /** The whole way: batches that were inserted, parts built of them, and any number of
      workers that scan, filter and aggregate on any schedule. The merge of their partial
      results is the sequential answer over the inserted rows that satisfy the condition.
      `project` takes a row to its group key and the aggregates' arguments. */
  lemma EveryScheduleAnswersTheQuery<K>(t: Table, s: TableScan, project: Row -> A.Row<K>, grouped: bool, fs: seq<A.Aggregator>,
                                        states: seq<G.State<Row>>, steps: seq<G.Step>)
    requires s.Fits(t)
    requires var q := Pipeline(t, s, true); G.IsRun(q, states, steps) && G.Initial(q, states[0])
    requires G.EndOfStream(states[|steps|])
    requires s.Answer(t).Some? ==> A.RowsFit(false, fs, Projected(project, s.Answer(t).value))
    ensures s.Answer(t).Some?
    ensures var lots := ProjectedLots(project, G.MessageRows(states[|steps|].delivered));
            && (forall i :: 0 <= i < |lots| ==> A.RowsFit(false, fs, lots[i]))
            && PA.IsMap(H.Answer(true, grouped, fs, PA.Partials(grouped, fs, lots)),
                        PA.Meaning(grouped, fs, Projected(project, s.Answer(t).value)))
  {
    PipelineKeepsAnswer(t, s, true);
    var received, table := G.MessageRows(states[|steps|].delivered), s.Answer(t).value;
    G.EndOfStreamIsComplete(Pipeline(t, s, true), states, steps);
    var lots := ProjectedLots(project, received);
    ProjectedConcat(project, received);
    A.ProjectedPermutation(project, Concat(received), table);
    hide *;
    A.PermutationFits(false, fs, Projected(project, table), Concat(lots));
    PA.LotsOfFittingRows(fs, lots);
    PA.MergeIsMeaning(grouped, fs, lots, Projected(project, table));
  }
}
