/** The filter above a scan: rows that fail the condition are dropped from each batch,
    and batches left empty are not passed on. */
module Filtering {
  import opened Wrappers
  import opened Sequences
  import opened Catalog
  import opened Expressions
  import opened LogicalPlans
  import opened Lowering
  import opened TableWriter
  import opened Scans
  import opened Runtime
  import P = PhysicalPlans
  import opened Bytes

  // ---- Filtering one batch ----

  /** The places where the mask is true */
  function Positions(mask: seq<bool>): (ps: seq<nat>)
    ensures |ps| <= |mask| && forall j :: 0 <= j < |ps| ==> ps[j] < |mask|
  {
    if mask == [] then []
    else
      var last := |mask| - 1;
      Positions(mask[..last]) + if mask[last] then [last] else []
  }

  function Chosen<T>(s: seq<T>, ps: seq<nat>): (t: seq<T>)
    requires forall j :: 0 <= j < |ps| ==> ps[j] < |s|
    ensures |t| == |ps| && forall j :: 0 <= j < |ps| ==> t[j] == s[ps[j]]
  {
    seq(|ps|, j requires 0 <= j < |ps| && ps[j] < |s| => s[ps[j]])
  }

  function ChosenColumn(data: ColumnData, ps: seq<nat>): (t: ColumnData)
    requires forall j :: 0 <= j < |ps| ==> ps[j] < data.Length()
    ensures t.Length() == |ps|
  {
    var n := data.Length();
    assert forall j :: 0 <= j < |ps| ==> ps[j] < n;
    if data.Numbers? then Numbers(Chosen(data.ns, ps)) else Strings(Chosen(data.ss, ps))
  }

  /** `filter_record_batch`; rows beyond a short mask are dropped. */
  function FilterBatch(batch: Batch, rows: nat, mask: seq<bool>): (filtered: Batch)
    requires Rectangular(batch, rows) && |mask| <= rows
    ensures |filtered| == |batch| && Rectangular(filtered, |Positions(mask)|)
    ensures forall c :: 0 <= c < |batch| ==> filtered[c] == ChosenColumn(batch[c], Positions(mask))
  {
    seq(|batch|, c requires 0 <= c < |batch| => ChosenColumn(batch[c], Positions(mask)))
  }

  lemma ChosenCell(dt: DataType, data: ColumnData, ps: seq<nat>, j: nat)
    requires j < |ps| && forall i :: 0 <= i < |ps| ==> ps[i] < data.Length()
    ensures ValueAt(Chunk(dt, ChosenColumn(data, ps)), j) == ValueAt(Chunk(dt, data), ps[j])
  {
  }

  lemma ChosenRow(columns: seq<ColumnSchema>, batch: Batch, rows: nat, ps: seq<nat>, filtered: Batch, j: nat)
    requires DistinctNames(columns) && |batch| == |columns| == |filtered| && Rectangular(batch, rows) && Rectangular(filtered, |ps|)
    requires j < |ps| && forall i :: 0 <= i < |ps| ==> ps[i] < rows
    requires forall c :: 0 <= c < |batch| ==> filtered[c] == ChosenColumn(batch[c], ps)
    ensures RowAt(columns, ChunksOf(columns, filtered), j) == RowAt(columns, ChunksOf(columns, batch), ps[j])
  {
    var few, all, k := ChunksOf(columns, filtered), ChunksOf(columns, batch), ps[j];
    hide RowAt, ValueAt, ChosenColumn, ChunksOf;
    forall c | 0 <= c < |columns|
      ensures j < few[c].data.Length() && k < all[c].data.Length() && ValueAt(few[c], j) == ValueAt(all[c], k)
    {
      ChosenCell(columns[c].dataType, batch[c], ps, j);
    }
    SameRow(columns, few, j, all, k);
  }

  lemma FilteredRows(columns: seq<ColumnSchema>, batch: Batch, rows: nat, mask: seq<bool>)
    requires DistinctNames(columns) && |batch| == |columns| && Rectangular(batch, rows) && |mask| == rows
    ensures var ps := Positions(mask);
            RowsIn(columns, FilterBatch(batch, rows, mask), |ps|) == Chosen(RowsIn(columns, batch, rows), ps)
  {
    var ps, filtered := Positions(mask), FilterBatch(batch, rows, mask);
    var few, all := RowsIn(columns, filtered, |ps|), RowsIn(columns, batch, rows);
    hide RowAt, RowsIn, ChunksOf, Positions, ChosenColumn, FilterBatch;
    forall j | 0 <= j < |ps| ensures few[j] == all[ps[j]] {
      ChosenRow(columns, batch, rows, ps, filtered, j);
    }
    IsChosen(few, all, ps);
  }

  lemma IsChosen<T>(few: seq<T>, all: seq<T>, ps: seq<nat>)
    requires |few| == |ps| && forall j :: 0 <= j < |ps| ==> ps[j] < |all| && few[j] == all[ps[j]]
    ensures few == Chosen(all, ps)
  {
  }

  lemma {:induction false} SelectedIsChosen(test: Row -> Option<bool>, rows: seq<Row>, mask: seq<bool>)
    requires |mask| == |rows| && forall i :: 0 <= i < |rows| ==> test(rows[i]) == Some(mask[i])
    ensures Selected(test, rows) == Some(Chosen(rows, Positions(mask)))
  {
    if rows != [] {
      var last := |rows| - 1;
      SelectedIsChosen(test, rows[..last], mask[..last]);
      var front := Positions(mask[..last]);
      assert Chosen(rows, front) == Chosen(rows[..last], front);
      assert Chosen(rows, front + [last]) == Chosen(rows, front) + [rows[last]];
      assert Chosen(rows, front) + [] == Chosen(rows, front) && front + [] == front;
    }
  }

  // ---- Filtering a stream of batches ----

  ghost predicate Evaluates(columns: seq<ColumnSchema>, condition: PhysicalExpr, batch: Batch) {
    && IsBatch(columns, batch) && batch[0].Length() > 0 && TypedBatch(columns, batch, batch[0].Length())
    && NoFloats(condition) && DistinctNames(columns)
  }

  /** The scan's batches hold values of the columns' types. */
  ghost predicate AllEvaluate(columns: seq<ColumnSchema>, condition: PhysicalExpr, batches: seq<Batch>) {
    forall i :: 0 <= i < |batches| ==> Evaluates(columns, condition, batches[i])
  }

  ghost predicate GoodCondition(columns: seq<ColumnSchema>, condition: PhysicalExpr) {
    DistinctNames(columns) && NoFloats(condition) && Runnable(columns, condition)
  }

  ghost function Filtered(columns: seq<ColumnSchema>, condition: PhysicalExpr, batch: Batch): (f: Batch)
    requires GoodCondition(columns, condition) && Evaluates(columns, condition, batch)
    ensures IsBatch(columns, f)
  {
    var rows := batch[0].Length();
    RunnableGivesVerdicts(columns, batch, rows, condition);
    FilterBatch(batch, rows, EvaluatePredicate(columns, batch, rows, condition).value)
  }

  /** What the filter passes on of the batches to come */
  ghost function FilteredAll(columns: seq<ColumnSchema>, condition: PhysicalExpr, batches: seq<Batch>): (fs: seq<Batch>)
    requires GoodCondition(columns, condition) && AllEvaluate(columns, condition, batches)
    ensures AreBatches(columns, fs)
    ensures forall i :: 0 <= i < |fs| ==> IsBatch(columns, fs[i]) && fs[i][0].Length() > 0
    decreases |batches|
  {
    if batches == [] then []
    else
      assert Evaluates(columns, condition, batches[0]);
      assert AllEvaluate(columns, condition, batches[1..]) by {
        assert forall i :: 0 <= i < |batches| - 1 ==> batches[1..][i] == batches[i + 1];
      }
      var first := Filtered(columns, condition, batches[0]);
      (if first[0].Length() > 0 then [first] else []) + FilteredAll(columns, condition, batches[1..])
  }

  ghost function Test(condition: PhysicalExpr): Row -> Option<bool> {
    row => Truth(EvalPhysical(condition, row))
  }

  lemma FilteredBatchRows(columns: seq<ColumnSchema>, condition: PhysicalExpr, batch: Batch)
    requires GoodCondition(columns, condition) && Evaluates(columns, condition, batch)
    ensures var f := Filtered(columns, condition, batch);
            Selected(Test(condition), RowsIn(columns, batch, batch[0].Length())) == Some(RowsIn(columns, f, f[0].Length()))
  {
    var rows := batch[0].Length();
    RunnableGivesVerdicts(columns, batch, rows, condition);
    var mask := EvaluatePredicate(columns, batch, rows, condition).value;
    FilteredRows(columns, batch, rows, mask);
    SelectedIsChosen(Test(condition), RowsIn(columns, batch, rows), mask);
  }

  /** The rows the filter passes on are the scanned rows that satisfy the condition. */
  lemma {:induction false} FilterSelectsRows(columns: seq<ColumnSchema>, condition: PhysicalExpr, batches: seq<Batch>)
    requires GoodCondition(columns, condition) && AllEvaluate(columns, condition, batches) && AreBatches(columns, batches)
    ensures Selected(Test(condition), EmittedRows(columns, batches))
         == Some(EmittedRows(columns, FilteredAll(columns, condition, batches)))
    decreases |batches|
  {
    if batches == [] {
      assert RowLots(columns, batches) == [];
    } else {
      var first, rest := batches[0], batches[1..];
      assert forall i :: 0 <= i < |batches| - 1 ==> rest[i] == batches[i + 1];
      assert Evaluates(columns, condition, first) && AllEvaluate(columns, condition, rest) && AreBatches(columns, rest);
      assert batches == [first] + rest;
      FilterSelectsRows(columns, condition, rest);
      FilterSelectsStep(columns, condition, first, rest);
    }
  }

  lemma FilterSelectsStep(columns: seq<ColumnSchema>, condition: PhysicalExpr, first: Batch, rest: seq<Batch>)
    requires GoodCondition(columns, condition) && Evaluates(columns, condition, first)
    requires AllEvaluate(columns, condition, rest) && AreBatches(columns, rest) && AllEvaluate(columns, condition, [first] + rest)
    requires Selected(Test(condition), EmittedRows(columns, rest))
          == Some(EmittedRows(columns, FilteredAll(columns, condition, rest)))
    ensures AreBatches(columns, [first] + rest)
    ensures Selected(Test(condition), EmittedRows(columns, [first] + rest))
         == Some(EmittedRows(columns, FilteredAll(columns, condition, [first] + rest)))
  {
    assert ([first] + rest)[1..] == rest;
    OneBatchMore(columns, first, rest);
    FilteredBatchRows(columns, condition, first);
    var f, passed := Filtered(columns, condition, first), FilteredAll(columns, condition, rest);
    assert FilteredAll(columns, condition, [first] + rest) == (if f[0].Length() > 0 then [f] else []) + passed;
    OneBatchMore(columns, f, passed);
    hide RowsIn, Filtered, Evaluates, Test, Selected, EmittedRows, GoodCondition, AllEvaluate;
    P.SelectedOfConcat(Test(condition), RowsIn(columns, first, first[0].Length()), EmittedRows(columns, rest));
    if f[0].Length() == 0 {
      assert RowsIn(columns, f, 0) == [];
      assert [] + passed == passed && RowsIn(columns, f, 0) + EmittedRows(columns, passed) == EmittedRows(columns, passed);
    }
  }

  lemma OneBatchMore(columns: seq<ColumnSchema>, first: Batch, rest: seq<Batch>)
    requires DistinctNames(columns) && IsBatch(columns, first) && AreBatches(columns, rest)
    ensures AreBatches(columns, [first] + rest)
    ensures EmittedRows(columns, [first] + rest) == RowsIn(columns, first, first[0].Length()) + EmittedRows(columns, rest)
  {
    hide RowsIn;
    assert AreBatches(columns, [first]);
    EmittedOfConcat(columns, [first], rest);
    assert RowLots(columns, [first]) == [RowsIn(columns, first, first[0].Length())];
    ConcatOfOne(RowsIn(columns, first, first[0].Length()));
  }

  // ---- Skipping below a filter ----

  /** The parts that the scanned columns were taken from: true zone maps over all the
      columns, of whose rows the scan sees the scanned ones */
  ghost predicate TakenFrom(utf8: seq<Byte> -> bool, columns: seq<ColumnSchema>, dir: PartDir, part: PartData, whole: P.Part) {
    && DistinctNames(columns) && ScannedPart(columns, part)
    && P.ZonesBound(whole) && whole.zones == ZonesIn(utf8, dir)
    && PartRows(columns, part) == P.RestrictAll(whole.rows, NameSet(columns))
  }

  /** Parts whose rows are those of others, restricted */
  ghost predicate Narrowed(narrow: seq<P.Part>, wholes: seq<P.Part>, names: set<Name>) {
    && |narrow| == |wholes|
    && forall i :: 0 <= i < |narrow| ==>
         narrow[i].rows == P.RestrictAll(wholes[i].rows, names) && narrow[i].zones == wholes[i].zones
  }

  lemma {:induction false} NarrowedRows(narrow: seq<P.Part>, wholes: seq<P.Part>, names: set<Name>)
    requires Narrowed(narrow, wholes, names)
    ensures P.AllRows(narrow) == P.RestrictAll(P.AllRows(wholes), names)
  {
    if narrow != [] {
      var n := |narrow| - 1;
      NarrowedRows(narrow[..n], wholes[..n], names);
      assert P.RestrictAll(P.AllRows(wholes), names)
          == P.RestrictAll(P.AllRows(wholes[..n]), names) + P.RestrictAll(wholes[n].rows, names);
    }
  }

  /** Equal zone maps, so the same parts are skipped. */
  lemma {:induction false} UnskippedNarrowed(skip: PhysicalExpr, narrow: seq<P.Part>, wholes: seq<P.Part>, names: set<Name>)
    requires Narrowed(narrow, wholes, names)
    ensures Narrowed(P.Unskipped(skip, narrow), P.Unskipped(skip, wholes), names)
  {
    hide P.CanSkip;
    if narrow != [] {
      UnskippedNarrowed(skip, narrow[..|narrow| - 1], wholes[..|narrow| - 1], names);
    }
  }

  ghost predicate TypedPart(columns: seq<ColumnSchema>, part: PartData) {
    && ScannedPart(columns, part)
    && forall c :: 0 <= c < |columns| ==> !IsFloat(columns[c].dataType) && (columns[c].dataType == Str <==> part.columns[c].Strings?)
  }

  lemma TypedPartEvaluates(columns: seq<ColumnSchema>, condition: PhysicalExpr, part: PartData)
    requires TypedPart(columns, part) && NoFloats(condition) && DistinctNames(columns)
    ensures AllEvaluate(columns, condition, PartBatches(part))
  {
    forall g | 0 <= g < |PartBatches(part)| ensures Evaluates(columns, condition, PartBatches(part)[g]) {
      BatchRowsAreGranule(columns, part, g);
      BatchIsRectangular(part, g);
    }
  }

  /** The batches of a scan can be evaluated. */
  lemma {:induction false} ScanEvaluates(utf8: seq<Byte> -> bool, columns: seq<ColumnSchema>, condition: PhysicalExpr,
                                         skip: Option<PhysicalExpr>,
                                         dirs: seq<PartDir>, parts: seq<PartData>, next: nat)
    requires NoFloats(condition) && DistinctNames(columns) && |dirs| == |parts| && AllWhole(parts)
    requires forall i :: 0 <= i < |parts| ==> TypedPart(columns, parts[i])
    ensures AllEvaluate(columns, condition, BatchesFrom(utf8, skip, dirs, parts, next))
    decreases |parts| - next
  {
    BatchesStep(utf8, skip, dirs, parts, next);
    hide *;
    NoneEvaluate(columns, condition);
    if next < |parts| {
      ScanEvaluates(utf8, columns, condition, skip, dirs, parts, next + 1);
      var later := BatchesFrom(utf8, skip, dirs, parts, next + 1);
      if Skipped(utf8, skip, dirs[next]) {
        BothEvaluate(columns, condition, [], later);
      } else {
        TypedPartEvaluates(columns, condition, parts[next]);
        BothEvaluate(columns, condition, PartBatches(parts[next]), later);
      }
    }
  }

  lemma NoneEvaluate(columns: seq<ColumnSchema>, condition: PhysicalExpr)
    ensures AllEvaluate(columns, condition, [])
  {
  }

  lemma BothEvaluate(columns: seq<ColumnSchema>, condition: PhysicalExpr, a: seq<Batch>, b: seq<Batch>)
    requires AllEvaluate(columns, condition, a) && AllEvaluate(columns, condition, b)
    ensures AllEvaluate(columns, condition, a + b)
  {
    hide Evaluates;
  }

  /** Selecting from what is read, restricted, is selecting from all the parts' rows. */
  lemma ReadKeepsSelection(condition: PhysicalExpr, skip: Option<PhysicalExpr>, narrow: seq<P.Part>, wholes: seq<P.Part>, names: set<Name>)
    requires Narrowed(narrow, wholes, names) && skip in {None, Some(condition)}
    requires forall i :: 0 <= i < |wholes| ==> P.ZonesBound(wholes[i])
    requires Selected(Test(condition), P.RestrictAll(P.AllRows(wholes), names)).Some?
    ensures Selected(Test(condition), P.AllRows(Read(skip, narrow))) == Selected(Test(condition), P.RestrictAll(P.AllRows(wholes), names))
  {
    hide P.ZonesBound, Selected, P.CanSkip, Narrowed;
    NarrowedRows(narrow, wholes, names);
    UnskippedNarrowed(condition, narrow, wholes, names);
    NarrowedRows(P.Unskipped(condition, narrow), P.Unskipped(condition, wholes), names);
    P.SkippingKeepsSelection(condition, wholes, names);
  }

  /** What a scan that reads these parts, or those the condition does not rule out, has
      its filter pass on: the rows of the whole parts that satisfy the condition, with
      the scanned columns of each. */
  lemma FilteredScanSelects(utf8: seq<Byte> -> bool, columns: seq<ColumnSchema>, condition: PhysicalExpr, skip: Option<PhysicalExpr>,
                            dirs: seq<PartDir>, parts: seq<PartData>, wholes: seq<P.Part>)
    requires GoodCondition(columns, condition) && skip in {None, Some(condition)}
    requires |dirs| == |parts| == |wholes| && AllWhole(parts)
    requires forall i :: 0 <= i < |parts| ==> TypedPart(columns, parts[i])
    requires forall i :: 0 <= i < |parts| ==> TakenFrom(utf8, columns, dirs[i], parts[i], wholes[i])
    ensures var batches := BatchesFrom(utf8, skip, dirs, parts, 0);
            AllEvaluate(columns, condition, batches)
            && Selected(Test(condition), P.RestrictAll(P.AllRows(wholes), NameSet(columns)))
            == Some(EmittedRows(columns, FilteredAll(columns, condition, batches)))
  {
    hide AllWhole, P.ZonesBound, Runnable, NoFloats, AllEvaluate, FilteredAll, BatchesFrom, EmittedRows, Selected, P.CanSkip, IsBatch;
    var all, names := PlanParts(utf8, columns, dirs, parts), NameSet(columns);
    assert Narrowed(all, wholes, names);
    NarrowedRows(all, wholes, names);
    ScanEvaluates(utf8, columns, condition, None, dirs, parts, 0);
    ScanEmitsRows(utf8, columns, None, dirs, parts);
    FilterSelectsRows(columns, condition, BatchesFrom(utf8, None, dirs, parts, 0));
    ScanEvaluates(utf8, columns, condition, skip, dirs, parts, 0);
    ScanEmitsRows(utf8, columns, skip, dirs, parts);
    FilterSelectsRows(columns, condition, BatchesFrom(utf8, skip, dirs, parts, 0));
    ReadKeepsSelection(condition, skip, all, wholes, names);
  }

  /** Over parts with true zone maps, a filter passes on the same rows whether the scan
      below skips by the filter's condition or reads every part, and whichever columns
      the scan reads. */
  lemma SkippingIsInvisible(utf8: seq<Byte> -> bool, columns: seq<ColumnSchema>, condition: PhysicalExpr,
                            dirs: seq<PartDir>, parts: seq<PartData>, wholes: seq<P.Part>)
    requires GoodCondition(columns, condition) && |dirs| == |parts| == |wholes| && AllWhole(parts)
    requires forall i :: 0 <= i < |parts| ==> TypedPart(columns, parts[i])
    requires forall i :: 0 <= i < |parts| ==> TakenFrom(utf8, columns, dirs[i], parts[i], wholes[i])
    ensures var full, zoned := BatchesFrom(utf8, None, dirs, parts, 0), BatchesFrom(utf8, Some(condition), dirs, parts, 0);
            AllEvaluate(columns, condition, full) && AllEvaluate(columns, condition, zoned)
            && EmittedRows(columns, FilteredAll(columns, condition, zoned)) == EmittedRows(columns, FilteredAll(columns, condition, full))
  {
    hide *;
    FilteredScanSelects(utf8, columns, condition, None, dirs, parts, wholes);
    FilteredScanSelects(utf8, columns, condition, Some(condition), dirs, parts, wholes);
  }

  // ---- One call, whatever the condition ----

  lemma PendingStep(columns: seq<ColumnSchema>, condition: PhysicalExpr, pending: seq<Batch>)
    requires AllEvaluate(columns, condition, pending) && pending != []
    ensures Evaluates(columns, condition, pending[0]) && IsBatch(columns, pending[0])
    ensures AllEvaluate(columns, condition, pending[1..])
    ensures GoodCondition(columns, condition) ==>
            var first := Filtered(columns, condition, pending[0]);
            FilteredAll(columns, condition, pending)
            == (if first[0].Length() > 0 then [first] else []) + FilteredAll(columns, condition, pending[1..])
  {
    assert forall i :: 0 <= i < |pending| - 1 ==> pending[1..][i] == pending[i + 1];
  }

  ghost function Mask(columns: seq<ColumnSchema>, condition: PhysicalExpr, batch: Batch): (mask: Result<seq<bool>, ExprError>)
    requires Evaluates(columns, condition, batch)
    ensures mask.Ok? ==> |mask.value| <= batch[0].Length()
  {
    RunsExactlyWhen(columns, batch, batch[0].Length(), condition);
    EvaluatePredicate(columns, batch, batch[0].Length(), condition)
  }

  /** What a call makes of the batches to come: the first one with rows left, or the
      first error, and the batches after it */
  ghost function Pulled(columns: seq<ColumnSchema>, condition: PhysicalExpr, batches: seq<Batch>)
    : (pulled: (Option<Result<Batch, ExprError>>, seq<Batch>))
    requires AllEvaluate(columns, condition, batches)
    ensures AllEvaluate(columns, condition, pulled.1)
    decreases |batches|
  {
    if batches == [] then (None, [])
    else
      PendingStep(columns, condition, batches);
      var first, rest := batches[0], batches[1..];
      var mask := Mask(columns, condition, first);
      if mask.Err? then (Some(Err(mask.error)), rest)
      else
        var filtered := FilterBatch(first, first[0].Length(), mask.value);
        if filtered[0].Length() > 0 then (Some(Ok(filtered)), rest) else Pulled(columns, condition, rest)
  }

  lemma PulledStep(columns: seq<ColumnSchema>, condition: PhysicalExpr, batches: seq<Batch>)
    requires AllEvaluate(columns, condition, batches)
    ensures batches == [] ==> Pulled(columns, condition, batches) == (None, [])
    ensures batches != [] ==>
              && Evaluates(columns, condition, batches[0]) && AllEvaluate(columns, condition, batches[1..]) && IsBatch(columns, batches[0])
              && var (first, rest) := (batches[0], batches[1..]);
                 var mask := Mask(columns, condition, first);
                 && |first| == |columns| > 0 && Rectangular(first, first[0].Length())
                 && Pulled(columns, condition, batches)
                 == if mask.Err? then (Some(Err(mask.error)), rest)
                    else
                      var filtered := FilterBatch(first, first[0].Length(), mask.value);
                      if filtered[0].Length() > 0 then (Some(Ok(filtered)), rest) else Pulled(columns, condition, rest)
  {
    if batches != [] { PendingStep(columns, condition, batches); }
  }

  lemma GoodMask(columns: seq<ColumnSchema>, condition: PhysicalExpr, batch: Batch)
    requires GoodCondition(columns, condition) && Evaluates(columns, condition, batch)
    ensures var mask := Mask(columns, condition, batch);
            mask.Ok? && Filtered(columns, condition, batch) == FilterBatch(batch, batch[0].Length(), mask.value)
  {
    RunnableGivesVerdicts(columns, batch, batch[0].Length(), condition);
  }

  /** A condition that can run: calls pass on the filtered batches one by one. */
  lemma {:induction false} GoodConditionPulls(columns: seq<ColumnSchema>, condition: PhysicalExpr, batches: seq<Batch>)
    requires GoodCondition(columns, condition) && AllEvaluate(columns, condition, batches)
    ensures var passing, (out, rest) := FilteredAll(columns, condition, batches), Pulled(columns, condition, batches);
            if passing == [] then out == None && rest == [] && FilteredAll(columns, condition, rest) == []
            else out == Some(Ok(passing[0])) && FilteredAll(columns, condition, rest) == passing[1..]
    decreases |batches|
  {
    if batches != [] {
      PulledStep(columns, condition, batches);
      PendingStep(columns, condition, batches);
      GoodConditionPulls(columns, condition, batches[1..]);
      GoodMask(columns, condition, batches[0]);
      hide *;
      var first := Filtered(columns, condition, batches[0]);
      var later := FilteredAll(columns, condition, batches[1..]);
      assert [] + later == later && ([first] + later)[1..] == later;
    }
  }

  /** A condition that fails: the first batch gives the error, with several rows even if
      constants and columns are merely mixed. */
  lemma FailingConditionFails(columns: seq<ColumnSchema>, condition: PhysicalExpr, batches: seq<Batch>)
    requires AllEvaluate(columns, condition, batches) && batches != []
    requires !Succeeds(OutcomeOf(columns, condition), batches[0][0].Length())
    ensures var (out, rest) := Pulled(columns, condition, batches);
            out.Some? && out.value.Err? && rest == batches[1..]
  {
    PendingStep(columns, condition, batches);
    RunsExactlyWhen(columns, batches[0], batches[0][0].Length(), condition);
  }

  /** A condition that compares literals with literals: if it holds, each call passes on
      the first row of a batch and loses the others. */
  lemma {:induction false} ConstantKeepsOneRow(columns: seq<ColumnSchema>, condition: PhysicalExpr, batches: seq<Batch>, row: Row)
    requires AllEvaluate(columns, condition, batches) && batches != [] && OutcomeOf(columns, condition) == PerBatch
    ensures Truth(EvalPhysical(condition, row)).Some?
    ensures var (out, rest) := Pulled(columns, condition, batches);
            if Truth(EvalPhysical(condition, row)) == Some(true) then
              out.Some? && out.value.Ok? && IsFirstRow(columns, out.value.value, batches[0]) && rest == batches[1..]
            else out == None && rest == []
    decreases |batches|
  {
    PendingStep(columns, condition, batches);
    var first := batches[0];
    var rows := first[0].Length();
    PerBatchVerdict(columns, first, rows, condition, row);
    var mask := Mask(columns, condition, first).value;
    assert mask[..0] == [];
    if mask[0] {
      assert Positions(mask) == [0];
      OneRowLeft(columns, first, rows, mask);
    } else {
      assert Positions(mask) == [];
      if batches[1..] != [] {
        ConstantKeepsOneRow(columns, condition, batches[1..], row);
      }
    }
  }

  /** Of a batch, its first row and nothing else */
  ghost predicate IsFirstRow(columns: seq<ColumnSchema>, left: Batch, batch: Batch) {
    && DistinctNames(columns) && IsBatch(columns, batch) && batch[0].Length() > 0
    && IsBatch(columns, left) && left[0].Length() == 1
    && RowsIn(columns, left, 1) == [RowsIn(columns, batch, batch[0].Length())[0]]
  }

  lemma OneRowLeft(columns: seq<ColumnSchema>, batch: Batch, rows: nat, mask: seq<bool>)
    requires DistinctNames(columns) && IsBatch(columns, batch) && Rectangular(batch, rows) && 0 < |mask| <= rows
    requires Positions(mask) == [0]
    ensures IsBatch(columns, FilterBatch(batch, rows, mask)) && FilterBatch(batch, rows, mask)[0].Length() == 1
    ensures RowsIn(columns, FilterBatch(batch, rows, mask), 1) == [RowsIn(columns, batch, rows)[0]]
  {
    var filtered := FilterBatch(batch, rows, mask);
    hide RowAt, ChunksOf, Positions, ChosenColumn, FilterBatch;
    ChosenRow(columns, batch, rows, Positions(mask), filtered, 0);
  }

  /** `'a' = 'a'` is accepted and true of every row, yet one row of each batch is left. */
  lemma TextConstantKeepsOneRow(schema: seq<ColumnSchema>, round: Rounding, s: seq<Byte>, columns: seq<ColumnSchema>,
                                batches: seq<Batch>, row: Row)
    requires DistinctNames(columns) && batches != []
    requires forall i :: 0 <= i < |batches| ==>
               IsBatch(columns, batches[i]) && batches[i][0].Length() > 0 && TypedBatch(columns, batches[i], batches[i][0].Length())
    ensures var e := Binary(Lit(StrLit(s)), Cmp(Eq), Lit(StrLit(s)));
            && Truth(Eval(e, row)) == Some(true) && PreparedCondition(schema, round, e).Some?
            && AllEvaluate(columns, PreparedCondition(schema, round, e).value, batches)
            && var (out, rest) := Pulled(columns, PreparedCondition(schema, round, e).value, batches);
               out.Some? && out.value.Ok? && IsFirstRow(columns, out.value.value, batches[0]) && rest == batches[1..]
  {
    var same := Lit(StrLit(s));
    var e := Binary(same, Cmp(Eq), same);
    assert Eval(same, row) == Some(Text(s));
    assert Coerce(schema, same) == same && Fold(same) == same && Folded(schema, e) == e;
    assert LowerExpr(round, same) == Some(Constant(StrOf(s)));
    var condition := Comparison(Constant(StrOf(s)), Eq, Constant(StrOf(s)));
    assert PreparedCondition(schema, round, e) == Some(condition);
    assert EvalPhysical(Constant(StrOf(s)), row) == Some(Text(s));
    assert Truth(EvalPhysical(condition, row)) == Some(true);
    assert OutcomeOf(columns, condition) == PerBatch && NoFloats(condition);
    hide Pulled, Folded;
    ConstantKeepsOneRow(columns, condition, batches, row);
  }

  // ---- The operator ----

  class FilterExec {
    const condition: PhysicalExpr
    const child: ScanExec

    ghost predicate Valid()
      reads this, child, child.source, Objects(child.readers)
    {
      && child.Valid() && AllEvaluate(child.columns, condition, child.Pending())
    }

    /** The batches still to be passed on */
    ghost function Passing(): seq<Batch>
      requires Valid() && GoodCondition(child.columns, condition)
      reads this, child, child.source, Objects(child.readers)
    {
      FilteredAll(child.columns, condition, child.Pending())
    }

    constructor (condition: PhysicalExpr, child: ScanExec)
      requires child.Valid() && AllEvaluate(child.columns, condition, child.Pending())
      ensures Valid() && this.child == child && this.condition == condition
    {
      this.condition, this.child := condition, child;
    }

    /** Pull batches until one has rows left, or evaluation fails. */
    method NextBatch() returns (out: Option<Result<Batch, ExprError>>)
      requires Valid()
      modifies child, child.source, Objects(child.readers)
      ensures Valid() && fresh(Objects(child.readers) - old(Objects(child.readers)))
      ensures (out, child.Pending()) == Pulled(child.columns, condition, old(child.Pending()))
      ensures GoodCondition(child.columns, condition) ==>
                if old(Passing()) == [] then out == None && Passing() == []
                else out == Some(Ok(old(Passing())[0])) && Passing() == old(Passing())[1..]
    {
      hide GoodCondition, Evaluates, AllEvaluate, FilteredAll, IsBatch, ScanExec.Valid, ScanExec.Pending, Mask, Pulled;
      ghost var columns, coming := child.columns, child.Pending();
      if GoodCondition(columns, condition) {
        GoodConditionPulls(columns, condition, coming);
      }
      while true
        invariant Valid() && Pulled(columns, condition, child.Pending()) == Pulled(columns, condition, coming)
        invariant fresh(Objects(child.readers) - old(Objects(child.readers)))
        decreases |child.Pending()|
      {
        ghost var pending := child.Pending();
        PulledStep(columns, condition, pending);
        var batch := child.NextBatch();
        if batch.None? {
          return None;
        }
        var mask := EvaluateBatch(batch.value);
        if mask.Err? {
          out := Some(Err(mask.error));
          return;
        }
        var filtered := FilterBatch(batch.value, batch.value[0].Length(), mask.value);
        if filtered[0].Length() > 0 {
          out := Some(Ok(filtered));
          return;
        }
      }
    }

    method EvaluateBatch(batch: Batch) returns (mask: Result<seq<bool>, ExprError>)
      requires Evaluates(child.columns, condition, batch)
      ensures mask == Mask(child.columns, condition, batch)
    {
      mask := EvaluatePredicate(child.columns, batch, batch[0].Length(), condition);
    }
  }
}
