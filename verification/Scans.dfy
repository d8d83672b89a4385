/** Scanning parts: a batch of arrays per granule, part after part. With a condition to
    skip by, parts whose zone map rules it out are not read (the zone map scan);
    without one every part is (the full scan). */
module Scans {
  import opened Wrappers
  import opened Sequences
  import opened Bytes
  import opened Catalog
  import opened Granules
  import opened ColumnFormat
  import opened Expressions
  import opened TableWriter
  import ColumnWriter
  import StringColumnWriter
  import CR = ColumnReader
  import SR = StringColumnReader
  import Z = ZoneMapFile
  import P = PhysicalPlans
  import G = Gather

  // ---- Granules of a column ----

  function AllGranules<R>(column: seq<R>): (granules: seq<seq<R>>)
    ensures |granules| == GranuleCount(|column|)
    ensures forall g :: 0 <= g < |granules| ==> granules[g] == Granule(column, g)
  {
    seq(GranuleCount(|column|), g requires 0 <= g < GranuleCount(|column|) => Granule(column, g))
  }

  lemma {:induction false} GranulesJoinUpTo<R>(column: seq<R>, n: nat)
    requires n <= GranuleCount(|column|)
    ensures Concat(AllGranules(column)[..n]) == if n == 0 then [] else column[..GranuleEnd(|column|, n - 1)]
  {
    if n > 0 {
      GranulesJoinUpTo(column, n - 1);
      ConcatStep(AllGranules(column), n - 1);
      assert n > 1 ==> GranuleEnd(|column|, n - 2) == GranuleStart(n - 1);
    }
  }

  /** The granules, one after the other, are the column. */
  lemma GranulesJoin<R>(column: seq<R>)
    ensures Concat(AllGranules(column)) == column
  {
    var n := GranuleCount(|column|);
    GranulesJoinUpTo(column, n);
    assert AllGranules(column)[..n] == AllGranules(column);
    assert n > 0 ==> GranuleEnd(|column|, n - 1) == |column|;
  }

  function GranuleOf(data: ColumnData, g: nat): (granule: ColumnData)
    requires g < GranuleCount(data.Length())
  {
    if data.Numbers? then Numbers(Granule(data.ns, g)) else Strings(Granule(data.ss, g))
  }

  // ---- What a scan is to emit ----

  /** One array per scanned column */
  type Batch = seq<ColumnData>

  ghost predicate Rectangular(batch: Batch, rows: nat) {
    forall c :: 0 <= c < |batch| ==> batch[c].Length() == rows
  }

  /** The scanned columns of a part */
  datatype PartData = PartData(columns: seq<ColumnData>, rows: nat)

  ghost predicate WholePart(part: PartData) {
    part.rows > 0 && Rectangular(part.columns, part.rows)
  }

  ghost function BatchOf(part: PartData, g: nat): (batch: Batch)
    requires WholePart(part) && g < GranuleCount(part.rows)
    ensures |batch| == |part.columns| && forall c :: 0 <= c < |batch| ==> batch[c] == GranuleOf(part.columns[c], g)
  {
    seq(|part.columns|, c requires 0 <= c < |part.columns| => GranuleOf(part.columns[c], g))
  }

  ghost function PartBatches(part: PartData): (batches: seq<Batch>)
    requires WholePart(part)
    ensures |batches| == GranuleCount(part.rows) > 0
    ensures forall g :: 0 <= g < |batches| ==> batches[g] == BatchOf(part, g)
  {
    seq(GranuleCount(part.rows), g requires 0 <= g < GranuleCount(part.rows) => BatchOf(part, g))
  }

  /** All batches of one granule are equally long, and not empty. */
  lemma BatchIsRectangular(part: PartData, g: nat)
    requires WholePart(part) && g < GranuleCount(part.rows)
    ensures Rectangular(BatchOf(part, g), GranuleEnd(part.rows, g) - GranuleStart(g))
    ensures GranuleEnd(part.rows, g) > GranuleStart(g)
  {
  }

  /** The zone map as read; one that cannot be read bounds nothing. */
  ghost function ZonesIn(utf8: seq<Byte> -> bool, dir: PartDir): Z.ZoneMap {
    match Z.Parsed(utf8, dir.zoneMap)
    case Ok(zones) => zones
    case Err(_) => map[]
  }

  ghost predicate Skipped(utf8: seq<Byte> -> bool, skip: Option<PhysicalExpr>, dir: PartDir) {
    skip.Some? && P.CanSkip(skip.value, ZonesIn(utf8, dir))
  }

  ghost predicate AllWhole(parts: seq<PartData>) {
    forall i :: 0 <= i < |parts| ==> WholePart(parts[i])
  }

  /** The batches of parts from `next` on */
  ghost function BatchesFrom(utf8: seq<Byte> -> bool, skip: Option<PhysicalExpr>, dirs: seq<PartDir>,
                             parts: seq<PartData>, next: nat): seq<Batch>
    requires |dirs| == |parts| && AllWhole(parts)
    decreases |parts| - next
  {
    if next >= |parts| then []
    else (if Skipped(utf8, skip, dirs[next]) then [] else PartBatches(parts[next])) + BatchesFrom(utf8, skip, dirs, parts, next + 1)
  }

  lemma BatchesStep(utf8: seq<Byte> -> bool, skip: Option<PhysicalExpr>, dirs: seq<PartDir>, parts: seq<PartData>, next: nat)
    requires |dirs| == |parts| && AllWhole(parts)
    ensures next >= |parts| ==> BatchesFrom(utf8, skip, dirs, parts, next) == []
    ensures next < |parts| ==>
            WholePart(parts[next])
            && BatchesFrom(utf8, skip, dirs, parts, next)
            == (if Skipped(utf8, skip, dirs[next]) then [] else PartBatches(parts[next])) + BatchesFrom(utf8, skip, dirs, parts, next + 1)
  {
  }

  // ---- Readers ----

  datatype Reader = NumberReader(n: CR.ColumnReader) | StringReader(s: SR.StringColumnReader) {
    function Obj(): object {
      match this
      case NumberReader(n) => n
      case StringReader(s) => s
    }

    ghost predicate Valid()
      reads Obj()
    {
      match this
      case NumberReader(n) => n.Valid()
      case StringReader(s) => s.Valid()
    }

    ghost function Data(): ColumnData {
      match this
      case NumberReader(n) => Numbers(n.values)
      case StringReader(s) => Strings(s.values)
    }

    method CountGranules() returns (count: nat)
      requires Valid()
      ensures count == GranuleCount(Data().Length())
    {
      match this
      case NumberReader(n) => count := n.CountGranules();
      case StringReader(s) => count := s.CountGranules();
    }

    method ReadGranule(g: nat) returns (granule: ColumnData)
      requires Valid() && g < GranuleCount(Data().Length())
      modifies Obj()
      ensures Valid() && granule == GranuleOf(Data(), g)
    {
      match this
      case NumberReader(n) =>
        var ns := n.ReadGranule(g);
        granule := Numbers(ns);
      case StringReader(s) =>
        var ss := s.ReadGranule(g);
        granule := Strings(ss);
    }
  }

  function Objects(readers: seq<Reader>): set<object> {
    set i | 0 <= i < |readers| :: readers[i].Obj()
  }

  /** The readers read the part's columns. */
  ghost predicate Reading(readers: seq<Reader>, part: PartData)
    reads Objects(readers)
  {
    |readers| == |part.columns| && forall i :: 0 <= i < |readers| ==> readers[i].Valid() && readers[i].Data() == part.columns[i]
  }

  method OpenReader(lz4: Lz4,
                    utf8: seq<Byte> -> bool, col: ColumnSchema, file: ColumnFile, ghost data: ColumnData) returns (reader: Reader)
    requires FileHolds(lz4, utf8, col.dataType, file, data)
    ensures fresh(reader.Obj()) && reader.Valid() && reader.Data() == data
  {
    hide ColumnWriter.ColumnHeld, StringColumnWriter.StringColumnHeld;
    if col.dataType == Str {
      var s := new SR.StringColumnReader.Open(lz4, utf8, file.bin, file.mrk, data.ss);
      reader := StringReader(s);
    } else {
      var n := new CR.ColumnReader.Open(lz4, PrimitiveOf(col.dataType), file.bin, file.mrk, data.ns);
      reader := NumberReader(n);
    }
  }

  /** The directory holds the scanned columns. */
  ghost predicate DirHolds(lz4: Lz4, utf8: seq<Byte> -> bool, columns: seq<ColumnSchema>, dir: PartDir, part: PartData) {
    && WholePart(part) && |part.columns| == |columns|
    && forall c :: 0 <= c < |columns| ==>
         columns[c].name in dir.files && FileHolds(lz4, utf8, columns[c].dataType, dir.files[columns[c].name], part.columns[c])
  }

  lemma ObjectsOfOneMore(readers: seq<Reader>, reader: Reader)
    ensures Objects(readers + [reader]) == Objects(readers) + {reader.Obj()}
  {
    var all := readers + [reader];
    assert all[|readers|] == reader;
    forall o | o in Objects(readers) ensures o in Objects(all) {
      var i :| 0 <= i < |readers| && readers[i].Obj() == o;
      assert all[i].Obj() == o;
    }
  }

  method OpenAll(lz4: Lz4,
                 utf8: seq<Byte> -> bool, columns: seq<ColumnSchema>, dir: PartDir, ghost part: PartData) returns (readers: seq<Reader>)
    requires DirHolds(lz4, utf8, columns, dir, part)
    ensures fresh(Objects(readers)) && Reading(readers, part)
  {
    hide FileHolds;
    readers := [];
    for c := 0 to |columns|
      invariant |readers| == c && fresh(Objects(readers))
      invariant forall i :: 0 <= i < c ==> readers[i].Valid() && readers[i].Data() == part.columns[i]
    {
      var reader := OpenReader(lz4, utf8, columns[c], dir.files[columns[c].name], part.columns[c]);
      ObjectsOfOneMore(readers, reader);
      readers := readers + [reader];
    }
  }

  /** Granule `g` of every column */
  method ReadArrays(readers: seq<Reader>, g: nat, ghost part: PartData) returns (arrays: Batch)
    requires WholePart(part) && Reading(readers, part) && g < GranuleCount(part.rows)
    modifies Objects(readers)
    ensures Reading(readers, part) && arrays == BatchOf(part, g)
  {
    hide ColumnWriter.IsColumn, StringColumnWriter.HoldsStrings, Indexed;
    arrays := [];
    for c := 0 to |readers|
      invariant |arrays| == c && Reading(readers, part)
      invariant forall i :: 0 <= i < c ==> arrays[i] == GranuleOf(part.columns[i], g)
    {
      assert readers[c].Obj() in Objects(readers);
      var granule := readers[c].ReadGranule(g);
      arrays := arrays + [granule];
    }
  }

  // ---- The rows of batches ----

  ghost function ChunksOf(columns: seq<ColumnSchema>, batch: Batch): (chunks: seq<Chunk>)
    requires |batch| == |columns|
    ensures |chunks| == |columns| && forall c :: 0 <= c < |columns| ==> chunks[c] == Chunk(columns[c].dataType, batch[c])
  {
    seq(|columns|, c requires 0 <= c < |columns| => Chunk(columns[c].dataType, batch[c]))
  }

  /** A batch, row by row */
  ghost function RowsIn(columns: seq<ColumnSchema>, batch: Batch, rows: nat): (r: seq<Row>)
    requires |batch| == |columns| && DistinctNames(columns) && Rectangular(batch, rows)
    ensures |r| == rows && forall i :: 0 <= i < rows ==> r[i] == RowAt(columns, ChunksOf(columns, batch), i)
  {
    seq(rows, i requires 0 <= i < rows => RowAt(columns, ChunksOf(columns, batch), i))
  }

  ghost predicate IsBatch(columns: seq<ColumnSchema>, batch: Batch) {
    |columns| > 0 && |batch| == |columns| && Rectangular(batch, batch[0].Length())
  }

  ghost predicate AreBatches(columns: seq<ColumnSchema>, batches: seq<Batch>) {
    forall i :: 0 <= i < |batches| ==> IsBatch(columns, batches[i])
  }

  ghost function RowLots(columns: seq<ColumnSchema>, batches: seq<Batch>): (lots: seq<seq<Row>>)
    requires DistinctNames(columns) && AreBatches(columns, batches)
    ensures |lots| == |batches|
    ensures forall i :: 0 <= i < |batches| ==> IsBatch(columns, batches[i]) && lots[i] == RowsIn(columns, batches[i], batches[i][0].Length())
  {
    seq(|batches|, i requires 0 <= i < |batches| && IsBatch(columns, batches[i]) => RowsIn(columns, batches[i], batches[i][0].Length()))
  }

  /** The rows of all batches, in order */
  ghost function EmittedRows(columns: seq<ColumnSchema>, batches: seq<Batch>): seq<Row>
    requires DistinctNames(columns) && AreBatches(columns, batches)
  {
    Concat(RowLots(columns, batches))
  }

  lemma EmittedOfConcat(columns: seq<ColumnSchema>, a: seq<Batch>, b: seq<Batch>)
    requires DistinctNames(columns) && AreBatches(columns, a) && AreBatches(columns, b)
    ensures AreBatches(columns, a + b) && EmittedRows(columns, a + b) == EmittedRows(columns, a) + EmittedRows(columns, b)
  {
    hide IsBatch, RowsIn;
    assert RowLots(columns, a + b) == RowLots(columns, a) + RowLots(columns, b);
    ConcatOfConcat(RowLots(columns, a), RowLots(columns, b));
  }

  ghost predicate ScannedPart(columns: seq<ColumnSchema>, part: PartData) {
    |columns| > 0 && |part.columns| == |columns| && WholePart(part)
  }

  ghost function PartRows(columns: seq<ColumnSchema>, part: PartData): (rows: seq<Row>)
    requires DistinctNames(columns) && ScannedPart(columns, part)
    ensures |rows| == part.rows
  {
    RowsIn(columns, part.columns, part.rows)
  }

  /** Row i of granule g is row 512 g + i of the part, in every column at once. */
  lemma BatchRowIsPartRow(columns: seq<ColumnSchema>, part: PartData, g: nat, i: nat)
    requires DistinctNames(columns) && ScannedPart(columns, part) && g < GranuleCount(part.rows)
    requires GranuleStart(g) + i < GranuleEnd(part.rows, g)
    requires Rectangular(BatchOf(part, g), GranuleEnd(part.rows, g) - GranuleStart(g))
    ensures RowAt(columns, ChunksOf(columns, BatchOf(part, g)), i)
         == RowAt(columns, ChunksOf(columns, part.columns), GranuleStart(g) + i)
  {
    hide RowAt, ValueAt, GranuleOf, GranuleCount, GranuleStart, GranuleEnd;
    var few, all, k := ChunksOf(columns, BatchOf(part, g)), ChunksOf(columns, part.columns), GranuleStart(g) + i;
    forall c | 0 <= c < |columns|
      ensures i < few[c].data.Length() && k < all[c].data.Length() && ValueAt(few[c], i) == ValueAt(all[c], k)
    {
      GranuleValue(columns[c].dataType, part.columns[c], g, i);
    }
    SameRow(columns, few, i, all, k);
  }

  /** The rows of a batch are those of the part's granule. */
  lemma BatchRowsAreGranule(columns: seq<ColumnSchema>, part: PartData, g: nat)
    requires DistinctNames(columns) && ScannedPart(columns, part) && g < GranuleCount(part.rows)
    ensures IsBatch(columns, BatchOf(part, g))
    ensures RowsIn(columns, BatchOf(part, g), BatchOf(part, g)[0].Length()) == Granule(PartRows(columns, part), g)
  {
    var n, batch := GranuleEnd(part.rows, g) - GranuleStart(g), BatchOf(part, g);
    BatchIsRectangular(part, g);
    assert batch[0].Length() == n;
    hide RowAt, BatchOf, WholePart, ChunksOf;
    var l, all := RowsIn(columns, batch, n), PartRows(columns, part);
    forall i | 0 <= i < n ensures l[i] == all[GranuleStart(g) + i] {
      BatchRowIsPartRow(columns, part, g, i);
    }
    hide RowsIn, PartRows;
    IsGranule(all, g, l);
  }

  lemma IsGranule<R>(all: seq<R>, g: nat, l: seq<R>)
    requires g < GranuleCount(|all|) && |l| == GranuleEnd(|all|, g) - GranuleStart(g)
    requires forall i :: 0 <= i < |l| ==> l[i] == all[GranuleStart(g) + i]
    ensures l == Granule(all, g)
  {
  }

  lemma GranuleValue(dt: DataType, data: ColumnData, g: nat, i: nat)
    requires g < GranuleCount(data.Length()) && GranuleStart(g) + i < GranuleEnd(data.Length(), g)
    ensures i < GranuleOf(data, g).Length() && GranuleStart(g) + i < data.Length()
    ensures ValueAt(Chunk(dt, GranuleOf(data, g)), i) == ValueAt(Chunk(dt, data), GranuleStart(g) + i)
  {
  }

  lemma SameRow(columns: seq<ColumnSchema>, a: seq<Chunk>, i: nat, b: seq<Chunk>, j: nat)
    requires |a| == |columns| == |b| && DistinctNames(columns)
    requires forall c :: 0 <= c < |columns| ==> i < a[c].data.Length() && j < b[c].data.Length() && ValueAt(a[c], i) == ValueAt(b[c], j)
    ensures RowAt(columns, a, i) == RowAt(columns, b, j)
  {
  }

  /** The batches of a part are its rows, in order. */
  lemma PartBatchesAreRows(columns: seq<ColumnSchema>, part: PartData)
    requires DistinctNames(columns) && ScannedPart(columns, part)
    ensures AreBatches(columns, PartBatches(part)) && EmittedRows(columns, PartBatches(part)) == PartRows(columns, part)
  {
    hide RowsIn, BatchOf, IsBatch;
    var batches, rows := PartBatches(part), PartRows(columns, part);
    forall g | 0 <= g < |batches|
      ensures IsBatch(columns, batches[g]) && RowsIn(columns, batches[g], batches[g][0].Length()) == Granule(rows, g)
    {
      BatchRowsAreGranule(columns, part, g);
    }
    assert RowLots(columns, batches) == AllGranules(rows);
    GranulesJoin(rows);
  }

  // ---- The scan of a plan ----

  /** A part as the plans see it: the rows of the scanned columns, and the zone map */
  ghost function PlanParts(utf8: seq<Byte> -> bool, columns: seq<ColumnSchema>, dirs: seq<PartDir>,
                           parts: seq<PartData>): (ps: seq<P.Part>)
    requires DistinctNames(columns) && |dirs| == |parts| && forall i :: 0 <= i < |parts| ==> ScannedPart(columns, parts[i])
    ensures |ps| == |parts|
    ensures forall i :: 0 <= i < |parts| ==> ps[i] == P.Part(PartRows(columns, parts[i]), ZonesIn(utf8, dirs[i]))
  {
    seq(|parts|, i requires 0 <= i < |parts| => P.Part(PartRows(columns, parts[i]), ZonesIn(utf8, dirs[i])))
  }

  ghost function Read(skip: Option<PhysicalExpr>, parts: seq<P.Part>): seq<P.Part> {
    match skip
    case None => parts
    case Some(e) => P.Unskipped(e, parts)
  }

  lemma {:induction false} ReadHead(skip: Option<PhysicalExpr>, parts: seq<P.Part>)
    requires parts != []
    ensures Read(skip, parts) == (if skip.Some? && P.CanSkip(skip.value, parts[0].zones) then [] else [parts[0]]) + Read(skip, parts[1..])
    decreases |parts|
  {
    if skip.Some? && |parts| > 1 {
      var front := parts[..|parts| - 1];
      ReadHead(skip, front);
      assert front[1..] == parts[1..][..|parts| - 2];
    } else if skip.Some? {
      assert P.Unskipped(skip.value, parts[..0]) == [] == P.Unskipped(skip.value, parts[1..]);
    }
  }

  lemma {:induction false} AllRowsHead(parts: seq<P.Part>)
    requires parts != []
    ensures P.AllRows(parts) == parts[0].rows + P.AllRows(parts[1..])
    decreases |parts|
  {
    if |parts| > 1 {
      var front := parts[..|parts| - 1];
      AllRowsHead(front);
      assert front[1..] == parts[1..][..|parts| - 2];
    } else {
      assert P.AllRows(parts[..0]) == [] == P.AllRows(parts[1..]);
    }
  }

  lemma {:induction false} BatchesAreRows(utf8: seq<Byte> -> bool, columns: seq<ColumnSchema>, skip: Option<PhysicalExpr>,
                                          dirs: seq<PartDir>, parts: seq<PartData>, next: nat)
    requires DistinctNames(columns) && |dirs| == |parts| && AllWhole(parts) && next <= |parts|
    requires forall i :: 0 <= i < |parts| ==> ScannedPart(columns, parts[i])
    ensures var batches := BatchesFrom(utf8, skip, dirs, parts, next);
            AreBatches(columns, batches)
            && EmittedRows(columns, batches) == P.AllRows(Read(skip, PlanParts(utf8, columns, dirs, parts)[next..]))
    decreases |parts| - next
  {
    hide IsBatch, RowsIn, PartRows, P.CanSkip, ZonesIn, PartBatches, ScannedPart, WholePart;
    var all := PlanParts(utf8, columns, dirs, parts);
    if next < |parts| {
      BatchesAreRows(utf8, columns, skip, dirs, parts, next + 1);
      ReadHead(skip, all[next..]);
      assert all[next..][1..] == all[next + 1..];
      var later := Read(skip, all[next + 1..]);
      if Skipped(utf8, skip, dirs[next]) {
        assert [] + later == later;
        assert BatchesFrom(utf8, skip, dirs, parts, next) == BatchesFrom(utf8, skip, dirs, parts, next + 1);
      } else {
        PartBatchesAreRows(columns, parts[next]);
        EmittedOfConcat(columns, PartBatches(parts[next]), BatchesFrom(utf8, skip, dirs, parts, next + 1));
        AllRowsHead([all[next]] + later);
        assert ([all[next]] + later)[1..] == later;
      }
    } else {
      assert all[next..] == [];
    }
  }

  /** A scan emits exactly the rows of the parts it reads, in order: all the parts', or
      those of the parts that the condition does not rule out. */
  lemma ScanEmitsRows(utf8: seq<Byte> -> bool, columns: seq<ColumnSchema>, skip: Option<PhysicalExpr>,
                      dirs: seq<PartDir>, parts: seq<PartData>)
    requires DistinctNames(columns) && |dirs| == |parts| && AllWhole(parts)
    requires forall i :: 0 <= i < |parts| ==> ScannedPart(columns, parts[i])
    ensures var batches := BatchesFrom(utf8, skip, dirs, parts, 0);
            AreBatches(columns, batches)
            && EmittedRows(columns, batches) == P.AllRows(Read(skip, PlanParts(utf8, columns, dirs, parts)))
  {
    BatchesAreRows(utf8, columns, skip, dirs, parts, 0);
    assert PlanParts(utf8, columns, dirs, parts)[0..] == PlanParts(utf8, columns, dirs, parts);
  }

  // ---- Scanning what was written ----

  ghost predicate Picks(schema: seq<ColumnSchema>, columns: seq<ColumnSchema>, picks: seq<nat>) {
    |picks| == |columns| && forall c :: 0 <= c < |columns| ==> picks[c] < |schema| && columns[c] == schema[picks[c]]
  }

  ghost function Picked(batch: seq<Chunk>, picks: seq<nat>, rows: nat): (part: PartData)
    requires forall c :: 0 <= c < |picks| ==> picks[c] < |batch|
    ensures |part.columns| == |picks| && part.rows == rows
    ensures forall c :: 0 <= c < |picks| ==> part.columns[c] == batch[picks[c]].data
  {
    PartData(seq(|picks|, c requires 0 <= c < |picks| && picks[c] < |batch| => batch[picks[c]].data), rows)
  }

  ghost function NameSet(columns: seq<ColumnSchema>): set<Name> {
    set c | 0 <= c < |columns| :: columns[c].name
  }

  /** Some columns of a written part: its directory holds them, and their rows are the
      inserted rows restricted to those columns. */
  lemma WrittenPartScans(lz4: Lz4, utf8: seq<Byte> -> bool, schema: seq<ColumnSchema>, batch: seq<Chunk>, rows: nat, dir: PartDir,
                         columns: seq<ColumnSchema>, picks: seq<nat>)
    requires Matches(utf8, schema, batch, rows) && rows > 0 && PartHolds(lz4, utf8, schema, batch, dir)
    requires DistinctNames(schema) && DistinctNames(columns) && columns != [] && Picks(schema, columns, picks)
    ensures DirHolds(lz4, utf8, columns, dir, Picked(batch, picks, rows)) && ScannedPart(columns, Picked(batch, picks, rows))
    ensures PartRows(columns, Picked(batch, picks, rows)) == P.RestrictAll(RowsOf(utf8, schema, batch, rows), NameSet(columns))
  {
    hide FileHolds, WellFormed;
    var part := Picked(batch, picks, rows);
    var chunks := ChunksOf(columns, part.columns);
    forall i | 0 <= i < rows
      ensures RowAt(columns, chunks, i) == P.Restrict(RowAt(schema, batch, i), NameSet(columns))
    {
      RestrictedRow(schema, batch, columns, picks, chunks, i);
    }
    assert PartRows(columns, part) == P.RestrictAll(RowsOf(utf8, schema, batch, rows), NameSet(columns));
  }

  lemma RestrictedKeys(schema: seq<ColumnSchema>, batch: seq<Chunk>, columns: seq<ColumnSchema>, picks: seq<nat>, i: nat)
    requires |batch| == |schema| && DistinctNames(schema) && Picks(schema, columns, picks)
    requires forall k :: 0 <= k < |schema| ==> i < batch[k].data.Length()
    ensures P.Restrict(RowAt(schema, batch, i), NameSet(columns)).Keys == NameSet(columns)
  {
    var r := P.Restrict(RowAt(schema, batch, i), NameSet(columns));
    forall name | name in NameSet(columns) ensures name in r {
      var c :| 0 <= c < |columns| && columns[c].name == name;
      RowHas(schema, batch, i, picks[c]);
    }
  }

  lemma RestrictedRow(schema: seq<ColumnSchema>, batch: seq<Chunk>, columns: seq<ColumnSchema>, picks: seq<nat>,
                      chunks: seq<Chunk>, i: nat)
    requires |batch| == |schema| && |chunks| == |columns| && DistinctNames(schema) && DistinctNames(columns)
    requires Picks(schema, columns, picks)
    requires forall k :: 0 <= k < |schema| ==> i < batch[k].data.Length()
    requires forall c :: 0 <= c < |columns| ==> chunks[c].data == batch[picks[c]].data && chunks[c].dataType == batch[picks[c]].dataType
    ensures RowAt(columns, chunks, i) == P.Restrict(RowAt(schema, batch, i), NameSet(columns))
  {
    RestrictedKeys(schema, batch, columns, picks, i);
    var l, whole, names := RowAt(columns, chunks, i), RowAt(schema, batch, i), NameSet(columns);
    KeysOfRow(columns, chunks, i);
    hide RowAt, ValueAt, NameSet, DistinctNames;
    var r := P.Restrict(whole, names);
    forall name | name in names ensures name in l && name in r && l[name] == r[name] {
      var c := ColumnNamed(columns, name);
      SameCell(schema, batch, columns, picks, chunks, i, c);
    }
    SameMaps(l, r, names);
  }

  lemma SameMaps(l: Row, r: Row, names: set<Name>)
    requires l.Keys == names == r.Keys && forall name :: name in names ==> l[name] == r[name]
    ensures l == r
  {
  }

  lemma KeysOfRow(columns: seq<ColumnSchema>, chunks: seq<Chunk>, i: nat)
    requires |chunks| == |columns| && DistinctNames(columns) && forall c :: 0 <= c < |columns| ==> i < chunks[c].data.Length()
    ensures RowAt(columns, chunks, i).Keys == NameSet(columns)
  {
  }

  lemma ColumnNamed(columns: seq<ColumnSchema>, name: Name) returns (c: nat)
    requires name in NameSet(columns)
    ensures c < |columns| && columns[c].name == name
  {
    c :| c < |columns| && columns[c].name == name;
  }

  lemma SameCell(schema: seq<ColumnSchema>, batch: seq<Chunk>, columns: seq<ColumnSchema>, picks: seq<nat>,
                 chunks: seq<Chunk>, i: nat, c: nat)
    requires |batch| == |schema| && |chunks| == |columns| && DistinctNames(schema) && DistinctNames(columns)
    requires Picks(schema, columns, picks)
    requires forall k :: 0 <= k < |schema| ==> i < batch[k].data.Length()
    requires forall d :: 0 <= d < |columns| ==> i < chunks[d].data.Length()
    requires c < |columns| && chunks[c].data == batch[picks[c]].data && chunks[c].dataType == batch[picks[c]].dataType
    ensures var name := columns[c].name;
            name in RowAt(columns, chunks, i) && name in RowAt(schema, batch, i)
            && RowAt(columns, chunks, i)[name] == RowAt(schema, batch, i)[name]
  {
    RowHas(schema, batch, i, picks[c]);
    RowHas(columns, chunks, i, c);
  }

  lemma HeldAreWhole(lz4: Lz4, utf8: seq<Byte> -> bool, columns: seq<ColumnSchema>, dirs: seq<PartDir>, parts: seq<PartData>)
    requires |dirs| == |parts| && forall i :: 0 <= i < |parts| ==> DirHolds(lz4, utf8, columns, dirs[i], parts[i])
    ensures AllWhole(parts)
  {
  }

  // ---- The operator ----

  class ScanExec {
    const lz4: Lz4
    const utf8: seq<Byte> -> bool
    const columns: seq<ColumnSchema>
    const skip: Option<PhysicalExpr>
    const source: G.PartWorkSource<PartDir>
    var readers: seq<Reader>
    var granuleIdx: nat
    var granuleCount: nat

    /** What the parts' directories hold, and the part being read */
    ghost const parts: seq<PartData>
    ghost var current: PartData

    ghost predicate DirsHold()
      requires |source.parts| == |parts|
    {
      forall i :: 0 <= i < |parts| ==> DirHolds(lz4, utf8, columns, source.parts[i], parts[i])
    }

    ghost predicate Valid()
      reads this, source, Objects(readers)
    {
      && |columns| > 0 && |source.parts| == |parts| && AllWhole(parts) && DirsHold()
      && this !in Objects(readers) && source !in Objects(readers)
      && (readers != [] ==>
            WholePart(current) && Reading(readers, current)
            && granuleCount == GranuleCount(current.rows) && granuleIdx < granuleCount)
    }

    /** The batches still to come */
    ghost function Pending(): seq<Batch>
      requires Valid()
      reads this, source, Objects(readers)
    {
      (if readers == [] then [] else PartBatches(current)[granuleIdx..]) + BatchesFrom(utf8, skip, source.parts, parts, source.next)
    }

    constructor (lz4: Lz4, utf8: seq<Byte> -> bool, columns: seq<ColumnSchema>, skip: Option<PhysicalExpr>,
                 source: G.PartWorkSource<PartDir>, ghost parts: seq<PartData>)
      requires |columns| > 0 && |source.parts| == |parts|
      requires forall i :: 0 <= i < |parts| ==> DirHolds(lz4, utf8, columns, source.parts[i], parts[i])
      ensures Valid() && this.lz4 == lz4 && this.utf8 == utf8 && this.columns == columns && this.skip == skip
      ensures this.source == source && this.parts == parts && readers == []
      ensures Pending() == BatchesFrom(utf8, skip, source.parts, parts, source.next)
    {
      HeldAreWhole(lz4, utf8, columns, source.parts, parts);
      hide DirHolds, WholePart, AllWhole, BatchesFrom, PartBatches, Reading;
      this.lz4, this.utf8, this.columns, this.skip, this.source, this.parts := lz4, utf8, columns, skip, source, parts;
      readers, granuleIdx, granuleCount, current := [], 0, 0, PartData([], 0);
    }

    /** Read the part's zone map, if there is a condition, and see if it rules the part out. */
    method RulesOut(dir: PartDir) returns (skipped: bool)
      ensures skipped <==> Skipped(utf8, skip, dir)
    {
      if skip.None? {
        return false;
      }
      var zoneMap := Z.ReadZoneMap(utf8, dir.zoneMap);
      skipped := P.CanSkip(skip.value, if zoneMap.Ok? then zoneMap.value else map[]);
    }

    method OpenReaders(dir: PartDir, ghost at: nat) returns (opening: seq<Reader>, count: nat)
      requires |columns| > 0 && at < |parts| && DirHolds(lz4, utf8, columns, dir, parts[at])
      ensures fresh(Objects(opening)) && opening != [] && WholePart(parts[at]) && Reading(opening, parts[at])
      ensures count == GranuleCount(parts[at].rows) > 0
    {
      hide FileHolds, ColumnWriter.IsColumn, StringColumnWriter.HoldsStrings, Indexed;
      opening := OpenAll(lz4, utf8, columns, dir, parts[at]);
      count := opening[0].CountGranules();
    }

    /** Open the readers of the part just taken. */
    method OpenPart(dir: PartDir, ghost at: nat)
      requires Valid() && readers == [] && at < |parts| && dir == source.parts[at]
      modifies this
      ensures Valid() && readers != [] && fresh(Objects(readers))
      ensures Pending() == PartBatches(parts[at]) + BatchesFrom(utf8, skip, source.parts, parts, source.next)
    {
      assert DirHolds(lz4, utf8, columns, source.parts[at], parts[at]);
      hide BatchesFrom, PartBatches, DirHolds, WholePart, AllWhole, DirsHold, Reading, Objects, GranuleCount;
      var opening, count := OpenReaders(dir, at);
      readers, current, granuleCount, granuleIdx := opening, parts[at], count, 0;
      assert PartBatches(current)[0..] == PartBatches(current);
    }

    /** Take parts from the work source until one is to be read or none is left. */
    method OpenNext() returns (more: bool)
      requires Valid() && readers == []
      modifies this, source
      ensures Valid() && Pending() == old(Pending()) && fresh(Objects(readers))
      ensures more <==> readers != []
      ensures !more ==> Pending() == []
    {
      hide FileHolds, DirHolds, DirsHold, AllWhole, WholePart, PartBatches, Skipped, Reading;
      while readers == []
        invariant Valid() && Pending() == old(Pending()) && fresh(Objects(readers))
        decreases |parts| - source.next, readers == []
      {
        ghost var at := source.next;
        var work := source.NextWork();
        if work.None? {
          return false;
        }
        var skipped := RulesOut(work.value);
        if !skipped {
          OpenPart(work.value, at);
        }
      }
      more := true;
    }

    /** The next batch: what was to come first, and the rest is still to come. */
    method NextBatch() returns (out: Option<Batch>)
      requires Valid()
      modifies this, source, Objects(readers)
      ensures Valid() && fresh(Objects(readers) - old(Objects(readers)))
      ensures old(Pending()) == [] ==> out == None && Pending() == []
      ensures old(Pending()) != [] ==> out == Some(old(Pending())[0]) && Pending() == old(Pending())[1..]
    {
      hide FileHolds, BatchesFrom, DirHolds, ColumnWriter.IsColumn, StringColumnWriter.HoldsStrings, Indexed;
      if readers == [] {
        var more := OpenNext();
        if !more {
          return None;
        }
      }
      OneTaken(PartBatches(current), granuleIdx, BatchesFrom(utf8, skip, source.parts, parts, source.next));
      var arrays := ReadArrays(readers, granuleIdx, current);
      granuleIdx := granuleIdx + 1;
      if granuleIdx >= granuleCount {
        readers := [];
      }
      out := Some(arrays);
    }
  }
}
