/** Writing a part: every column's files and the zone map. */
module TableWriter {
  import opened Wrappers
  import opened Bytes
  import opened Catalog
  import opened ColumnFormat
  import opened Expressions
  import Codecs
  import CW = ColumnWriter
  import SW = StringColumnWriter
  import StringCodecs
  import StringPlain
  import Z = ZoneMapFile
  import P = PhysicalPlans

  /** The values of one column: numbers (a bool is 0 or 1), or strings */
  datatype ColumnData = Numbers(ns: seq<int>) | Strings(ss: seq<seq<Byte>>) {
    function Length(): nat {
      if Numbers? then |ns| else |ss|
    }
  }

  /** One column of a record batch */
  datatype Chunk = Chunk(dataType: DataType, data: ColumnData)

  datatype ColumnFile = ColumnFile(bin: seq<Byte>, mrk: seq<Byte>)

  /** The files of a part's directory */
  datatype PartDir = PartDir(files: map<Name, ColumnFile>, zoneMap: seq<Byte>)

  datatype InsertError = WrongColumnCount | WrongType(column: nat)

  /** Values of the chunk's type, few enough for the format */
  ghost predicate WellFormed(utf8: seq<Byte> -> bool, c: Chunk) {
    if c.dataType == Str then c.data.Strings? && StringPlain.AllUtf8(utf8, c.data.ss) && SW.GranulesFit(c.data.ss)
    else c.data.Numbers? && !IsFloat(c.dataType) && Codecs.AllInRange(PrimitiveOf(c.dataType), c.data.ns)
  }

  // ---- Files that hold a column ----

  ghost predicate FileHolds(lz4: Lz4, utf8: seq<Byte> -> bool, dt: DataType, file: ColumnFile, data: ColumnData) {
    && |file.bin| < U64_LIMIT && data.Length() < ROW_LIMIT
    && if dt == Str then data.Strings? && SW.StringColumnHeld(lz4, utf8, file.bin, file.mrk, data.ss)
       else data.Numbers? && CW.ColumnHeld(lz4, PrimitiveOf(dt), file.bin, file.mrk, data.ns)
  }

  // ---- One column ----

  /** The column's bounds, widened to eight bytes; integer columns with rows have them. */
  ghost predicate IsEntryOf(col: ColumnSchema, data: ColumnData, entry: Option<Z.EncodedZoneMapEntry>) {
    if IsInteger(col.dataType) && data.Numbers? && data.ns != [] then
      && entry.Some? && entry.value.colName == col.name && entry.value.typeTag == TypeTag(col.dataType) && Z.WellSized(entry.value)
      && var zone := Z.ColumnZone(entry.value.typeTag, [entry.value.entry]);
         CW.AreBounds(data.ns, CW.ZoneMapEntry(P.ZoneMin(zone), P.ZoneMax(zone)))
    else entry == None
  }

  /** `widen_signed` and `widen_unsigned` */
  function Widen(dt: DataType, z: CW.ZoneMapEntry): (entry: Z.ZoneEntry)
    requires IsInteger(dt) && PrimitiveOf(dt).InRange(z.min) && PrimitiveOf(dt).InRange(z.max)
    ensures |entry.minBytes| == 8 && |entry.maxBytes| == 8
  {
    WideRange(dt, z.min);
    WideRange(dt, z.max);
    var wide := if IsSigned(dt) then P.SIGNED else P.UNSIGNED;
    Z.ZoneEntry(Codecs.EncodeLe(wide, z.min), Codecs.EncodeLe(wide, z.max))
  }

  lemma WideRange(dt: DataType, n: int)
    requires IsInteger(dt) && PrimitiveOf(dt).InRange(n)
    ensures (if IsSigned(dt) then P.SIGNED else P.UNSIGNED).InRange(n)
  {
    Pow256Values();
  }

  lemma WidenedReads(dt: DataType, z: CW.ZoneMapEntry)
    requires IsInteger(dt) && PrimitiveOf(dt).InRange(z.min) && PrimitiveOf(dt).InRange(z.max)
    ensures var zone := Z.ColumnZone(TypeTag(dt), [Widen(dt, z)]); P.ZoneMin(zone) == z.min && P.ZoneMax(zone) == z.max
  {
    var wide := if IsSigned(dt) then P.SIGNED else P.UNSIGNED;
    hide Codecs.EncodeLe, Codecs.DecodeLe;
    WideRange(dt, z.min);
    WideRange(dt, z.max);
    Codecs.DecodeLeOfEncodeLe(wide, z.min);
    Codecs.DecodeLeOfEncodeLe(wide, z.max);
  }

  lemma WidenedIsEntry(col: ColumnSchema, data: ColumnData, z: CW.ZoneMapEntry)
    requires IsInteger(col.dataType) && data.Numbers? && data.ns != []
    requires Codecs.AllInRange(PrimitiveOf(col.dataType), data.ns) && CW.AreBounds(data.ns, z)
    ensures PrimitiveOf(col.dataType).InRange(z.min) && PrimitiveOf(col.dataType).InRange(z.max)
    ensures IsEntryOf(col, data, Some(Z.EncodedZoneMapEntry(col.name, TypeTag(col.dataType), Widen(col.dataType, z))))
  {
    hide CW.AreBounds, P.ZoneMin, P.ZoneMax;
    BoundsInRange(PrimitiveOf(col.dataType), data.ns, z);
    WidenedReads(col.dataType, z);
  }

  /** `write_one_column`: a bool column's bounds are dropped. */
  method WriteOneColumn(lz4: Lz4, utf8: seq<Byte> -> bool, col: ColumnSchema, data: ColumnData)
    returns (file: ColumnFile, entry: Option<Z.EncodedZoneMapEntry>)
    requires Lossless(lz4) && WellFormed(utf8, Chunk(col.dataType, data))
    ensures |file.bin| < U64_LIMIT && data.Length() < ROW_LIMIT ==> FileHolds(lz4, utf8, col.dataType, file, data)
    ensures IsEntryOf(col, data, entry)
  {
    hide SW.GranulesFit, SW.StringColumnHeld, CW.ColumnHeld, CW.AreBounds, P.ZoneMin, P.ZoneMax, Codecs.AllInRange, Widen;
    entry := None;
    if col.dataType == Str {
      var bin, mrk := SW.WriteStringColumn(lz4, utf8, data.ss, StringCodecs.Plain);
      file := ColumnFile(bin, mrk);
    } else {
      var bin, mrk, zone := CW.WriteColumn(lz4, PrimitiveOf(col.dataType), data.ns, CodecFor(col.dataType));
      file := ColumnFile(bin, mrk);
      if col.dataType != Bool && zone.Some? {
        WidenedIsEntry(col, data, zone.value);
        entry := Some(Z.EncodedZoneMapEntry(col.name, TypeTag(col.dataType), Widen(col.dataType, zone.value)));
      }
    }
  }

  lemma BoundsInRange(p: Codecs.Primitive, values: seq<int>, z: CW.ZoneMapEntry)
    requires Codecs.AllInRange(p, values) && CW.AreBounds(values, z)
    ensures p.InRange(z.min) && p.InRange(z.max)
  {
    var i :| 0 <= i < |values| && values[i] == z.min;
    var j :| 0 <= j < |values| && values[j] == z.max;
  }

  // ---- A part ----

  ghost predicate DistinctNames(schema: seq<ColumnSchema>) {
    forall i, j :: 0 <= i < j < |schema| ==> schema[i].name != schema[j].name
  }

  /** A record batch for the schema: chunks of the columns' types, all of one length */
  ghost predicate Matches(utf8: seq<Byte> -> bool, schema: seq<ColumnSchema>, batch: seq<Chunk>, rows: nat) {
    && |batch| == |schema|
    && forall k :: 0 <= k < |schema| ==>
         batch[k].dataType == schema[k].dataType && WellFormed(utf8, batch[k]) && batch[k].data.Length() == rows
  }

  function ValueAt(c: Chunk, i: nat): Value
    requires i < c.data.Length()
  {
    if c.data.Strings? then Text(c.data.ss[i])
    else if c.dataType == Bool then Flag(c.data.ns[i] != 0)
    else Num(c.data.ns[i])
  }

  /** Row `i` of a batch, by column name */
  ghost function RowAt(schema: seq<ColumnSchema>, batch: seq<Chunk>, i: nat): Row
    requires |batch| == |schema| && DistinctNames(schema)
    requires forall k :: 0 <= k < |schema| ==> i < batch[k].data.Length()
  {
    map k | 0 <= k < |schema| :: schema[k].name := ValueAt(batch[k], i)
  }

  ghost function RowsOf(utf8: seq<Byte> -> bool, schema: seq<ColumnSchema>, batch: seq<Chunk>, rows: nat): (r: seq<Row>)
    requires Matches(utf8, schema, batch, rows) && DistinctNames(schema)
    ensures |r| == rows && forall i :: 0 <= i < rows ==> r[i] == RowAt(schema, batch, i)
  {
    seq(rows, i requires 0 <= i < rows => RowAt(schema, batch, i))
  }

  /** The directory holds every column of the batch. */
  ghost predicate PartHolds(lz4: Lz4, utf8: seq<Byte> -> bool, schema: seq<ColumnSchema>, batch: seq<Chunk>, dir: PartDir)
    requires |batch| == |schema|
  {
    forall k :: 0 <= k < |schema| ==>
      schema[k].name in dir.files && FileHolds(lz4, utf8, schema[k].dataType, dir.files[schema[k].name], batch[k].data)
  }

  /** Files and rows that 64-bit offsets can address */
  ghost predicate Addressable(files: map<Name, ColumnFile>, rows: nat) {
    rows < ROW_LIMIT && forall name :: name in files ==> |files[name].bin| < U64_LIMIT
  }

  /** Entry j belongs to column owners[j]; every integer column with rows has one. */
  ghost predicate EntriesMatch(schema: seq<ColumnSchema>, batch: seq<Chunk>, entries: seq<Z.EncodedZoneMapEntry>,
                               owners: seq<nat>, i: nat)
    requires |batch| == |schema|
  {
    && |owners| == |entries| && i <= |schema|
    && (forall j :: 0 <= j < |owners| ==>
          owners[j] < i && IsEntryOf(schema[owners[j]], batch[owners[j]].data, Some(entries[j])))
    && (forall j, l :: 0 <= j < l < |owners| ==> owners[j] < owners[l])
    && (forall k :: 0 <= k < i && !IsEntryOf(schema[k], batch[k].data, None) ==> k in owners)
  }

  lemma RowHas(schema: seq<ColumnSchema>, batch: seq<Chunk>, i: nat, k: nat)
    requires |batch| == |schema| && DistinctNames(schema) && k < |schema|
    requires forall k :: 0 <= k < |schema| ==> i < batch[k].data.Length()
    ensures schema[k].name in RowAt(schema, batch, i) && RowAt(schema, batch, i)[schema[k].name] == ValueAt(batch[k], i)
  {
  }

  /** A written zone bounds its column's values in the rows, with bounds attained. */
  lemma EntryBoundsRows(utf8: seq<Byte> -> bool, schema: seq<ColumnSchema>, batch: seq<Chunk>, rows: nat, k: nat,
                        entry: Z.EncodedZoneMapEntry)
    requires Matches(utf8, schema, batch, rows) && DistinctNames(schema) && k < |schema|
    requires IsEntryOf(schema[k], batch[k].data, Some(entry))
    ensures P.Bounds(Z.ColumnZone(entry.typeTag, [entry.entry]), schema[k].name, RowsOf(utf8, schema, batch, rows))
  {
    hide P.ZoneMin, P.ZoneMax, WellFormed, RowAt, P.Bounds;
    var zone, rs, ns, name := Z.ColumnZone(entry.typeTag, [entry.entry]), RowsOf(utf8, schema, batch, rows), batch[k].data.ns, schema[k].name;
    forall i | 0 <= i < rows ensures name in rs[i] && rs[i][name] == Num(ns[i]) {
      RowHas(schema, batch, i, k);
    }
    ColumnBounds(ns, rs, name, zone);
  }

  lemma ColumnBounds(ns: seq<int>, rs: seq<Row>, name: Name, zone: Z.ColumnZone)
    requires |ns| == |rs| && zone.entries != []
    requires forall i :: 0 <= i < |rs| ==> name in rs[i] && rs[i][name] == Num(ns[i])
    requires CW.AreBounds(ns, CW.ZoneMapEntry(P.ZoneMin(zone), P.ZoneMax(zone)))
    ensures P.Bounds(zone, name, rs)
  {
    hide P.ZoneMin, P.ZoneMax;
    var low :| 0 <= low < |ns| && ns[low] == P.ZoneMin(zone);
    var high :| 0 <= high < |ns| && ns[high] == P.ZoneMax(zone);
    assert rs[low] in rs && rs[high] in rs;
  }

  lemma WrittenZonesBound(utf8: seq<Byte> -> bool, schema: seq<ColumnSchema>, batch: seq<Chunk>, rows: nat,
                          entries: seq<Z.EncodedZoneMapEntry>, owners: seq<nat>)
    requires Matches(utf8, schema, batch, rows) && DistinctNames(schema) && EntriesMatch(schema, batch, entries, owners, |schema|)
    ensures P.ZonesBound(P.Part(RowsOf(utf8, schema, batch, rows), Z.ZonesOf(entries)))
  {
    hide P.Bounds, WellFormed;
    EntryNames(schema, batch, entries, owners);
    Z.ZonesOfDistinct(entries);
    var zones := Z.ZonesOf(entries);
    forall name | name in zones ensures P.Bounds(zones[name], name, RowsOf(utf8, schema, batch, rows)) {
      var j :| 0 <= j < |entries| && entries[j].colName == name;
      EntryBoundsRows(utf8, schema, batch, rows, owners[j], entries[j]);
    }
  }

  lemma EntryNames(schema: seq<ColumnSchema>, batch: seq<Chunk>, entries: seq<Z.EncodedZoneMapEntry>, owners: seq<nat>)
    requires |batch| == |schema| && DistinctNames(schema) && EntriesMatch(schema, batch, entries, owners, |schema|)
    ensures forall j :: 0 <= j < |entries| ==> entries[j].colName == schema[owners[j]].name && Z.WellSized(entries[j])
    ensures forall j, l :: 0 <= j < l < |entries| ==> entries[j].colName != entries[l].colName
  {
    forall j | 0 <= j < |entries| ensures entries[j].colName == schema[owners[j]].name && Z.WellSized(entries[j]) {
      assert IsEntryOf(schema[owners[j]], batch[owners[j]].data, Some(entries[j]));
    }
  }

  lemma EntriesStep(schema: seq<ColumnSchema>, batch: seq<Chunk>, entries: seq<Z.EncodedZoneMapEntry>, owners: seq<nat>, k: nat,
                    entry: Option<Z.EncodedZoneMapEntry>)
    requires |batch| == |schema| && k < |schema| && EntriesMatch(schema, batch, entries, owners, k)
    requires IsEntryOf(schema[k], batch[k].data, entry)
    ensures EntriesMatch(schema, batch, if entry.Some? then entries + [entry.value] else entries,
                         if entry.Some? then owners + [k] else owners, k + 1)
  {
    hide IsEntryOf;
    if entry.Some? {
      var entries', owners' := entries + [entry.value], owners + [k];
      forall j | 0 <= j < |owners'|
        ensures owners'[j] < k + 1 && IsEntryOf(schema[owners'[j]], batch[owners'[j]].data, Some(entries'[j]))
      {
        if j < |owners| {
          assert owners'[j] == owners[j] && entries'[j] == entries[j];
        }
      }
      forall l | 0 <= l < k + 1 && !IsEntryOf(schema[l], batch[l].data, None) ensures l in owners' {
        if l == k {
          assert owners'[|owners|] == k;
        } else {
          assert l in owners;
        }
      }
    }
  }

  lemma NoEntriesMatch(schema: seq<ColumnSchema>, batch: seq<Chunk>)
    requires |batch| == |schema|
    ensures EntriesMatch(schema, batch, [], [], 0)
  {
  }

  ghost predicate HeldIfSmall(lz4: Lz4,
                              utf8: seq<Byte> -> bool, col: ColumnSchema, file: ColumnFile, data: ColumnData, rows: nat) {
    |file.bin| < U64_LIMIT && rows < ROW_LIMIT ==> FileHolds(lz4, utf8, col.dataType, file, data)
  }

  /** All columns of a checked batch; the threads' writes touch different files, so
      their order does not matter. */
  method WriteColumns(lz4: Lz4, utf8: seq<Byte> -> bool, schema: seq<ColumnSchema>, batch: seq<Chunk>, ghost rows: nat)
    returns (files: map<Name, ColumnFile>, entries: seq<Z.EncodedZoneMapEntry>, ghost owners: seq<nat>)
    requires Lossless(lz4) && Matches(utf8, schema, batch, rows) && DistinctNames(schema)
    ensures Addressable(files, rows) ==> PartHolds(lz4, utf8, schema, batch, PartDir(files, []))
    ensures EntriesMatch(schema, batch, entries, owners, |schema|)
  {
    hide WellFormed, FileHolds, IsEntryOf, EntriesMatch;
    files, entries, owners := map[], [], [];
    NoEntriesMatch(schema, batch);
    for k := 0 to |schema|
      invariant EntriesMatch(schema, batch, entries, owners, k)
      invariant forall l :: 0 <= l < k ==>
                  schema[l].name in files && HeldIfSmall(lz4, utf8, schema[l], files[schema[l].name], batch[l].data, rows)
    {
      var file, entry := WriteOneColumn(lz4, utf8, schema[k], batch[k].data);
      EntriesStep(schema, batch, entries, owners, k, entry);
      files := files[schema[k].name := file];
      if entry.Some? {
        entries, owners := entries + [entry.value], owners + [k];
      }
    }
  }

  /** Column counts and types are checked first, column by column. */
  method CheckBatch(schema: seq<ColumnSchema>, batch: seq<Chunk>) returns (error: Option<InsertError>)
    ensures error.None? <==> |batch| == |schema| && forall k :: 0 <= k < |schema| ==> batch[k].dataType == schema[k].dataType
    ensures error == Some(WrongColumnCount) <==> |batch| != |schema|
    ensures error.Some? && error.value.WrongType? ==>
              error.value.column < |schema| && batch[error.value.column].dataType != schema[error.value.column].dataType
  {
    if |batch| != |schema| {
      return Some(WrongColumnCount);
    }
    for k := 0 to |schema|
      invariant forall l :: 0 <= l < k ==> batch[l].dataType == schema[l].dataType
    {
      if batch[k].dataType != schema[k].dataType {
        return Some(WrongType(k));
      }
    }
    return None;
  }

  /** What a finished part promises: it was made of a batch for the schema, its files hold
      every column, and its zone map bounds the batch's rows. */
  ghost predicate Built(lz4: Lz4, utf8: seq<Byte> -> bool, schema: seq<ColumnSchema>, batch: seq<Chunk>, rows: nat, dir: PartDir) {
    && DistinctNames(schema) && Matches(utf8, schema, batch, rows) && PartHolds(lz4, utf8, schema, batch, dir)
    && exists zones :: Z.Parsed(utf8, dir.zoneMap) == Ok(zones) && P.ZonesBound(P.Part(RowsOf(utf8, schema, batch, rows), zones))
  }

  /** A complete part's directory: every column's files hold the batch, and the zone map
      file reads back as bounds that hold of the batch's rows. */
  method BuildPart(lz4: Lz4, utf8: seq<Byte> -> bool, schema: seq<ColumnSchema>, batch: seq<Chunk>, ghost rows: nat)
    returns (r: Result<PartDir, InsertError>)
    requires Lossless(lz4) && DistinctNames(schema) && NamesFit(utf8, schema)
    requires forall k :: 0 <= k < |batch| ==> WellFormed(utf8, batch[k]) && batch[k].data.Length() == rows
    ensures r.Ok? <==> Matches(utf8, schema, batch, rows)
    ensures r.Ok? && Addressable(r.value.files, rows) ==> Built(lz4, utf8, schema, batch, rows, r.value)
    ensures r.Ok? ==> exists zones :: Z.Parsed(utf8, r.value.zoneMap) == Ok(zones)
                        && P.ZonesBound(P.Part(RowsOf(utf8, schema, batch, rows), zones))
  {
    hide WellFormed, Z.Parsed, Z.File, P.ZonesBound, EntriesMatch;
    var error := CheckBatch(schema, batch);
    if error.Some? {
      return Err(error.value);
    }
    var files, entries;
    ghost var owners;
    files, entries, owners := WriteColumns(lz4, utf8, schema, batch, rows);
    EntriesInLimits(utf8, schema, batch, entries, owners);
    WrittenZonesBound(utf8, schema, batch, rows, entries, owners);
    Z.RoundTrip(utf8, entries);
    var zoneMap := Z.WriteZoneMap(entries);
    assert Z.Parsed(utf8, zoneMap) == Ok(Z.ZonesOf(entries));
    r := Ok(PartDir(files, zoneMap));
  }

  /** The format's limits on column names */
  ghost predicate NamesFit(utf8: seq<Byte> -> bool, schema: seq<ColumnSchema>) {
    |schema| < 0x1_0000 && forall k :: 0 <= k < |schema| ==> |schema[k].name| < 0x1_0000 && utf8(schema[k].name)
  }

  lemma {:induction false} IncreasingCount(owners: seq<nat>, i: nat)
    requires (forall j :: 0 <= j < |owners| ==> owners[j] < i) && (forall j, l :: 0 <= j < l < |owners| ==> owners[j] < owners[l])
    ensures |owners| <= i
    decreases |owners|
  {
    if owners != [] {
      var last := |owners| - 1;
      assert forall j :: 0 <= j < last ==> owners[..last][j] == owners[j];
      IncreasingCount(owners[..last], owners[last]);
    }
  }

  lemma EntriesInLimits(utf8: seq<Byte> -> bool, schema: seq<ColumnSchema>, batch: seq<Chunk>,
                        entries: seq<Z.EncodedZoneMapEntry>, owners: seq<nat>)
    requires |batch| == |schema| && DistinctNames(schema) && NamesFit(utf8, schema)
    requires EntriesMatch(schema, batch, entries, owners, |schema|)
    ensures Z.InLimits(utf8, entries) && Z.AllWellSized(entries)
  {
    EntryNames(schema, batch, entries, owners);
    IncreasingCount(owners, |schema|);
    forall i | 0 <= i < |entries|
      ensures |entries[i].colName| < 0x1_0000 && utf8(entries[i].colName) && Z.WellSized(entries[i])
    {
      assert owners[i] < |schema|;
    }
  }
}
