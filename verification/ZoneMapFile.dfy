/** The zone map file of a part: a header that says where each column's bounds lie, and
    the bounds. */
module ZoneMapFile {
  import opened Wrappers
  import opened Sequences
  import opened Bytes
  import opened Catalog

  const ZONE_MAP_VERSION: Byte := 1

  /** The bounds of a column in a part: eight bytes each */
  datatype ZoneEntry = ZoneEntry(minBytes: seq<Byte>, maxBytes: seq<Byte>)

  /** What is written of a column */
  datatype EncodedZoneMapEntry = EncodedZoneMapEntry(colName: Name, typeTag: Byte, entry: ZoneEntry)

  /** What is read of a column */
  datatype ColumnZone = ColumnZone(typeTag: Byte, entries: seq<ZoneEntry>)

  type ZoneMap = map<Name, ColumnZone>

  datatype ReadError = UnsupportedVersion | UnexpectedEof | InvalidName

  // ---- Layout ----

  function HeaderEntry(e: EncodedZoneMapEntry, offset: nat): (bytes: seq<Byte>)
    ensures |bytes| == 15 + |e.colName|
  {
    ToLe(|e.colName|, 2) + (e.colName + ([e.typeTag] + (ToLe(1, 4) + ToLe(offset, 8))))
  }

  ghost function HeaderEntries(entries: seq<EncodedZoneMapEntry>, offset: nat): (bytes: seq<Byte>)
    ensures |bytes| + 3 == HeaderSize(entries)
    decreases |entries|
  {
    if entries == [] then [] else HeaderEntry(entries[0], offset) + HeaderEntries(entries[1..], offset + 16)
  }

  function HeaderSize(entries: seq<EncodedZoneMapEntry>): nat
    decreases |entries|
  {
    if entries == [] then 3 else 15 + |entries[0].colName| + HeaderSize(entries[1..])
  }

  ghost predicate WellSized(e: EncodedZoneMapEntry) {
    |e.entry.minBytes| == 8 && |e.entry.maxBytes| == 8
  }

  ghost predicate AllWellSized(entries: seq<EncodedZoneMapEntry>) {
    forall i :: 0 <= i < |entries| ==> WellSized(entries[i])
  }

  ghost function Data(entries: seq<EncodedZoneMapEntry>): (bytes: seq<Byte>)
    requires AllWellSized(entries)
    ensures |bytes| == 16 * |entries|
    decreases |entries|
  {
    if entries == [] then []
    else
      assert WellSized(entries[0]);
      assert AllWellSized(entries[1..]) by { assert forall i :: 0 <= i < |entries| - 1 ==> entries[1..][i] == entries[i + 1]; }
      entries[0].entry.minBytes + entries[0].entry.maxBytes + Data(entries[1..])
  }

  ghost function File(entries: seq<EncodedZoneMapEntry>): (bytes: seq<Byte>)
    requires AllWellSized(entries)
    ensures |bytes| == HeaderSize(entries) + 16 * |entries|
  {
    [ZONE_MAP_VERSION] + ToLe(|entries|, 2) + HeaderEntries(entries, HeaderSize(entries)) + Data(entries)
  }

  // ---- Reading ----

  datatype Header = Header(name: Name, typeTag: Byte, entryCount: nat, dataOffset: nat)

  /** One header at `pos`, and where the next begins */
  function HeaderAt(utf8: Name -> bool, file: seq<Byte>, pos: nat): Result<(Header, nat), ReadError> {
    if pos + 2 > |file| then Err(UnexpectedEof)
    else
      var len := FromLe(file[pos..pos + 2]);
      var after := pos + 2 + len;
      if after > |file| then Err(UnexpectedEof)
      else if !utf8(file[pos + 2..after]) then Err(InvalidName)
      else if after + 13 > |file| then Err(UnexpectedEof)
      else Ok((Header(file[pos + 2..after], file[after], FromLe(file[after + 1..after + 5]), FromLe(file[after + 5..after + 13])),
               after + 13))
  }

  ghost function HeadersAt(utf8: Name -> bool, file: seq<Byte>, pos: nat, count: nat): Result<seq<Header>, ReadError>
    decreases count
  {
    if count == 0 then Ok([])
    else match HeaderAt(utf8, file, pos)
      case Err(e) => Err(e)
      case Ok((header, next)) =>
        match HeadersAt(utf8, file, next, count - 1)
        case Err(e) => Err(e)
        case Ok(headers) => Ok([header] + headers)
  }

  /** `count` bounds from `pos` on */
  function EntriesAt(file: seq<Byte>, pos: nat, count: nat): Result<seq<ZoneEntry>, ReadError> {
    if count == 0 then Ok([])
    else match EntriesAt(file, pos, count - 1)
      case Err(e) => Err(e)
      case Ok(before) =>
        var at := pos + 16 * (count - 1);
        if at + 16 > |file| then Err(UnexpectedEof)
        else Ok(before + [ZoneEntry(file[at..at + 8], file[at + 8..at + 16])])
  }

  /** The bounds of the headers' columns; a name that occurs again takes its later bounds. */
  ghost function ZonesAt(file: seq<Byte>, headers: seq<Header>): Result<ZoneMap, ReadError> {
    if headers == [] then Ok(map[])
    else
      var last := headers[|headers| - 1];
      match ZonesAt(file, headers[..|headers| - 1])
      case Err(e) => Err(e)
      case Ok(zones) =>
        match EntriesAt(file, last.dataOffset, last.entryCount)
        case Err(e) => Err(e)
        case Ok(entries) => Ok(zones[last.name := ColumnZone(last.typeTag, entries)])
  }

  ghost function Parsed(utf8: Name -> bool, file: seq<Byte>): Result<ZoneMap, ReadError> {
    if |file| < 1 then Err(UnexpectedEof)
    else if file[0] != ZONE_MAP_VERSION then Err(UnsupportedVersion)
    else if |file| < 3 then Err(UnexpectedEof)
    else match HeadersAt(utf8, file, 3, FromLe(file[1..3]))
      case Err(e) => Err(e)
      case Ok(headers) => ZonesAt(file, headers)
  }

  // ---- Round trip ----

  /** The limits of the format: u16 counts and lengths, names in UTF-8 */
  ghost predicate InLimits(utf8: Name -> bool, entries: seq<EncodedZoneMapEntry>) {
    && |entries| < 0x1_0000
    && forall i :: 0 <= i < |entries| ==> |entries[i].colName| < 0x1_0000 && utf8(entries[i].colName) && WellSized(entries[i])
  }

  /** The map that the entries, inserted in order, make */
  ghost function ZonesOf(entries: seq<EncodedZoneMapEntry>): ZoneMap {
    if entries == [] then map[]
    else
      var last := entries[|entries| - 1];
      ZonesOf(entries[..|entries| - 1])[last.colName := ColumnZone(last.typeTag, [last.entry])]
  }

  /** The headers as read: the k-th column's bounds lie 16 k bytes into the data. */
  ghost function HeadersOf(entries: seq<EncodedZoneMapEntry>, offset: nat): (headers: seq<Header>)
    ensures |headers| == |entries|
    ensures forall k :: 0 <= k < |entries| ==> headers[k] == Header(entries[k].colName, entries[k].typeTag, 1, offset + 16 * k)
  {
    seq(|entries|, k requires 0 <= k < |entries| => Header(entries[k].colName, entries[k].typeTag, 1, offset + 16 * k))
  }

  lemma HeadersOfHead(entries: seq<EncodedZoneMapEntry>, offset: nat)
    requires entries != []
    ensures HeadersOf(entries, offset)
         == [Header(entries[0].colName, entries[0].typeTag, 1, offset)] + HeadersOf(entries[1..], offset + 16)
  {
    var l, r := HeadersOf(entries, offset), [Header(entries[0].colName, entries[0].typeTag, 1, offset)] + HeadersOf(entries[1..], offset + 16);
    forall k | 0 <= k < |l| ensures l[k] == r[k] {
      if k > 0 { assert r[k] == HeadersOf(entries[1..], offset + 16)[k - 1]; }
    }
  }

  /** A header read field by field */
  lemma HeaderFields(utf8: Name -> bool, file: seq<Byte>, pos: nat, name: Name, tag: Byte, count: nat, offset: nat)
    requires pos + 15 + |name| <= |file| && utf8(name)
    requires FromLe(file[pos..pos + 2]) == |name| && file[pos + 2..pos + 2 + |name|] == name
    requires var after := pos + 2 + |name|;
             file[after..after + 1] == [tag] && FromLe(file[after + 1..after + 5]) == count && FromLe(file[after + 5..after + 13]) == offset
    ensures HeaderAt(utf8, file, pos) == Ok((Header(name, tag, count, offset), pos + 15 + |name|))
  {
    hide FromLe;
    var after := pos + 2 + |name|;
    assert file[after] == file[after..after + 1][0];
  }

  /** The fields of a header entry, and what the numbers among them read as */
  lemma HeaderEntryFields(e: EncodedZoneMapEntry, offset: nat)
    requires |e.colName| < 0x1_0000 && offset < 0x1_0000_0000_0000_0000
    ensures HeaderEntry(e, offset) == ToLe(|e.colName|, 2) + (e.colName + ([e.typeTag] + (ToLe(1, 4) + ToLe(offset, 8))))
    ensures |ToLe(|e.colName|, 2)| == 2 && |ToLe(1, 4)| == 4 && |ToLe(offset, 8)| == 8
    ensures FromLe(ToLe(|e.colName|, 2)) == |e.colName| && FromLe(ToLe(1, 4)) == 1 && FromLe(ToLe(offset, 8)) == offset
  {
    Pow256Values();
    FromLeOfToLe(|e.colName|, 2);
    FromLeOfToLe(1, 4);
    FromLeOfToLe(offset, 8);
    hide ToLe, FromLe, Pow256;
  }

  lemma HeaderParses(utf8: Name -> bool, file: seq<Byte>, pos: nat, e: EncodedZoneMapEntry, offset: nat, rest: seq<Byte>)
    requires |e.colName| < 0x1_0000 && utf8(e.colName) && offset < 0x1_0000_0000_0000_0000
    requires pos <= |file| && file[pos..] == HeaderEntry(e, offset) + rest
    ensures HeaderAt(utf8, file, pos) == Ok((Header(e.colName, e.typeTag, 1, offset), pos + 15 + |e.colName|))
  {
    hide *;
    HeaderEntryFields(e, offset);
    FieldsRead(file, pos, ToLe(|e.colName|, 2), e.colName, [e.typeTag], ToLe(1, 4), ToLe(offset, 8), rest);
    HeaderFields(utf8, file, pos, e.colName, e.typeTag, 1, offset);
  }

  lemma FieldsRead(file: seq<Byte>, pos: nat, a: seq<Byte>, b: seq<Byte>, c: seq<Byte>, d: seq<Byte>, f: seq<Byte>,
                   rest: seq<Byte>)
    requires pos <= |file| && file[pos..] == (a + (b + (c + (d + f)))) + rest
    ensures var i := pos + |a|; var j := i + |b|; var k := j + |c|; var l := k + |d|;
            && l + |f| <= |file|
            && file[pos..i] == a && file[i..j] == b && file[j..k] == c && file[k..l] == d && file[l..l + |f|] == f
  {
    var df, cdf := d + f, c + (d + f);
    var bcdf := b + cdf;
    ReadPart(file, pos, a, bcdf, rest);
    ReadPart(file, pos + |a|, b, cdf, rest);
    ReadPart(file, pos + |a| + |b|, c, df, rest);
    ReadPart(file, pos + |a| + |b| + |c|, d, f, rest);
    assert f + [] == f;
    ReadPart(file, pos + |a| + |b| + |c| + |d|, f, [], rest);
  }

  lemma HeadersAtStep(utf8: Name -> bool, file: seq<Byte>, pos: nat, header: Header, next: nat, headers: seq<Header>, count: nat)
    requires HeaderAt(utf8, file, pos) == Ok((header, next)) && HeadersAt(utf8, file, next, count) == Ok(headers)
    ensures HeadersAt(utf8, file, pos, count + 1) == Ok([header] + headers)
  {
    hide HeaderAt;
  }

  lemma NoHeaders(utf8: Name -> bool, file: seq<Byte>, pos: nat, offset: nat)
    ensures HeadersAt(utf8, file, pos, 0) == Ok(HeadersOf([], offset))
  {
  }

  lemma HeaderEntriesHead(entries: seq<EncodedZoneMapEntry>, offset: nat)
    requires entries != []
    ensures HeaderEntries(entries, offset) == HeaderEntry(entries[0], offset) + HeaderEntries(entries[1..], offset + 16)
  {
  }

  lemma {:induction false} HeadersParse(utf8: Name -> bool, file: seq<Byte>, pos: nat,
                                        entries: seq<EncodedZoneMapEntry>, offset: nat, rest: seq<Byte>)
    requires forall i :: 0 <= i < |entries| ==> |entries[i].colName| < 0x1_0000 && utf8(entries[i].colName)
    requires offset + 16 * |entries| < 0x1_0000_0000_0000_0000
    requires pos <= |file| && file[pos..] == HeaderEntries(entries, offset) + rest
    ensures HeadersAt(utf8, file, pos, |entries|) == Ok(HeadersOf(entries, offset))
    decreases |entries|
  {
    hide *;
    NoHeaders(utf8, file, pos, offset);
    if entries != [] {
      var e, tail := entries[0], entries[1..];
      var first, later := HeaderEntry(e, offset), HeaderEntries(tail, offset + 16);
      HeaderEntriesHead(entries, offset);
      Associates(first, later, rest);
      ReadPart(file, pos, first, later, rest);
      HeaderParses(utf8, file, pos, e, offset, later + rest);
      HeadersParse(utf8, file, pos + |first|, tail, offset + 16, rest);
      HeadersOfHead(entries, offset);
      HeadersAtStep(utf8, file, pos, Header(e.colName, e.typeTag, 1, offset), pos + |first|, HeadersOf(tail, offset + 16), |tail|);
    }
  }

  lemma {:induction false} DataAt(entries: seq<EncodedZoneMapEntry>, k: nat)
    requires AllWellSized(entries) && k < |entries|
    ensures Data(entries)[16 * k..16 * k + 8] == entries[k].entry.minBytes
    ensures Data(entries)[16 * k + 8..16 * k + 16] == entries[k].entry.maxBytes
    decreases |entries|
  {
    assert WellSized(entries[0]);
    assert AllWellSized(entries[1..]) by { assert forall i :: 0 <= i < |entries| - 1 ==> entries[1..][i] == entries[i + 1]; }
    var first, later := entries[0].entry.minBytes + entries[0].entry.maxBytes, Data(entries[1..]);
    assert Data(entries) == first + later;
    if k > 0 {
      DataAt(entries[1..], k - 1);
      assert Data(entries)[16 * k..16 * k + 8] == later[16 * (k - 1)..16 * (k - 1) + 8];
      assert Data(entries)[16 * k + 8..16 * k + 16] == later[16 * (k - 1) + 8..16 * (k - 1) + 16];
    }
  }

  lemma OneEntryAt(file: seq<Byte>, at: nat, entry: ZoneEntry)
    requires at + 16 <= |file| && file[at..at + 8] == entry.minBytes && file[at + 8..at + 16] == entry.maxBytes
    ensures EntriesAt(file, at, 1) == Ok([entry])
  {
    assert EntriesAt(file, at, 0) == Ok([]);
    var none: seq<ZoneEntry> := [];
    assert none + [entry] == [entry];
  }

  /** The file: version and count, headers, data */
  ghost function Head(entries: seq<EncodedZoneMapEntry>): (head: seq<Byte>)
    ensures |head| == HeaderSize(entries)
  {
    [ZONE_MAP_VERSION] + ToLe(|entries|, 2) + HeaderEntries(entries, HeaderSize(entries))
  }

  /** The offset in the k-th header points at the k-th column's 16 bytes. */
  lemma EntriesAreAt(entries: seq<EncodedZoneMapEntry>, k: nat)
    requires AllWellSized(entries) && k < |entries|
    ensures EntriesAt(File(entries), HeaderSize(entries) + 16 * k, 1) == Ok([entries[k].entry])
  {
    hide *;
    var head, data := Head(entries), Data(entries);
    FileIsHeadAndData(entries);
    DataAt(entries, k);
    SixteenBytes(head, data, 16 * k, entries[k].entry);
    OneEntryAt(head + data, |head| + 16 * k, entries[k].entry);
  }

  lemma FileIsHeadAndData(entries: seq<EncodedZoneMapEntry>)
    requires AllWellSized(entries)
    ensures File(entries) == Head(entries) + Data(entries)
  {
  }

  lemma SixteenBytes(head: seq<Byte>, data: seq<Byte>, at: nat, entry: ZoneEntry)
    requires at + 16 <= |data| && data[at..at + 8] == entry.minBytes && data[at + 8..at + 16] == entry.maxBytes
    ensures (head + data)[|head| + at..|head| + at + 8] == entry.minBytes
    ensures (head + data)[|head| + at + 8..|head| + at + 16] == entry.maxBytes
  {
    SliceAfter(head, data, at, at + 8);
    SliceAfter(head, data, at + 8, at + 16);
  }

  /** One more header's bounds */
  lemma ZonesStep(file: seq<Byte>, headers: seq<Header>, last: Header, zones: ZoneMap, entry: ZoneEntry)
    requires ZonesAt(file, headers) == Ok(zones) && EntriesAt(file, last.dataOffset, last.entryCount) == Ok([entry])
    ensures ZonesAt(file, headers + [last]) == Ok(zones[last.name := ColumnZone(last.typeTag, [entry])])
  {
    hide EntriesAt;
    assert (headers + [last])[..|headers|] == headers;
  }

  lemma ZonesOfStep(entries: seq<EncodedZoneMapEntry>, last: EncodedZoneMapEntry)
    ensures ZonesOf(entries + [last]) == ZonesOf(entries)[last.colName := ColumnZone(last.typeTag, [last.entry])]
  {
    assert (entries + [last])[..|entries|] == entries;
  }

  lemma ZonesParseStep(file: seq<Byte>, headers: seq<Header>, offset: nat, entries: seq<EncodedZoneMapEntry>, e: EncodedZoneMapEntry)
    requires ZonesAt(file, headers) == Ok(ZonesOf(entries)) && EntriesAt(file, offset, 1) == Ok([e.entry])
    ensures ZonesAt(file, headers + [Header(e.colName, e.typeTag, 1, offset)]) == Ok(ZonesOf(entries + [e]))
  {
    hide *;
    ZonesStep(file, headers, Header(e.colName, e.typeTag, 1, offset), ZonesOf(entries), e.entry);
    ZonesOfStep(entries, e);
  }

  lemma {:induction false} ZonesParse(entries: seq<EncodedZoneMapEntry>, k: nat)
    requires AllWellSized(entries) && k <= |entries|
    ensures ZonesAt(File(entries), HeadersOf(entries, HeaderSize(entries))[..k]) == Ok(ZonesOf(entries[..k]))
  {
    if k > 0 {
      var headers, last := HeadersOf(entries, HeaderSize(entries)), k - 1;
      assert headers[last] == Header(entries[last].colName, entries[last].typeTag, 1, HeaderSize(entries) + 16 * last);
      hide *;
      ZonesParse(entries, last);
      EntriesAreAt(entries, last);
      ZonesParseStep(File(entries), headers[..last], HeaderSize(entries) + 16 * last, entries[..last], entries[last]);
      Prefix(headers, k);
      Prefix(entries, k);
    }
  }

  lemma {:induction false} HeaderSizeBound(entries: seq<EncodedZoneMapEntry>)
    requires forall i :: 0 <= i < |entries| ==> |entries[i].colName| < 0x1_0000
    ensures HeaderSize(entries) <= 3 + |entries| * 0x1_000E
    decreases |entries|
  {
    if entries != [] {
      HeaderSizeBound(entries[1..]);
    }
  }

  lemma FileParts(entries: seq<EncodedZoneMapEntry>)
    requires AllWellSized(entries) && |entries| < 0x1_0000
    ensures var file := File(entries);
            && |file| >= 3 && file[0] == ZONE_MAP_VERSION && FromLe(file[1..3]) == |entries|
            && file[3..] == HeaderEntries(entries, HeaderSize(entries)) + Data(entries)
  {
    var version, count, rest := [ZONE_MAP_VERSION], ToLe(|entries|, 2), HeaderEntries(entries, HeaderSize(entries)) + Data(entries);
    Pow256Values();
    FromLeOfToLe(|entries|, 2);
    Associates(version + count, HeaderEntries(entries, HeaderSize(entries)), Data(entries));
    assert File(entries) == (version + count) + rest;
    hide *;
    ThreeParts(version, count, rest);
  }

  lemma ThreeParts<T>(a: seq<T>, b: seq<T>, c: seq<T>)
    ensures ((a + b) + c)[..|a|] == a && ((a + b) + c)[|a|..|a| + |b|] == b && ((a + b) + c)[|a| + |b|..] == c
    ensures |a| > 0 ==> ((a + b) + c)[0] == a[0]
  {
  }

  lemma ParsedFrom(utf8: Name -> bool, file: seq<Byte>, headers: seq<Header>, zones: ZoneMap)
    requires |file| >= 3 && file[0] == ZONE_MAP_VERSION
    requires HeadersAt(utf8, file, 3, FromLe(file[1..3])) == Ok(headers) && ZonesAt(file, headers) == Ok(zones)
    ensures Parsed(utf8, file) == Ok(zones)
  {
    hide HeadersAt, ZonesAt, FromLe;
  }

  /** Reading a written zone map gives back the map of its entries. */
  lemma RoundTrip(utf8: Name -> bool, entries: seq<EncodedZoneMapEntry>)
    requires InLimits(utf8, entries) && AllWellSized(entries)
    ensures Parsed(utf8, File(entries)) == Ok(ZonesOf(entries))
  {
    assert forall i :: 0 <= i < |entries| ==> |entries[i].colName| < 0x1_0000 && utf8(entries[i].colName);
    HeaderSizeBound(entries);
    hide *;
    var file, size, headers := File(entries), HeaderSize(entries), HeadersOf(entries, HeaderSize(entries));
    FileParts(entries);
    HeadersParse(utf8, file, 3, entries, size, Data(entries));
    ZonesParse(entries, |entries|);
    Whole(headers);
    Whole(entries);
    ParsedFrom(utf8, file, headers, ZonesOf(entries));
  }

  /** For distinct names the map holds every entry under its name, and nothing else. */
  lemma {:induction false} ZonesOfDistinct(entries: seq<EncodedZoneMapEntry>)
    requires forall i, j :: 0 <= i < j < |entries| ==> entries[i].colName != entries[j].colName
    ensures forall i :: 0 <= i < |entries| ==>
              entries[i].colName in ZonesOf(entries)
              && ZonesOf(entries)[entries[i].colName] == ColumnZone(entries[i].typeTag, [entries[i].entry])
    ensures forall name :: name in ZonesOf(entries) ==> exists i :: 0 <= i < |entries| && entries[i].colName == name
  {
    if entries != [] {
      var front := entries[..|entries| - 1];
      ZonesOfDistinct(front);
      forall name | name in ZonesOf(entries) ensures exists i :: 0 <= i < |entries| && entries[i].colName == name {
        if name == entries[|entries| - 1].colName {
        } else {
          assert name in ZonesOf(front);
          var i :| 0 <= i < |front| && front[i].colName == name;
          assert entries[i].colName == name;
        }
      }
    }
  }

  // ---- The loops ----

  lemma {:induction false} HeaderEntriesStep(entries: seq<EncodedZoneMapEntry>, offset: nat, e: EncodedZoneMapEntry)
    ensures HeaderEntries(entries + [e], offset) == HeaderEntries(entries, offset) + HeaderEntry(e, offset + 16 * |entries|)
    ensures HeaderSize(entries + [e]) == HeaderSize(entries) + 15 + |e.colName|
    decreases |entries|
  {
    hide HeaderEntry;
    if entries == [] {
      assert (entries + [e])[1..] == [];
      assert HeaderEntry(e, offset) + [] == HeaderEntry(e, offset);
    } else {
      assert (entries + [e])[1..] == entries[1..] + [e] && (entries + [e])[0] == entries[0];
      HeaderEntriesStep(entries[1..], offset + 16, e);
      var first, last := HeaderEntry(entries[0], offset), HeaderEntry(e, offset + 16 * |entries|);
      Associates(first, HeaderEntries(entries[1..], offset + 16), last);
    }
  }

  lemma {:induction false} DataStep(entries: seq<EncodedZoneMapEntry>, e: EncodedZoneMapEntry)
    requires AllWellSized(entries) && WellSized(e)
    ensures AllWellSized(entries + [e]) && Data(entries + [e]) == Data(entries) + (e.entry.minBytes + e.entry.maxBytes)
    decreases |entries|
  {
    if entries == [] {
      assert (entries + [e])[1..] == [];
      assert Data([e]) == e.entry.minBytes + e.entry.maxBytes + Data([]);
    } else {
      assert WellSized(entries[0]);
      assert AllWellSized(entries[1..]) by { assert forall i :: 0 <= i < |entries| - 1 ==> entries[1..][i] == entries[i + 1]; }
      assert (entries + [e])[1..] == entries[1..] + [e];
      DataStep(entries[1..], e);
      assert AllWellSized(entries + [e]);
      var first := entries[0].entry.minBytes + entries[0].entry.maxBytes;
      assert first + (Data(entries[1..]) + (e.entry.minBytes + e.entry.maxBytes))
          == (first + Data(entries[1..])) + (e.entry.minBytes + e.entry.maxBytes);
    }
  }

  method SizeOfHeader(entries: seq<EncodedZoneMapEntry>) returns (size: nat)
    ensures size == HeaderSize(entries)
  {
    size := 1 + 2;
    for i := 0 to |entries|
      invariant size == HeaderSize(entries[..i])
    {
      HeaderEntriesStep(entries[..i], 0, entries[i]);
      assert entries[..i + 1] == entries[..i] + [entries[i]];
      size := size + 2 + |entries[i].colName| + 1 + 4 + 8;
    }
    assert entries[..|entries|] == entries;
  }

  lemma NoEntries(offset: nat)
    ensures HeaderEntries([], offset) == []
  {
  }

  lemma HeaderAppends(entries: seq<EncodedZoneMapEntry>, headerSize: nat, out0: seq<Byte>, i: nat)
    requires i < |entries|
    ensures out0 + HeaderEntries(entries[..i + 1], headerSize)
         == (out0 + HeaderEntries(entries[..i], headerSize)) + HeaderEntry(entries[i], headerSize + 16 * i)
  {
    hide *;
    HeaderEntriesStep(entries[..i], headerSize, entries[i]);
    Prefix(entries, i + 1);
    Associates(out0, HeaderEntries(entries[..i], headerSize), HeaderEntry(entries[i], headerSize + 16 * i));
  }

  method WriteHeaders(entries: seq<EncodedZoneMapEntry>, headerSize: nat, out0: seq<Byte>) returns (out: seq<Byte>)
    ensures out == out0 + HeaderEntries(entries, headerSize)
  {
    hide *;
    out := out0;
    var dataOffset := headerSize;
    NoEntries(headerSize);
    assert out0 + HeaderEntries([], headerSize) == out0;
    for i := 0 to |entries|
      invariant dataOffset == headerSize + 16 * i && out == out0 + HeaderEntries(entries[..i], headerSize)
    {
      HeaderAppends(entries, headerSize, out0, i);
      out := out + HeaderEntry(entries[i], dataOffset);
      dataOffset := dataOffset + 16;
    }
    Whole(entries);
  }

  method WriteData(entries: seq<EncodedZoneMapEntry>, out0: seq<Byte>) returns (out: seq<Byte>)
    requires AllWellSized(entries)
    ensures out == out0 + Data(entries)
  {
    out := out0;
    for i := 0 to |entries|
      invariant AllWellSized(entries[..i]) && out == out0 + Data(entries[..i])
    {
      assert WellSized(entries[i]);
      DataStep(entries[..i], entries[i]);
      assert entries[..i + 1] == entries[..i] + [entries[i]];
      out := out + (entries[i].entry.minBytes + entries[i].entry.maxBytes);
    }
    assert entries[..|entries|] == entries;
  }

  method WriteZoneMap(entries: seq<EncodedZoneMapEntry>) returns (file: seq<Byte>)
    requires AllWellSized(entries)
    ensures file == File(entries)
  {
    var headerSize := SizeOfHeader(entries);
    file := [ZONE_MAP_VERSION];
    file := file + ToLe(|entries|, 2);
    file := WriteHeaders(entries, headerSize, file);
    file := WriteData(entries, file);
  }

  /** What reading the headers from `pos` on gives, after those already read */
  ghost function After(done: seq<Header>, r: Result<seq<Header>, ReadError>): Result<seq<Header>, ReadError> {
    match r
    case Err(e) => Err(e)
    case Ok(headers) => Ok(done + headers)
  }

  lemma NextHeader(utf8: Name -> bool, file: seq<Byte>, pos: nat, count: nat, done: seq<Header>)
    requires count > 0
    ensures After(done, HeadersAt(utf8, file, pos, count))
         == match HeaderAt(utf8, file, pos)
            case Err(e) => Err(e)
            case Ok((header, next)) => After(done + [header], HeadersAt(utf8, file, next, count - 1))
  {
    if HeaderAt(utf8, file, pos).Ok? {
      var (header, next) := HeaderAt(utf8, file, pos).value;
      if HeadersAt(utf8, file, next, count - 1).Ok? {
        var headers := HeadersAt(utf8, file, next, count - 1).value;
        assert done + ([header] + headers) == (done + [header]) + headers;
      }
    }
  }

  method ReadHeaders(utf8: Name -> bool, file: seq<Byte>, colCount: nat) returns (r: Result<seq<Header>, ReadError>)
    ensures r == HeadersAt(utf8, file, 3, colCount)
  {
    var headers: seq<Header>, pos := [], 3;
    assert HeadersAt(utf8, file, 3, colCount) == After([], HeadersAt(utf8, file, 3, colCount)) by {
      assert forall hs: seq<Header> :: [] + hs == hs;
    }
    for k := 0 to colCount
      invariant HeadersAt(utf8, file, 3, colCount) == After(headers, HeadersAt(utf8, file, pos, colCount - k))
    {
      hide HeadersAt, HeaderAt, After;
      NextHeader(utf8, file, pos, colCount - k, headers);
      var one := HeaderAt(utf8, file, pos);
      if one.Err? {
        return Err(one.error);
      }
      headers, pos := headers + [one.value.0], one.value.1;
    }
    assert headers + [] == headers;
    return Ok(headers);
  }

  method ReadEntries(file: seq<Byte>, offset: nat, count: nat) returns (r: Result<seq<ZoneEntry>, ReadError>)
    ensures r == EntriesAt(file, offset, count)
  {
    var entries, pos := [], offset;
    for k := 0 to count
      invariant pos == offset + 16 * k && EntriesAt(file, offset, k) == Ok(entries)
    {
      if pos + 16 > |file| {
        EntriesFail(file, offset, k + 1, count);
        return Err(UnexpectedEof);
      }
      entries := entries + [ZoneEntry(file[pos..pos + 8], file[pos + 8..pos + 16])];
      pos := pos + 16;
    }
    return Ok(entries);
  }

  lemma {:induction false} EntriesFail(file: seq<Byte>, offset: nat, k: nat, count: nat)
    requires k <= count && EntriesAt(file, offset, k).Err?
    ensures EntriesAt(file, offset, count) == EntriesAt(file, offset, k)
    decreases count - k
  {
    if k < count { EntriesFail(file, offset, k + 1, count); }
  }

  lemma {:induction false} ZonesFail(file: seq<Byte>, headers: seq<Header>, k: nat)
    requires k <= |headers| && ZonesAt(file, headers[..k]).Err?
    ensures ZonesAt(file, headers) == ZonesAt(file, headers[..k])
    decreases |headers| - k
  {
    if k < |headers| {
      assert headers[..k + 1][..k] == headers[..k];
      ZonesFail(file, headers, k + 1);
    } else {
      assert headers[..k] == headers;
    }
  }

  method ReadZones(file: seq<Byte>, headers: seq<Header>) returns (r: Result<ZoneMap, ReadError>)
    ensures r == ZonesAt(file, headers)
  {
    var zones: ZoneMap := map[];
    for k := 0 to |headers|
      invariant ZonesAt(file, headers[..k]) == Ok(zones)
    {
      var h := headers[k];
      assert headers[..k + 1][..k] == headers[..k];
      var entries := ReadEntries(file, h.dataOffset, h.entryCount);
      if entries.Err? {
        ZonesFail(file, headers, k + 1);
        return Err(entries.error);
      }
      zones := zones[h.name := ColumnZone(h.typeTag, entries.value)];
    }
    assert headers[..|headers|] == headers;
    return Ok(zones);
  }

  method ReadZoneMap(utf8: Name -> bool, file: seq<Byte>) returns (r: Result<ZoneMap, ReadError>)
    ensures r == Parsed(utf8, file)
  {
    if |file| < 1 {
      return Err(UnexpectedEof);
    }
    if file[0] != ZONE_MAP_VERSION {
      return Err(UnsupportedVersion);
    }
    if |file| < 3 {
      return Err(UnexpectedEof);
    }
    var headers := ReadHeaders(utf8, file, FromLe(file[1..3]));
    if headers.Err? {
      return Err(headers.error);
    }
    r := ReadZones(file, headers.value);
  }
}
