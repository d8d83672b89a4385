/** Writing a column of fixed-width values: granules of 512 rows, packed into blocks of
    8 KiB, with one mark per granule, and the column's bounds. */
module ColumnWriter {
  import opened Wrappers
  import opened Sequences
  import opened Arithmetic
  import opened Bytes
  import opened Codecs
  import opened Granules
  import opened ColumnFormat

  datatype ZoneMapEntry = ZoneMapEntry(min: int, max: int)

  /** The decoded bytes of the block at `off`, as the reader gets them */
  ghost function BlockAt(lz4: Lz4, p: Primitive, bin: seq<Byte>, off: nat): Option<seq<Byte>>
    requires p.Valid()
  {
    match ReadFrame(bin, off)
    case None => None
    case Some((tag, compressed)) =>
      if FromTag(tag).Err? || lz4.decompress(compressed).None? then None
      else match Decoded(FromTag(tag).value, lz4.decompress(compressed).value, p.Width())
        case Err(_) => None
        case Ok(bytes) => Some(bytes)
  }

  /** The file holds these blocks of values. */
  ghost predicate Holds(lz4: Lz4, p: Primitive, bin: seq<Byte>, blocks: map<nat, seq<int>>)
    requires p.Valid()
  {
    forall off :: off in blocks ==>
      AllInRange(p, blocks[off]) && BlockAt(lz4, p, bin, off) == Some(RawBytes(p, blocks[off]))
  }

  /** A mark as stored: the offset within the block counts bytes. */
  function Stored(p: Primitive, m: Mark): Mark {
    m.(decompressedOffset := m.decompressedOffset * p.Width())
  }

  function AllStored(p: Primitive, marks: seq<Mark>): (stored: seq<Mark>)
    ensures |stored| == |marks| && forall i :: 0 <= i < |marks| ==> stored[i] == Stored(p, marks[i])
  {
    seq(|marks|, i requires 0 <= i < |marks| => Stored(p, marks[i]))
  }

  /** The two files hold the column: blocks that can be read back, and the marks of all
      granules in them. */
  ghost predicate IsColumn(lz4: Lz4, p: Primitive, bin: seq<Byte>, stored: seq<Mark>, blocks: map<nat, seq<int>>,
                           marks: seq<Mark>, values: seq<int>)
    requires p.Valid()
  {
    Holds(lz4, p, bin, blocks) && Indexed(blocks, marks, values) && stored == AllStored(p, marks)
  }

  /** Granules in a full block */
  function GranulesPerBlock(p: Primitive): (n: nat)
    requires p.Valid()
    ensures n > 0 && n * GRANULE_SIZE * p.Width() == BLOCK_BUFFER_SIZE
  {
    match p.Width() case 1 => 16 case 2 => 8 case 4 => 4 case _ => 2
  }

  /** Block cuts: granule i lies i mod n granules into its block, and the offsets of
      granules of different blocks strictly increase. */
  ghost predicate EvenlyCut(marks: seq<Mark>, n: nat)
    requires n > 0
  {
    && (forall i :: 0 <= i < |marks| ==> marks[i].decompressedOffset == GranuleStart(i % n))
    && (forall i, j :: 0 <= i <= j < |marks| ==>
         if i / n == j / n then marks[i].blockOffset == marks[j].blockOffset else marks[i].blockOffset < marks[j].blockOffset)
  }

  lemma AppendBlockCut(marks: seq<Mark>, pending: seq<Mark>, n: nat, full: nat, offset: nat)
    requires n > 0 && EvenlyCut(marks, n) && |marks| == n * full && |pending| <= n
    requires forall j :: 0 <= j < |pending| ==> pending[j] == Mark(0, GranuleStart(j))
    requires forall i :: 0 <= i < |marks| ==> marks[i].blockOffset < offset
    ensures EvenlyCut(marks + Patched(pending, offset), n)
  {
    var marks' := marks + Patched(pending, offset);
    forall i | |marks| <= i < |marks'| ensures i / n == full && i % n == i - |marks| {
      RemainderUnique(i, n, full, i - |marks|);
    }
    forall i | 0 <= i < |marks| ensures i / n < full {
      QuotientBelow(i, n, full);
    }
  }

  /** Minimum and maximum: attained bounds */
  ghost predicate AreBounds(values: seq<int>, zone: ZoneMapEntry) {
    && zone.min in values && zone.max in values
    && forall i :: 0 <= i < |values| ==> zone.min <= values[i] <= zone.max
  }

  method Serialize(p: Primitive, values: seq<int>) returns (raw: seq<Byte>)
    requires AllInRange(p, values)
    ensures raw == RawBytes(p, values)
  {
    raw := [];
    for i := 0 to |values|
      invariant raw == Concat(EncodedValues(p, values)[..i])
    {
      ConcatStep(EncodedValues(p, values), i);
      raw := raw + EncodeLe(p, values[i]);
    }
    assert EncodedValues(p, values)[..|values|] == EncodedValues(p, values);
  }

  lemma BlockIs(lz4: Lz4, p: Primitive, bin: seq<Byte>, off: nat, codec: Codec, compressed: seq<Byte>, encoded: seq<Byte>, raw: seq<Byte>)
    requires p.Valid() && ReadFrame(bin, off) == Some((Tag(codec), compressed)) && lz4.decompress(compressed) == Some(encoded)
    requires Decoded(codec, encoded, p.Width()) == Ok(raw)
    ensures BlockAt(lz4, p, bin, off) == Some(raw)
  {
    hide ReadFrame, Decoded;
  }

  /** A block appended to the file is read back at its offset. */
  lemma BlockReads(lz4: Lz4, p: Primitive, codec: Codec, values: seq<int>, bin: seq<Byte>)
    requires Lossless(lz4) && p.Valid() && AllInRange(p, values)
    requires |values| * p.Width() <= BLOCK_BUFFER_SIZE
    ensures var encoded := Codecs.Encoded(codec, RawBytes(p, values), p.Width());
            BlockAt(lz4, p, bin + Frame(Tag(codec), lz4.compress(encoded)), |bin|) == Some(RawBytes(p, values))
  {
    var raw := RawBytes(p, values);
    RawBytesDecode(p, values);
    ProductIsMultiple(p.Width(), |values|);
    assert |raw| == p.Width() * |values|;
    hide RawBytes, Codecs.Encoded, Codecs.Decoded, Frame, ReadFrame, BlockAt, AllInRange;
    CodecRoundTrip(codec, raw, p.Width());
    var encoded := Codecs.Encoded(codec, raw, p.Width());
    assert lz4.decompress(lz4.compress(encoded)) == Some(encoded);
    FrameReads(bin, Tag(codec), lz4.compress(encoded));
    BlockIs(lz4, p, bin + Frame(Tag(codec), lz4.compress(encoded)), |bin|, codec, lz4.compress(encoded), encoded, raw);
  }

  /** Serialize, encode, compress and append the block; the file then reads back the
      block's bytes at its offset. */
  method AppendBlock(lz4: Lz4, p: Primitive, codec: Codec, blockValues: seq<int>, bin: seq<Byte>) returns (bin': seq<Byte>)
    requires Lossless(lz4) && p.Valid() && AllInRange(p, blockValues) && blockValues != []
    requires |blockValues| * p.Width() <= BLOCK_BUFFER_SIZE
    ensures |bin'| > |bin| && bin <= bin'
    ensures BlockAt(lz4, p, bin', |bin|) == Some(RawBytes(p, blockValues))
  {
    hide BlockAt, RawBytes, AllInRange, Codecs.Encoded, Tag;
    var raw := Serialize(p, blockValues);
    RawBytesDecode(p, blockValues);
    TimesMonotone(1, |blockValues|, p.Width());
    var encoded := Codecs.Encode(codec, raw, p.Width(), []);
    var compressed := lz4.compress(encoded);
    bin' := bin + Frame(Tag(codec), compressed);
    BlockReads(lz4, p, codec, blockValues, bin);
    assert encoded == Codecs.Encoded(codec, raw, p.Width());
  }

  lemma HoldsExtends(lz4: Lz4, p: Primitive, bin: seq<Byte>, bin': seq<Byte>, blocks: map<nat, seq<int>>, values: seq<int>)
    requires p.Valid() && Holds(lz4, p, bin, blocks) && bin <= bin' && AllInRange(p, values)
    requires forall off :: off in blocks ==> off < |bin|
    requires BlockAt(lz4, p, bin', |bin|) == Some(RawBytes(p, values))
    ensures Holds(lz4, p, bin', blocks[|bin| := values])
  {
    forall off | off in blocks ensures BlockAt(lz4, p, bin', off) == BlockAt(lz4, p, bin, off) {
      assert BlockAt(lz4, p, bin, off).Some?;
      FrameStays(bin, bin'[|bin|..], off);
      assert bin' == bin + bin'[|bin|..];
    }
  }

  lemma StoredOfPatched(p: Primitive, marks: seq<Mark>, pending: seq<Mark>, offset: nat)
    ensures AllStored(p, marks + Patched(pending, offset)) == AllStored(p, marks) + Patched(AllStored(p, pending), offset)
  {
  }

  /** At a granule boundary the size test is true exactly when the block is full. */
  lemma FullBlockSize(p: Primitive, granules: nat, rows: nat)
    requires p.Valid() && granules <= GranulesPerBlock(p) && rows == granules * GRANULE_SIZE
    ensures rows * p.Width() >= BLOCK_BUFFER_SIZE <==> granules == GranulesPerBlock(p)
  {
  }

  lemma BlockFitsBuffer(p: Primitive, rows: nat)
    requires p.Valid() && rows <= GranulesPerBlock(p) * GRANULE_SIZE
    ensures rows * p.Width() <= BLOCK_BUFFER_SIZE
  {
  }

  /** The files after some blocks: what is on disk, and what the marks say of it */
  ghost predicate OnDisk(lz4: Lz4, p: Primitive, bin: seq<Byte>, mrk: seq<Byte>, blocks: map<nat, seq<int>>, marks: seq<Mark>)
    requires p.Valid()
  {
    && Holds(lz4, p, bin, blocks) && mrk == MarksBytes(AllStored(p, marks)) && EvenlyCut(marks, GranulesPerBlock(p))
    && (forall off :: off in blocks ==> off < |bin|)
    && (forall i :: 0 <= i < |marks| ==> marks[i].blockOffset < |bin|)
  }

  ghost predicate Written(lz4: Lz4, p: Primitive, bin: seq<Byte>, mrk: seq<Byte>, values: seq<int>,
                          blocks: map<nat, seq<int>>, marks: seq<Mark>)
    requires p.Valid()
  {
    OnDisk(lz4, p, bin, mrk, blocks, marks) && Indexed(blocks, marks, values)
  }

  /** The two files are those of the column: every granule is found through its mark, in
      blocks that can be read back; every block but the last is full. */
  ghost predicate ColumnHeld(lz4: Lz4, p: Primitive, bin: seq<Byte>, mrk: seq<Byte>, values: seq<int>)
    requires p.Valid()
  {
    exists blocks, marks :: Written(lz4, p, bin, mrk, values, blocks, marks)
  }

  /** Every block but the last holds exactly 8192 / WIDTH values. */
  lemma FullBlocks(lz4: Lz4, p: Primitive, bin: seq<Byte>, mrk: seq<Byte>, values: seq<int>,
                   blocks: map<nat, seq<int>>, marks: seq<Mark>, i: nat, j: nat)
    requires p.Valid() && Written(lz4, p, bin, mrk, values, blocks, marks)
    requires i < j < |marks| && marks[i].blockOffset != marks[j].blockOffset
    ensures marks[i].blockOffset in blocks && |blocks[marks[i].blockOffset]| * p.Width() == BLOCK_BUFFER_SIZE
  {
    hide Holds, BlockAt, MarksBytes;
    var n := GranulesPerBlock(p);
    var k := i / n;
    var last := n * k + (n - 1);
    RemainderUnique(last, n, k, n - 1);
    BlockEndsBefore(i, j, n);
    RemainderUnique(last + 1, n, k + 1, 0);
    assert MarkFinds(blocks, marks, values, last) && marks[last].decompressedOffset == GranuleStart(n - 1);
    assert marks[last].blockOffset == marks[i].blockOffset && marks[last + 1].blockOffset != marks[last].blockOffset;
    assert |blocks[marks[i].blockOffset]| == n * GRANULE_SIZE;
  }

  /** Of two granules in different blocks, the first one's block has its last granule
      before the second. */
  lemma BlockEndsBefore(i: nat, j: nat, n: nat)
    requires n > 0 && i < j && i / n != j / n
    ensures i <= n * (i / n) + (n - 1) < j
  {
    var l := j / n;
    assert j < n * (l + 1);
    QuotientBelow(i, n, l + 1);
    NextMultiple(n, i / n, i % n, l, j % n);
  }

  lemma NextMultiple(n: nat, k: nat, r: nat, l: nat, q: nat)
    requires r < n && k < l
    ensures n * k + r <= n * k + (n - 1) < n * l + q
  {
    TimesMonotone(k + 1, l, n);
  }

  /** `flush_block` on a non-empty buffer: append the block, patch the pending marks with
      its offset and write them. */
  method FlushBlock(lz4: Lz4, p: Primitive, codec: Codec, blockValues: seq<int>, pendingMarks: seq<Mark>,
                    bin: seq<Byte>, mrk: seq<Byte>,
                    ghost blocks: map<nat, seq<int>>, ghost marks: seq<Mark>, ghost pending: seq<Mark>, ghost full: nat)
    returns (bin': seq<Byte>, mrk': seq<Byte>)
    requires Lossless(lz4) && p.Valid() && AllInRange(p, blockValues) && blockValues != []
    requires |blockValues| <= GranulesPerBlock(p) * GRANULE_SIZE
    requires OnDisk(lz4, p, bin, mrk, blocks, marks) && |marks| == GranulesPerBlock(p) * full
    requires Pending(pending, |blockValues|) && pendingMarks == AllStored(p, pending)
    ensures |bin'| > |bin|
    ensures OnDisk(lz4, p, bin', mrk', blocks[|bin| := blockValues], marks + Patched(pending, |bin|))
  {
    hide BlockAt, MarksBytes, MarkChunks, RawBytes;
    BlockFitsBuffer(p, |blockValues|);
    bin' := AppendBlock(lz4, p, codec, blockValues, bin);
    HoldsExtends(lz4, p, bin, bin', blocks, blockValues);
    mrk' := WriteMarks(mrk, Patched(pendingMarks, |bin|));
    StoredOfPatched(p, marks, pending, |bin|);
    MarksBytesOfConcat(AllStored(p, marks), Patched(pendingMarks, |bin|));
    AppendBlockCut(marks, pending, GranulesPerBlock(p), full, |bin|);
  }

  /** How far a writer is: the blocks and marks on disk, the marks pending, the rows on
      disk and the number of blocks */
  datatype Progress = Progress(blocks: map<nat, seq<int>>, marks: seq<Mark>, pending: seq<Mark>, start: nat, full: nat)

  ghost predicate AtRow(lz4: Lz4, p: Primitive, bin: seq<Byte>, mrk: seq<Byte>, blockValues: seq<int>,
                        pendingMarks: seq<Mark>, column: seq<int>, g: Progress)
    requires p.Valid()
  {
    && OnDisk(lz4, p, bin, mrk, g.blocks, g.marks)
    && Writing(g.blocks, g.marks, g.pending, blockValues, column, g.start, |bin|)
    && |g.marks| == GranulesPerBlock(p) * g.full
    && pendingMarks == AllStored(p, g.pending)
    && AllInRange(p, blockValues)
  }

  lemma AtRowStarts(lz4: Lz4, p: Primitive)
    requires p.Valid()
    ensures AtRow(lz4, p, [], [], [], [], [], Progress(map[], [], [], 0, 0))
  {
    WritingStarts<int>();
    assert MarkChunks([]) == [];
  }

  /** The mark a row begins with, if it begins a granule */
  function WithMark(p: Primitive, pendingMarks: seq<Mark>, rowsInCurrentGranule: nat, rowsInCurrentBlock: nat): seq<Mark> {
    if rowsInCurrentGranule == 0 then pendingMarks + [Mark(0, rowsInCurrentBlock * p.Width())] else pendingMarks
  }

  lemma AtRowPushes(lz4: Lz4, p: Primitive, bin: seq<Byte>, mrk: seq<Byte>, blockValues: seq<int>,
                    pendingMarks: seq<Mark>, column: seq<int>, g: Progress, v: int,
                    granules: nat, rows: nat) returns (g': Progress)
    requires p.Valid() && p.InRange(v) && AtRow(lz4, p, bin, mrk, blockValues, pendingMarks, column, g)
    requires |blockValues| == granules * GRANULE_SIZE + rows && rows < GRANULE_SIZE
    ensures AtRow(lz4, p, bin, mrk, blockValues + [v], WithMark(p, pendingMarks, rows, |blockValues|), column + [v], g')
  {
    RowKeepsWriting(g.blocks, g.marks, g.pending, blockValues, column, g.start, |bin|, v);
    RemainderUnique(|blockValues|, GRANULE_SIZE, granules, rows);
    g' := if rows == 0 then g.(pending := g.pending + [Mark(0, |blockValues|)]) else g;
    assert WithMark(p, pendingMarks, rows, |blockValues|) == AllStored(p, g'.pending);
  }

  lemma OneMoreBlock(p: Primitive, full: nat)
    requires p.Valid()
    ensures var n := GranulesPerBlock(p); GranuleCount(n * GRANULE_SIZE) == n && n * (full + 1) == n * full + n
  {
  }

  /** `flush_block` at the end of a full block */
  method FlushFullBlock(lz4: Lz4, p: Primitive, codec: Codec, blockValues: seq<int>, pendingMarks: seq<Mark>,
                        bin: seq<Byte>, mrk: seq<Byte>, ghost column: seq<int>, ghost g: Progress)
    returns (bin': seq<Byte>, mrk': seq<Byte>, ghost g': Progress)
    requires Lossless(lz4) && p.Valid()
    requires AtRow(lz4, p, bin, mrk, blockValues, pendingMarks, column, g)
    requires |blockValues| == GranulesPerBlock(p) * GRANULE_SIZE
    ensures AtRow(lz4, p, bin', mrk', [], [], column, g')
  {
    hide OnDisk, Indexed;
    bin', mrk' := FlushBlock(lz4, p, codec, blockValues, pendingMarks, bin, mrk, g.blocks, g.marks, g.pending, g.full);
    SameAlignment(g.start, |blockValues|, |column|);
    FlushKeepsWriting(g.blocks, g.marks, g.pending, blockValues, column, g.start, |bin|, |bin'|);
    OneMoreBlock(p, g.full);
    g' := Progress(g.blocks[|bin| := blockValues], g.marks + Patched(g.pending, |bin|), [], |column|, g.full + 1);
  }

  /** `flush_block` at the end of the column: nothing to do if the buffer is empty */
  method FlushTail(lz4: Lz4, p: Primitive, codec: Codec, blockValues: seq<int>, pendingMarks: seq<Mark>,
                   bin: seq<Byte>, mrk: seq<Byte>, ghost column: seq<int>, ghost g: Progress)
    returns (bin': seq<Byte>, mrk': seq<Byte>)
    requires Lossless(lz4) && p.Valid()
    requires AtRow(lz4, p, bin, mrk, blockValues, pendingMarks, column, g)
    requires |blockValues| <= GranulesPerBlock(p) * GRANULE_SIZE
    ensures ColumnHeld(lz4, p, bin', mrk', column)
  {
    hide OnDisk, Indexed;
    if blockValues == [] {
      assert column[..|column|] == column;
      assert Written(lz4, p, bin, mrk, column, g.blocks, g.marks);
      return bin, mrk;
    }
    FlushIndexes(g.blocks, g.marks, g.pending, blockValues, column, g.start, |bin|);
    bin', mrk' := FlushBlock(lz4, p, codec, blockValues, pendingMarks, bin, mrk, g.blocks, g.marks, g.pending, g.full);
    assert Written(lz4, p, bin', mrk', column, g.blocks[|bin| := blockValues], g.marks + Patched(g.pending, |bin|));
  }

  /** The bounds after one more value */
  function Widened(zone: Option<ZoneMapEntry>, v: int): ZoneMapEntry {
    match zone
    case None => ZoneMapEntry(v, v)
    case Some(z) => ZoneMapEntry(if v < z.min then v else z.min, if v > z.max then v else z.max)
  }

  ghost predicate IsZoneOf(values: seq<int>, zone: Option<ZoneMapEntry>) {
    if values == [] then zone == None else zone.Some? && AreBounds(values, zone.value)
  }

  lemma WidenedIsZone(values: seq<int>, zone: Option<ZoneMapEntry>, v: int)
    requires IsZoneOf(values, zone)
    ensures IsZoneOf(values + [v], Some(Widened(zone, v)))
  {
    assert (values + [v])[|values|] == v;
    if values != [] {
      assert zone.value.min in values + [v] && zone.value.max in values + [v];
    }
  }

  /** Write one column. The files hold the column's blocks and marks; every block but
      the last holds exactly 8192 / WIDTH values; the bounds are attained. */
  method WriteColumn(lz4: Lz4, p: Primitive, values: seq<int>, codec: Codec)
    returns (bin: seq<Byte>, mrk: seq<Byte>, zone: Option<ZoneMapEntry>)
    requires Lossless(lz4) && p.Valid() && AllInRange(p, values)
    ensures ColumnHeld(lz4, p, bin, mrk, values)
    ensures IsZoneOf(values, zone)
  {
    hide AtRow, ColumnHeld;
    bin, mrk, zone := [], [], None;
    var blockValues: seq<int>, pendingMarks: seq<Mark> := [], [];
    var rowsInCurrentGranule, rowsInCurrentBlock := 0, 0;
    ghost var g, granules: nat := Progress(map[], [], [], 0, 0), 0;
    AtRowStarts(lz4, p);
    for i := 0 to |values|
      invariant rowsInCurrentGranule < GRANULE_SIZE && granules < GranulesPerBlock(p)
      invariant |blockValues| == rowsInCurrentBlock == granules * GRANULE_SIZE + rowsInCurrentGranule
      invariant AtRow(lz4, p, bin, mrk, blockValues, pendingMarks, values[..i], g)
      invariant IsZoneOf(values[..i], zone)
    {
      var v := values[i];
      assert values[..i + 1] == values[..i] + [v];
      g := AtRowPushes(lz4, p, bin, mrk, blockValues, pendingMarks, values[..i], g, v,
                       granules, rowsInCurrentGranule);
      WidenedIsZone(values[..i], zone, v);
      pendingMarks := WithMark(p, pendingMarks, rowsInCurrentGranule, rowsInCurrentBlock);
      blockValues := blockValues + [v];
      rowsInCurrentGranule, rowsInCurrentBlock := rowsInCurrentGranule + 1, rowsInCurrentBlock + 1;
      zone := Some(Widened(zone, v));
      if rowsInCurrentGranule == GRANULE_SIZE {
        rowsInCurrentGranule, granules := 0, granules + 1;
        FullBlockSize(p, granules, |blockValues|);
        if |blockValues| * p.Width() >= BLOCK_BUFFER_SIZE {
          bin, mrk, g := FlushFullBlock(lz4, p, codec, blockValues, pendingMarks, bin, mrk, values[..i + 1], g);
          blockValues, pendingMarks, rowsInCurrentBlock, granules := [], [], 0, 0;
        }
      }
    }
    assert values[..|values|] == values;
    bin, mrk := FlushTail(lz4, p, codec, blockValues, pendingMarks, bin, mrk, values, g);
  }
}
