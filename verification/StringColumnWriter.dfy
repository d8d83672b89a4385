/** Writing a column of strings. Blocks are cut by their plain size, so a block may hold
    any number of granules, and marks count strings. */
module StringColumnWriter {
  import opened Wrappers
  import opened Arithmetic
  import opened Bytes
  import opened StringPlain
  import opened StringCodecs
  import opened Granules
  import opened ColumnFormat

  /** The strings of the block at `off`, as the reader gets them */
  ghost function StringsAt(lz4: Lz4, utf8: Str -> bool, bin: seq<Byte>, off: nat): Option<seq<Str>> {
    match ReadFrame(bin, off)
    case None => None
    case Some((tag, compressed)) =>
      if StringFromTag(tag).Err? || lz4.decompress(compressed).None? then None
      else match DecodedAs(StringFromTag(tag).value, utf8, lz4.decompress(compressed).value)
        case Err(_) => None
        case Ok(ss) => Some(ss)
  }

  ghost predicate HoldsStrings(lz4: Lz4, utf8: Str -> bool, bin: seq<Byte>, blocks: map<nat, seq<Str>>) {
    forall off :: off in blocks ==> StringsAt(lz4, utf8, bin, off) == Some(blocks[off])
  }

  /** The files after some blocks */
  ghost predicate StringsOnDisk(lz4: Lz4, utf8: Str -> bool, bin: seq<Byte>, mrk: seq<Byte>,
                                blocks: map<nat, seq<Str>>, marks: seq<Mark>) {
    HoldsStrings(lz4, utf8, bin, blocks) && mrk == MarksBytes(marks)
  }

  /** Any 512 rows in a row are small enough for a block. */
  ghost predicate GranulesFit(values: seq<Str>) {
    forall a, b :: 0 <= a <= b <= |values| && b - a <= GRANULE_SIZE ==>
      PlainSize(values[a..b]) <= BLOCK_LIMIT - BLOCK_BUFFER_SIZE
  }

  /** A block that can be read lies within the file. */
  lemma BlocksAreInFile(lz4: Lz4, utf8: Str -> bool, bin: seq<Byte>, blocks: map<nat, seq<Str>>, off: nat)
    requires HoldsStrings(lz4, utf8, bin, blocks) && off in blocks
    ensures off < |bin|
  {
    assert StringsAt(lz4, utf8, bin, off).Some?;
  }

  lemma StringBlockReads(lz4: Lz4, utf8: Str -> bool, codec: StringCodec, strings: seq<Str>, bin: seq<Byte>)
    requires Lossless(lz4) && AllUtf8(utf8, strings) && PlainSize(strings) <= BLOCK_LIMIT
    ensures StringsAt(lz4, utf8, bin + Frame(StringTag(codec), lz4.compress(EncodedAs(codec, strings))), |bin|) == Some(strings)
  {
    hide EncodedAs, DecodedAs, PlainSize;
    StringsRoundTrip(codec, utf8, strings);
    var encoded := EncodedAs(codec, strings);
    assert lz4.decompress(lz4.compress(encoded)) == Some(encoded) && |lz4.compress(encoded)| <= 20 + 2 * |encoded|;
    FrameReads(bin, StringTag(codec), lz4.compress(encoded));
  }

  lemma HoldsMoreStrings(lz4: Lz4, utf8: Str -> bool, bin: seq<Byte>, frame: seq<Byte>, blocks: map<nat,
                         seq<Str>>, strings: seq<Str>)
    requires HoldsStrings(lz4, utf8, bin, blocks)
    requires forall off :: off in blocks ==> off < |bin|
    requires StringsAt(lz4, utf8, bin + frame, |bin|) == Some(strings)
    ensures HoldsStrings(lz4, utf8, bin + frame, blocks[|bin| := strings])
  {
    forall off | off in blocks ensures StringsAt(lz4, utf8, bin + frame, off) == StringsAt(lz4, utf8, bin, off) {
      assert StringsAt(lz4, utf8, bin, off).Some?;
      FrameStays(bin, frame, off);
    }
  }

  // ---- Where blocks are cut ----

  ghost predicate Full(blocks: map<nat, seq<Str>>, m: Mark) {
    m.blockOffset in blocks && PlainSize(blocks[m.blockOffset]) >= BLOCK_BUFFER_SIZE
  }

  /** Before this mark its block is not full. */
  ghost predicate RoomBefore(block: seq<Str>, m: Mark) {
    m.decompressedOffset <= |block| && PlainSize(block[..m.decompressedOffset]) < BLOCK_BUFFER_SIZE
  }

  /** A block goes on past a granule exactly while its plain size is below 8 KiB;
      later blocks lie further on. */
  ghost predicate CutBySize(blocks: map<nat, seq<Str>>, marks: seq<Mark>) {
    forall i :: 0 < i < |marks| ==>
      && marks[i].blockOffset in blocks
      && if marks[i - 1].blockOffset == marks[i].blockOffset then RoomBefore(blocks[marks[i].blockOffset], marks[i])
         else marks[i - 1].blockOffset < marks[i].blockOffset && Full(blocks, marks[i - 1])
  }

  ghost predicate PendingCut(blocks: map<nat, seq<Str>>, marks: seq<Mark>, pendingMarks: seq<Mark>, blockStrings: seq<Str>) {
    && CutBySize(blocks, marks) && (marks != [] ==> Full(blocks, marks[|marks| - 1]))
    && forall j :: 0 < j < |pendingMarks| ==> RoomBefore(blockStrings, pendingMarks[j])
  }

  lemma PendingCutGrows(blocks: map<nat, seq<Str>>, marks: seq<Mark>, pendingMarks: seq<Mark>, blockStrings: seq<Str>,
                        s: Str, rows: nat)
    requires PendingCut(blocks, marks, pendingMarks, blockStrings)
    requires rows == 0 ==> PlainSize(blockStrings) < BLOCK_BUFFER_SIZE
    ensures PendingCut(blocks, marks, if rows == 0 then pendingMarks + [Mark(0, |blockStrings|)] else pendingMarks, blockStrings + [s])
  {
    assert (blockStrings + [s])[..|blockStrings|] == blockStrings;
    forall j | 0 < j < |pendingMarks| ensures RoomBefore(blockStrings + [s], pendingMarks[j]) {
      assert RoomBefore(blockStrings, pendingMarks[j]);
      var n := pendingMarks[j].decompressedOffset;
      assert (blockStrings + [s])[..n] == blockStrings[..n];
    }
  }

  lemma FlushKeepsCut(blocks: map<nat, seq<Str>>, marks: seq<Mark>, pendingMarks: seq<Mark>, blockStrings: seq<Str>, off: nat)
    requires PendingCut(blocks, marks, pendingMarks, blockStrings) && pendingMarks != []
    requires forall o :: o in blocks ==> o < off
    requires forall i :: 0 <= i < |marks| ==> marks[i].blockOffset in blocks
    ensures CutBySize(blocks[off := blockStrings], marks + Patched(pendingMarks, off))
    ensures PlainSize(blockStrings) >= BLOCK_BUFFER_SIZE ==>
              PendingCut(blocks[off := blockStrings], marks + Patched(pendingMarks, off), [], [])
  {
    hide PlainSize;
    var blocks', marks' := blocks[off := blockStrings], marks + Patched(pendingMarks, off);
    forall i | 0 < i < |marks'|
      ensures marks'[i].blockOffset in blocks'
      ensures if marks'[i - 1].blockOffset == marks'[i].blockOffset then RoomBefore(blocks'[marks'[i].blockOffset], marks'[i])
              else marks'[i - 1].blockOffset < marks'[i].blockOffset && Full(blocks', marks'[i - 1])
    {
      if i > |marks| {
        assert RoomBefore(blockStrings, pendingMarks[i - |marks|]);
      }
    }
  }

  lemma MarksInBlocks<R>(blocks: map<nat, seq<R>>, marks: seq<Mark>, column: seq<R>)
    requires Indexed(blocks, marks, column)
    ensures forall i :: 0 <= i < |marks| ==> marks[i].blockOffset in blocks
  {
    forall i | 0 <= i < |marks| ensures marks[i].blockOffset in blocks {
      assert MarkFinds(blocks, marks, column, i);
    }
  }

  ghost predicate StringsWritten(lz4: Lz4, utf8: Str -> bool, bin: seq<Byte>, mrk: seq<Byte>, values: seq<Str>,
                                 blocks: map<nat, seq<Str>>, marks: seq<Mark>) {
    StringsOnDisk(lz4, utf8, bin, mrk, blocks, marks) && Indexed(blocks, marks, values) && CutBySize(blocks, marks)
  }

  /** The two files are those of the column: every granule is found through its mark, in
      blocks that can be read back and are cut by their plain size. */
  ghost predicate StringColumnHeld(lz4: Lz4, utf8: Str -> bool, bin: seq<Byte>, mrk: seq<Byte>, values: seq<Str>) {
    exists blocks, marks :: StringsWritten(lz4, utf8, bin, mrk, values, blocks, marks)
  }

  // ---- The writer ----

  /** How far a writer is: the blocks and marks on disk and the rows in them */
  datatype Progress = Progress(blocks: map<nat, seq<Str>>, marks: seq<Mark>, start: nat)

  ghost predicate AtString(lz4: Lz4, utf8: Str -> bool, bin: seq<Byte>, mrk: seq<Byte>, blockStrings: seq<Str>,
                           pendingMarks: seq<Mark>, column: seq<Str>, g: Progress) {
    && StringsOnDisk(lz4, utf8, bin, mrk, g.blocks, g.marks)
    && Writing(g.blocks, g.marks, pendingMarks, blockStrings, column, g.start, |bin|)
    && AllUtf8(utf8, blockStrings)
    && PendingCut(g.blocks, g.marks, pendingMarks, blockStrings)
  }

  lemma AtStringStarts(lz4: Lz4, utf8: Str -> bool)
    ensures AtString(lz4, utf8, [], [], [], [], [], Progress(map[], [], 0))
  {
    WritingStarts<Str>();
    assert MarkChunks([]) == [];
  }

  lemma AtStringPushes(lz4: Lz4, utf8: Str -> bool, bin: seq<Byte>, mrk: seq<Byte>, blockStrings: seq<Str>,
                       pendingMarks: seq<Mark>, column: seq<Str>, g: Progress, s: Str, granules: nat, rows: nat)
    requires utf8(s) && AtString(lz4, utf8, bin, mrk, blockStrings, pendingMarks, column, g)
    requires |blockStrings| == granules * GRANULE_SIZE + rows && rows < GRANULE_SIZE
    requires rows == 0 ==> PlainSize(blockStrings) < BLOCK_BUFFER_SIZE
    ensures AtString(lz4, utf8, bin, mrk, blockStrings + [s],
                     if rows == 0 then pendingMarks + [Mark(0, |blockStrings|)] else pendingMarks, column + [s], g)
  {
    RowKeepsWriting(g.blocks, g.marks, pendingMarks, blockStrings, column, g.start, |bin|, s);
    hide StringsOnDisk, Indexed, PlainSize;
    RemainderUnique(|blockStrings|, GRANULE_SIZE, granules, rows);
    PendingCutGrows(g.blocks, g.marks, pendingMarks, blockStrings, s, rows);
  }

  /** `flush_block` on a non-empty buffer */
  method FlushStrings(lz4: Lz4, utf8: Str -> bool, codec: StringCodec, blockStrings: seq<Str>, pendingMarks: seq<Mark>,
                      bin: seq<Byte>, mrk: seq<Byte>, ghost column: seq<Str>, ghost g: Progress)
    returns (bin': seq<Byte>, mrk': seq<Byte>, ghost g': Progress)
    requires Lossless(lz4) && AtString(lz4, utf8, bin, mrk, blockStrings, pendingMarks, column, g)
    requires blockStrings != [] && PlainSize(blockStrings) <= BLOCK_LIMIT
    ensures |bin'| > |bin| && StringsOnDisk(lz4, utf8, bin', mrk', g'.blocks, g'.marks)
    ensures g' == Progress(g.blocks[|bin| := blockStrings], g.marks + Patched(pendingMarks, |bin|), |column|)
    ensures CutBySize(g'.blocks, g'.marks)
    ensures PlainSize(blockStrings) >= BLOCK_BUFFER_SIZE ==> PendingCut(g'.blocks, g'.marks, [], [])
  {
    hide EncodedAs, StringsAt, MarksBytes, PlainSize, CutBySize;
    MarksInBlocks(g.blocks, g.marks, column[..g.start]);
    FlushKeepsCut(g.blocks, g.marks, pendingMarks, blockStrings, |bin|);
    var encoded := EncodeAs(codec, blockStrings, []);
    assert encoded == EncodedAs(codec, blockStrings);
    var frame := Frame(StringTag(codec), lz4.compress(encoded));
    StringBlockReads(lz4, utf8, codec, blockStrings, bin);
    bin' := bin + frame;
    HoldsMoreStrings(lz4, utf8, bin, frame, g.blocks, blockStrings);
    mrk' := WriteMarks(mrk, Patched(pendingMarks, |bin|));
    MarksBytesOfConcat(g.marks, Patched(pendingMarks, |bin|));
    g' := Progress(g.blocks[|bin| := blockStrings], g.marks + Patched(pendingMarks, |bin|), |column|);
  }

  /** `flush_block` at a granule boundary */
  method FlushAtBoundary(lz4: Lz4, utf8: Str -> bool, codec: StringCodec, blockStrings: seq<Str>, pendingMarks: seq<Mark>,
                         bin: seq<Byte>, mrk: seq<Byte>, ghost column: seq<Str>, ghost g: Progress, ghost granules: nat)
    returns (bin': seq<Byte>, mrk': seq<Byte>, ghost g': Progress)
    requires Lossless(lz4) && AtString(lz4, utf8, bin, mrk, blockStrings, pendingMarks, column, g)
    requires |blockStrings| == granules * GRANULE_SIZE > 0 && BLOCK_BUFFER_SIZE <= PlainSize(blockStrings) <= BLOCK_LIMIT
    ensures AtString(lz4, utf8, bin', mrk', [], [], column, g')
  {
    hide StringsOnDisk, Indexed, PlainSize;
    bin', mrk', g' := FlushStrings(lz4, utf8, codec, blockStrings, pendingMarks, bin, mrk, column, g);
    SameAlignment(g.start, |blockStrings|, |column|);
    FlushKeepsWriting(g.blocks, g.marks, pendingMarks, blockStrings, column, g.start, |bin|, |bin'|);
  }

  /** `flush_block` at the end of the column: nothing to do if the buffer is empty */
  method FlushLast(lz4: Lz4, utf8: Str -> bool, codec: StringCodec, blockStrings: seq<Str>, pendingMarks: seq<Mark>,
                   bin: seq<Byte>, mrk: seq<Byte>, ghost column: seq<Str>, ghost g: Progress)
    returns (bin': seq<Byte>, mrk': seq<Byte>)
    requires Lossless(lz4) && AtString(lz4, utf8, bin, mrk, blockStrings, pendingMarks, column, g)
    requires PlainSize(blockStrings) <= BLOCK_LIMIT
    ensures StringColumnHeld(lz4, utf8, bin', mrk', column)
  {
    hide CutBySize, StringsOnDisk, Indexed, PlainSize;
    if blockStrings == [] {
      assert column[..|column|] == column;
      assert StringsWritten(lz4, utf8, bin, mrk, column, g.blocks, g.marks);
      return bin, mrk;
    }
    FlushIndexes(g.blocks, g.marks, pendingMarks, blockStrings, column, g.start, |bin|);
    ghost var g';
    bin', mrk', g' := FlushStrings(lz4, utf8, codec, blockStrings, pendingMarks, bin, mrk, column, g);
    assert StringsWritten(lz4, utf8, bin', mrk', column, g'.blocks, g'.marks);
  }

  /** The strings pending beyond the size test are those of the granule in progress. */
  ghost predicate BlockIsSmall(plainBytesInBlock: nat, column: seq<Str>, rows: nat) {
    rows <= |column| && plainBytesInBlock < BLOCK_BUFFER_SIZE + (if rows == 0 then 0 else PlainSize(column[|column| - rows..]))
  }

  lemma SmallBlockFits(values: seq<Str>, i: nat, plainBytesInBlock: nat, rows: nat)
    requires GranulesFit(values) && i <= |values| && rows <= GRANULE_SIZE && BlockIsSmall(plainBytesInBlock, values[..i], rows)
    ensures plainBytesInBlock <= BLOCK_LIMIT
  {
    if rows > 0 {
      assert values[..i][i - rows..] == values[i - rows..i];
    }
  }

  lemma OneStringMore(column: seq<Str>, blockStrings: seq<Str>, rows: nat, s: Str)
    requires BlockIsSmall(PlainSize(blockStrings), column, rows)
    ensures PlainSize(blockStrings + [s]) == PlainSize(blockStrings) + 4 + |s|
    ensures BlockIsSmall(PlainSize(blockStrings + [s]), column + [s], rows + 1)
  {
    assert (blockStrings + [s])[..|blockStrings|] == blockStrings;
    var tail := column[|column| - rows..];
    assert (column + [s])[|column| - rows..] == tail + [s];
    assert (tail + [s])[..|tail|] == tail;
  }

  /** Write one column of strings; the marks are those of its granules of 512 rows, and
      a block ends at the first granule that fills it. */
  method WriteStringColumn(lz4: Lz4, utf8: Str -> bool, values: seq<Str>, codec: StringCodec)
    returns (bin: seq<Byte>, mrk: seq<Byte>)
    requires Lossless(lz4) && AllUtf8(utf8, values) && GranulesFit(values)
    ensures StringColumnHeld(lz4, utf8, bin, mrk, values)
  {
    hide StringColumnHeld, AtString, PlainSize, GranulesFit, BlockIsSmall;
    bin, mrk := [], [];
    var blockStrings: seq<Str>, pendingMarks: seq<Mark> := [], [];
    var rowsInCurrentGranule, plainBytesInBlock, stringsInBlock := 0, 0, 0;
    ghost var g, granules: nat := Progress(map[], [], 0), 0;
    AtStringStarts(lz4, utf8);
    NothingIsSmall([]);
    for i := 0 to |values|
      invariant rowsInCurrentGranule < GRANULE_SIZE
      invariant |blockStrings| == stringsInBlock == granules * GRANULE_SIZE + rowsInCurrentGranule
      invariant AtString(lz4, utf8, bin, mrk, blockStrings, pendingMarks, values[..i], g)
      invariant plainBytesInBlock == PlainSize(blockStrings)
      invariant BlockIsSmall(plainBytesInBlock, values[..i], rowsInCurrentGranule)
    {
      var s := values[i];
      assert values[..i + 1] == values[..i] + [s];
      SmallAtBoundary(plainBytesInBlock, values[..i], rowsInCurrentGranule);
      AtStringPushes(lz4, utf8, bin, mrk, blockStrings, pendingMarks, values[..i], g, s, granules, rowsInCurrentGranule);
      OneStringMore(values[..i], blockStrings, rowsInCurrentGranule, s);
      if rowsInCurrentGranule == 0 {
        pendingMarks := pendingMarks + [Mark(0, stringsInBlock)];
      }
      blockStrings := blockStrings + [s];
      rowsInCurrentGranule := rowsInCurrentGranule + 1;
      plainBytesInBlock := plainBytesInBlock + 4 + |s|;
      stringsInBlock := stringsInBlock + 1;
      SmallBlockFits(values, i + 1, plainBytesInBlock, rowsInCurrentGranule);
      if rowsInCurrentGranule == GRANULE_SIZE {
        rowsInCurrentGranule, granules := 0, granules + 1;
        if plainBytesInBlock >= BLOCK_BUFFER_SIZE {
          bin, mrk, g := FlushAtBoundary(lz4, utf8, codec, blockStrings, pendingMarks, bin, mrk, values[..i + 1], g, granules);
          blockStrings, pendingMarks, plainBytesInBlock, stringsInBlock, granules := [], [], 0, 0, 0;
          NothingIsSmall(values[..i + 1]);
        } else {
          BoundaryIsSmall(plainBytesInBlock, values[..i + 1]);
        }
      }
    }
    assert values[..|values|] == values;
    SmallBlockFits(values, |values|, plainBytesInBlock, rowsInCurrentGranule);
    bin, mrk := FlushLast(lz4, utf8, codec, blockStrings, pendingMarks, bin, mrk, values, g);
  }

  lemma NothingIsSmall(column: seq<Str>)
    ensures PlainSize([]) == 0 && BlockIsSmall(0, column, 0)
  {
  }

  lemma SmallAtBoundary(plainBytesInBlock: nat, column: seq<Str>, rows: nat)
    requires BlockIsSmall(plainBytesInBlock, column, rows)
    ensures rows == 0 ==> plainBytesInBlock < BLOCK_BUFFER_SIZE
  {
  }

  lemma BoundaryIsSmall(plainBytesInBlock: nat, column: seq<Str>)
    requires plainBytesInBlock < BLOCK_BUFFER_SIZE
    ensures BlockIsSmall(plainBytesInBlock, column, 0)
  {
  }
}
