/** Reading a column of fixed-width values granule by granule, through a cache of one
    decoded block. */
module ColumnReader {
  import opened Wrappers
  import opened Arithmetic
  import opened Bytes
  import opened Codecs
  import opened Granules
  import opened ColumnFormat
  import opened ColumnWriter

  /** A run of values is a run of bytes. */
  lemma RawBytesSlice(p: Primitive, values: seq<int>, from: nat, to: nat)
    requires p.Valid() && AllInRange(p, values) && from <= to <= |values|
    ensures from * p.Width() <= to * p.Width() <= |RawBytes(p, values)| == |values| * p.Width()
    ensures RawBytes(p, values)[from * p.Width()..to * p.Width()] == RawBytes(p, values[from..to])
  {
    hide RawBytes, Chunks, DecodedValues;
    var front, middle, back := values[..from], values[from..to], values[to..];
    assert values == (front + middle) + back;
    RawBytesOfConcat(p, front, middle);
    RawBytesOfConcat(p, front + middle, back);
    RawBytesDecode(p, values);
    RawBytesDecode(p, front);
    RawBytesDecode(p, front + middle);
    TimesMonotone(from, to, p.Width());
    TimesMonotone(to, |values|, p.Width());
    assert |front + middle| == to;
    assert RawBytes(p, values) == RawBytes(p, front) + RawBytes(p, middle) + RawBytes(p, back);
  }

  /** Decoding that slice of bytes gives the rows. */
  lemma SliceDecodes(p: Primitive, rows: seq<int>, from: nat, to: nat, start: nat, end: nat)
    requires p.Valid() && AllInRange(p, rows) && from <= to <= |rows| && start == from * p.Width() && end == to * p.Width()
    ensures start <= end <= |RawBytes(p, rows)|
    ensures DecodedValues(p, Chunks(RawBytes(p, rows)[start..end], p.Width())) == rows[from..to]
  {
    SliceInRange(p, rows, from, to);
    RawBytesSlice(p, rows, from, to);
    assert RawBytes(p, rows)[start..end] == RawBytes(p, rows[from..to]);
    hide *;
    RawBytesDecode(p, rows[from..to]);
  }

  lemma SliceInRange(p: Primitive, rows: seq<int>, from: nat, to: nat)
    requires p.Valid() && AllInRange(p, rows) && from <= to <= |rows|
    ensures AllInRange(p, rows[from..to])
  {
  }

  lemma StoredMarksFit(lz4: Lz4, p: Primitive, bin: seq<Byte>, mrk: seq<Byte>, values: seq<int>,
                       blocks: map<nat, seq<int>>, marks: seq<Mark>)
    requires p.Valid() && Written(lz4, p, bin, mrk, values, blocks, marks)
    requires |bin| < U64_LIMIT && |values| < ROW_LIMIT
    ensures AllFitU64(AllStored(p, marks))
  {
    hide Indexed, Holds, EvenlyCut, Stored, FitsU64;
    forall i | 0 <= i < |marks| ensures FitsU64(Stored(p, marks[i])) {
      MarksAreSmall(blocks, marks, values, i);
      StoredFits(p, marks[i]);
    }
  }

  lemma StoredFits(p: Primitive, m: Mark)
    requires p.Valid() && m.blockOffset < U64_LIMIT && m.decompressedOffset < ROW_LIMIT
    ensures FitsU64(Stored(p, m))
  {
    assert p.Width() == 1 || p.Width() == 2 || p.Width() == 4 || p.Width() == 8;
  }

  class ColumnReader {
    const lz4: Lz4
    const p: Primitive
    const bin: seq<Byte>
    const marks: seq<Mark>
    var cache: Option<(nat, seq<Byte>)>

    /** The column in the files, and its blocks and marks counted in rows */
    ghost const values: seq<int>
    ghost const blocks: map<nat, seq<int>>
    ghost const rowMarks: seq<Mark>

    /** The files hold the column, and what is cached is what the file holds. */
    ghost predicate Valid()
      reads this
    {
      && p.Valid() && IsColumn(lz4, p, bin, marks, blocks, rowMarks, values)
      && (cache.Some? ==> BlockAt(lz4, p, bin, cache.value.0) == Some(cache.value.1))
    }

    constructor Open(lz4: Lz4, p: Primitive, bin: seq<Byte>, mrk: seq<Byte>, ghost values: seq<int>)
      requires p.Valid() && ColumnHeld(lz4, p, bin, mrk, values) && |bin| < U64_LIMIT && |values| < ROW_LIMIT
      ensures Valid() && this.values == values
    {
      this.lz4, this.p, this.bin, this.marks, cache, this.values := lz4, p, bin, ReadMarks(mrk), None, values;
      ghost var blocks, marks :| Written(lz4, p, bin, mrk, values, blocks, marks);
      StoredMarksFit(lz4, p, bin, mrk, values, blocks, marks);
      MarksRoundTrip(AllStored(p, marks));
      this.blocks, this.rowMarks := blocks, marks;
    }

    method CountGranules() returns (n: nat)
      requires Valid()
      ensures n == GranuleCount(|values|)
    {
      n := |marks|;
    }

    /** Seek, read a frame, decompress, decode. */
    method ReadBlock(off: nat) returns (block: seq<Byte>)
      requires Valid() && off in blocks
      ensures block == RawBytes(p, blocks[off]) && BlockAt(lz4, p, bin, off) == Some(block)
    {
      assert BlockAt(lz4, p, bin, off) == Some(RawBytes(p, blocks[off]));
      var (tag, compressed) := ReadFrame(bin, off).value;
      var codec := FromTag(tag).value;
      var decompressed := lz4.decompress(compressed).value;
      var decoded := Decode(codec, decompressed, p.Width(), []);
      block := decoded.value;
    }

    /** Granule `idx`, whatever the cache holds: the rows 512·idx up to 512·(idx + 1). */
    method ReadGranule(idx: nat) returns (granule: seq<int>)
      requires Valid() && idx < GranuleCount(|values|)
      modifies this`cache
      ensures Valid() && granule == Granule(values, idx)
    {
      hide RawBytes, DecodedValues, Chunks, BlockAt, AllInRange;
      var mark := marks[idx];
      SliceIsGranule(blocks, rowMarks, values, idx);
      assert mark.blockOffset in blocks;
      if !(cache.Some? && cache.value.0 == mark.blockOffset) {
        var decoded := ReadBlock(mark.blockOffset);
        cache := Some((mark.blockOffset, decoded));
      }
      var block := cache.value.1;
      var start := mark.decompressedOffset;
      var end := if idx + 1 < |marks| && marks[idx + 1].blockOffset == mark.blockOffset
                 then marks[idx + 1].decompressedOffset else |block|;
      ghost var rows := blocks[mark.blockOffset];
      ghost var from, to := rowMarks[idx].decompressedOffset, SliceEnd(rowMarks, idx, |rows|);
      RawBytesDecode(p, rows);
      SliceDecodes(p, rows, from, to, start, end);
      granule := DecodedValues(p, Chunks(block[start..end], p.Width()));
    }
  }
}
