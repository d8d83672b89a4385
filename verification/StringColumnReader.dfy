/** Reading a column of strings granule by granule, through a cache of one decoded block. */
module StringColumnReader {
  import opened Wrappers
  import opened Bytes
  import opened StringPlain
  import opened StringCodecs
  import opened Granules
  import opened ColumnFormat
  import opened StringColumnWriter

  lemma StringMarksFit(lz4: Lz4, utf8: Str -> bool, bin: seq<Byte>, values: seq<Str>, blocks: map<nat,
                       seq<Str>>, marks: seq<Mark>)
    requires HoldsStrings(lz4, utf8, bin, blocks) && Indexed(blocks, marks, values)
    requires |bin| < U64_LIMIT && |values| < ROW_LIMIT
    ensures AllFitU64(marks)
  {
    forall i | 0 <= i < |marks| ensures FitsU64(marks[i]) {
      MarksAreSmall(blocks, marks, values, i);
      BlocksAreInFile(lz4, utf8, bin, blocks, marks[i].blockOffset);
    }
  }

  class StringColumnReader {
    const lz4: Lz4
    const utf8: Str -> bool
    const bin: seq<Byte>
    const marks: seq<Mark>
    var cache: Option<(nat, seq<Str>)>

    /** The column in the files, and its blocks */
    ghost const values: seq<Str>
    ghost const blocks: map<nat, seq<Str>>

    /** The files hold the column, and what is cached is what the file holds. */
    ghost predicate Valid()
      reads this
    {
      && HoldsStrings(lz4, utf8, bin, blocks) && Indexed(blocks, marks, values)
      && (cache.Some? ==> StringsAt(lz4, utf8, bin, cache.value.0) == Some(cache.value.1))
    }

    constructor Open(lz4: Lz4, utf8: Str -> bool, bin: seq<Byte>, mrk: seq<Byte>, ghost values: seq<Str>)
      requires StringColumnHeld(lz4, utf8, bin, mrk, values) && |bin| < U64_LIMIT && |values| < ROW_LIMIT
      ensures Valid() && this.values == values
    {
      this.lz4, this.utf8, this.bin, this.marks, cache, this.values := lz4, utf8, bin, ReadMarks(mrk), None, values;
      ghost var blocks, marks :| StringsWritten(lz4, utf8, bin, mrk, values, blocks, marks);
      StringMarksFit(lz4, utf8, bin, values, blocks, marks);
      MarksRoundTrip(marks);
      this.blocks := blocks;
    }

    method CountGranules() returns (n: nat)
      requires Valid()
      ensures n == GranuleCount(|values|)
    {
      n := |marks|;
    }

    /** Seek, read a frame, decompress, decode. */
    method ReadBlock(off: nat) returns (strings: seq<Str>)
      requires Valid() && off in blocks
      ensures strings == blocks[off] && StringsAt(lz4, utf8, bin, off) == Some(strings)
    {
      assert StringsAt(lz4, utf8, bin, off) == Some(blocks[off]);
      var (tag, compressed) := ReadFrame(bin, off).value;
      var codec := StringFromTag(tag).value;
      var decompressed := lz4.decompress(compressed).value;
      var decoded := DecodeAs(codec, utf8, decompressed, []);
      strings := decoded.value;
    }

    /** Granule `idx`, whatever the cache holds; marks are indices into the block. */
    method ReadGranule(idx: nat) returns (granule: seq<Str>)
      requires Valid() && idx < GranuleCount(|values|)
      modifies this`cache
      ensures Valid() && granule == Granule(values, idx)
    {
      var mark := marks[idx];
      SliceIsGranule(blocks, marks, values, idx);
      if !(cache.Some? && cache.value.0 == mark.blockOffset) {
        var decoded := ReadBlock(mark.blockOffset);
        cache := Some((mark.blockOffset, decoded));
      }
      assert StringsAt(lz4, utf8, bin, mark.blockOffset) == Some(blocks[mark.blockOffset]);
      var strings := cache.value.1;
      var start := mark.decompressedOffset;
      var end := if idx + 1 < |marks| && marks[idx + 1].blockOffset == mark.blockOffset
                 then marks[idx + 1].decompressedOffset else |strings|;
      granule := strings[start..end];
    }
  }
}
