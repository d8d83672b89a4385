/** The bytes of a column's two files: framed, compressed blocks and 24-byte marks. */
module ColumnFormat {
  import opened Wrappers
  import opened Sequences
  import opened Bytes
  import opened Granules

  // ---- Compression ----

  /** The lz4 library as a pair of functions */
  datatype Lz4 = Lz4(compress: seq<Byte> -> seq<Byte>, decompress: seq<Byte> -> Option<seq<Byte>>)

  /** What is relied on: decompression undoes compression, and compression adds little. */
  ghost predicate Lossless(lz4: Lz4) {
    forall x: seq<Byte> :: lz4.decompress(lz4.compress(x)) == Some(x) && |lz4.compress(x)| <= 20 + 2 * |x|
  }

  // ---- Frames: [u8 codec_tag][u32 LE compressed_len][compressed bytes] ----

  function Frame(tag: Byte, compressed: seq<Byte>): (frame: seq<Byte>)
    ensures |frame| == 5 + |compressed|
  {
    [tag] + ToLe(|compressed|, 4) + compressed
  }

  /** A block on disk: the codec's tag, the compressed length, the compressed bytes */
  lemma FrameLayout(tag: Byte, compressed: seq<Byte>)
    requires |compressed| < Pow256(4)
    ensures var frame := Frame(tag, compressed);
            frame[0] == tag && FromLe(frame[1..5]) == |compressed| && frame[5..] == compressed
  {
    assert Frame(tag, compressed)[1..5] == ToLe(|compressed|, 4);
    FromLeOfToLe(|compressed|, 4);
    hide ToLe, FromLe;
  }

  /** Seek to `off` and read one frame; `None` where the file is too short. */
  function ReadFrame(bin: seq<Byte>, off: nat): Option<(Byte, seq<Byte>)> {
    if off + 5 > |bin| then None
    else
      var len := FromLe(bin[off + 1..off + 5]);
      if off + 5 + len > |bin| then None
      else Some((bin[off], bin[off + 5..off + 5 + len]))
  }

  lemma FrameReads(before: seq<Byte>, tag: Byte, compressed: seq<Byte>)
    requires |compressed| < 0x1_0000_0000
    ensures ReadFrame(before + Frame(tag, compressed), |before|) == Some((tag, compressed))
  {
    var bin, off := before + Frame(tag, compressed), |before|;
    assert bin[off + 1..off + 5] == ToLe(|compressed|, 4);
    assert bin[off + 5..off + 5 + |compressed|] == compressed;
    Pow256Values();
    FromLeOfToLe(|compressed|, 4);
  }

  /** What has been written stays readable as the file grows. */
  lemma FrameStays(bin: seq<Byte>, more: seq<Byte>, off: nat)
    requires ReadFrame(bin, off).Some?
    ensures ReadFrame(bin + more, off) == ReadFrame(bin, off)
  {
    assert (bin + more)[off + 1..off + 5] == bin[off + 1..off + 5];
    var len := FromLe(bin[off + 1..off + 5]);
    assert (bin + more)[off + 5..off + 5 + len] == bin[off + 5..off + 5 + len];
  }

  // ---- Marks ----

  const MARK_SIZE: nat := 24

  /** Two u64s and eight unused bytes */
  function ToBytes(m: Mark): (bytes: seq<Byte>)
    ensures |bytes| == MARK_SIZE
  {
    ToLe(m.blockOffset, 8) + ToLe(m.decompressedOffset, 8) + ToLe(0, 8)
  }

  function FromBytes(bytes: seq<Byte>): Mark
    requires |bytes| == MARK_SIZE
  {
    Mark(FromLe(bytes[0..8]), FromLe(bytes[8..16]))
  }

  /** A mark on disk: the two offsets and a word that is not used */
  lemma MarkLayout(m: Mark)
    requires m.blockOffset < Pow256(8) && m.decompressedOffset < Pow256(8)
    ensures FromLe(ToBytes(m)[0..8]) == m.blockOffset && FromLe(ToBytes(m)[8..16]) == m.decompressedOffset
    ensures FromLe(ToBytes(m)[16..24]) == 0
  {
    var bytes := ToBytes(m);
    assert bytes[0..8] == ToLe(m.blockOffset, 8) && bytes[8..16] == ToLe(m.decompressedOffset, 8) && bytes[16..24] == ToLe(0, 8);
    hide ToLe, FromLe, ToBytes;
    FromLeOfToLe(m.blockOffset, 8);
    FromLeOfToLe(m.decompressedOffset, 8);
    FromLeOfToLe(0, 8);
  }

  predicate FitsU64(m: Mark) {
    m.blockOffset < 0x1_0000_0000_0000_0000 && m.decompressedOffset < 0x1_0000_0000_0000_0000
  }

  /** What 64-bit offsets can address: the files' bytes, and the column's rows */
  const U64_LIMIT: nat := 0x1_0000_0000_0000_0000
  const ROW_LIMIT: nat := 0x1000_0000_0000_0000

  ghost predicate AllFitU64(marks: seq<Mark>) {
    forall i :: 0 <= i < |marks| ==> FitsU64(marks[i])
  }

  lemma MarkRoundTrip(m: Mark)
    requires FitsU64(m)
    ensures FromBytes(ToBytes(m)) == m
  {
    assert ToBytes(m)[0..8] == ToLe(m.blockOffset, 8) && ToBytes(m)[8..16] == ToLe(m.decompressedOffset, 8);
    Pow256Values();
    FromLeOfToLe(m.blockOffset, 8);
    FromLeOfToLe(m.decompressedOffset, 8);
  }

  function MarkChunks(marks: seq<Mark>): (chunks: seq<seq<Byte>>)
    ensures |chunks| == |marks| && AllOfSize(chunks, MARK_SIZE)
    ensures forall i :: 0 <= i < |marks| ==> chunks[i] == ToBytes(marks[i])
  {
    seq(|marks|, i requires 0 <= i < |marks| => ToBytes(marks[i]))
  }

  ghost function MarksBytes(marks: seq<Mark>): seq<Byte> {
    Concat(MarkChunks(marks))
  }

  lemma MarksBytesOfConcat(a: seq<Mark>, b: seq<Mark>)
    ensures MarksBytes(a + b) == MarksBytes(a) + MarksBytes(b)
  {
    assert MarkChunks(a + b) == MarkChunks(a) + MarkChunks(b);
    ConcatOfConcat(MarkChunks(a), MarkChunks(b));
  }

  lemma MarksBytesStep(marks: seq<Mark>, i: nat)
    requires i < |marks|
    ensures MarksBytes(marks[..i + 1]) == MarksBytes(marks[..i]) + ToBytes(marks[i])
  {
    assert marks[..i + 1] == marks[..i] + [marks[i]];
    MarksBytesOfConcat(marks[..i], [marks[i]]);
    assert MarkChunks([marks[i]]) == [ToBytes(marks[i])];
    ConcatOfOne(ToBytes(marks[i]));
  }

  /** MarkReader::read_all */
  function ReadMarks(mrk: seq<Byte>): (marks: seq<Mark>)
    ensures |marks| == |Chunks(mrk, MARK_SIZE)|
    ensures forall i :: 0 <= i < |marks| ==> marks[i] == FromBytes(Chunks(mrk, MARK_SIZE)[i])
  {
    var chunks := Chunks(mrk, MARK_SIZE);
    seq(|chunks|, i requires 0 <= i < |chunks| => FromBytes(chunks[i]))
  }

  lemma MarksRoundTrip(marks: seq<Mark>)
    requires AllFitU64(marks)
    ensures ReadMarks(MarksBytes(marks)) == marks
  {
    ChunksOfJoin(MarkChunks(marks), MARK_SIZE);
    forall i | 0 <= i < |marks| ensures FromBytes(ToBytes(marks[i])) == marks[i] {
      MarkRoundTrip(marks[i]);
    }
  }

  lemma NoMarksBytes()
    ensures MarksBytes([]) == []
  {
  }

  /** MarkWriter: marks are buffered as bytes */
  method WriteMarks(buf: seq<Byte>, marks: seq<Mark>) returns (buf': seq<Byte>)
    ensures buf' == buf + MarksBytes(marks)
  {
    buf' := buf;
    NoMarksBytes();
    assert buf + [] == buf;
    hide *;
    for i := 0 to |marks|
      invariant buf' == buf + MarksBytes(marks[..i])
    {
      MarksBytesStep(marks, i);
      Associates(buf, MarksBytes(marks[..i]), ToBytes(marks[i]));
      buf' := buf' + ToBytes(marks[i]);
    }
    Whole(marks);
  }
}
