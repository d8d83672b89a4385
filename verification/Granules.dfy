/** How a column is cut: granules of 512 rows, addressed by marks into the decoded
    blocks. Everything here counts in rows; the two column formats store the same
    marks in bytes or in strings. */
module Granules {
  const GRANULE_SIZE: nat := 512
  const BLOCK_BUFFER_SIZE: nat := 8192

  /** Where a granule starts: its block, and the rows before it in the decoded block */
  datatype Mark = Mark(blockOffset: nat, decompressedOffset: nat)

  function GranuleCount(rows: nat): nat {
    (rows + GRANULE_SIZE - 1) / GRANULE_SIZE
  }

  function GranuleStart(i: nat): nat { GRANULE_SIZE * i }

  function GranuleEnd(rows: nat, i: nat): nat {
    if GRANULE_SIZE * (i + 1) <= rows then GRANULE_SIZE * (i + 1) else rows
  }

  /** The rows of granule `i` */
  function Granule<R>(column: seq<R>, i: nat): (g: seq<R>)
    requires i < GranuleCount(|column|)
    ensures |g| > 0
  {
    column[GranuleStart(i)..GranuleEnd(|column|, i)]
  }

  /** Granule `i` is found through its mark: the block holds the column's rows from
      some base on, the mark says how far in the granule starts, and it ends where the
      next mark of the same block starts or else where the block ends. */
  ghost predicate MarkFinds<R>(blocks: map<nat, seq<R>>, marks: seq<Mark>, column: seq<R>, i: nat)
    requires i < |marks|
  {
    var m := marks[i];
    && m.blockOffset in blocks && m.decompressedOffset <= GranuleStart(i)
    && var block, base := blocks[m.blockOffset], GranuleStart(i) - m.decompressedOffset;
       && base + |block| <= |column| && block == column[base..base + |block|]
       && if i + 1 < |marks| && marks[i + 1].blockOffset == m.blockOffset then
            marks[i + 1].decompressedOffset == m.decompressedOffset + GRANULE_SIZE <= |block|
          else
            base + |block| == GranuleEnd(|column|, i)
  }

  ghost predicate Indexed<R>(blocks: map<nat, seq<R>>, marks: seq<Mark>, column: seq<R>) {
    |marks| == GranuleCount(|column|) && forall i :: 0 <= i < |marks| ==> MarkFinds(blocks, marks, column, i)
  }

  /** The end of granule `i` within its decoded block */
  function SliceEnd(marks: seq<Mark>, i: nat, blockLen: nat): nat
    requires i < |marks|
  {
    if i + 1 < |marks| && marks[i + 1].blockOffset == marks[i].blockOffset then marks[i + 1].decompressedOffset else blockLen
  }

  lemma SliceOfSlice<R>(s: seq<R>, base: nat, len: nat, a: nat, b: nat)
    requires base + len <= |s| && a <= b <= len
    ensures s[base..base + len][a..b] == s[base + a..base + b]
  {
    var l, r := s[base..base + len][a..b], s[base + a..base + b];
    assert |l| == |r| && forall k :: 0 <= k < |l| ==> l[k] == r[k];
  }

  /** The slice a reader takes is the granule. */
  lemma SliceIsGranule<R>(blocks: map<nat, seq<R>>, marks: seq<Mark>, column: seq<R>, i: nat)
    requires Indexed(blocks, marks, column) && i < |marks|
    ensures marks[i].blockOffset in blocks
    ensures var block, start := blocks[marks[i].blockOffset], marks[i].decompressedOffset;
            && start <= SliceEnd(marks, i, |block|) <= |block|
            && block[start..SliceEnd(marks, i, |block|)] == Granule(column, i)
  {
    assert MarkFinds(blocks, marks, column, i);
    var block, start := blocks[marks[i].blockOffset], marks[i].decompressedOffset;
    var base, end := GranuleStart(i) - start, SliceEnd(marks, i, |block|);
    assert i + 1 < |marks| ==> GRANULE_SIZE * (i + 1) <= |column|;
    assert base + end == GranuleEnd(|column|, i);
    assert base + start == GranuleStart(i);
    assert block[start..end] == column[base..base + |block|][start..end];
    SliceOfSlice(column, base, |block|, start, end);
    assert block[start..end] == Granule(column, i);
  }

  /** A mark's offset within its block counts rows of the column. */
  lemma MarksAreSmall<R>(blocks: map<nat, seq<R>>, marks: seq<Mark>, column: seq<R>, i: nat)
    requires Indexed(blocks, marks, column) && i < |marks|
    ensures marks[i].decompressedOffset <= |column| && marks[i].blockOffset in blocks
  {
    assert MarkFinds(blocks, marks, column, i);
  }

  // ---- Writing ----

  /** Pending marks: one per granule begun in the current block, offsets not yet known */
  ghost predicate Pending(pending: seq<Mark>, blockRows: nat) {
    |pending| == GranuleCount(blockRows) && forall j :: 0 <= j < |pending| ==> pending[j] == Mark(0, GranuleStart(j))
  }

  function Patched(pending: seq<Mark>, offset: nat): (marks: seq<Mark>)
    ensures |marks| == |pending|
    ensures forall j :: 0 <= j < |pending| ==> marks[j] == Mark(offset, pending[j].decompressedOffset)
  {
    seq(|pending|, j requires 0 <= j < |pending| => Mark(offset, pending[j].decompressedOffset))
  }

  /** What a writer has done after the rows `column`: the first `start` rows are in
      blocks on disk, the rest is in the block buffer. */
  ghost predicate Writing<R>(blocks: map<nat, seq<R>>, marks: seq<Mark>, pending: seq<Mark>, buffer: seq<R>,
                             column: seq<R>, start: nat, binBytes: nat) {
    && start <= |column| && start % GRANULE_SIZE == 0 && buffer == column[start..]
    && Indexed(blocks, marks, column[..start])
    && Pending(pending, |buffer|)
    && forall off :: off in blocks ==> off < binBytes
  }

  lemma SameAlignment(start: nat, buffered: nat, rows: nat)
    requires start % GRANULE_SIZE == 0 && start + buffered == rows
    ensures rows % GRANULE_SIZE == buffered % GRANULE_SIZE
  {
  }

  lemma WritingStarts<R>()
    ensures Writing<R>(map[], [], [], [], [], 0, 0)
  {
  }

  /** One more row: a mark first if the row begins a granule */
  lemma RowKeepsWriting<R>(blocks: map<nat, seq<R>>, marks: seq<Mark>, pending: seq<Mark>, buffer: seq<R>,
                           column: seq<R>, start: nat, binBytes: nat, row: R)
    requires Writing(blocks, marks, pending, buffer, column, start, binBytes)
    ensures var pending' := if |buffer| % GRANULE_SIZE == 0 then pending + [Mark(0, |buffer|)] else pending;
            Writing(blocks, marks, pending', buffer + [row], column + [row], start, binBytes)
  {
    SameAlignment(start, |buffer|, |column|);
    assert (column + [row])[..start] == column[..start];
    assert (column + [row])[start..] == column[start..] + [row];
  }

  /** A mark on disk finds its granule after the flush as before it. */
  lemma OldMarkFinds<R>(blocks: map<nat, seq<R>>, marks: seq<Mark>, pending: seq<Mark>, buffer: seq<R>,
                        column: seq<R>, start: nat, binBytes: nat, i: nat)
    requires Writing(blocks, marks, pending, buffer, column, start, binBytes) && i < |marks|
    ensures MarkFinds(blocks[binBytes := buffer], marks + Patched(pending, binBytes), column, i)
  {
    assert MarkFinds(blocks, marks, column[..start], i);
    var m, marks' := marks[i], marks + Patched(pending, binBytes);
    assert marks'[i] == m && m.blockOffset < binBytes;
    var base, len := GranuleStart(i) - m.decompressedOffset, |blocks[m.blockOffset]|;
    assert column[..start][base..base + len] == column[base..base + len];
    if i + 1 < |marks| {
      assert marks'[i + 1] == marks[i + 1];
    }
  }

  /** Writing the buffer as a block at the end of the file, at a granule boundary or at
      the end of the column, indexes all rows so far. */
  lemma FlushIndexes<R>(blocks: map<nat, seq<R>>, marks: seq<Mark>, pending: seq<Mark>, buffer: seq<R>,
                        column: seq<R>, start: nat, binBytes: nat)
    requires Writing(blocks, marks, pending, buffer, column, start, binBytes)
    requires buffer != []
    ensures Indexed(blocks[binBytes := buffer], marks + Patched(pending, binBytes), column)
  {
    var blocks', marks' := blocks[binBytes := buffer], marks + Patched(pending, binBytes);
    var flushed := start / GRANULE_SIZE;
    assert |marks| == flushed && |marks'| == GranuleCount(|column|);
    forall i | 0 <= i < |marks'| ensures MarkFinds(blocks', marks', column, i) {
      if i < flushed {
        OldMarkFinds(blocks, marks, pending, buffer, column, start, binBytes, i);
      } else {
        assert marks'[i] == Mark(binBytes, GranuleStart(i - flushed));
        assert column[start..start + |buffer|] == buffer;
      }
    }
  }

  /** A flush in the middle of a column keeps the writer's invariant. */
  lemma FlushKeepsWriting<R>(blocks: map<nat, seq<R>>, marks: seq<Mark>, pending: seq<Mark>, buffer: seq<R>,
                             column: seq<R>, start: nat, binBytes: nat, binBytes': nat)
    requires Writing(blocks, marks, pending, buffer, column, start, binBytes)
    requires buffer != [] && |column| % GRANULE_SIZE == 0 && binBytes < binBytes'
    ensures Writing(blocks[binBytes := buffer], marks + Patched(pending, binBytes), [], [], column, |column|, binBytes')
  {
    FlushIndexes(blocks, marks, pending, buffer, column, start, binBytes);
    assert column[..|column|] == column;
  }
}
