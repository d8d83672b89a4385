# Verification of tinyOLAP

tinyOLAP is a small columnar database: tables are directories of immutable parts, a part
holds a pair of files per column, and a query runs a plan in parallel over the parts. This
project models its core in Dafny and proves that each fast form agrees with the simple one it
stands for.

- **Swiss table** (`Bits`, `SwissTable`, `SwissCapacity`). The open-addressing table of the SIMD
  playground, a class over two arrays probed sixteen control bytes at a time, refines a map for
  every hash function. A probe comes to an end exactly if the key is present or an EMPTY slot is
  left; no run that inserts fewer than 128 distinct keys ever uses up the last one, and the 128th
  distinct key does.
- **Parallel aggregation** (`Aggregates`, `Accumulators`, `HashAggregate`, `Gather`,
  `ParallelAggregation`). The accumulators, the hash and merge aggregation, and a step system of
  workers, an atomic work counter and a bounded channel. Every schedule of any number of workers
  ends with the sequential GROUP BY answer; nothing is lost or delivered twice, no state
  deadlocks, and every run is finite and can only end with everything delivered or, if the
  receiver was dropped, with all workers gone.
- **Codecs** (`Bytes`, `Rle`, `Delta`, `StringPlain`, `StringDictionary`, `Codecs`,
  `StringCodecs`). Round trips, both ways where both hold, and minimality of the run list.
- **Column storage** (`Granules`, `ColumnFormat`, `ColumnWriter`, `ColumnReader`,
  `StringColumnWriter`, `StringColumnReader`, `ZoneMapFile`, `TableWriter`, `Scans`). Granules of
  512 rows packed into blocks and found through marks and a one-block cache. One theory in rows
  (`Granules`) serves both column formats, whose marks count bytes or strings; this is what keeps
  columns of all types aligned row by row. A scan of written parts gives back the inserted rows.
- **Query plans** (`Catalog`, `Expressions`, `Analyzer`, `LogicalPlans`, `Lowering`,
  `PhysicalPlans`, `QueryMeaning`, `Runtime`, `Clauses`, `Filtering`). The optimizer's rules,
  lowering with column pruning and pushdown to a scan that skips parts keep the answer of every
  plan; the zone maps that skipping relies on are the ones `TableWriter` proves of its own output.
  What a WHERE clause says of a row is defined on its text, with no reference to lowering or to the
  evaluator, and is what the verdicts at run time are.
- **From inserts to answers** (`Projections`, `GroupedTotals`, `Exchange`, `Builder`, `Queries`,
  `Statements`, `EndToEnd`, `QueryAnswers`, `StatementAnswers`). The pieces joined. What a SELECT
  statement says of a table is likewise defined on the statement, and is what its plan answers. For parts that `BuildPart` made, a scan, under a
  filter or not, gives exactly the inserted rows that satisfy the condition, with parts skipped or
  not and whichever columns are read. For every SELECT without LIMIT that the frontend accepts,
  with or without WHERE, GROUP BY and aggregates, every schedule of any number of workers over
  these parts ends with the rows that the query, as written, answers over everything inserted,
  which are those that the statement asks for.
- **Part publication** (`Publication`). Concurrent inserts by one writer, with crashes and
  reopening at any step: what is visible is complete, unshared and stays. From every reachable state
  every insert, begun or not, can get to its publication by its own steps, and after a crash or a
  failure a later one can.
- **Prefix sum** (`PrefixSum`). Shift-and-add in four lanes is the sequential prefix sum, which is
  the total of the numbers so far wherever that fits 32 bits.

Objects the code updates in place are classes, loops are loops with invariants, and each is proved
against a function or predicate about which the properties are then proved. An expression or plan
that has no value (a missing column, operands of different types) evaluates to `None`; a place
where the code panics or returns an error is `None` or an error value too.

Where the code and its documentation differ, the model follows the code. The Swiss table's comments
speak of a capacity of 16, the code allocates 128 slots. Constant folding promises to fold constant
operands, but looks only at two integers compared and at a boolean constant on the left of AND and
OR, and a WHERE clause that folds to false stays; what is left reaches a runtime that accepts no
bare literal or column. So accepted clauses with a verdict on every row can fail: `c < 5 AND 1 = 1`
and `1 = 2` (`Runtime.ConstantsThatFail`), two integer columns of different widths compared, and a
bool column on its own (`Runtime.TypesThatFail`). An integer beyond i64 becomes a float literal,
which a u64 column compared with it can then not hold, although the analyzer has seen that it fits
(`Clauses.LoweringSaysExactlyWhen`: lowering keeps what the clause says on every row if and only if no
u64 column is compared with such an integer). Text literals compared with each other do not
fail but give one verdict for a whole batch: `'a' = 'a'`, true of every row, leaves one row of each
batch (`Filtering.TextConstantKeepsOneRow`). For every clause without floats that the frontend
accepts, `Runtime.WhereRunsExactlyWhen` says from the clause and the schema alone whether preparing
it panics, its filter is dropped, or evaluating it gives a verdict per row, one per batch, or an
error. The analyzer lets some literals through that panic later (`Analyzer.NarrowPanicsExactlyWhen`
says exactly which). Workers project their partial results to the SELECT list before the merge, which
looks for every group column by name; so an aggregating query whose list leaves a GROUP BY column
out, such as `SELECT COUNT(id) FROM users GROUP BY country`, is accepted and then panics in the
merge (`QueryAnswers.OmittedGroupColumnIsMissed`; `Exchange.WiredExactlyWhen` says exactly which
lists the merge can read). A zone map skip reaches only comparisons with 64-bit literals, so a clause on
narrower columns skips nothing under any zone map (`Runtime.NarrowClausesNeverSkip`).

What is assumed of libraries is passed in as a parameter: `Lz4` is a pair of functions of which
`Lossless` says that decompression undoes compression and that compressed data is at most 20 bytes
longer than twice the input; `utf8` decides which byte strings are UTF-8; group keys are values of
an arbitrary type (Arrow's row format as an injective encoding); a hash is an arbitrary function to
64 bits; `Summary` is what an aggregate function makes of a group's values in a plan.

## Model

| member | source | states |
|---|---|---|
| Bits.LowMaskIsRemainder | examples/simd_playground/src/bin/swisstable.rs:140-160 | masking with a power of two less one is the remainder, the identity behind the probe start |
| Bits.LowestLane | examples/simd_playground/src/bin/swisstable.rs:164-180 | the trailing zeros of a mask name its lowest set lane, and mask AND (mask - 1) clears just that lane |
| SwissTable.HashMap.constructor | examples/simd_playground/src/bin/swisstable.rs:104-110 | a new table satisfies the invariant and is the empty map |
| SwissTable.HashMap.CompareMask | examples/simd_playground/src/bin/swisstable.rs:160-166 | the sixteen-lane compare and movemask as a loop over lanes: digit i says whether lane i equals the byte |
| SwissTable.HashMap.MatchInGroup | examples/simd_playground/src/bin/swisstable.rs:162-178 | the fingerprint loop finds the key's slot in the group, or no lane with that fingerprint holds the key |
| SwissTable.HashMap.FirstInGroup | examples/simd_playground/src/bin/swisstable.rs:180-187 | the lowest slot of the group with a given control byte, if there is one |
| SwissTable.HashMap.Get | examples/simd_playground/src/bin/swisstable.rs:140-189 | gives the map's value for the key or nothing, provided the key is present or an EMPTY slot is left |
| SwissTable.HashMap.FindForInsert | examples/simd_playground/src/bin/swisstable.rs:213-270 | finds the key's slot, or else the first tombstone on the probed path, or else the first EMPTY of the group where the probe stops |
| SwissTable.HashMap.Insert | examples/simd_playground/src/bin/swisstable.rs:213-284 | the map gains or overwrites the pair; an overwrite touches no control byte, a new key writes exactly its target slot |
| SwissTable.HashMap.Delete | examples/simd_playground/src/bin/swisstable.rs:286-326 | the map loses the key, whose slot becomes a tombstone; deleting an absent key changes nothing |
| SwissTable.InsertKeepsConsistent | examples/simd_playground/src/bin/swisstable.rs:219-284 | writing an absent key into its target slot keeps every key reachable, once, under its fingerprint |
| SwissTable.DeleteKeepsConsistent | examples/simd_playground/src/bin/swisstable.rs:292-323 | a tombstone hides no other key |
| SwissTable.OverwriteKeepsConsistent | examples/simd_playground/src/bin/swisstable.rs:235-250 | overwriting a value adds no slot and keeps the invariant |
| SwissTable.WalkFollowsPath | examples/simd_playground/src/bin/swisstable.rs:155-188 | group starts computed with the wrap-around mask walk the cyclic path of groups |
| SwissTable.ProbeReturnsExactlyWhen | examples/simd_playground/src/bin/swisstable.rs:155-188 | a probe returns if and only if the key is present or an EMPTY exists, and then within capacity / 16 groups |
| SwissTable.TargetIsFree | examples/simd_playground/src/bin/swisstable.rs:219-269 | the slot an insert takes is EMPTY or a tombstone and reachable from the key's home |
| SwissCapacity.InsertKeepsCredit | examples/simd_playground/src/bin/swisstable.rs:213-284 | in every stretch of groups, slots no longer EMPTY are paid for by distinct keys inserted so far |
| SwissCapacity.DeleteKeepsCredit | examples/simd_playground/src/bin/swisstable.rs:286-326 | deleting keeps that account and every EMPTY slot |
| SwissCapacity.InsertKeepsEmpty | examples/simd_playground/src/bin/swisstable.rs:219-269 | fewer than 128 distinct keys ever inserted leave an EMPTY slot, whatever was deleted in between |
| SwissCapacity.Step | examples/simd_playground/src/bin/swisstable.rs:140-326 | one operation on the table keeps it in step with a map |
| SwissCapacity.Run | examples/simd_playground/src/bin/swisstable.rs:140-326 | every run of gets, inserts and deletes with fewer than 128 distinct inserted keys terminates and answers each get as a map does |
| SwissCapacity.FullTableNeverReturns | examples/simd_playground/src/bin/swisstable.rs:140-189 | with a key in every slot no EMPTY is left, and a probe for any other key never returns |
| SwissCapacity.Fill | examples/simd_playground/src/bin/swisstable.rs:213-284 | the bound of 128 is sharp: 128 inserts of distinct keys into a new table all return, and then no probe for an absent key does |
| Aggregates.CombineAssociates | tinyolap/src/execution/aggregation/sum.rs:217-237 | combining aggregate states is associative, in 64-bit wrapping arithmetic |
| Aggregates.CombineCommutes | tinyolap/src/execution/aggregation/sum.rs:217-237 | combining aggregate states is commutative |
| Aggregates.WrapMeans | tinyolap/src/execution/aggregation/sum.rs:198-214 | wrapping gives the one 64-bit word that is congruent to the number modulo 2^64, and leaves words alone |
| Aggregates.TotalMeans | tinyolap/src/execution/aggregation/min.rs:41-101 | a group's total is the count, the wrapped sum, the pair of sum and count, or an attained bound of its values |
| Aggregates.FittingTotals | tinyolap/src/execution/aggregation/sum.rs:45-120 | SUM is the plain sum wherever that fits i64 or u64, COUNT is the number of values, AVG their sum and number |
| Aggregates.ReadOfEmit | tinyolap/src/execution/aggregation/min.rs:151-168 | a partial result is read back as the state it came from exactly if it is not a MIN or MAX without a value, which would come back as 0 |
| Aggregates.GroupTotalOfConcat | tinyolap/src/execution/aggregation/merge_aggregate.rs:85-176 | the total over two lots of rows is the combination of their totals |
| Aggregates.GroupTotalOfPermutation | tinyolap/src/execution/aggregation/merge_aggregate.rs:85-176 | a group's total does not depend on the order of the rows |
| Aggregates.GroupTotalMeans | tinyolap/src/execution/aggregation/hash_aggregate.rs:79-170 | a group's total is the aggregate of exactly the values of its rows |
| Aggregates.GroupTotalsFit | tinyolap/src/execution/aggregation/hash_aggregate.rs:79-170 | so it is for the values of a group's own rows |
| Accumulators.AbsorbSingleGroup | tinyolap/src/execution/aggregation/min.rs:72-98 | with one group, totalling the batch first and adding once equals the per-row loop |
| Accumulators.KernelBestIsTotal | tinyolap/src/execution/aggregation/min.rs:72-98 | the min and max kernels over a column give its total |
| Accumulators.CountAccumulator.Update | tinyolap/src/execution/aggregation/count.rs:27-49 | folds a batch into the counts per group, fast path included |
| Accumulators.CountAccumulator.Merge | tinyolap/src/execution/aggregation/count.rs:51-77 | folds partial counts into the counts per group |
| Accumulators.SumAccumulator.Update | tinyolap/src/execution/aggregation/sum.rs:169-215 | folds a batch into the widened, wrapping sums per group |
| Accumulators.SumAccumulator.Merge | tinyolap/src/execution/aggregation/sum.rs:217-237 | folds partial sums into the sums per group |
| Accumulators.ExtremeAccumulator.UpdateOrMerge | tinyolap/src/execution/aggregation/max.rs:43-149 | folds a batch or partial results into the bounds per group; a bound without has_value is replaced, never compared with |
| Accumulators.ExtremeAccumulator.EnsureCapacity | tinyolap/src/execution/aggregation/min.rs:161-168 | new groups start without a value |
| Accumulators.AvgAccumulator.Update | tinyolap/src/execution/aggregation/avg.rs:32-73 | folds a batch into the pair of sum and count per group |
| Accumulators.AvgAccumulator.Merge | tinyolap/src/execution/aggregation/avg.rs:75-92 | folds partial pairs into the pairs per group |
| HashAggregate.AggregateExec.constructor | tinyolap/src/execution/aggregation/merge_aggregate.rs:32-68 | starts with no rows; a merge without GROUP BY has its one group from the start |
| HashAggregate.AggregateExec.AssignIndices | tinyolap/src/execution/aggregation/hash_aggregate.rs:79-124 | every row gets its key's index, and the map from keys to indices stays a bijection onto 0..n in first-seen order |
| HashAggregate.AggregateExec.DrainBatch | tinyolap/src/execution/aggregation/hash_aggregate.rs:79-124 | after each batch the accumulators hold the totals of all rows so far, group by group |
| HashAggregate.AggregateExec.OrderedKeys | tinyolap/src/execution/aggregation/hash_aggregate.rs:126-170 | placing keys by index leaves no gap, in whatever order the map is walked |
| HashAggregate.AggregateExec.NextBatch | tinyolap/src/execution/aggregation/hash_aggregate.rs:74-188 | one batch with a row per group in first-seen order, holding the totals of all rows of the child, then nothing |
| ParallelAggregation.MergedTotals | tinyolap/src/execution/aggregation/merge_aggregate.rs:85-176 | merging partial totals gives the total of all rows |
| ParallelAggregation.MergeIsMeaning | tinyolap/src/execution/aggregation/merge_aggregate.rs:85-176 | for any division of the table into lots and any order, the merge is, as a map, the sequential answer; empty lots included |
| ParallelAggregation.EveryScheduleGivesTheMeaning | tinyolap/src/execution/builder.rs:56-73 | every complete run of the parallel pipeline merges to the answer of folding the table in order |
| Gather.PartWorkSource.NextWork | tinyolap/src/execution/work_source.rs:44-47 | each part is handed out once, in order, then nothing |
| Gather.StepConserves | tinyolap/src/execution/gather.rs:31-72 | no step loses or duplicates a row among unclaimed parts, workers, queue and receiver |
| Gather.RunKeepsInvariant | tinyolap/src/execution/gather.rs:31-72 | every state of every run keeps the invariant of the step system |
| Gather.EndOfStreamIsComplete | tinyolap/src/execution/gather.rs:66-72 | the receiver sees the end only after every kept row has arrived exactly once |
| Gather.RunIsBounded | tinyolap/src/execution/gather.rs:31-60 | no run, from whatever state, is longer than the cost of its first state: each step lowers it |
| Gather.SomeStepIsEnabled | tinyolap/src/execution/gather.rs:31-105 | no deadlock, with the receiver there or dropped |
| Gather.WorkersWaitOnlyForRoom | tinyolap/src/execution/gather.rs:34-51 | a worker that has not exited has exactly one step, whatever the others do, unless it holds a message and the channel is full |
| Gather.DroppedStaysDropped | tinyolap/src/execution/gather.rs:93-105 | after the receiver is dropped only worker steps remain and nothing more is delivered |
| Gather.StuckRunIsFinished | tinyolap/src/execution/gather.rs:31-105 | a run that only dropping the receiver could extend has delivered every kept row once and ended, or, if the receiver was dropped, all workers have exited |
| Gather.EveryRunFinishes | tinyolap/src/execution/gather.rs:31-105 | every run goes on to such an end without the receiver being dropped on the way |
| Gather.DroppingEndsTheRun | tinyolap/src/execution/gather.rs:93-105 | the receiver can be dropped in every state, with workers blocked on a full channel too; all workers then exit and nothing more is delivered |
| Gather.PartsArriveInOrder | tinyolap/src/execution/gather.rs:31-60 | each part's batches arrive in granule order, each once |
| Rle.GreedyRunsAreMaximal | tinyolap/src/encoding/rle.rs:16-36 | adjacent pairs share a value only if the first count is 65535 |
| Rle.GreedyIsShortest | tinyolap/src/encoding/rle.rs:16-36 | no list of pairs with u16 counts for the same values is shorter |
| Rle.PairLayout | tinyolap/src/encoding/rle.rs:16-36 | the k-th pair lies at k times the pair size: the count in two bytes, least first, then the value |
| Rle.RoundTrip | tinyolap/src/encoding/rle.rs:16-60 | decoding undoes encoding for every stride and every whole number of values |
| Rle.Encode | tinyolap/src/encoding/rle.rs:16-38 | the loop appends the greedy pair list |
| Rle.Decode | tinyolap/src/encoding/rle.rs:40-60 | the loop appends the expanded pairs, or reports truncation exactly if the input ends within a pair |
| Delta.MutuallyInverse | tinyolap/src/encoding/delta.rs:17-117 | encoding and decoding are mutually inverse and keep the length |
| Delta.WordsSay | tinyolap/src/encoding/delta.rs:17-117 | each encoded word is the word less the one before it, each decoded word the one before it plus the word, modulo the word size |
| Delta.Encode | tinyolap/src/encoding/delta.rs:17-62 | the loop computes the wrapping differences of little-endian words |
| Delta.Decode | tinyolap/src/encoding/delta.rs:64-117 | the loop computes the running sums; truncated input and unsupported strides are errors |
| StringPlain.ParsedOfEncoded | tinyolap/src/encoding/string_plain.rs:9-39 | decoding undoes encoding within u32 lengths |
| StringPlain.EncodedOfParsed | tinyolap/src/encoding/string_plain.rs:9-39 | every byte string that decodes re-encodes to itself |
| StringPlain.FieldLayout | tinyolap/src/encoding/string_plain.rs:9-15 | each string lies behind the ones before it, after its length in four bytes |
| StringPlain.Encode | tinyolap/src/encoding/string_plain.rs:9-15 | the loop appends the length-prefixed strings |
| StringPlain.Decode | tinyolap/src/encoding/string_plain.rs:17-39 | the loop parses the strings, with the errors for truncation and invalid UTF-8 |
| StringDictionary.BuildDictionary | tinyolap/src/encoding/string_dictionary.rs:15-30 | the dictionary is the distinct strings in first-occurrence order, the map gives their places |
| StringDictionary.EncodeStrings | tinyolap/src/encoding/string_dictionary.rs:15-42 | appends dictionary and indices |
| StringDictionary.DecodeStrings | tinyolap/src/encoding/string_dictionary.rs:44-86 | parses both, with errors for truncation and an index beyond the dictionary |
| StringDictionary.DictionaryRoundTrip | tinyolap/src/encoding/string_dictionary.rs:15-86 | decoding undoes encoding within the u32 limits |
| StringDictionary.DictionaryLayout | tinyolap/src/encoding/string_dictionary.rs:15-42 | the number of entries, the entries, then for row k in four bytes the place of its string |
| Codecs.DecodeLeOfEncodeLe | tinyolap/src/encoding/mod.rs:46-145 | every value of a primitive type survives its little-endian bytes |
| Codecs.EncodeLeIsTwosComplement | tinyolap/src/encoding/mod.rs:46-145 | the bytes, least first, are the two's complement of the value |
| Codecs.CodecRoundTrip | tinyolap/src/encoding/mod.rs:146-208 | every codec gives back what it was given, in at most three times the space |
| Codecs.Encode | tinyolap/src/encoding/mod.rs:146-208 | dispatch to the codec's encoding |
| Codecs.Decode | tinyolap/src/encoding/mod.rs:146-208 | dispatch to the codec's decoding, with its errors |
| StringCodecs.StringsRoundTrip | tinyolap/src/encoding/mod.rs:211-245 | both string codecs give back what they were given, in little more than twice the plain size |
| ColumnFormat.FrameReads | tinyolap/src/storage/column_writer.rs:129-141 | an appended frame is read back at the offset where the file ended |
| ColumnFormat.FrameStays | tinyolap/src/storage/column_writer.rs:129-141 | what could be read stays readable as the file grows |
| ColumnFormat.FrameLayout | tinyolap/src/storage/column_writer.rs:129-141 | a frame is the codec tag, the compressed size in four bytes and the compressed bytes |
| ColumnFormat.MarkLayout | tinyolap/src/storage/mark.rs:11-46 | a mark is the block's offset, the offset within the block and a third number 0, in eight bytes each |
| ColumnFormat.MarksRoundTrip | tinyolap/src/storage/mark.rs:11-71 | a marks file reads back as the marks written |
| ColumnFormat.WriteMarks | tinyolap/src/storage/mark.rs:44-46 | the buffer gains 24 bytes per mark |
| Granules.SliceIsGranule | tinyolap/src/storage/column_reader.rs:69-92 | the slice between a mark and the next mark of its block, or the block's end, is exactly the granule's rows |
| Granules.RowKeepsWriting | tinyolap/src/storage/column_writer.rs:45-58 | a row pushes a mark exactly if it begins a granule |
| Granules.FlushIndexes | tinyolap/src/storage/column_writer.rs:108-150 | a flush at a granule boundary or at the end makes every granule so far findable through its mark |
| ColumnWriter.FlushBlock | tinyolap/src/storage/column_writer.rs:108-150 | the block lands at the end of the file, its marks carry its offset, and what was on disk stays readable |
| ColumnWriter.WriteColumn | tinyolap/src/storage/column_writer.rs:20-103 | the files hold the column: marks for every granule, evenly cut into blocks at increasing offsets, and attained bounds |
| ColumnWriter.FullBlocks | tinyolap/src/storage/column_writer.rs:70-84 | every block but the last holds exactly 8192 / WIDTH values |
| ColumnReader.RawBytesSlice | tinyolap/src/storage/column_reader.rs:69-92 | a slice of rows is the slice of bytes at WIDTH times the indices |
| ColumnReader.ColumnReader.Open | tinyolap/src/storage/column_reader.rs:18-31 | opens on the files of a written column with an empty cache |
| ColumnReader.ColumnReader.CountGranules | tinyolap/src/storage/column_reader.rs:33-35 | there are ceil(n / 512) granules |
| ColumnReader.ColumnReader.ReadBlock | tinyolap/src/storage/column_reader.rs:41-65 | seek, read, decompress and decode give the block's bytes |
| ColumnReader.ColumnReader.ReadGranule | tinyolap/src/storage/column_reader.rs:37-93 | granule i is rows 512 i up to min(512 (i + 1), n), whatever earlier reads left in the cache |
| StringColumnWriter.FlushStrings | tinyolap/src/storage/string_column_writer.rs:92-124 | the block of strings lands at the end of the file and its marks carry its offset |
| StringColumnWriter.WriteStringColumn | tinyolap/src/storage/string_column_writer.rs:16-89 | the files hold the column: marks for every granule of 512 strings, and a block goes on past a granule exactly while its plain size is below 8 KiB |
| StringColumnReader.StringColumnReader.Open | tinyolap/src/storage/string_column_reader.rs:18-29 | opens on the files of a written column with an empty cache |
| StringColumnReader.StringColumnReader.CountGranules | tinyolap/src/storage/string_column_reader.rs:31-33 | there are ceil(n / 512) granules, as in every other column |
| StringColumnReader.StringColumnReader.ReadGranule | tinyolap/src/storage/string_column_reader.rs:35-77 | granule i holds the same rows as granule i of a numeric column |
| ZoneMapFile.WriteZoneMap | tinyolap/src/storage/zone_map.rs:55-91 | writes the header with computed offsets and the bounds |
| ZoneMapFile.ReadZoneMap | tinyolap/src/storage/zone_map.rs:102-170 | parses headers, then bounds at their offsets, with the errors for version, truncation and names |
| ZoneMapFile.EntriesAreAt | tinyolap/src/storage/zone_map.rs:68-85 | the offset in the k-th header points at the k-th column's sixteen bytes |
| ZoneMapFile.RoundTrip | tinyolap/src/storage/zone_map.rs:55-170 | reading a written zone map gives the map of its entries, within the u16 limits |
| ZoneMapFile.ZonesOfDistinct | tinyolap/src/storage/zone_map.rs:145-169 | for distinct names that map holds every entry under its name and nothing else |
| TableWriter.WidenedReads | tinyolap/src/storage/table_writer.rs:138-148 | widened bounds read back as the same numbers under the column's type tag |
| TableWriter.WriteOneColumn | tinyolap/src/storage/table_writer.rs:156-231 | the column's files hold it; integer columns with rows, and only these, get their attained bounds |
| TableWriter.CheckBatch | tinyolap/src/storage/table_writer.rs:51-69 | a batch passes exactly if column count and types match the schema |
| TableWriter.WriteColumns | tinyolap/src/storage/table_writer.rs:77-91 | all columns' files hold the batch, and the entries are those of the integer columns |
| TableWriter.WrittenZonesBound | tinyolap/src/storage/table_writer.rs:77-96 | the zone map of a written part bounds its rows, with bounds attained |
| TableWriter.BuildPart | tinyolap/src/storage/table_writer.rs:51-97 | a checked batch becomes a directory that holds every column and a zone map file that reads back as true bounds |
| Scans.GranulesJoin | tinyolap/src/execution/full_scan.rs:69-130 | the granules of a column, in order, are the column |
| Scans.BatchRowsAreGranule | tinyolap/src/execution/full_scan.rs:92-130 | row i of batch g is row 512 g + i of the part, in every column at once |
| Scans.PartBatchesAreRows | tinyolap/src/execution/full_scan.rs:69-130 | the batches of a part are its rows in order |
| Scans.ReadArrays | tinyolap/src/execution/full_scan.rs:94-121 | reads the same granule of every column |
| Scans.ScanExec.OpenNext | tinyolap/src/execution/zone_map_scan.rs:80-116 | takes parts until one is to be read, passing over exactly those the zone map rules out |
| Scans.ScanExec.NextBatch | tinyolap/src/execution/full_scan.rs:69-130 | emits the batches of the parts to be read, one by one, in order |
| Scans.ScanEmitsRows | tinyolap/src/execution/zone_map_scan.rs:79-156 | a scan emits exactly the rows of the parts it reads, in order, and with no condition that is every part |
| Scans.WrittenPartScans | tinyolap/src/storage/table_writer.rs:51-97 | scanning some columns of a written part gives the inserted rows restricted to them |
| Expressions.TextLessMeans | tinyolap/src/execution/expr.rs:51-59 | a text is less than another exactly if it is a proper prefix of it or has the lesser byte at the first difference |
| Expressions.TextLessAtDifference | tinyolap/src/execution/expr.rs:51-59 | behind a common prefix the first different byte decides, and a proper prefix is less |
| Expressions.TextsAreOrdered | tinyolap/src/execution/expr.rs:51-59 | of two texts exactly one is less, or they are equal |
| Expressions.TextLessIsTransitive | tinyolap/src/execution/expr.rs:51-59 | the order of texts is transitive |
| Expressions.CompareMeans | tinyolap/src/execution/expr.rs:51-59 | what each operator says of two numbers, two texts and two bools, and that it says nothing of anything else |
| Analyzer.AcceptedIsWhatItSays | tinyolap/src/frontend/analyzer.rs:79-137 | on columns other than floats a literal is accepted exactly if it is a value of the column's type as written or slips through, and one that does not slip through narrows to the value as written |
| Analyzer.FloatColumnsTakeNumbers | tinyolap/src/frontend/analyzer.rs:79-137 | float columns accept every literal but strings, and numbers narrow to floats |
| Analyzer.NarrowPanicsExactlyWhen | tinyolap/src/frontend/analyzer.rs:79-137 | an accepted literal makes narrowing panic exactly if it is NULL, a boolean for another type, a string for a bool column, or beyond i64 for a u64 column |
| Analyzer.NarrowKeepsValue | tinyolap/src/physical_plan/lower.rs:193-215 | on columns other than floats narrowing succeeds exactly for literals the type represents, and keeps their value |
| Analyzer.AcceptedLiteralPanics | tinyolap/src/physical_plan/lower.rs:193-215 | a u64 column compared with 2^63 is accepted and then panics |
| LogicalPlans.CoerceKeepsValue | tinyolap/src/logical_plan/optimizer_rules/type_coercion.rs:40-121 | coercion keeps the value of a checked expression on every row, and every cast wraps a literal that narrows |
| LogicalPlans.FoldKeepsValue | tinyolap/src/logical_plan/optimizer_rules/constant_folding.rs:38-85 | folding gives the same value wherever there is one |
| LogicalPlans.FoldIsIdempotent | tinyolap/src/logical_plan/optimizer_rules/constant_folding.rs:38-85 | folding twice is folding once |
| LogicalPlans.RewriteRefines | tinyolap/src/logical_plan/optimizer.rs:45-83 | a rule that keeps the answer of each node keeps the answer of every plan |
| LogicalPlans.EliminationRefines | tinyolap/src/logical_plan/optimizer_rules/eliminate_true_filter.rs:22-31 | dropping filters folded to true keeps the answer |
| LogicalPlans.OptimizeRefines | tinyolap/src/logical_plan/optimizer.rs:26-40 | the three rules in order keep the answer of every plan |
| Lowering.CollectColumns | tinyolap/src/physical_plan/lower.rs:23-63 | the mutable set gains every column the plan mentions |
| Lowering.LowerKeepsValue | tinyolap/src/physical_plan/lower.rs:95-157 | where casts wrap literals that narrow, lowering reaches no panic and keeps the value on every row |
| Lowering.GroupedPruned | tinyolap/src/physical_plan/lower.rs:76-84 | grouping rows that hold only the collected columns gives the same groups and aggregates |
| Lowering.LowerKeepsAnswer | tinyolap/src/physical_plan/lower.rs:15-93 | a lowered plan over pruned rows answers as the logical plan over whole rows, for every plan tree |
| PhysicalPlans.SkipIsSound | tinyolap/src/execution/zone_map_scan.rs:172-242 | no row of a skipped part satisfies the condition, for every tree of AND and OR |
| PhysicalPlans.SkipIsExact | tinyolap/src/execution/zone_map_scan.rs:222-242 | for comparisons other than equality that reach a typed arm, a part is skipped exactly if no row passes |
| PhysicalPlans.EqualitySkipIsExactWhen | tinyolap/src/execution/zone_map_scan.rs:222-242 | for equality the skip is exact precisely if the value lies outside the bounds or some row holds it |
| PhysicalPlans.EqualityGapIsRead | tinyolap/src/execution/zone_map_scan.rs:222-242 | a part with a gap around the value is read for nothing |
| PhysicalPlans.SkippingKeepsSelection | tinyolap/src/execution/zone_map_scan.rs:79-156 | filtering what the zone map scan reads gives what filtering the whole table gives |
| PhysicalPlans.PushdownRefines | tinyolap/src/physical_plan/optimizer.rs:74-97 | pushing a filter's condition into the scan keeps the answer |
| PhysicalPlans.OptimizePlanRefines | tinyolap/src/physical_plan/optimizer.rs:12-22 | both physical rules in order keep the answer of every plan |
| QueryMeaning.OptimizedCastsNarrow | tinyolap/src/logical_plan/optimizer.rs:26-40 | after optimization every cast wraps a literal that narrows, so lowering cannot panic |
| QueryMeaning.QueryMeaningIsKept | tinyolap/src/execution/builder.rs:35-73 | coercion, folding, elimination, lowering with pruning, and pushdown together keep the answer of every query that has one |
| Runtime.RunnableGivesVerdicts | tinyolap/src/execution/expr.rs:40-76 | evaluating a runnable predicate on a batch gives every row its verdict |
| Runtime.RunsExactlyWhen | tinyolap/src/execution/expr.rs:40-93 | on every batch with rows, evaluation succeeds exactly if all comparisons have operands of one type and, unless there is one row, verdicts per row and per batch are not mixed; how many verdicts there are |
| Runtime.PerBatchVerdict | tinyolap/src/execution/expr.rs:40-93 | literals compared with literals have one verdict for the batch, which is that of every row |
| Runtime.FoldedIsOfForm | tinyolap/src/logical_plan/optimizer_rules/constant_folding.rs:38-85 | coercion, folding and lowering leave of a clause what its form says: a column, a literal, a predicate with its outcome, or a panic |
| Runtime.WhereRunsExactlyWhen | tinyolap/src/execution/expr.rs:40-76 | for every clause without floats and every batch with rows: the condition panics in lowering, is dropped as true, is answered per row or per batch, or fails, exactly as its form says |
| Runtime.PreparedKeepsValue | tinyolap/src/logical_plan/optimizer.rs:26-40 | a condition that does not panic keeps the clause's value wherever it has one |
| Clauses.LoweringSays | tinyolap/src/logical_plan/lower.rs:68-135 | where no integer exceeds i64, a lowered clause has on every row the value that its text says |
| Clauses.LoweringSaysExactlyWhen | tinyolap/src/logical_plan/lower.rs:103-120 | an accepted clause without floats has that value if and only if no u64 column is compared with an integer beyond i64, and no value otherwise |
| Clauses.ColumnAndLiteral | tinyolap/src/execution/expr.rs:40-93 | a column compared with a literal, on either side and with any operator, gives each row the verdict on its own cell: numbers, texts and bools |
| Clauses.ClauseRuns | tinyolap/src/execution/expr.rs:40-93 | where an accepted clause runs row by row, coerced, folded and lowered, its verdict on each row is what its text says, wherever that is anything |
| Clauses.FoldingDropsWhatSaysNothing | tinyolap/src/logical_plan/optimizer_rules/constant_folding.rs:38-85 | `(FALSE AND 5) OR c = 5` says nothing of any row, as it joins a number to a bool, but folding drops that operand and the clause runs row by row |
| Clauses.KindSays | tinyolap/src/execution/expr.rs:40-93 | a clause whose comparisons are of like kinds and whose connectives join comparisons or bools says something of every row |
| Clauses.AcceptedIsCovered | tinyolap/src/frontend/validator.rs:104-124 | every clause that validator and analyzer accept, floats aside, is covered, and a column compared with a literal, on either side, panics exactly for the literals that slip through |
| Clauses.AcceptedIsChecked | tinyolap/src/frontend/analyzer.rs:79-137 | an accepted clause without floats meets what the plans' meaning is proved from exactly if none of its literals slips through |
| Runtime.ConstantsThatFail | tinyolap/src/execution/expr.rs:72-74 | `c < 5 AND 1 = 1` and `1 = 2` have a verdict on every row, and evaluating them is an error on every batch |
| Runtime.TypesThatFail | tinyolap/src/execution/expr.rs:45-59 | so it is for i32 and i64 columns compared and for a bool column on its own |
| Runtime.NarrowClausesNeverSkip | tinyolap/src/execution/zone_map_scan.rs:172-205 | a clause on columns other than i64 and u64, once coerced, folded and lowered, skips no part under any zone map |
| Filtering.FilterSelectsRows | tinyolap/src/execution/filter.rs:28-54 | the rows a filter passes on are the scanned rows that satisfy the condition, in order |
| Filtering.FilterExec.NextBatch | tinyolap/src/execution/filter.rs:28-54 | for any condition: the first batch with rows left after filtering, or the first error, or nothing, and which batches are left to come |
| Filtering.GoodConditionPulls | tinyolap/src/execution/filter.rs:28-54 | with a condition that can run, calls pass on the filtered batches that are not empty, one by one |
| Filtering.FailingConditionFails | tinyolap/src/execution/filter.rs:36-39 | with a condition that cannot, the first batch gives the error |
| Filtering.ConstantKeepsOneRow | tinyolap/src/execution/filter.rs:41-53 | with literals compared with literals, a batch gives its first row if the condition holds, and nothing otherwise |
| Filtering.TextConstantKeepsOneRow | tinyolap/src/execution/filter.rs:41-53 | `'a' = 'a'` holds of every row and leaves one row of each batch |
| Filtering.FilteredScanSelects | tinyolap/src/execution/filter.rs:28-54 | over parts with true zone maps, what comes out of the filter is the selection from all the parts' rows, restricted to the scanned columns, with or without skipping |
| Filtering.SkippingIsInvisible | tinyolap/src/physical_plan/optimizer.rs:74-97 | a filter passes on the same rows over a zone map scan as over a full scan, whichever columns are scanned |
| GroupedTotals.SummarizedIsTotal | tinyolap/src/execution/aggregation/hash_aggregate.rs:126-170 | an aggregate of a group in the plan's answer is the accumulators' total of the group's arguments, as shown |
| GroupedTotals.SummaryMeans | tinyolap/src/execution/aggregation/hash_aggregate.rs:126-170 | what a group's aggregate shows: the number of rows, the sum, an attained least or greatest value, the quotient of sum and count, or 0 for a MIN or MAX of nothing |
| GroupedTotals.MergedIsGrouped | tinyolap/src/execution/aggregation/merge_aggregate.rs:85-176 | merged rows that are the sequential meaning are the rows of the plan's grouping, in some order |
| Projections.ProjectBatch | tinyolap/src/execution/project.rs:23-58 | the batch gains the first column of each name in the order of the SELECT list, and a name without a column is an error |
| Projections.ProjectionReadsRows | tinyolap/src/execution/project.rs:23-58 | every row of the projected batch is the row of the batch looked up by name |
| Builder.FieldsAgree | tinyolap/src/execution/aggregation/sum.rs:239-245 | the names that the accumulators format are the names under which plans project the aggregates |
| Builder.BuildAccumulators | tinyolap/src/execution/builder.rs:118-232 | builds, exactly if every SUM, MIN and MAX is of an integer column, one empty accumulator per aggregate, of its kind and output name |
| Exchange.WiredExactlyWhen | tinyolap/src/execution/aggregation/merge_aggregate.rs:97-107 | after the workers' projection the merge finds its group columns and states exactly if the SELECT list names all of them and nothing else and no group column is named like an aggregate |
| Exchange.OutputNameSays | tinyolap/src/physical_plan/lower.rs:219-245 | an aggregate's output name determines its function and its column |
| Exchange.RewiredIsSame | tinyolap/src/execution/aggregation/merge_aggregate.rs:97-107 | what the merge reads by name is the row that the worker sent |
| Exchange.PartialIsConsistent | tinyolap/src/execution/aggregation/hash_aggregate.rs:126-170 | in a partial result equal names stand over equal values, so that reading the first column of a name is right |
| Queries.PlanIsGood | tinyolap/src/logical_plan/lower.rs:19-58 | the plan of an accepted SELECT has checked conditions, reads aggregates only above their node, and ends in a projection |
| Queries.QueryIsPrepared | tinyolap/src/physical_plan/lower.rs:15-93 | the plan that runs for it: the projection over the aggregation, if any, over a full scan, or over a filter on a scan that skips by its condition |
| Statements.AcceptedIsQuery | tinyolap/src/logical_plan/lower.rs:19-64 | an accepted statement, none of whose literals slips through, is an accepted query, and aggregates exactly if it names an aggregate or a GROUP BY column |
| Statements.PlanSaysRows | tinyolap/src/logical_plan/lower.rs:19-64 | the plan's answer without aggregates: the first LIMIT rows of those that the clause says yes to, in order, each with the listed columns under their names, `*` being all |
| Statements.PlanSaysGroups | tinyolap/src/logical_plan/lower.rs:19-64 | with aggregates or GROUP BY: one row per key in first-seen order, the first LIMIT of them, with the key and the aggregates of exactly the rows that have it |
| EndToEnd.InsertIsScanned | tinyolap/src/storage/table_writer.rs:51-97 | a part that was built of a batch holds the columns to be scanned, evaluable and with true zones over the inserted rows |
| EndToEnd.ScanAnswers | tinyolap/src/execution/filter.rs:28-54 | a scan of built parts, filtered or not, gives the inserted rows that satisfy the condition, in order, skipping or not |
| EndToEnd.Scan | tinyolap/src/execution/gather.rs:40-54 | one worker: opening the operators and pulling until the end returns those rows |
| EndToEnd.GranuleIsBatch | tinyolap/src/execution/full_scan.rs:69-130 | a granule of the step system is a batch of the scan, and what it keeps is what the worker passes on |
| EndToEnd.PipelineKeepsAnswer | tinyolap/src/execution/builder.rs:35-73 | the rows the parallel pipeline keeps are the inserted rows that satisfy the condition |
| EndToEnd.EveryScheduleDeliversTheAnswer | tinyolap/src/execution/builder.rs:56-73 | every schedule of streaming workers takes exactly those rows to the receiver |
| EndToEnd.EveryScheduleAnswersTheQuery | tinyolap/src/execution/builder.rs:56-73 | every schedule of aggregating workers merges to the sequential answer over those rows |
| QueryAnswers.AnswerAsWritten | tinyolap/src/execution/builder.rs:35-73 | the answer of an accepted query as written is the projection of the scan's rows, or of their grouping |
| QueryAnswers.EveryScheduleDeliversAsWritten | tinyolap/src/execution/builder.rs:56-73 | a query without aggregates: the delivered rows, projected to the SELECT list, are the query's answer on every schedule, and every name is found |
| QueryAnswers.EveryScheduleAnswersAsWritten | tinyolap/src/execution/builder.rs:56-73 | a query with aggregates or GROUP BY: the merge can read the workers' results exactly if the SELECT list fits, reads them as they were sent, and its rows are the query's answer on every schedule |
| QueryAnswers.OmittedGroupColumnIsMissed | tinyolap/src/execution/aggregation/merge_aggregate.rs:97-107 | `SELECT COUNT(id) FROM users GROUP BY country` is accepted and has an answer, but the merge does not find its group column |
| StatementAnswers.ScanIsThere | tinyolap/src/physical_plan/lower.rs:15-93 | every accepted statement that reads a column and whose clause runs has the scan that its plan asks for |
| StatementAnswers.EveryScheduleDeliversWhatIsSaid | tinyolap/src/execution/builder.rs:56-73 | without aggregates or LIMIT, the rows delivered on every schedule are those that the statement says, over everything inserted |
| StatementAnswers.EveryScheduleMergesWhatIsSaid | tinyolap/src/execution/builder.rs:56-73 | with them, so are the merged rows, if the merge can read the SELECT list |
| Publication.ScanNextPartId | tinyolap/src/storage/table_writer.rs:248-261 | the next id is one more than the largest among part_ entries, or 0 |
| Publication.WritingKeeps | tinyolap/src/storage/table_writer.rs:71-96 | steps within a temporary directory, one left by a crash included, keep the invariant |
| Publication.RenameKeeps | tinyolap/src/storage/table_writer.rs:98-100 | the rename always finds its name free and publishes a complete part |
| Publication.VisiblePartsAreComplete | tinyolap/src/execution/builder.rs:43-52 | in every run, every visible directory has all column files and the zone map, all written by one insert |
| Publication.PartsAreNotShared | tinyolap/src/storage/table_writer.rs:71-101 | no two inserts of any run publish under the same id |
| Publication.PublishedStays | tinyolap/src/storage/table_writer.rs:71-101 | a published part stays visible as it was written, through crashes and later inserts |
| Publication.GoneIsNeverPublished | tinyolap/src/storage/table_writer.rs:71-101 | an insert that a crash or a failure ended is never published |
| Publication.FailLeavesNothing | tinyolap/src/storage/table_writer.rs:71-96 | a failing insert takes its temporary directory with it, and nothing else |
| Publication.InsertCanPublish | tinyolap/src/storage/table_writer.rs:71-101 | from every reachable state, an insert in progress can get to its publication by its own steps alone, whatever its phase and whatever a crash has left under its temporary name |
| Publication.NewInsertCanPublish | tinyolap/src/storage/table_writer.rs:71-101 | so can an insert that has not begun |
| Publication.WriterCanOpen | tinyolap/src/storage/table_writer.rs:248-261 | a closed table can be opened, and what was published stays so |
| Publication.RetryAfterCrash | tinyolap/src/storage/table_writer.rs:71-101 | the writer can crash in every state; what was in progress is never published, and after opening again another insert can be |
| Publication.RetryAfterFailure | tinyolap/src/storage/table_writer.rs:71-96 | an insert can fail while it writes; it leaves no directory and is never published, and another insert can be |
| PrefixSum.LaneSums | examples/simd_playground/src/bin/good.rs:82-99 | shift by one and add, shift by two and add, add the carry: the four running sums |
| PrefixSum.SequentialIsTotal | examples/simd_playground/src/bin/good.rs:62-74 | a sequential sum is the total of the numbers so far, wrapped to 32 bits |
| PrefixSum.LanesAreSequential | examples/simd_playground/src/bin/good.rs:76-107 | the four lanes are the next four sequential sums, in 32-bit wrapping arithmetic |
| PrefixSum.GoodPrefixSum | examples/simd_playground/src/bin/good.rs:62-116 | every prefix sum is the sequential one, for every length: congruent to the total modulo 2^32, and the total itself wherever that fits i32; the rest of the array is untouched |

## Left out

- Floating point: float columns, their bounds and comparisons, float literals' rounding, NaN, and the division at the end of AVG (AVG is the exact pair of sum and count). A float is carried as its bits and compares with nothing; `TableWriter` and `Runtime` exclude float columns, and the zone map's float arms are not part of `PhysicalPlans.CanSkip`.
- Accumulators.AvgAccumulator.Update: adds exact integers, where the code adds in f64 and may round.
- Accumulators.AvgAccumulator.Merge: adds exact integers, where the code adds in f64 and may round.
- TableWriter.WriteOneColumn: no float columns, whose bounds the code widens to f64.
- TableWriter.WriteColumns: no float columns.
- TableWriter.BuildPart: no float columns.
- StringColumnWriter.WriteStringColumn: assumes that 512 consecutive strings take less than 1 GiB, so that a block's size fits the u32 in front of it.
- Scans.ScanExec.OpenNext: speaks of the work source as it is found at the call; that other workers take parts in between is the business of `Gather`.
- Scans.ScanExec.NextBatch: speaks of the work source as it is found at the call, as `Scans.ScanExec.OpenNext` does.
- QueryAnswers.EveryScheduleAnswersAsWritten: queries without LIMIT. Two aggregates or group columns may share a name; a group column named like an aggregate counts as a list that does not fit, where the code might also misread the column.
- QueryAnswers.EveryScheduleDeliversAsWritten: queries without LIMIT.
- StatementAnswers.EveryScheduleDeliversWhatIsSaid: statements without LIMIT, as there.
- StatementAnswers.EveryScheduleMergesWhatIsSaid: statements without LIMIT, as there.
- Statements.AcceptedIsQuery: names without a table in front, and no aliases; a qualified name is taken over by the code without a look at the schema.
- Publication: one writer at a time on a table directory, as `open` assumes; two would hand out the same ids. Ids are below the u32 limit.
- LIMIT across workers: each worker has its own limit; plans with LIMIT are covered by the single-stream meaning only.
- Column order of the result: `ProjectExec` runs below the merge; results are compared by column name.
- Parts without rows, which have no granule to read; scans assume at least one row per part, and `FilterExec` at least one row per batch.
- HashAggregate.AggregateExec.NextBatch: an ungrouped partial aggregation assumes that its child sends no empty batch, as the filter guarantees.
- LogicalPlans.CoerceKeepsValue: assumes literals that their column's type represents (`Checked`); which accepted literals are not is `Analyzer.NarrowPanicsExactlyWhen`.
- Aggregate arguments other than columns, which the builder rejects, and projections other than columns and aggregates, which the projection rejects.
- Gather and Publication are step systems over values; the threads, the channel and the file system behind them are not objects of the model.
- Arithmetic that overflows wraps, as in a release build; a build with overflow checks would stop instead.
- I/O errors while reading, corrupted files beyond the decoders' own errors, worker panics, fsync and the durability of a rename.
- The formats' limits: names and column counts in u16, compressed blocks in u32 (for strings: 512 consecutive rows of a column take less than 1 GiB), offsets in u64.
- lz4, Arrow's kernels and row format, hashbrown, crossbeam, rayon, sqlparser and UTF-8 validation, beyond what the parameters above say of them.
- The hash and the merge aggregation are one class with a flag, the two scans one class with an optional condition, and MIN and MAX one accumulator; the boxed accumulators are a datatype over the accumulator classes.
- The scratch buffers the operators reuse between batches hold nothing between calls and are not fields here.
- Parsing, the validator's refusal of other syntax, the visitor around the analyzer's literal check, the schema file, plan printing, the command line, and the other playground programs.
