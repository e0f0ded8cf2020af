# ShardTelemetry, verified

A Dafny model of the parts of ShardTelemetry where a mistake silently loses or
corrupts telemetry, with proofs over all inputs, all runs or all reachable
states. Imperative code is modelled as classes and loops proved against pure
specification functions; what the system promises is then proved of those
functions and of the object invariants.

| files | component |
|---|---|
| `Bits`, `XorFormat`, `PrometheusXor` | the Prometheus XOR chunk codec, bit by bit |
| `LittleEndian`, `JournalFormat`, `SinkJournal` | the durable sink journal: framing, append, crash recovery |
| `MetricTypes`, `HistogramBuckets`, `Accumulation`, `LifetimeRollup`, `RollupCatalog` | lifetime metric rollups over partition logs |
| `SpanExport` | sparse buckets to histogram spans, and back through the rollup code |
| `EditDistance`, `MessageTokens`, `QueryPages` | fuzzy matching, message tokens and cursor pagination of log queries |
| `IngestPack`, `IngestCursor` | the cohort-grouped ingest pack |
| `Sampling`, `DictionaryCatalog`, `DictionaryTrainer`, `DictionaryCache` | online dictionary learning, publication and caching |
| `RateLimiter` | the integer token bucket at the ingest boundary |
| `AttributeValues` | the attribute value dictionary of a structural block |
| `AppendRounds` | scheduling metric appends into rounds |
| `Base`, `Sorting` | result types, integer ranges, sorting by a total order |

Machine integers are unbounded integers with explicit ranges; every wrap,
saturation and checked operation of the code is written out. `usize` is taken
as 64 bits wide.

Main results:

- every sample list the XOR encoder accepts decodes to itself, and encodes in only one way;
- a journal cut at any byte after its header reopens with exactly the transactions whose frames survive, and rebuilds their checkpoints;
- rollups incorporate every log offset exactly once under overlapping and repeated batches, and cumulative sums and exponential histograms then hold their lifetime values;
- a packed batch decodes to itself, and decoding accepts exactly the byte strings whose ordinals are 0 to n - 1;
- `bounded_levenshtein` decides the edit distance, tokens are the maximal separator-free runs, and paging loses no record exactly when no page ends inside a tie, however the unstable sort orders ties;
- in every reachable state of the dictionary learner each placement is in one phase, every training input was full-sized, and every publication saved the configured margins on its whole trial;
- the token bucket never admits more than burst plus rate times time, and loses a fraction exactly when a cap or a saturation is hit;
- attribute ids, append rounds and the dictionary cache refine their simple descriptions.

Where a promise does not hold of the code, the exact condition is proved and an
input that breaks it is given:

- histogram spans survive export if and only if every gap fits `i32` and there are fewer than 2^32 buckets (`SpanExport.RoundTripsExactly`, `WideGapExample`);
- a cumulative sum is its lifetime value if and only if that value fits `i64` (`LifetimeRollup.CumulativeSumRun`, `WrappingExample`). The increment is a plain `i64` subtraction (src/rollup.rs:374); the model gives it the two's-complement meaning of a build without overflow checks, and a build with them panics on exactly the runs where it wraps;
- after any crash every surviving journal transaction is covered, so that its retry writes nothing, if and only if each transaction's next checkpoint covers the one it replaces (`JournalFormat.SurvivorsAreCovered`, `SurvivorsOfAnyCut`, `RetryCanBeRefused`);
- the pages of a query together hold its unlimited result if and only if no page ends inside a run of records with equal sort keys, whatever the unstable sort does with ties (`QueryPages.PagesExactly`, `TiedPairExample`); they hold it in the same order for every limit if and only if no two matching records share a key (`EveryLimitExactly`, `TieInsidePageExample`);
- a batch that fails partway leaves its partition's exactly-once state intact if and only if its first point past the checkpoint could not be incorporated (`RollupCatalog.ApplyToUpToDate`, `FailedBatchExample`).

## Model

| member | source | states |
|---|---|---|
| `PrometheusXor.BitWriter.constructor` | src/prometheus_xor.rs:17-22 | A new chunk is the reserved two-byte count and no bits. |
| `PrometheusXor.BitWriter.WriteBit` | src/prometheus_xor.rs:24-34 | Appends exactly one bit, most significant first, at any alignment. |
| `PrometheusXor.BitWriter.WriteByte` | src/prometheus_xor.rs:36-44 | Appends exactly the eight bits of the byte even when it straddles two stored bytes. |
| `PrometheusXor.BitWriter.WriteBits` | src/prometheus_xor.rs:46-50 | Appends exactly the low `bits` bits of a 64-bit value, high bit first. |
| `PrometheusXor.BitWriter.WriteUvarint` | src/prometheus_xor.rs:52-58 | Appends the seven-bit groups of the value, continuation bit set on all but the last. |
| `PrometheusXor.BitWriter.WriteVarint` | src/prometheus_xor.rs:60-66 | Appends the zigzag form of a signed value as an unsigned varint. |
| `PrometheusXor.BitWriter.Contents` | src/prometheus_xor.rs:24-50 | The stored bytes are the written bits followed by fewer than eight zero bits of padding. |
| `PrometheusXor.WriteTimestampDelta` | src/prometheus_xor.rs:129-150 | Appends the control prefix and payload that the delta-of-delta format prescribes for every i64. |
| `PrometheusXor.WriteValueDelta` | src/prometheus_xor.rs:152-179 | Appends the XOR form of the next value and returns the window the format prescribes, reused or announced. |
| `PrometheusXor.WriteSample` | src/prometheus_xor.rs:89-124 | Appends one sample's timestamp and value bits and advances the codec state as the format does. |
| `PrometheusXor.EncodeXorChunk` | src/prometheus_xor.rs:70-127 | Succeeds exactly when there are 1 to 65535 samples, timestamps never go back and no difference overflows i64; the bytes are then a chunk of those samples. Otherwise the error is the count first, then order, then an overflowing difference, each exactly when the earlier ones do not apply. |
| `XorFormat.ReadBackUvarint` | src/prometheus_xor.rs:52-58 | Reading an unsigned varint returns the value written, for every u64 and whatever follows it. |
| `XorFormat.ZigZagRoundTrip` | src/prometheus_xor.rs:60-66 | The signed varint transform is inverted for every i64. |
| `XorFormat.ReadBackTimestampDelta` | src/prometheus_xor.rs:129-150 | Every i64 delta of delta reads back, across all five control prefixes. |
| `XorFormat.ReadBackHeader` | src/prometheus_xor.rs:172-177 | A window announcement reads back, including the 64-bit width stored as zero. |
| `XorFormat.WindowedBitsKeepDelta` | src/prometheus_xor.rs:164-178 | The significant bits kept inside a window and shifted back are the whole XOR delta. |
| `XorFormat.ReadBackValueDelta` | src/prometheus_xor.rs:152-179 | Decoding a value delta restores the 64-bit pattern, and writer and reader hold the same window afterwards. |
| `XorFormat.ReadBackSample` | src/prometheus_xor.rs:89-124 | One encoded sample decodes to itself and leaves the decoder in the encoder's state. |
| `XorFormat.ReadBackSamples` | src/prometheus_xor.rs:89-124 | By induction over the chunk, all remaining samples decode whatever padding follows. |
| `PrometheusXor.BitReader.ReadBit` | src/prometheus_xor.rs:196-200 | Takes the next bit of the stream, or reports its end. |
| `PrometheusXor.BitReader.ReadBits` | src/prometheus_xor.rs:202-204 | Takes the next `count` bits as a number. |
| `PrometheusXor.BitReader.ReadUvarint` | src/prometheus_xor.rs:206-216 | Agrees with the pure varint reader on every stream. |
| `PrometheusXor.ReadTimestampDeltaFrom` | src/prometheus_xor.rs:266-289 | Agrees with the pure timestamp-delta reader on every stream. |
| `PrometheusXor.ReadValueDeltaFrom` | src/prometheus_xor.rs:298-318 | Agrees with the pure value-delta reader on every stream and window. |
| `PrometheusXor.ReadSampleFrom` | src/prometheus_xor.rs:253-294 | Agrees with the pure sample reader for the first, second and later samples. |
| `PrometheusXor.DecodeForTest` | src/prometheus_xor.rs:249-296 | The imperative decoder computes the pure decoder's answer for every byte string. |
| `PrometheusXor.StreamIndex` | src/prometheus_xor.rs:24-34 | Bit `n` of the stream is bit `7 - n % 8` of byte `n / 8`: the writer is most-significant-bit first. |
| `PrometheusXor.StreamInjective` | src/prometheus_xor.rs:24-50 | Different byte strings are different bit streams. |
| `PrometheusXor.ChunkRoundTrip` | src/prometheus_xor.rs:226-247 | Any chunk of a sample sequence decodes to exactly those timestamps and bit patterns. |
| `PrometheusXor.ChunkIsUnique` | src/prometheus_xor.rs:70-127 | A sample sequence has only one chunk. |
| `PrometheusXor.ChunkIsInjective` | src/prometheus_xor.rs:70-127 | Two sample sequences never share a chunk. |
| `PrometheusXor.EncodeThenDecode` | src/prometheus_xor.rs:226-247 | Running encoder then decoder returns the samples whenever they are encodable, for every input. |
| `JournalFormat.DecodeEncoded` | src/sink_journal.rs:273-362 | An encoded transaction decodes to itself exactly when every append names this shard; otherwise it is the foreign-shard error. |
| `JournalFormat.DecodedIsCanonical` | src/sink_journal.rs:319-374 | Whatever bytes decode are the one encoding of what they decode to, so nothing is read from slack. |
| `JournalFormat.ReadFrame` | src/sink_journal.rs:199-251 | A frame that reads whole consumes at least one byte and no more than there are. |
| `JournalFormat.ReadBackFrame` | src/sink_journal.rs:199-251 | A written frame reads back whole, at its own size, followed by anything. |
| `JournalFormat.ReadTornFrame` | src/sink_journal.rs:199-228 | Every proper prefix of a frame reads as torn, never as corrupt or whole. |
| `JournalFormat.WholeFramesIsMaximal` | src/sink_journal.rs:169-256 | The frames counted as surviving a cut fit before it and the next one does not. |
| `JournalFormat.RecoverCutFrames` | src/sink_journal.rs:195-255 | Recovery over a cut run of frames returns exactly the whole ones and their length. |
| `JournalFormat.CrashRecovery` | src/sink_journal.rs:169-256 | For every cut at or after the header, recovery returns the surviving transactions, the boundary they end at, and only those. |
| `JournalFormat.RecoveredIsCanonical` | src/sink_journal.rs:169-256 | Any file recovery accepts starts with the header and exactly the frames of the transactions it returns, which chain. |
| `JournalFormat.SurvivorsAreCovered` | src/sink_journal.rs:122-129 | In every prefix of a log the live checkpoint covers every transaction of its partition, if and only if each transaction's next checkpoint covers the one it replaces. |
| `JournalFormat.SurvivorsOfAnyCut` | src/sink_journal.rs:122-129 | The same of the file: wherever a crash cuts it, the recovered checkpoints cover every survivor, under exactly that condition. |
| `JournalFormat.AppendFault` | src/sink_journal.rs:291-305 | The first append that cannot be written, foreign before too long, and none exactly when all can. |
| `JournalFormat.EncodeFault` | src/sink_journal.rs:273-310 | The reason a transaction is refused, in the order of the checks, and none exactly when it encodes. |
| `JournalFormat.RetryCanBeRefused` | src/sink_journal.rs:127-134 | Where that condition fails a logged transaction's retry can be refused: two accepted transactions that show it. |
| `SinkJournal.EncodeTransaction` | src/sink_journal.rs:273-310 | Gives the bytes of the format exactly when the transaction encodes, and otherwise the first fault. |
| `SinkJournal.ReadAt` | src/sink_journal.rs:388-399 | A cursor read of a fixed-width integer advances by its width or reports truncation. |
| `SinkJournal.ReadCheckpointAt` | src/sink_journal.rs:364-374 | Reads a checkpoint as the format does from any position. |
| `SinkJournal.ReadAppendsAt` | src/sink_journal.rs:330-351 | Reads the declared appends, checking shard and partition, as the format does. |
| `SinkJournal.DecodeTransaction` | src/sink_journal.rs:319-362 | The cursor decoder computes the pure decoder's result, errors included, on every byte string. |
| `SinkJournal.ReadFrameAt` | src/sink_journal.rs:199-251 | One frame at a position: torn, corrupt with its reason, or whole. |
| `SinkJournal.RecoverFile` | src/sink_journal.rs:169-256 | The recovery loop returns the specified transactions and truncates the file to the last whole frame, or fails with the specified error. |
| `SinkJournal.SinkJournal.Append` | src/sink_journal.rs:107-166 | Writes one frame exactly when the transaction encodes, is not covered, continues its chain and fits; a covered one succeeds and writes nothing; every refusal names its reason and changes nothing; unsynced bytes stay below the batch limit and are zero in sync-each mode. |
| `SinkJournal.LogAppend` | src/sink_journal.rs:107-166 | Appending extends the file by one frame and keeps the log chained, with the checkpoint map of the longer log. |
| `SinkJournal.CollectCheckpoints` | src/sink_journal.rs:82-85 | The rebuilt checkpoint map is the one the live journal held after those transactions. |
| `SinkJournal.Open` | src/sink_journal.rs:51-105 | Opening fails on a capacity below the header, on unreadable files and on oversize ones; otherwise the journal represents the recovered transactions. |
| `SinkJournal.CrashAndReopen` | src/sink_journal.rs:51-256 | Cutting a live journal anywhere at or after the header and reopening succeeds exactly when the survivors are on this shard; the journal then holds exactly the transactions whose frames survived whole, their bytes and their checkpoint map. |
| `SinkJournal.RetryAfterCrash` | src/sink_journal.rs:107-129 | After a crash and reopening, retrying anything the recovered checkpoint covers succeeds and leaves the file unchanged; when checkpoints replace forward that is every survivor. |
| `HistogramBuckets.SpanLengths` | src/rollup.rs:668-680 | The summed span length, or the overflow error exactly when it exceeds usize. |
| `HistogramBuckets.ExpandSpan` | src/rollup.rs:704-719 | One span's buckets are inserted exactly when all indices are in i32 and none repeats. |
| `HistogramBuckets.ExpandBuckets` | src/rollup.rs:662-723 | Spans expand to the index-to-count map they mean, exactly when they are well formed. |
| `SpanExport.ExportBuckets` | src/fast_telemetry.rs:498-529 | The exporter's loop builds the spans and counts of the sorted buckets. |
| `SpanExport.SpansSpellIndices` | src/fast_telemetry.rs:505-524 | While gaps fit, the spans spell exactly the indices exported so far and end where the last one ends. |
| `SpanExport.RoundTripsExactly` | src/fast_telemetry.rs:498-529 | Export then expansion restores the buckets if and only if every gap fits i32 and there are fewer than 2^32 buckets. |
| `SpanExport.WideGapIsLost` | src/fast_telemetry.rs:512-520 | A gap above i32::MAX is clamped and the buckets do not come back. |
| `SpanExport.FullRangeIsLost` | src/fast_telemetry.rs:507-510 | A run filling all 2^32 indices saturates its span length and does not come back. |
| `SpanExport.WideGapExample` | src/fast_telemetry.rs:512-520 | The two outermost buckets alone already fail. |
| `SpanExport.SortedBuckets` | src/fast_telemetry.rs:500-500 | Sorting distinct buckets gives strictly increasing indices and the same buckets. |
| `SpanExport.ExportRoundTrip` | src/fast_telemetry.rs:498-529 | For any set of buckets with distinct indices the same condition decides whether rollups see the original map. |
| `Accumulation.AddBucketsExact` | src/rollup.rs:584-660 | On integers the merged buckets are, index by index, total plus increment, and cover the current raw buckets. |
| `Accumulation.AddBucketsConserves` | src/rollup.rs:584-660 | The number of observations in the merged buckets is the old number plus the increment's. |
| `Accumulation.SumBuckets` | src/rollup.rs:633-648 | The merge loop computes each index's sum or stops at the first failing one. |
| `Accumulation.AddBucketsInOrder` | src/rollup.rs:584-660 | The imperative merge succeeds exactly when the specification does, with the same buckets. |
| `LifetimeRollup.HistogramStep` | src/rollup.rs:524-582 | A successful accumulation adds the increment to count, zero count and every bucket, reports a reset exactly when a cumulative count fell, and keeps the total covering the current buckets. |
| `LifetimeRollup.StepKeepsBalance` | src/rollup.rs:524-582 | Zero plus positive plus negative equals count afterwards if it did for the total and the raw points. |
| `LifetimeRollup.HistogramRun` | src/rollup.rs:524-660 | Over any successful run every component equals the sum of deltas, or the last raw value plus what each restart wiped out; resets are the restarts; balance and coverage hold; without a restart no component ever fell. |
| `LifetimeRollup.SumKeepsRepresentation` | src/rollup.rs:371-401 | A successful run of sums that starts as integer stays integer. |
| `LifetimeRollup.SumWraps` | src/rollup.rs:371-401 | The lifetime sum is the true one modulo 2^64, in every run. |
| `LifetimeRollup.CumulativeSumRun` | src/rollup.rs:318-401 | Resets count the decreases, and the lifetime outcome is the last raw value plus the values before each decrease if and only if that fits i64. |
| `LifetimeRollup.WrappingExample` | src/rollup.rs:371-386 | A concrete accepted run whose outcome is not that sum, because the subtraction wraps. |
| `RollupCatalog.AccumulateHistogram` | src/rollup.rs:524-582 | The imperative histogram accumulation agrees with the specification. |
| `RollupCatalog.AccumulateValue` | src/rollup.rs:318-369 | The dispatch on metric kind agrees with the specification, kind changes included. |
| `RollupCatalog.MetricRollupCatalog.IncorporatePoint` | src/rollup.rs:186-222 | A point is incorporated exactly when replaying the trace extended by it succeeds; a refused point leaves the trace. |
| `RollupCatalog.MetricRollupCatalog.ApplyBatch` | src/rollup.rs:147-184 | A batch is accepted exactly when it starts at or below the checkpoint and its new points apply; only offsets from the checkpoint on are incorporated; a failure leaves checkpoints, and has incorporated something exactly when its first new point applied. |
| `RollupCatalog.Advance` | src/rollup.rs:147-184 | No checkpoint ever moves back. |
| `RollupCatalog.BatchKeepsUpToDate` | src/rollup.rs:147-184 | One accepted batch keeps every partition's incorporated points a gapless slice of its log. |
| `RollupCatalog.ExactlyOnce` | src/rollup.rs:147-222 | After any accepted batches, overlapping or repeated, each offset from the first start to the checkpoint is incorporated once, in order, and nothing else is. |
| `RollupCatalog.FailedBatchExactly` | src/rollup.rs:161-180 | A state that differs only by entries added for one partition keeps that partition exactly-once if and only if nothing was added, and never disturbs another partition. |
| `RollupCatalog.FailedBatchExample` | src/rollup.rs:161-180 | Two new series where the series limit leaves room for one: the batch fails on its second point and keeps its first. |
| `RollupCatalog.SeriesAreIndependent` | src/rollup.rs:186-222 | Each rollup is the run of its own series' points alone. |
| `RollupCatalog.SeriesSpan` | src/rollup.rs:280-316 | A series' rollup holds its earliest and latest timestamps, its saturating size and its newest description. |
| `RollupCatalog.GaugeSeries` | src/rollup.rs:280-316 | A gauge of integers keeps its last value, its least and greatest values, and never resets. |
| `RollupCatalog.SumSeries` | src/rollup.rs:280-369 | A sum series' state is the run of its values: outcome, last raw value and saturating reset count. |
| `RollupCatalog.HistogramSeries` | src/rollup.rs:280-369 | The same for an exponential histogram series. |
| `RollupCatalog.CounterOutcome` | src/rollup.rs:147-401 | In a catalog fed any trace, a cumulative integer counter's stored outcome is its last raw value plus the values before each decrease if and only if that fits i64. |
| `RollupCatalog.HistogramOutcome` | src/rollup.rs:147-582 | In a catalog fed any trace, an integer exponential histogram's stored outcome has its lifetime value in every component, the last raw buckets, and balance. |
| `RollupCatalog.ApplyBatches` | src/rollup.rs:147-222 | End to end: batches fed to a catalog object, while accepted, are incorporated exactly once in every partition, and every series then holds its lifetime values. |
| `RollupCatalog.ApplyToUpToDate` | src/rollup.rs:147-184 | One batch against an up-to-date partition: an accepted one keeps it up to date; after a refusal it is up to date if and only if it is another partition or the first point past the checkpoint could not be incorporated, which is known before the call. |
| `EditDistance.NoScriptIsCheaper` | src/query.rs:806-833 | No edit script is cheaper than the recursive distance. |
| `EditDistance.CheapestScript` | src/query.rs:806-833 | Some edit script costs exactly the recursive distance, so it is the edit distance. |
| `EditDistance.AtLeastLengthDifference` | src/query.rs:809-811 | The early exit on the length difference never changes the answer. |
| `EditDistance.RowsDoNotShrink` | src/query.rs:825-829 | A row minimum is a lower bound on every later row, so the row exit never changes the answer. |
| `EditDistance.FillRow` | src/query.rs:815-826 | One pass fills the next row of distances and its minimum. |
| `EditDistance.BoundedLevenshtein` | src/query.rs:806-833 | True exactly when the edit distance, ASCII case-insensitive, is at most the bound. |
| `EditDistance.WithinIsRewritable` | src/query.rs:806-833 | The same answer in terms of edit scripts: within `k` iff some script costs at most `k`. |
| `MessageTokens.ClickhouseTokenIter.constructor` | src/query.rs:655-659 | A new iterator has every token still to come. |
| `MessageTokens.ClickhouseTokenIter.Next` | src/query.rs:661-675 | Yields the next listed token and leaves the rest, or ends exactly when none is left. |
| `MessageTokens.TokenSpansExact` | src/query.rs:649-675 | The tokens yielded are precisely the maximal separator-free runs, in order. |
| `MessageTokens.MessageHasToken` | src/query.rs:683-709 | The windowed matcher agrees, in both case modes, with some yielded token being equal to the expected one. |
| `MessageTokens.MessageHasFuzzyToken` | src/query.rs:795-804 | True exactly when some yielded token is within the edit distance. |
| `QueryPages.Select` | src/query.rs:67-77 | For any way of ordering ties: the page is the matching records in query order, cut at the limit. |
| `QueryPages.OrderedIsStrict` | src/query.rs:36-53 | The result order is strict if and only if no two matching records share the sort key. |
| `QueryPages.DistinctOffsetsAreStrict` | src/query.rs:36-53 | Distinct offsets make the result order strict, for both sorts and both directions. |
| `QueryPages.ResumedMatches` | src/query.rs:280-297 | The continuation filter keeps exactly the records after the cursor in query order. |
| `QueryPages.ResumeSkipsTies` | src/query.rs:280-297 | Resuming after the k-th result skips exactly the later results that tie with it, however the sort orders ties. |
| `QueryPages.ResumeIsSuffix` | src/query.rs:57-77 | Resuming after the k-th result gives exactly the records after it, if and only if the next result does not tie with it. |
| `QueryPages.ResumeKeepsOrder` | src/query.rs:57-77 | With no two matching records tied, resuming gives the rest of the result in its order. |
| `QueryPages.PagedWithin` | src/query.rs:57-77 | Paging never repeats or invents a record, ties or not. |
| `QueryPages.PagesExactly` | src/query.rs:57-77 | For every query, record list, limit and tie order: the pages together hold exactly the matching records if and only if no page ends inside a tie. |
| `QueryPages.SameKeys` | src/query.rs:33-53 | Two sorted arrangements of the same records carry the same keys place by place, so where ties fall does not depend on the sort. |
| `QueryPages.PagedInOrder` | src/query.rs:57-77 | With no two matching records tied, the pages concatenate to the unlimited result. |
| `QueryPages.EveryLimitExactly` | src/query.rs:57-77 | The pages concatenate to the unlimited result for every limit of at least one if and only if no two matching records share the sort key. |
| `QueryPages.FetchAll` | src/query.rs:57-77 | Paging with any limit of at least one terminates and wastes no page; it loses no record if and only if no page ends inside a tie, and without ties it returns the unlimited result in order. |
| `QueryPages.TiedRecordsAreLost` | src/query.rs:280-297 | For any query and tie order: a record that ties with the end of its page is on no later page. |
| `QueryPages.TiedPairExample` | src/query.rs:280-297 | Two records at one offset, one per page: whatever the sort, one of them is never delivered. |
| `QueryPages.TieInsidePageExample` | src/query.rs:67-77 | A tie inside the second page: nothing is lost, yet an unstable sort can order it differently than in the unlimited result. |
| `IngestPack.GroupsKeepEvents` | src/ingest_pack.rs:121-151 | Splitting a batch by cohort keeps every event once, with its ordinal. |
| `IngestPack.GroupsAscending` | src/ingest_pack.rs:140-150 | Cohort groups are non-empty and in strictly ascending cohort order. |
| `IngestPack.OrdinalError` | src/ingest_pack.rs:320-327 | A group passes exactly when every ordinal fits u32 and is below the declared count. |
| `IngestPack.ReadBackHeader` | src/ingest_pack.rs:246-274 | The 40-byte group header reads back field by field. |
| `IngestPack.ReadBackGroups` | src/ingest_pack.rs:212-277 | Encoded groups read back as their tagged records, whatever follows. |
| `IngestPack.ReassembleExactly` | src/ingest_pack.rs:352-363 | Whatever the codecs do, reassembly returns given events if and only if the records are those events numbered 0 to n - 1, each once. |
| `IngestPack.PackRoundTrip` | src/ingest_pack.rs:121-364 | Every batch that packs, with any mix of cohorts, decodes to the same events in the same order with the same cohorts. |
| `IngestPack.PackIsInjective` | src/ingest_pack.rs:121-277 | Two batches never share a payload. |
| `IngestPack.AcceptedExactly` | src/ingest_pack.rs:291-364 | Bytes are accepted if and only if they are whole valid groups to the last byte whose ordinals are exactly 0 to n - 1. |
| `IngestCursor.TimestampBounds` | src/ingest_pack.rs:263-272 | The lowest and highest timestamp of a group, bounding every record. |
| `IngestCursor.AppendIngestGroup` | src/ingest_pack.rs:212-277 | Appends one group's frame to the payload and its index to the sidecar, or fails with the first error. |
| `IngestCursor.PrepareIngestPack` | src/ingest_pack.rs:121-210 | The packing loop produces the specified payload and sidecar or the specified error. |
| `IngestCursor.CohortGroups` | src/ingest_pack.rs:121-150 | One group when all events share a cohort, otherwise one per cohort in key order. |
| `IngestCursor.OpenCursor` | src/ingest_pack.rs:495-520 | Opens exactly when the header checks out and declares the expected count, positioned after it; each refusal names its reason. |
| `IngestCursor.IngestPackCursor.NextGroup` | src/ingest_pack.rs:522-563 | Takes one group header and its compressed bytes and advances past them, or reports truncation. |
| `IngestCursor.IngestPackCursor.Finish` | src/ingest_pack.rs:565-575 | Succeeds exactly at the end of the payload with the declared totals met. |
| `IngestCursor.DecodeGroup` | src/ingest_pack.rs:303-349 | Validates, decompresses and decodes one group in the source's order of checks. |
| `IngestCursor.DecodeIngestPack` | src/ingest_pack.rs:291-364 | The decoding loop computes the specified result, errors included, on every byte string. |
| `IngestCursor.PackThenDecode` | src/ingest_pack.rs:121-364 | Packing and decoding returns the batch, and fails only where packing fails. |
| `Sampling.WindowStart` | src/realtime_dictionary.rs:689-690 | Every window starts early enough to fit, saturation included. |
| `Sampling.WindowStartsAscend` | src/realtime_dictionary.rs:688-691 | Windows are taken in source order. |
| `Sampling.WindowsReachBothEnds` | src/realtime_dictionary.rs:688-691 | The first window opens the block and the last one closes it, exactly unless the product saturates. |
| `Sampling.SampleBytes` | src/realtime_dictionary.rs:681-697 | A sample is min(limit, length) bytes: the whole block, or eight windows and the closing remainder. |
| `Sampling.BlockWindowAt` | src/realtime_dictionary.rs:688-691 | Each sampled window holds the block's bytes at its start. |
| `Sampling.SampleCoversBlock` | src/realtime_dictionary.rs:681-697 | For every width and remainder: each of a cut sample's eight windows is the block's bytes at that window's start, and behind them come the block's last bytes. |
| `Sampling.SampleReachesBothEnds` | src/realtime_dictionary.rs:681-697 | A cut sample opens with the block's opening bytes, and its eighth window is the block's closing bytes unless the window's start saturates. |
| `Sampling.ChunkTrainingSample` | src/realtime_dictionary.rs:699-714 | Chunk sizes add up to the data, all full but the last. |
| `Sampling.SectionSample` | src/realtime_dictionary.rs:768-796 | One section contributes min(budget, length) bytes in at most four non-empty pieces whose sizes add up. |
| `Sampling.AppendTrainingWindows` | src/realtime_dictionary.rs:768-796 | The loop appends exactly that contribution to data and sizes. |
| `Sampling.ShareConserves` | src/realtime_dictionary.rs:748-760 | A pass over the sections moves bytes from the remainder to budgets without loss. |
| `Sampling.ShareProgresses` | src/realtime_dictionary.rs:739-764 | A pass with an open section always hands something out, so the loop ends. |
| `Sampling.ShareShortfall` | src/realtime_dictionary.rs:746-760 | When a pass runs dry no open section misses more than all of them together. |
| `Sampling.FairSectionBudgets` | src/realtime_dictionary.rs:733-766 | Budgets sum to min(limit, total), none exceeds its section, and no section gets n bytes more than one that was cut short. |
| `Sampling.SampleStructuralTraining` | src/realtime_dictionary.rs:716-731 | The structural sample uses min(limit, total) bytes with sizes that add up, and is missing exactly when there is nothing to sample. |
| `Sampling.ObserveStructuralBlock` | src/realtime_dictionary.rs:220-241 | Both samples of an observation respect the limit and the training sample's sizes add up. |
| `Sampling.CutSum` | src/realtime_dictionary.rs:803-815 | Trimmed sizes add up to min(limit, total) and stay positive. |
| `Sampling.CutKeepsPieces` | src/realtime_dictionary.rs:803-815 | Trimming changes only the last piece. |
| `Sampling.TruncateTrainingSample` | src/realtime_dictionary.rs:798-820 | The loop computes the specified truncation. |
| `Sampling.ShortenedAddsUp` | src/realtime_dictionary.rs:798-820 | A truncated sample is the allowed prefix and its sizes still add up. |
| `DictionaryCatalog.DictionaryFor` | src/dictionary.rs:66-73 | In a reachable catalog every assigned placement resolves to a non-empty dictionary. |
| `DictionaryCatalog.Catalog.constructor` | src/dictionary.rs:127-131 | A new catalog is empty at generation zero. |
| `DictionaryCatalog.Catalog.Publish` | src/dictionary.rs:146-178 | Assigns the dictionary and bumps the generation; ids never change meaning, other placements keep theirs, and a refusal names its reason and changes nothing. |
| `DictionaryTrainer.AdmittedSaves` | src/realtime_dictionary.rs:630-640 | Whatever the saturating admission test accepts saves the configured bytes and basis points on the true totals. |
| `DictionaryTrainer.AdmittedExactly` | src/realtime_dictionary.rs:630-640 | With counters away from their limits the test is exactly those margins. |
| `DictionaryTrainer.PhasesExclusive` | src/realtime_dictionary.rs:388-398 | Collecting, evaluating and cooling down exclude one another. |
| `DictionaryTrainer.ConcatenatedAddsUp` | src/realtime_dictionary.rs:497-502 | The training input is as long as the samples and its sizes add up. |
| `DictionaryTrainer.TrainCandidate` | src/realtime_dictionary.rs:490-529 | Training consumes exactly the configured number of bytes and leaves a candidate or a cooldown. |
| `DictionaryTrainer.CompareHoldout` | src/realtime_dictionary.rs:577-604 | Totals both compressors over the holdout, or nothing exactly when one refuses a sample. |
| `DictionaryTrainer.MeasureHoldout` | src/realtime_dictionary.rs:559-613 | A comparison counts exactly when both dictionaries load, every sample compresses and the first survives a round trip. |
| `DictionaryTrainer.JudgeKeepsPhase` | src/realtime_dictionary.rs:531-663 | Every verdict leaves the placement in a phase. |
| `DictionaryTrainer.NextKeepsPhase` | src/realtime_dictionary.rs:428-672 | Every observation takes a placement from one phase to one phase, with totals equal to the trial's and the holdout short of a full batch. |
| `DictionaryTrainer.JudgedPublicationsSave` | src/realtime_dictionary.rs:621-656 | A publication is only decided on a whole trial that saves the margins. |
| `DictionaryTrainer.EvaluateCandidate` | src/realtime_dictionary.rs:531-663 | The evaluation follows the verdict, publishes to the catalog exactly then, and touches no other placement. |
| `DictionaryTrainer.AdvancePlacement` | src/realtime_dictionary.rs:451-487 | One observation of one placement follows the state machine, and names what it trained on and published. |
| `DictionaryTrainer.ValidateConfig` | src/realtime_dictionary.rs:60-92 | Accepts exactly the configurations within the documented bounds. |
| `DictionaryTrainer.StartTrainer` | src/realtime_dictionary.rs:298-337 | Starts exactly on a valid configuration and a supported compression level, with no placements and nothing published. |
| `DictionaryTrainer.CandidatesComeAndGo` | src/realtime_dictionary.rs:452-487 | Candidates only appear by training and only leave by a verdict. |
| `DictionaryTrainer.AccountStep` | src/realtime_dictionary.rs:428-663 | Every training run failed, was rejected, was published or is still on trial, and the wrapping counters show these numbers. |
| `DictionaryTrainer.Trainer.ProcessObservation` | src/realtime_dictionary.rs:428-488 | Placements never exceed their budget; only the named placement moves, as the state machine says; every training input ever used is full-sized, every publication ever made was justified, and the activity counters balance. |
| `DictionaryTrainer.RunTrainer` | src/realtime_dictionary.rs:400-426 | The worker handles exactly the observations before shutdown, answers a flush once everything submitted before it is processed, keeps all guarantees, and dictionary ids never change meaning. |
| `RateLimiter.Refilled` | src/production.rs:351-362 | A refill leaves tokens at most the burst and the remainder below one byte. |
| `RateLimiter.IngestRateLimiter.constructor` | src/production.rs:326-336 | The bucket starts full. |
| `RateLimiter.IngestRateLimiter.TryAcquire` | src/production.rs:338-368 | Admits exactly when the refilled bucket holds the bytes; rate zero admits all, an oversized request never refills, and a poisoned lock refuses whatever is limited. |
| `RateLimiter.AttemptHolding` | src/production.rs:351-367 | One attempt never creates tokens, and loses none exactly when neither cap nor saturation is hit. |
| `RateLimiter.RunHolding` | src/production.rs:338-368 | Over any run, what was admitted plus what is held is at most what was held plus rate times refill time, with equality if and only if no refill lost anything. |
| `RateLimiter.WindowBound` | src/production.rs:325-368 | Over any window of any run, a billion times the admitted bytes is at most the burst's, the starting remainder and rate times elapsed nanoseconds. |
| `RateLimiter.RefillsCoverClock` | src/production.rs:351-353 | On a forward clock the refills add up to the time since the bucket was last touched. |
| `RateLimiter.ClockBound` | src/production.rs:338-368 | Between a window's first and last attempt no more than the burst, the time's worth and a last fraction of a byte get in. |
| `AttributeValues.AttributeValueCounts.constructor` | src/structural.rs:460-470 | A new counter has seen nothing. |
| `AttributeValues.AttributeValueCounts.Increment` | src/structural.rs:474-488 | Counts the value under the id of its first use, whichever lookup found it; says whether it is new; fails exactly when a count or an id overflows. |
| `AttributeValues.AttributeValueCounts.Count` | src/structural.rs:500-503 | One more occurrence; ids and values stay. |
| `AttributeValues.AttributeValueCounts.Find` | src/structural.rs:492-498 | The scan and the hash index find the same entry. |
| `AttributeValues.AttributeValueCounts.IncrementSlow` | src/structural.rs:491-531 | The slow path meets the same contract. |
| `AttributeValues.AttributeValueCounts.AddEntry` | src/structural.rs:511-530 | A new value gets the next id, and the index is built when the seventeenth arrives. |
| `AttributeValues.FirstUsesExact` | src/structural.rs:491-531 | Ids list each distinct value once, and exactly the values seen. |
| `AttributeValues.OrderArranges` | src/structural.rs:533-545 | Repeated values come first and sorted, the others after in order of first use, none lost. |
| `AttributeValues.InverseMakesTable` | src/structural.rs:546-558 | Renumbering by that order is a permutation that keeps every value, with exactly the repeated ones in the strictly sorted prefix. |
| `AttributeValues.IntoTable` | src/structural.rs:533-559 | Builds such a table, failing exactly when an id would not fit u32. |
| `AttributeValues.Resolve` | src/structural.rs:293-304 | Resolving an id of such a table returns its original bytes, below the dictionary length exactly when the value was repeated. |
| `AttributeValues.CountValues` | src/structural/encoder.rs:124-142 | Counting a whole pass hands out, for every value, the place of its first use, and fewer than 2^32 values never fail. |
| `AttributeValues.NumberValues` | src/structural/encoder.rs:124-142 | A whole pass: equal bytes share an id, different bytes do not, every id leads back to its bytes, and fewer than 2^32 values never fail. |
| `AppendRounds.RoundsSchedule` | src/otlp_server.rs:227-237 | Round n holds exactly the nth append of each partition that has one. |
| `AppendRounds.RoundsKeepAppends` | src/otlp_server.rs:224-237 | Every append is scheduled exactly once. |
| `AppendRounds.RoundsKeepOrder` | src/otlp_server.rs:224-240 | Read round by round, each partition's appends come in their own order. |
| `AppendRounds.BusiestPartition` | src/otlp_server.rs:232-234 | Some partition has as many appends as there are rounds. |
| `AppendRounds.RoundsAreFewest` | src/otlp_server.rs:224-237 | No schedule with one append per partition in a round has fewer rounds. |
| `AppendRounds.RoundsAreSchedule` | src/otlp_server.rs:224-237 | The rounds are such a schedule and none is empty. |
| `AppendRounds.PlaceAppends` | src/otlp_server.rs:224-237 | The single counter computes these rounds when partitions are contiguous. |
| `AppendRounds.BuildRounds` | src/otlp_server.rs:224-237 | The built rounds are a complete, ordered, shortest schedule. |
| `AppendRounds.ScheduleAppends` | src/otlp_server.rs:221-237 | Sorting first makes that hold for any list of appends, shortest schedule included, and of one partition later rounds never take an earlier series. |
| `DictionaryCache.TrimIsLongestFit` | src/dictionary.rs:285-299 | Eviction keeps the longest recent tail that fits: it stops as soon as the rest fits. |
| `DictionaryCache.InsertedStays` | src/dictionary.rs:285-299 | An entry that fits on its own survives its own insertion. |
| `DictionaryCache.OldestIsFirst` | src/dictionary.rs:287-292 | Below clock wraparound the smallest stamp is the least recently used entry. |
| `DictionaryCache.OldestEntry` | src/dictionary.rs:287-292 | Finds an entry with the smallest stamp. |
| `DictionaryCache.NewCache` | src/dictionary.rs:212-224 | A cache is created empty, or refused exactly when its capacity is zero. |
| `DictionaryCache.Cache.Renew` | src/dictionary.rs:272-283 | The entry becomes the most recent and is counted once. |
| `DictionaryCache.Cache.Evict` | src/dictionary.rs:285-299 | Evicts until the rest fits, never an entry with a later stamp than one that stays; below wraparound that is the order of last use. |
| `DictionaryCache.Cache.Insert` | src/dictionary.rs:251-304 | Stored bytes always equal the resident payloads and never exceed capacity; below wraparound the cache is the simple list, the new entry is resident, and evicted plus kept is the old order; each refusal names its reason and changes nothing. |
| `DictionaryCache.Cache.Get` | src/dictionary.rs:307-312 | A hit becomes most recent, a miss changes only the clock. |
| `DictionaryCache.InsertAtWrap` | src/dictionary.rs:275-299 | At the clock wrap a fresh entry is stamped zero and does not survive its own insertion into a full cache. |

## Left out

- zstd, pco, BLAKE3 and the structural block codec are parameters; the ingest pack round trip assumes the structural codec and zstd invert themselves and that no structural block is empty, everything about rejected or accepted bytes assumes nothing.
- Floating point: sums, minima and maxima of doubles are abstract operations on bit patterns, and only the integer branches have value properties. The XOR codec needs bit patterns only.
- RollupCatalog.AccumulateValue: explicit-bucket histograms and summaries are not among the kinds; their merges are easier cases of the same pattern. The persisting and reopening of the rollup catalog is not modelled either.
- File system effects: failed or partial writes inside one append, fsync failures, and a journal file cut inside its eight-byte header, which opening reports as an error and does not repair.
- The initial sink checkpoint of a partition is taken as sequence zero and offset zero; its definition is not part of this model.
- QueryPages.Select: terms, fields and predicates are one abstract filter on records. The unstable sort is a parameter: any function that returns a sorted arrangement of its input.
- Phrase, prefix and regular-expression predicates, index-only classification and posting lists.
- Decoding of the transient index sidecar of an ingest pack; its bytes are modelled, its readers are not.
- AttributeValues.AttributeValueCounts.Increment: the last-value shortcut compares addresses, so the model assumes that an address and length denote the same bytes throughout one pass, as the borrowed records guarantee.
- AttributeValues.NumberValues: one attribute key; the key table and its cache are not modelled.
- DictionaryTrainer.Trainer.ProcessObservation: byte and time totals among the activity counters are not modelled.
- DictionaryTrainer.RunTrainer: the bounded queue in front of the worker, which drops observations when full, is not modelled.
- DictionaryCache.Cache.Insert: once the 64-bit clock has wrapped, only the byte accounting and the order of stamps are claimed; `InsertAtWrap` shows why the rest fails.
- RateLimiter.IngestRateLimiter.TryAcquire: the clock is a parameter.
- Threads and locks elsewhere: each modelled object is used by one thread at a time, as its lock ensures.
- HTTP, gRPC and TCP front ends, the object tier, PromQL, analytics tables, usage ledger and configuration files: plumbing or easy members.
