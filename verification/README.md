# Verified models of the Hledac universal core

A Dafny project that models the stateful cores of the repository and proves what their runs keep: the
tamper-evident tool log and its write-behind pipeline, the LRU caches of the inference coordinator, the
embedding pipeline with its one-bit quantization, the read/write coordination in front of DuckDB, the two
circuit breakers and the telemetry ring, and the bounded stores, scans and greedy selections around them.
`dafny verify dfyconfig.toml` checks everything.

## How the models are built

Each stateful object appears twice. A value-level specification gives its state and one function per atomic
step; theorems about whole runs (all sequences of steps, in any interleaving) are lemmas about that
specification. A class with the original's fields gives the methods, and every method is proved to take the
class to exactly the state its step gives (`Abs() == Apply(old(Abs()), step)`). For the asynchronous parts a
step is the code between two `await`s; a step that is not possible in a state changes nothing, so every
sequence of steps is a run. Loops of the original are loops here, with invariants.

Hashes, embedders, the language detector, similarity, the backend and the clock are parameters. Theorems that
need a collision-free hash say so; `HashChain.GoodHashExists` shows that the assumption made about SHA-256 can
be met. Fields named as history (in states) or declared `ghost` (in classes) are not in the original.

| file | models |
|---|---|
| `HashChain.dfy`, `WriteBehind.dfy`, `ToolExecLog.dfy` | `tool_exec_log.py` |
| `Lru.dfy`, `InferenceCache.dfy` | `_core/inference_coordinator.py` |
| `Dedup.dfy`, `EmbeddingPipeline.dfy`, `EmbedStream.dfy`, `BinaryQuant.dfy` | `embedding_pipeline.py` |
| `ReadCoordinator.dfy` | `_core/duckdb_pool.py` |
| `CircuitBreaker.dfy`, `OverlappingCalls.dfy`, `FfiBreaker.dfy`, `TelemetryRing.dfy` | `_core/circuit_breaker_service.py`, `_core/ffi_circuit_breaker.py` |
| `L2Store.dfy` | `_core/embedding_cache.py` |
| `SemanticDedup.dfy` | `semantic_deduplicator.py` |
| `PrefixScan.dfy` | `_core/lmdb_unified.py`, `_core/lmdb_async.py` |
| `ResourceAllocator.dfy` | `resource_allocator.py` |
| `Triage.dfy` | `_core/capability_cost.py` |
| `Common.dfy` | sequences, subsequences, decimal rendering |

## Where the code does less than its documentation says

Each item is a theorem below, with the exact condition where there is one.

- `verify_all` judges the stored rows only. Any run of losses goes unnoticed as long as a prefix of the log
  survives (`ToolLog.VerifiesIffPrefix`), and the fields outside the chain can change (`HashChain.TamperEvidence`).
  Of the chained fields one alteration goes unnoticed: a missing error class can become the text "None"
  (`HashChain.NoneTextGoesUnnoticed`, `HashChain.OnlyNoneIsAmbiguous`).
- A flush that is cancelled after its insert took effect is inserted again (`WriteBehind.CancelledFlushStoresTwice`).
- `close()` inside a running loop tells the worker to stop only when the loop starts tasks eagerly, which is the
  default; with lazy tasks (eager start switched off or not supported by the loop) the worker goes on for ever
  (`WriteBehind.SyncCloseSignalsIffEager`, `WriteBehind.UnsignalledWorkerGoesOn`).
- The prompt cache is invisible only if the backend ignores what the key leaves out (`InferenceCache.TransparentIffKeyDecides`).
- The two streaming embedders agree only for positive batch sizes (`EmbedStream.StreamsAgree`).
- Packed similarity is the share of agreeing signs only for 256 coordinates or when all signs differ, because
  padding gives 1-bits on one side and 0-bits on the other (`BinaryQuant.SimilarityIsSignAgreement`). Vectors of at most 8 coordinates are broadcast
  against the query instead of refused, mostly with a negative result (`BinaryQuant.NarrowSimilarityInRange`).
- Overlapping writes open the read barrier early, and each failed connection costs a permit for good
  (`ReadCoordination.OverlapLetsReadersThrough`, `ReadCoordination.ReadsGetThroughIffPermitsLeft`).
- A cancelled probe leaves no report and uses up its place, so under every configuration cancellations can wedge
  a half-open breaker; it leaves that mode exactly when the other probes decide (`CircuitBreaker.LeavesIffReportsDecide`).
- With overlapping calls, reports of calls admitted before the breaker opened count as probes: they alone can close
  a half-open breaker (`OverlappingCalls.LateReportsCloseIffEnough`).
- A working Python fallback keeps the Rust breaker closed for ever, a failing one keeps it open, only the first
  recovery takes two probes, and a recovered breaker opens at the first failure (`FfiBreaker.OpensIffFallbackFails`,
  `FfiBreaker.FailingFallbackPostponesRecovery`, `FfiBreaker.LaterRecoveriesTakeOneProbe`,
  `FfiBreaker.RecoveredOpensAtFirstFailure`).
- Refreshing a cached text of the semantic deduplication can evict other texts though it needs no room
  (`SemanticDedup.RefreshKeepsAllIffItFits`).
- The second cache layer is never given a slot, so it never keeps anything (`L2Store.KeepsIffItHasASlot`).
- The RAM ledger keeps the fractional parts of all grants for ever (`ResourceAllocation.IdleAcceptsIffAboveResidue`).
- `triage` does not look at the registry's own disabled flags (`Triage.RegistryFlagsAreIgnored`).

## Model

| member | source | states |
|---|---|---|
| HashChain.AcceptedIffLinked | tool_exec_log.py:499-513 | the replay reports nothing exactly when every event names its predecessor's hash and carries the hash of its own chained fields after it |
| HashChain.InputOfLoggedEvent | tool_exec_log.py:425 | the chain input of a logged event comes from no other head and from no event, colons or not, that renders differently |
| HashChain.ChainInputInjective | tool_exec_log.py:425 | the colon-joined chain input determines the head and the five chained fields, a missing error class included |
| HashChain.EqualHeadsEqualHistories | tool_exec_log.py:425-441 | an accepted list of logged events and any accepted rows with equal heads have equal length and look the same to the verifier up to there; rows of logged events have the same error classes as well |
| HashChain.TamperEvidence | tool_exec_log.py:464-520 | beside an accepted list of logged events any rows, whoever wrote them, are accepted with the same final hash if and only if they agree everywhere on event id, both content hashes, status, rendered error class, previous and own hash |
| HashChain.OnlyNoneIsAmbiguous | tool_exec_log.py:425 | of all error classes only the text "None" renders as a different one of a logged event, the missing one |
| HashChain.NoneTextGoesUnnoticed | tool_exec_log.py:505 | turning a missing error class into the text "None" is accepted with the same final hash |
| HashChain.AcceptedIffPrefix | tool_exec_log.py:464-513 | rows drawn from an accepted log in any order, with any loss or repetition, replay without error if and only if they are a prefix of it |
| HashChain.SortBySeqMeaning | tool_exec_log.py:484-499 | the sort keeps the rows as a multiset, orders them by number, and keeps rows with the same number in their order |
| HashChain.SortBySeqKeepsOrdered | tool_exec_log.py:484-499 | sorting rows that are in strict order changes nothing |
| WriteBehind.Conservation | tool_exec_log.py:317-377 | in every interleaving each offered record is stored, lost in a failed flush, in the batch, in the queue or refused, with multiplicity; the queue never exceeds 2000 and a waiting batch stays below 100 |
| WriteBehind.CleanShutdown | tool_exec_log.py:341-374 | when an uncancelled worker has stopped, queue and batch are empty and offered = stored + lost + overflow |
| WriteBehind.InOrderIffNotRepeated | tool_exec_log.py:331-374 | stored rows, batch and queue are a subsequence of the offered records in order, unless the steps hold a cancellation of a flush that took effect, followed by a successful final flush; and exactly then |
| WriteBehind.StoredTwiceIffRepeated | tool_exec_log.py:352-374 | a row was stored twice if and only if the steps hold such a cancellation and final flush |
| WriteBehind.UncancelledRunKeepsOrder | tool_exec_log.py:331-374 | without cancellation the order of offering is kept through queue, batch and database |
| WriteBehind.OverflowOnlyWhenFull | tool_exec_log.py:442-460 | in every run the items offered are those of the offers made while the log was open and a worker was there, and those refused are exactly the ones that came while 2000 were queued |
| WriteBehind.StoredAndLost | tool_exec_log.py:352-374 | the database grows exactly when an insert ends well on an open connection, by the batch at hand; what is lost grows exactly when an insert ends otherwise |
| WriteBehind.NothingStored | tool_exec_log.py:321-360 | in a run without an open connection, or in which every insert fails, nothing is ever stored |
| WriteBehind.WorkerCatchesUp | tool_exec_log.py:333-361 | a waiting worker with an open connection can get all of its batch and queue into the database, in order, by its own turns and flushes alone |
| WriteBehind.SignalledTurnIsTheLast | tool_exec_log.py:341-374 | a worker that was told to stop takes everything into its next flush, after which it has stopped |
| WriteBehind.FirstCloseDecides | tool_exec_log.py:538-574 | the log is closed from its first close on, and the worker is told to stop if and only if that was aclose or an eager close |
| WriteBehind.CancelledFlushStoresTwice | tool_exec_log.py:352-373 | a concrete run in which a cancelled flush stores its row twice |
| WriteBehind.SyncCloseSignalsIffEager | tool_exec_log.py:538-574 | after the synchronous close in a running loop, whatever follows, the shutdown signal is given if and only if it was before, or the log was open and tasks start eagerly |
| WriteBehind.UnsignalledWorkerGoesOn | tool_exec_log.py:333-351 | after such a close with lazy tasks a running worker that was not told to stop never stops, unless it is cancelled |
| WriteBehind.Pipeline.PutNowait | tool_exec_log.py:442-460 | the record joins the queue of a running worker, or a full queue counts it as overflow |
| WriteBehind.Pipeline.StartTask | tool_exec_log.py:293-315 | a worker task is started unless one is running |
| WriteBehind.Pipeline.Turn | tool_exec_log.py:333-351 | one turn of the worker: take an item, then drain on shutdown, flush a full or overdue batch, or go round |
| WriteBehind.Pipeline.Drain | tool_exec_log.py:342-347 | the whole queue moves to the end of the batch in order |
| WriteBehind.Pipeline.FlushEnds | tool_exec_log.py:352-374 | the batch is stored, or lost when the insert failed or there is no connection |
| WriteBehind.Pipeline.Shutdown | tool_exec_log.py:538-543 | the first close sets both flags, a later one nothing |
| WriteBehind.Pipeline.CloseInLoop | tool_exec_log.py:560-574 | an eager task closes the log and gives the signal first, a lazy one finds it closed; then the closed flag is set |
| WriteBehind.Pipeline.CancelTask | tool_exec_log.py:362-374 | a cancelled worker goes to its final flush with its batch, even if the pending insert was applied |
| ToolLog.MadeEventsAreWellFormed | tool_exec_log.py:415-440 | `log()` only makes events whose chained fields are colon free and bounded |
| ToolLog.BoundedErrorClass | tool_exec_log.py:278-283 | error classes are bounded and missing exactly for a missing error |
| ToolLog.MadeEventTells | tool_exec_log.py:415-440 | an event tells its call: number and nonce in the identifier, the hash of the input, the hash of the first 1 MiB of the output (empty texts for empty contents), a listed status or "error", a listed error class, "Unknown" or none |
| ToolLog.TwoEventsTell | tool_exec_log.py:417-420 | two events have the same input hash if and only if the inputs are equal, and the same output hash if and only if the outputs agree on their first 1 MiB |
| ToolLog.ChainedRun | tool_exec_log.py:422-461 | after any run the numbers, the head and the RAM ring of 100 follow from the events logged, which are linked from genesis |
| ToolLog.StoredWasLogged | tool_exec_log.py:442-460 | the database only ever holds logged events |
| ToolLog.VerifiesIffPrefix | tool_exec_log.py:464-513 | after any run with any loss, replaying the stored rows reports no error if and only if they are a prefix of the logged sequence |
| ToolLog.RowsUpToHeadIffSameChain | tool_exec_log.py:464-520 | after any run, whatever rows are put in its place replay without error up to the head of the log if and only if they are as many as were logged and look the same to the verifier |
| ToolLog.RowsUpToHeadTellTheCalls | tool_exec_log.py:464-520 | rows that replay without error up to the head of the log are exactly as many as the calls taken in the run, and the i-th row tells the i-th call |
| ToolLog.OfferedWhileWorking | tool_exec_log.py:442-460 | the events offered to the worker are exactly those made in a persistent log while a worker was there, in order |
| ToolLog.MemoryOnlyHasNoWorker | tool_exec_log.py:285-315 | a silent or memory-only log never has a worker and never offers or stores anything |
| ToolLog.StoredInOrder | tool_exec_log.py:331-374 | stored rows, batch and queue have strictly increasing numbers exactly when nothing was stored twice, and then sorting changes nothing |
| ToolLog.NoneUnlisted | tool_exec_log.py:495-498 | no RAM event has a number outside the set of the RAM numbers, so none is added |
| ToolLog.ToolExecLog.Log | tool_exec_log.py:379-462 | refusal when closed, nothing when silent, otherwise the new event, chain head, ring and offer |
| ToolLog.ToolExecLog.Initialize | tool_exec_log.py:285-315 | no worker for a silent or memory-only log |
| ToolLog.ToolExecLog.VerifyAll | tool_exec_log.py:464-520 | the report on any rows: exactly the replay errors of the sorted rows, count, head and first number |
| ToolLog.ToolExecLog.Replay | tool_exec_log.py:500-513 | the loop collects exactly the errors of the recursive replay |
| Lru.Inclusion | _core/inference_coordinator.py:689-719 | on the same operations the key order of a smaller pool is a subsequence of a larger one's with the same values, and the larger has at least as many hits |
| Lru.RecencyMeaning | _core/inference_coordinator.py:550-567 | the recency list holds each touched key once, ordered by last touch |
| Lru.HoldsTheMostRecent | _core/inference_coordinator.py:550-567 | after any history the keys are exactly the last at most `cap` distinct touched keys in order of last touch, each with its latest put |
| Lru.RunValid | _core/inference_coordinator.py:699-719 | order and dictionary always hold the same keys, at most `cap` of them |
| InferenceCache.ModelPool.Get | _core/inference_coordinator.py:689-697 | the cached pair and its renewal, or a counted miss that changes no order |
| InferenceCache.ModelPool.Put | _core/inference_coordinator.py:699-719 | update in place or insertion after evictions, with the evictions counted |
| InferenceCache.ModelPool.MakeRoom | _core/inference_coordinator.py:714-715 | the oldest entries go until there is room for one |
| InferenceCache.ModelPool.EvictLru | _core/inference_coordinator.py:765-773 | exactly the oldest entry goes |
| InferenceCache.ModelPool.Clear | _core/inference_coordinator.py:726-733 | empties the pool and returns how many entries there were |
| InferenceCache.InferenceCoordinator.CacheGet | _core/inference_coordinator.py:550-556 | a hit returns the stored response and renews the key |
| InferenceCache.InferenceCoordinator.CachePut | _core/inference_coordinator.py:558-567 | update or insertion within 32 entries, the oldest going first |
| InferenceCache.InferenceCoordinator.Generate | _core/inference_coordinator.py:500-528 | the stored response on a hit, otherwise the backend's answer, stored only when it succeeded |
| InferenceCache.StoredIsAnAnswer | _core/inference_coordinator.py:508-520 | what any interleaving of calls leaves under a key is a backend answer to some request with that key |
| InferenceCache.TransparentIffKeyDecides | _core/inference_coordinator.py:500-548 | the cache is invisible in every interleaving if and only if requests with the key of an answered one have its answer |
| InferenceCache.KeyIsTheQuestion | _core/inference_coordinator.py:530-537 | with an injective fingerprint two requests share a key exactly when they agree on prompt, temperature, max_tokens and thinking |
| InferenceCache.StoredAnswersTheQuestion | _core/inference_coordinator.py:500-537 | what a run leaves under a request's key is an answer to a request that agrees with it on those four fields |
| InferenceCache.TransparentIffQuestionDecides | _core/inference_coordinator.py:500-548 | with an injective fingerprint the cache is invisible if and only if a successful answer depends on those four fields alone |
| InferenceCache.UnkeyedFieldsBreakTransparency | _core/inference_coordinator.py:537 | a backend that looks at the system message, the adapter, the backend name, the logits processors or the prompt tokens is not served transparently by any fingerprint |
| Dedup.Deduplicate | embedding_pipeline.py:777-785 | the loop returns the first item of each key in order, and for each item the place of its key's first item |
| Dedup.FirstsMeaning | embedding_pipeline.py:780-785 | the first positions are increasing and are exactly the positions of new keys |
| EmbeddingPipeline.DeduplicateTexts | embedding_pipeline.py:772-797 | unique texts and map by hash, or the texts themselves when nothing repeats |
| EmbeddingPipeline.RestoreEmbeddings | embedding_pipeline.py:824-831 | row i is the row its map points to |
| EmbeddingPipeline.EmbedEnglishBatch | embedding_pipeline.py:834-882 | row i is the fitted embedding of the first text with the hash of text i, or zero when the model is unavailable |
| EmbeddingPipeline.EmbedMultilingualBatch | embedding_pipeline.py:585-634 | row i is the multilingual embedding of text i, or zero |
| EmbeddingPipeline.RoutedMeaning | embedding_pipeline.py:686-709 | the two index lists are increasing and partition the positions by language |
| EmbeddingPipeline.Split | embedding_pipeline.py:691-709 | the routing loop builds exactly these lists |
| EmbeddingPipeline.Scatter | embedding_pipeline.py:747-750 | each row lands on its position and no other position changes |
| EmbeddingPipeline.EmbedBoth | embedding_pipeline.py:726-765 | the parallel and the sequential branch give the same rows |
| EmbeddingPipeline.GenerateEmbeddings | embedding_pipeline.py:644-769 | all rows of the batch, in every branch, are given by the row function |
| EmbeddingPipeline.RepresentativeOfBatch | embedding_pipeline.py:693-709 | first in the English batch is first among the English texts of the input |
| EmbeddingPipeline.FitIsFitted | embedding_pipeline.py:812-821 | a fitted row has 256 entries: the first coordinates of the vector, and zeros beyond its end |
| EmbeddingPipeline.RowMeaning | embedding_pipeline.py:644-769 | every row for any hash: zero at rest or without the model for its language; the multilingual row of a foreign text; otherwise the fitted English row of the first text with its hash that is not foreign, undecidable texts counting as English |
| EmbeddingPipeline.BatchRefinesPerText | embedding_pipeline.py:644-769 | with working models the batch equals embedding each text alone for every English embedder exactly when the hash does not collide on the English texts |
| EmbedStream.Stream | embedding_pipeline.py:1416-1441 | the accumulated batches yield each item whose batch the guard lets through, in order |
| EmbedStream.StreamChunks | embedding_pipeline.py:1630-1651 | the chunks laid end to end, the error for a zero step, and nothing for a negative one |
| EmbedStream.Chunks | embedding_pipeline.py:1642-1651 | the chunk loop for a positive step emits the same items |
| EmbedStream.EncodeBatch | embedding_pipeline.py:1591-1606 | a batch gives all its items in order or none, with zero rows when the encoder fails |
| EmbedStream.StreamsAgree | embedding_pipeline.py:1386-1654 | item stream and chunk stream agree, whatever the guard skips and wherever the encoder fails, exactly when the batch size is positive |
| EmbedStream.StreamedItemMeaning | embedding_pipeline.py:1416-1441 | text i is in the stream if and only if the guard lets its batch (of at most 16) through, with a zero row when the encoder fails and its fitted embedding otherwise |
| Common.DecimalReadsBack | embedding_pipeline.py:1433 | the identifier of an item reads back as its position, so different items have different identifiers |
| BinaryQuant.UnpackPack | embedding_pipeline.py:1773-1789 | unpacking a packed bit string gives it back |
| BinaryQuant.PackUnpack | embedding_pipeline.py:1892-1902 | packing an unpacked byte string gives it back |
| BinaryQuant.PackedByteIsBigEndian | embedding_pipeline.py:1783-1787 | a packed byte is the number with its eight bits, the first the most significant |
| BinaryQuant.BinaryQuantize | embedding_pipeline.py:1749-1789 | a batch packs to the concatenation of its rows' packed signs, zero in the padding |
| BinaryQuant.OrColumn | embedding_pipeline.py:1786-1787 | one pass adds one bit to every byte of every row |
| BinaryQuant.PartialBits | embedding_pipeline.py:1783-1787 | after n passes a byte has its first n bits from the signs and zeros elsewhere |
| BinaryQuant.UnpackBinary | embedding_pipeline.py:1879-1902 | bit k of the result is bit k of the packed bytes, most significant first; one byte is repeated to the number of bytes asked for, any other mismatch is refused |
| BinaryQuant.QuantizeSingle | embedding_pipeline.py:1792-1835 | the packed query bits: zeros for a missing vector, otherwise the vector cut or padded to 256 |
| BinaryQuant.XorCountsDifferences | embedding_pipeline.py:1974-1984 | the population count of the exclusive-or is the number of unpacked bits that differ |
| BinaryQuant.XorPopcount | embedding_pipeline.py:1975-1984 | the bit-by-bit count summed over the bytes is that population count |
| BinaryQuant.SimilarityCountsSigns | embedding_pipeline.py:1804-1990 | for any two vectors: which lengths are compared, and the similarity as one minus the number of 256 positions with different signs, paddings and missing queries included |
| BinaryQuant.BatchHamming | embedding_pipeline.py:1929-1990 | each score is one minus the number of differing bits over the bits of the candidate, a one-byte candidate being broadcast; other widths than 1 and 32 bytes are refused |
| BinaryQuant.SimilarityIsSignAgreement | embedding_pipeline.py:1815-1835 | for vectors that fill 32 bytes each missing coordinate counts as a difference; so the similarity is one minus the fraction of coordinates with differing signs if and only if there are 256 of them or all differ |
| BinaryQuant.NarrowSimilarityInRange | embedding_pipeline.py:1965-1988 | for one-byte vectors the promised range from 0 to 1 is kept if and only if there are 8 coordinates and the candidate has none below zero |
| ReadCoordination.ActiveReadsMeaning | _core/duckdb_pool.py:139-207 | in every interleaving free permits plus reads in flight equal the limit, and the reader count is current-version reads minus older ones released since the last completed write, within plus and minus the limit |
| ReadCoordination.VersionCountsCompletions | _core/duckdb_pool.py:195-207 | the version is the number of completed writes |
| ReadCoordination.StaleIffWriteCompleted | _core/duckdb_pool.py:246-250 | a handle is stale exactly when a write completed after its snapshot |
| ReadCoordination.ReadsDuringWriteCameBefore | _core/duckdb_pool.py:154-193 | while writes do not overlap, a read that runs during a write was let through the barrier before that very write started |
| ReadCoordination.OverlapLetsReadersThrough | _core/duckdb_pool.py:154-207 | in every reachable state with fewer failed connections than permits: without further overlap a read can come to run during a write it was not let through before, if and only if an overlapping start has taken effect and some write has been in progress since |
| ReadCoordination.LeaksWedgeAllReads | _core/duckdb_pool.py:164-176 | once as many connections failed as there are permits, no read obtains a permit in any continuation |
| ReadCoordination.ReadsGetThroughIffPermitsLeft | _core/duckdb_pool.py:154-193 | in every reachable state a new reader can come to read if and only if fewer connections failed than there are permits |
| ReadCoordination.WaitersGetThroughIffPermitsLeft | _core/duckdb_pool.py:154-207 | in every reachable state a reader that waits behind the barrier or for a permit can come to read if and only if fewer connections failed than there are permits |
| ReadCoordination.WaitersWaitForABarrier | _core/duckdb_pool.py:154-207 | in every reachable state a waiting reader implies that the barrier is down |
| ReadCoordination.FailuresCostPermits | _core/duckdb_pool.py:805-820 | each connection that failed in a run holds a permit for good |
| ReadCoordination.ReadCoordinator.BeginRead | _core/duckdb_pool.py:154-159 | a reader waits exactly when the barrier is down |
| ReadCoordination.ReadCoordinator.Acquire | _core/duckdb_pool.py:161-164 | a permit goes to a reader that passed the barrier |
| ReadCoordination.ReadCoordinator.CountRead | _core/duckdb_pool.py:166-168 | the reader is counted and sees the current version |
| ReadCoordination.ReadCoordinator.DiscountRead | _core/duckdb_pool.py:178-181 | the count goes down whatever version the reader has |
| ReadCoordination.ReadCoordinator.Release | _core/duckdb_pool.py:182 | the permit comes back |
| ReadCoordination.ReadCoordinator.BeginWrite | _core/duckdb_pool.py:184-193 | the barrier goes down |
| ReadCoordination.ReadCoordinator.CompleteWrite | _core/duckdb_pool.py:195-207 | the version advances, the count is zeroed and all waiting readers go on |
| CircuitBreaker.RecoversIffEnoughProbes | _core/circuit_breaker_service.py:157-251 | with every admitted call reporting, a half-open breaker leaves that mode within `half_open_max_calls` calls if and only if that number is at least 1 and at least the success threshold |
| CircuitBreaker.HalfOpenIsProbing | _core/circuit_breaker_service.py:216-251 | in reporting sequential use every half-open state has one counted success per admitted call |
| CircuitBreaker.LeavesInTime | _core/circuit_breaker_service.py:233-251 | from any such state the remaining admitted calls suffice to leave |
| CircuitBreaker.TooFewProbesWedge | _core/circuit_breaker_service.py:245-251 | otherwise a run of successes leaves the breaker half-open and refusing for ever |
| CircuitBreaker.WedgedForEver | _core/circuit_breaker_service.py:245-249 | a breaker that used up its probes never changes again and admits nothing at any time |
| CircuitBreaker.ShippedConfigsRecover | _core/circuit_breaker_service.py:371-382 | the default and the four shipped configurations recover |
| CircuitBreaker.LeavesIffReportsDecide | _core/circuit_breaker_service.py:343-364 | under every configuration and for every list of calls the breaker leaves the half-open mode if and only if, among the first half_open_max_calls calls, one raises or enough return; otherwise it is wedged once its places are used up |
| CircuitBreaker.CancelledProbesWedge | _core/circuit_breaker_service.py:343-364 | so many cancelled probes wedge the breaker with any configuration |
| CircuitBreaker.OpensAtThreshold | _core/circuit_breaker_service.py:173-191 | through any list of calls a fresh breaker stays closed exactly as long as no failure completes a streak of failure_threshold, cancelled calls aside, and counts the current streak |
| CircuitBreaker.OpenedRefusesUntilRecovery | _core/circuit_breaker_service.py:197-251 | after a call that opens the breaker no call that starts within the recovery time of its report is admitted or changes anything, however many there are; the next is admitted exactly when it starts later |
| OverlappingCalls.OneByOneIsSequential | _core/circuit_breaker_service.py:343-364 | calls made one after the other in the interleaved model do what sequential use does |
| OverlappingCalls.ProbesAreBounded | _core/circuit_breaker_service.py:233-251 | in every interleaving a half-open breaker counts exactly the probes it let through since it became half-open, at most half_open_max_calls |
| OverlappingCalls.StuckIff | _core/circuit_breaker_service.py:233-251 | a breaker can never leave the half-open mode if and only if it is half-open with its probes used up and no admitted call running |
| OverlappingCalls.NeverStuckIffCanRecover | _core/circuit_breaker_service.py:343-353 | as long as every admitted call reports, no interleaving gets the breaker stuck, whatever late calls there are, if and only if half_open_max_calls is at least 1 and at least the success threshold |
| OverlappingCalls.StaysHalfOpenIffUndecided | _core/circuit_breaker_service.py:157-191 | in every interleaving the breaker stays half-open if and only if no running call raises and too few return, late ones included |
| OverlappingCalls.LateReportsCloseIffEnough | _core/circuit_breaker_service.py:343-353 | late reports close a half-open breaker without any probe if and only if at least max(1, success_threshold) late calls are running |
| OverlappingCalls.OpensOnAFailure | _core/circuit_breaker_service.py:173-191 | only the failure report of a running call opens the breaker, and the recovery time runs from it |
| OverlappingCalls.LateReportsKeepTheRecoveryTime | _core/circuit_breaker_service.py:173-207 | in every interleaving, late failures included, an open breaker admits nothing until the recovery time since the opening report is over, and then the next request |
| CircuitBreaker.Breaker.CurrentMode | _core/circuit_breaker_service.py:140-147 | reading the state starts the probes when the recovery time is over |
| CircuitBreaker.Breaker.AllowRequest | _core/circuit_breaker_service.py:233-251 | admission and its effect on the probe count |
| CircuitBreaker.Breaker.RecordSuccess | _core/circuit_breaker_service.py:157-171 | closes at the success threshold, or resets the failures of a closed breaker |
| CircuitBreaker.Breaker.RecordFailure | _core/circuit_breaker_service.py:173-191 | reopens a half-open breaker, opens a closed one at the threshold |
| CircuitBreaker.Breaker.Guarded | _core/circuit_breaker_service.py:343-364 | one call through the decorator, refused or run and reported |
| FfiBreaker.OpensIffThreeReportsFail | _core/ffi_circuit_breaker.py:315-335 | a fresh breaker stays closed exactly when the reports of Rust and Python together hold no three failures in a row |
| FfiBreaker.OpensIffFallbackFails | _core/ffi_circuit_breaker.py:488-522 | with Rust always failing the breaker ever opens if and only if the Python fallback does not work |
| FfiBreaker.ClosesAtOnceIffProbedBefore | _core/ffi_circuit_breaker.py:302-335 | in every run of a fresh breaker, a half-open breaker closes on its next success if and only if some earlier probe of the run succeeded |
| FfiBreaker.LaterRecoveriesTakeOneProbe | _core/ffi_circuit_breaker.py:315-343 | after one recovery every later one takes a single probe |
| FfiBreaker.RecoveredOpensAtFirstFailure | _core/ffi_circuit_breaker.py:315-335 | in every run, after a recovery the first Rust failure opens the breaker again, and only a first Rust success restores the threshold |
| FfiBreaker.FailingFallbackPostponesRecovery | _core/ffi_circuit_breaker.py:302-335 | from an open breaker on, Rust is never tried if and only if each call starts within the recovery time of the last failing fallback before it |
| FfiBreaker.OpenUntilThirtySeconds | _core/ffi_circuit_breaker.py:302-335 | in every run an open breaker lets Rust be tried exactly from 30 seconds after the last reported failure on, and another one always |
| FfiBreaker.SomebodyAnswers | _core/ffi_circuit_breaker.py:473-539 | Rust answers exactly when it is tried and works; a call fails exactly when Rust did not answer and there is no fallback or both fail |
| FfiBreaker.ModuleBreaker.IsOpen | _core/ffi_circuit_breaker.py:302-313 | open until the recovery time is over, then half-open |
| FfiBreaker.ModuleBreaker.RecordSuccess | _core/ffi_circuit_breaker.py:315-323 | counts towards closing when half-open, resets the failures when closed |
| FfiBreaker.ModuleBreaker.RecordFailure | _core/ffi_circuit_breaker.py:325-335 | reopens when half-open, opens at three failures when closed, and always restarts the recovery time |
| FfiBreaker.ModuleBreaker.CallOrFallback | _core/ffi_circuit_breaker.py:473-539 | which of Rust, Python and no-op answers, and what is reported |
| TelemetryRing.TelemetryRingBuffer.Append | _core/ffi_circuit_breaker.py:177-182 | the event becomes the newest, the oldest being overwritten when full |
| TelemetryRing.TelemetryRingBuffer.GetRecent | _core/ffi_circuit_breaker.py:192-205 | exactly the last min(n, size) appended events in append order, through wraparound |
| TelemetryRing.TelemetryRingBuffer.Clear | _core/ffi_circuit_breaker.py:211-216 | empties the ring and keeps its capacity |
| L2Store.RunMeaning | _core/embedding_cache.py:149-179 | from any well-formed contents and over any run of set and evict_oldest: a key is there exactly when it was stored (or there at first) and not evicted since, with the vector last set; the keys are those that arrived, less the evicted from the front; mapped plus free slots stay the same number |
| L2Store.FirstInFirstOut | _core/embedding_cache.py:319-337 | with a slot, the layer holds the last inserted keys first in, first out, each with its latest vector, and always the last vector pushed out |
| L2Store.WithoutSlotsNothingIsStored | _core/embedding_cache.py:79-161 | with the free list as shipped nothing is ever stored |
| L2Store.KeepsIffItHasASlot | _core/embedding_cache.py:149-179 | what is pushed out is kept if and only if there is a slot |
| L2Store.WriteIsSet | _core/embedding_cache.py:154-165 | writing a key's own slot or the first free one keeps all slots disjoint and headed, and changes only that key's vector |
| L2Store.DropIsEvict | _core/embedding_cache.py:172-178 | dropping the first key and freeing its slot keeps the layout well formed and removes exactly that key |
| L2Store.Store.Get | _core/embedding_cache.py:131-147 | the vector last set under the key |
| L2Store.Store.Write | _core/embedding_cache.py:162-163 | slice assignment changes exactly the slice |
| L2Store.Store.Set | _core/embedding_cache.py:149-165 | overwrites in place or takes a free slot, and reports failure without one |
| L2Store.Store.EvictOldest | _core/embedding_cache.py:167-179 | the key inserted first goes and its slot becomes free |
| L2Store.Store.Spill | _core/embedding_cache.py:331-337 | set, and if there is no slot evict and set again |
| SemanticDedup.DeduplicateTexts | semantic_deduplicator.py:270-292 | unique texts in order of first occurrence, index map, and for each unique text the list of its positions |
| SemanticDedup.PositionsMeaning | semantic_deduplicator.py:284-290 | that list is increasing and holds exactly the positions with that text |
| SemanticDedup.SimilarTo | semantic_deduplicator.py:331-340 | one row of the report is exactly the set of similar first positions, itself excepted |
| SemanticDedup.CheckBatch | semantic_deduplicator.py:344-381 | the report for every text in all cases |
| SemanticDedup.ShortcutAgrees | semantic_deduplicator.py:366-370 | the single-text shortcut agrees with the general path exactly when the text is alone or similar to itself |
| SemanticDedup.ReportIsSymmetric | semantic_deduplicator.py:329-342 | the report is symmetric between first occurrences, and repeated texts are never listed |
| SemanticDedup.RepeatedTextReports | semantic_deduplicator.py:331-340 | a repeated text is reported what its first occurrence is, and that occurrence |
| SemanticDedup.AdditionIsBounded | semantic_deduplicator.py:184-200 | an addition ends within 512 entries and 256 MB, or with a single too large entry, the added text newest |
| SemanticDedup.NothingGoesWhileItFits | semantic_deduplicator.py:184-200 | with fewer than 512 entries that fit into 256 MB with the new one, an addition evicts nothing |
| SemanticDedup.CacheHoldsMostRecent | semantic_deduplicator.py:184-207 | after any history of additions and lookups the cached texts are the most recently touched ones in order of last touch, within the bounds, each with the embedding last added |
| SemanticDedup.KeptIsLongestThatFits | semantic_deduplicator.py:184-190 | eviction keeps the longest end of the order that fits beside the new text |
| SemanticDedup.RefreshKeepsAllIffItFits | semantic_deduplicator.py:192-200 | adding a cached text again evicts no other if and only if a further entry of its size would fit, or it was the oldest |
| SemanticDedup.RefreshOfFullCacheEvicts | semantic_deduplicator.py:184-200 | in a cache of 512 entries refreshing any text but the oldest evicts the oldest |
| SemanticDedup.RefreshCanEvict | semantic_deduplicator.py:184-200 | a concrete full cache in which refreshing the second text evicts the first |
| SemanticDedup.SemanticDedupCache.EvictIfNeeded | semantic_deduplicator.py:184-190 | the oldest entries go until the text fits, with the byte count exact |
| SemanticDedup.SemanticDedupCache.AddToCache | semantic_deduplicator.py:192-200 | order, values and exact byte count after an addition |
| SemanticDedup.SemanticDedupCache.GetFromCache | semantic_deduplicator.py:202-207 | the cached embedding, its text becoming the newest |
| PrefixScan.RangeScan | _core/lmdb_unified.py:450-472 | over an ordered store the scan from the prefix to the first mismatch returns exactly the matching pairs |
| PrefixScan.MatchingMeaning | _core/lmdb_unified.py:464-472 | the matching pairs are exactly the pairs of the store whose key begins with the prefix |
| PrefixScan.NoMatchAfter | _core/lmdb_unified.py:464-465 | past a key above the prefix that does not start with it no key starts with it |
| PrefixScan.FullScan | _core/lmdb_async.py:222-234 | the filter scan returns the first `limit` matching pairs, and one for a limit below 1 |
| ResourceAllocation.LedgerAccounts | resource_allocator.py:160-199 | in every reachable state at most three requests are active, active sum <= ledger <= cap, and the gap is the fractional parts of all grants (less than their number) plus what overwritten grants left |
| ResourceAllocation.FreshIdsGap | resource_allocator.py:174-191 | when ids are acquired only while inactive the gap is the fractional parts alone |
| ResourceAllocation.ResidueBound | resource_allocator.py:160-185 | the residue never reaches into the room of the smallest prediction |
| ResourceAllocation.IdleAcceptsIffAboveResidue | resource_allocator.py:160-191 | an idle allocator accepts exactly what fits above the residue, and what does not fit is never accepted again |
| ResourceAllocation.GrantedIffItFits | resource_allocator.py:160-185 | in every reachable state a request with a new id becomes active if and only if fewer than three are active and it fits beside active sum and residue within 5632 MB |
| ResourceAllocation.RoundsDrift | resource_allocator.py:180-191 | a concrete run after which nothing is active and only the smallest prediction still fits |
| ResourceAllocation.ResourceAllocator.Acquire | resource_allocator.py:174-185 | grant or refusal and its effect on ledger and requests |
| ResourceAllocation.ResourceAllocator.Release | resource_allocator.py:187-191 | the recorded whole megabytes come off the ledger, also on cancel |
| Triage.SortMeaning | _core/capability_cost.py:371-418 | the sort keeps the costs and orders them by tier, higher peaks first |
| Triage.SortIsStable | _core/capability_cost.py:418 | costs with the same tier and peak stay in the order of registration |
| Triage.PicksAreAFrontOfTheLadder | _core/capability_cost.py:410-428 | the picks are a duplicate-free front of the ordered candidates, none critical or already disabled |
| Triage.PicksAreEligible | _core/capability_cost.py:415 | nothing critical and nothing named as disabled is ever picked |
| Triage.HigherIsPickedEarlier | _core/capability_cost.py:355-428 | when a cost is picked, every eligible cost of a heavier tier, or of its tier with a higher peak, is picked earlier: heavy, medium, light, anything else |
| Triage.SavingsAdd | _core/capability_cost.py:421-455 | the savings of a list are the sum of its resident megabytes |
| Triage.MeetsTargetIffAllWould | _core/capability_cost.py:424-437 | with costs that are not negative the target is met if and only if all candidates together would meet it |
| Triage.LastPickIsNeeded | _core/capability_cost.py:424-428 | without the last pick the savings fall short |
| Triage.SmallerTargetPicksAPrefix | _core/capability_cost.py:424-428 | a smaller target picks a prefix of what a larger one picks |
| Triage.EveryCandidateCanBePicked | _core/capability_cost.py:410-428 | a cost is picked for some target if and only if it is registered, not critical and not named as disabled |
| Triage.RegistryFlagsAreIgnored | _core/capability_cost.py:410-416 | some target picks a capability the registry has disabled if and only if one of these is not critical and not named in the argument |
| Triage.TotalIsEstimate | _core/capability_cost.py:441-455 | the total of a decision is the estimate for its list |
| Triage.Decide | _core/capability_cost.py:384-439 | the decision for a target: order, total, remainder and whether the target is met |
| Triage.Filter | _core/capability_cost.py:415 | exactly the costs that are neither disabled nor critical, in order |
| Triage.Accumulate | _core/capability_cost.py:421-428 | the least front of the candidates that meets the target, or all of them |
| Triage.EstimateSavings | _core/capability_cost.py:441-455 | the sum of the savings looked up |
| Triage.Preview | _core/capability_cost.py:457-469 | name, savings and tier of each pick in order |
| Triage.Registry.Register | _core/capability_cost.py:179-187 | overwrites in place or appends |
| Triage.Registry.Disable | _core/capability_cost.py:214-217 | sets the flag and changes nothing else |
| Triage.Registry.Enable | _core/capability_cost.py:219-222 | clears the flag and changes nothing else |
| Triage.LookupFindsRegistered | _core/capability_cost.py:189-199 | looking up a cost by its name gives that cost if and only if it is registered, or is the light 128 MB default of an unknown name |

## Left out

- Correlation dictionaries and timestamps of tool events: they are stored beside the chain and do not enter it (the time stays a field, correlation does not).
- Restarting a log on an existing database: one log object per database file is modelled, because a second one restarts the sequence at 1.
- A partly failing database read in `verify_all`: the rows are whatever the read returned.
- SQLite's transaction inside one flush: an insert with its commit is one outcome, applied or not. (The shipped INSERT names a column the table does not have, so it always fails; the model lets it succeed or fail.)
- Fairness and wake-up order of the asyncio semaphore, and statistics counters of the coordinator.
- The read-only connection pool (`_DuckDBROPool`), the read-write pool, and connection health: a connection succeeds or fails.
- Lock objects and thread safety: methods under a lock are atomic steps.
- InferenceCache.ModelPool.Put: asks for a pool of at least one entry, because with size 0 the eviction loop of the original does not end.
- Backend selection, streaming generation and MLX cache clearing of the inference coordinator.
- Embedding numerics: embedders are functions of one text (so batch size and adaptive batching do not matter), vectors are sequences of reals, NaN does not occur.
- Rust fast paths of quantization and Hamming scores; the Python paths are modelled.
- BinaryQuant.BatchHamming: models the (N, bytes) count array that the sum over axis 1 needs; the shipped array has shape (N,), for which numpy refuses the in-place addition.
- Item identifiers of `generate_embeddings_from_iterator`, the adaptive streaming batcher, and single-text embedding.
- `get_by_module`, statistics and the BoundedRing base class of the telemetry ring; manual resets of the breakers; metrics and telemetry emission.
- Calls of several threads through the Rust breaker at once: `call_or_fallback` is synchronous, and one call ends before the next begins.
- `_python_simhash_compute` and the other predefined fallbacks: a fallback works or fails.
- The first layer of the embedding cache and its promotion of second-layer hits; opening, truncating and resizing the memory-mapped file. Well-formed slots are a parameter of the store's constructor, because the original never creates any.
- `check_and_cache`, the LMDB store and the ANN index of semantic deduplication; similarity is a function of two texts.
- Environment opening, writes, compaction and pressure handling of the LMDB stores; a store is an ordered sequence of pairs, and an unpositioned cursor has no key.
- Throttling by resident memory, the regression model and its history, and the adaptive semaphore of the resource allocator; predictions are reals of at least 100.
- Tags, tier listings and descriptions of capability costs; singletons and decorators.
