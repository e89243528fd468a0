# Tachyon: a model of the segmented downloader

Tachyon downloads a file in fragments. It plans a partition of the file, runs one worker per missing
fragment, writes what arrives through a storage backend that may write short, retries, and resumes
later from what it has reported complete. This project models that engine and the machinery around
it in Dafny, and proves what they promise.

| file | what it models |
|---|---|
| `Planner.dfy`, `FragmentAttempt.dfy`, `RetryPolicy.dfy` | the partition of the file, one attempt at one fragment, the retry loop and its waits |
| `Engine.dfy`, `Sessions.dfy`, `EngineProgress.dfy`, `EngineCompletes.dfy`, `RetryRuns.dfy`, `EngineEnds.dfy`, `Downloader.dfy` | all workers, the storage and the driver interleaved; what sessions of it achieve; that they neither block nor spin; that success is within reach; that every worker follows the retry loop; how sessions end; the `DownloadTask` object |
| `Blake3Tree.dfy` | the chaining-value stack of `blake3_tree_reduce` against the recursive tree |
| `Pipeline.dfy` | merging of batched writes |
| `RateLimiter.dfy` | the lock-free debt limiter |
| `Iocp.dfy`, `IocpAnswers.dfy`, `IocpStorage.dfy` | who owns an OVERLAPPED between writers, kernel, poller, registry and pool; that every write gets its answer; the storage object |
| `Connection.dfy`, `CircuitBreaker.dfy`, `BufferPool.dfy` | admission: connection permits, circuit breakers, write buffers |
| `HttpDate.dfy`, `AlignedWrite.dfy`, `Filename.dfy`, `FilenameDots.dfy`, `Text.dfy` | the day count behind `Retry-After`, aligned writes, file names and the dots in them, splitting and parsing |
| `Storage.dfy`, `Arithmetic.dfy` | byte-addressed storage with short writes; powers of two |

## How to read it

Concurrent code is a state machine: a `State`, an `Event` for every atomic step anyone can take, a
`Step`, and runs over arbitrary event sequences. Whatever a scheduler, a server, a disk or a clock
decides is in the event, so a statement about all event sequences is a statement about all
interleavings, short writes and failures. Objects of the source whose methods update fields are
classes; their methods are proved to be steps, or runs of steps, of the machine, or to compute the
function the statements are about. `Snapshot()` is a class's state as the machine sees it. Rows below that
begin with "Link" say that an object's method takes the machine's step, and carry the results about the
machine over to it; they are not results of their own.

The engine theorem supposes at least two fragments (downloader.rs:573-578) and that a resumed session
uses the fragment boundaries of the earlier ones; the code may choose other boundaries when the
scheduler's confidence changes (downloader.rs:484-494), and then a report of completed indices means
nothing. A fragment's stream is honest when the bytes it delivers for its range are those of the remote
file; it may stop early, run over, fail, or come in any pieces. Dishonest streams are allowed beside
honest ones and cannot damage them. A write that was cut off by an abort, a panic or a control signal
may still be carried out later, in part or in full.

## Where the code does less than it says

Each of these is proved with a concrete input and with the exact condition under which the code does
keep the promise.

- `blake3_tree_reduce` returns the BLAKE3 root exactly for chunk counts that are not powers of two
  (`Blake3Tree.TreeReduce`).
- The five-second clamp of the rate limiter lets a call return ahead of its rate exactly when the rate does
  not earn the call's total within the five seconds (`RateLimiter.ClampIsTheCondition`,
  `RateLimiter.ClampedCallOverdraws`).
- `update_rate` is documented to keep the limiting continuous, but turns the old rate's earnings into debt
  and drops the debt itself (`RateLimiter.UpdateIsContinuousIff`, `RateLimiter.IdleUpdateCharges`).
- A cleanup between a host lookup and its permit lets a host exceed its limit
  (`Connection.DetachedIff`, `Connection.HostLimitUnderCleanupIff`).
- A circuit breaker with threshold zero behaves as with threshold one
  (`CircuitBreakers.ConfiguredThresholdIff`).
- A prewarm that races a release, or an alloc that races a prewarm, makes a release drop its buffer
  (`BufferPools.RacingPrewarm`, `BufferPools.RacingAlloc`, `BufferPools.StaleCounter`, `BufferPools.CalmIff`,
  `BufferPools.NeverDiscardsIffNoCapacity`).
- A cancel guard knows its write by address only, and cancels a later write at the same address exactly when
  its own result has already been sent and the address is registered again (`Iocp.GuardHitsAnotherIff`,
  `Iocp.GuardCanHitAnotherWrite`).
- `Retry-After` with a date before 1970 asks for an enormous wait instead of none
  (`HttpDate.WaitIsPromisedIff`); the release profile has overflow checks off, so the sum wraps.
- `sanitize_filename` removes neither every `..` nor all dots in front and behind
  (`FilenameDots.DotsSurviveIff`, `Filename.DotsSurvive`).

## Model

| member | source | states |
|---|---|---|
| `FragmentAttempt.AttemptWritesWhatItReceives` | crates/tachyon-engine/src/downloader.rs:1056-1168 | However a stream is cut into chunks and however short the writes are, the disk after an attempt is the disk before it with a prefix of the delivered bytes at the range start; on success the prefix is everything delivered and as long as the range |
| `FragmentAttempt.AttemptStaysInRange` | crates/tachyon-engine/src/downloader.rs:1056-1144 | No attempt, whether it ends Ok, fails or is cut off in the middle of a write, changes a stored byte outside its own range, also when the stream overruns it |
| `FragmentAttempt.ChunkingIsInvisible` | crates/tachyon-engine/src/downloader.rs:1062-1144 | Two successful attempts that received the same bytes leave the same disk: chunk boundaries, the 256 KiB batching and short writes cannot be told apart |
| `FragmentAttempt.SucceedsIffExact` | crates/tachyon-engine/src/downloader.rs:1049-1144 | An attempt nothing interrupts succeeds if and only if its stream delivers exactly end - start + 1 bytes, and otherwise ends in an error worth a retry |
| `FragmentAttempt.FailureIsBlamed` | crates/tachyon-engine/src/downloader.rs:957-1144 | An attempt ends in any other error only if network, storage or control signal came up with it: stuck writes, overruns and short streams are always retried |
| `FragmentAttempt.BufferIsBounded` | crates/tachyon-engine/src/downloader.rs:1059-1120 | An attempt never holds 256 KiB while it reads, nor in its closing write |
| `FragmentAttempt.WritesAreGathered` | crates/tachyon-engine/src/downloader.rs:1067-1120 | What is handed to the storage is at least 256 KiB, except for the one write behind the end of the stream |
| `FragmentAttempt.WriteAllAt` | crates/tachyon-engine/src/downloader.rs:957-999 | The short-write loop terminates, leaves a prefix of the batch on the disk, and reports success only for the whole batch; its error is one from outside, or worth a retry |
| `FragmentAttempt.FlushBuffer` | crates/tachyon-engine/src/downloader.rs:1090-1144 | The overrun guard: a batch that would pass the end of the range is refused before any of it is written, and what is written continues the attempt exactly where it stood |
| `FragmentAttempt.ReadAndWrite` | crates/tachyon-engine/src/downloader.rs:1062-1144 | The read loop over any list of stream items is a run of the attempt machine that ends in the outcome returned |
| `FragmentAttempt.DownloadSingleFragment` | crates/tachyon-engine/src/downloader.rs:1007-1168 | Ok means that the whole stream was taken, is as long as the range, and is what the storage now holds there; an inverted range is an error that writes nothing |
| `RetryPolicy.JitteredBackoffInRange` | crates/tachyon-engine/src/downloader.rs:846-868 | The jitter keeps every backoff in [1, 2^min(attempt, 10)] seconds, for every fragment index and attempt; it is the power of two less the top bits of (index * 0x9E3779B97F4A7C15 + attempt) * 0x517cc1b727220a95 modulo 2^64, and the saturating subtraction never saturates |
| `RetryPolicy.ShiftDivides` | crates/tachyon-engine/src/downloader.rs:861-863 | A right shift by k is the quotient by 2^k |
| `RetryPolicy.BackoffAtMost1024` | crates/tachyon-engine/src/downloader.rs:846-868 | No wait, server-requested ones included, is longer than 1024 seconds |
| `RetryPolicy.WaitsAreDue` | crates/tachyon-engine/src/downloader.rs:786-868 | The wait behind a round is the one that is due: a second behind an open breaker, exactly the server's `Retry-After` up to 1024 seconds and 1024 beyond, whatever the fragment and the attempt, and else the jittered power of two |
| `RetryPolicy.TopBitsBelow` | crates/tachyon-engine/src/fragment.rs:168-182 | A 64-bit word shifted right by 64 - l is below 2^l: the bound the jitter rests on, for shifts of any width |
| `RetryPolicy.FragmentWorker` | crates/tachyon-engine/src/downloader.rs:775-883 | The retry loop makes an attempt in exactly the rounds the breaker lets through, at most max_retries + 1, sleeps behind each round it retries exactly as long as is due, stops early only on a success or a fatal error, and returns the outcome of its last round |
| `Planner.PlanFragments` | crates/tachyon-engine/src/orchestrator.rs:68-128 | For every u64 file size and every suggestion the fragments tile [0, file_size) with consecutive indices: one fragment without range support or for a zero size; else pieces of the suggested size, or of the computed one if there is no suggestion or it is zero; beyond a million pieces, of the least size of which a million reach the end. There are at most 1,000,001, and neither the index conversion nor the constructor assertions can fail |
| `Planner.CutIsUnique` | crates/tachyon-engine/src/orchestrator.rs:114-128 | Tiling and piece size leave one list of fragments only, so the contract of the planner determines its result |
| `Planner.EffectiveSizeReaches` | crates/tachyon-engine/src/orchestrator.rs:104-113 | The enlarged fragment size covers the file within the fragment limit |
| `Planner.TilesAreOrdered` | crates/tachyon-core/src/types.rs:171-189 | Fragments of a tiling never overlap: an earlier one ends before a later one starts |
| `Planner.TilesEndInside` | crates/tachyon-core/src/types.rs:171-189 | Every fragment of a tiling is non-empty, ends inside the file and has the size its bounds say |
| `Planner.TilesCover` | crates/tachyon-engine/src/orchestrator.rs:114-128 | Every offset of the file lies in some fragment |
| `Planner.TilesAddUp` | crates/tachyon-engine/src/orchestrator.rs:114-128 | The fragment sizes sum to the file size |
| `Engine.StepKeepsInv` | crates/tachyon-engine/src/downloader.rs:684-944 | Every step of every party (worker, breaker, semaphore, network, storage, a dropped write landing late, join, panic, abort, sync) keeps the engine invariant |
| `Sessions.EngineDownloadsTheFile` | crates/tachyon-engine/src/downloader.rs:684-944 | After any number of earlier sessions over the same fragments, a session that ends Ok leaves the remote file on the disk byte for byte, for every interleaving, every pattern of short writes, every retry, and every late write of an aborted task |
| `Sessions.CompletedMeansDownloaded` | crates/tachyon-engine/src/downloader.rs:886-944 | When the session ends Ok every record is Done, the downloaded counts sum to the file size, and every fragment served honestly holds the remote bytes, even beside fragments whose servers sent garbage |
| `Sessions.CheckpointStaysTruthful` | crates/tachyon-engine/src/downloader.rs:463-521 | However a session ends, each fragment it reported complete holds the remote bytes, and no write still in flight can take them away, so resuming from the report is sound |
| `Sessions.SessionsStayTruthful` | crates/tachyon-engine/src/downloader.rs:490-521 | The same over any sequence of sessions, each resumed from what the last one reported |
| `Sessions.RetriesAreBounded` | crates/tachyon-engine/src/downloader.rs:775-883 | In every run of the whole engine each worker has made at most max_retries + 1 download attempts and slept at most 1024 * max_retries seconds |
| `Sessions.NothingPastTheEnd` | crates/tachyon-engine/src/downloader.rs:684-999 | No run, successful or not, changes a byte at or behind the end of the file |
| `EngineProgress.OwnEventMoves` | crates/tachyon-engine/src/downloader.rs:775-944 | An event the engine can take without network or storage moves its worker and brings the measure of remaining work down |
| `EngineProgress.NeverStuck` | crates/tachyon-engine/src/downloader.rs:684-944 | While the driver runs, all workers are joined and the closing sync ends the session, or some worker has an event of the engine's own that brings the measure down, or some attempt waits for network or storage |
| `EngineProgress.QueuedWaitsForHolder` | crates/tachyon-engine/src/downloader.rs:790-800 | Waiting for the concurrency semaphore implies that some worker holds one of its permits |
| `EngineProgress.ProgressIsBounded` | crates/tachyon-engine/src/downloader.rs:684-944 | However everything is scheduled, a session takes at most eight turns for each round each worker may have and two for the driver: no livelock; only the bytes of an attempt under way are not counted |
| `EngineProgress.TurnsComeDown` | crates/tachyon-engine/src/downloader.rs:684-944 | Every event either leaves every worker and the driver in place or brings the measure down |
| `EngineCompletes.CanCompleteIff` | crates/tachyon-engine/src/downloader.rs:684-944 | From every truthful checkpoint, with any dropped writes still pending, some run completes if and only if the semaphore has a permit or nothing is left: the promises about completed sessions are not empty |
| `EngineCompletes.AnythingMayCome` | crates/tachyon-engine/src/downloader.rs:1062-1067 | A dishonest stream may deliver any bytes: the promises made beside dishonest streams are not empty either |
| `RetryRuns.RunsFollowTheLoop` | crates/tachyon-engine/src/downloader.rs:775-883 | In every run of the whole engine, whoever else does what in between, each worker stands where the retry loop stands after the rounds it has had: counters, sleep and outcome are the loop's. Behind a fatal error no worker sleeps or begins another round |
| `RetryRuns.ServersWaitIsKept` | crates/tachyon-engine/src/downloader.rs:846-883 | In every run a worker whose last attempt was refused with `Retry-After` sleeps exactly as long as the server asked, up to 1024 seconds |
| `RetryRuns.RetryLoopIsARun` | crates/tachyon-engine/src/downloader.rs:775-883 | Any rounds that are all retried are a run of the engine that leaves the worker with the retry loop's own counters |
| `RetryRuns.WholeLoopIsARun` | crates/tachyon-engine/src/downloader.rs:775-883 | So is the whole loop with its closing round, a success, a fatal error or the last round allowed: the worker exits with the loop's outcome and counters |
| `EngineEnds.FailureIsRecorded` | crates/tachyon-engine/src/downloader.rs:886-938 | While a session runs and when it ends well no record is Failed; when it is given up and no task panicked, exactly one is |
| `EngineEnds.RecordsMoveForward` | crates/tachyon-engine/src/downloader.rs:886-938 | In every step each record stays, or goes from Downloading to Done when its worker is joined with success, or to Failed when it is joined with an error |
| `EngineEnds.TransitionsInOrder` | crates/tachyon-engine/src/fragment.rs:50-150 | Starting and completing a record is accepted once each, in that order, and refused everywhere else, also after a failure |
| `EngineEnds.NothingRunsAfterTheEnd` | crates/tachyon-engine/src/downloader.rs:886-955 | In every run: when the driver is done, in whichever way, every task has been joined or aborted |
| `EngineEnds.GivenUpWritesMayLand` | crates/tachyon-engine/src/downloader.rs:957-999 | A write cut off by a control signal, a panic or an abort may still be carried out in any part, and its task's permit is back |
| `Downloader.DownloadTask.Plan` | crates/tachyon-engine/src/downloader.rs:490-521 | Marking resumed fragments Done never makes an illegal transition, ignores unknown and repeated indices, and leaves all others Pending |
| `Downloader.DownloadTask.SpawnWorkers` | crates/tachyon-engine/src/downloader.rs:684-784 | Spawning leaves exactly the initial state the engine theorems start from |
| `Downloader.DownloadTask.JoinNext` | crates/tachyon-engine/src/downloader.rs:886-938 | Link: one turn of the join loop is the join step of the engine machine; Ok completes the record, an error fails it, a panicked task is found, and the last two start the drain |
| `Downloader.DownloadTask.AbortRemaining` | crates/tachyon-engine/src/downloader.rs:946-955 | Aborting reaches the failed state with no task left running, by steps of the engine machine, so an aborted run is covered by the theorems above |
| `Blake3Tree.TreeReduce` | crates/tachyon-crypto/src/gpu.rs:524-592 | The reduction returns the recursive BLAKE3 root (left subtree = largest power of two below n, section 2.1 of the BLAKE3 paper) if and only if the number of chunks, two or more, is not a power of two; for powers of two it returns the complete tree compressed once more with zero words |
| `Blake3Tree.PushChunk` | crates/tachyon-crypto/src/gpu.rs:546-560 | The carry loop turns the canonical stack of k chunks into that of k + 1 and never pops an empty stack |
| `Blake3Tree.FoldCompletesTree` | crates/tachyon-crypto/src/gpu.rs:562-570 | Merging the stack from the right gives the recursive tree, and there is nothing to merge exactly for powers of two |
| `Blake3Tree.TopOfStack` | crates/tachyon-crypto/src/gpu.rs:546-560 | The stack mirrors the binary digits of the chunk count: its top is the perfect subtree of the lowest digit, and below it lies the stack of the chunks before (section 5.1.2 of the BLAKE3 paper) |
| `Blake3Tree.CounterBits` | crates/tachyon-crypto/src/gpu.rs:550-557 | The halved counter of the carry loop tells the lowest set bit of the chunk count |
| `Blake3Tree.SubtreeOfTwins` | crates/tachyon-crypto/src/gpu.rs:552-556 | Two perfect subtrees of equal size merge into the perfect subtree of twice the size |
| `Blake3Tree.FallbackIsNotTheRoot` | crates/tachyon-crypto/src/gpu.rs:572-592 | The fallback compression of a complete subtree is never the BLAKE3 root of the same chunks |
| `Pipeline.PlanBatches` | crates/tachyon-io/src/pipeline.rs:166-208 | For any segments, overlapping, empty or unordered, and any threshold, the merged batches leave the same storage as the segments one by one in sorted order, on every storage; they carry as many bytes and are no more; and they are exactly the groups of touching segments that the threshold leaves together |
| `Pipeline.TouchingBatches` | crates/tachyon-io/src/pipeline.rs:166-208 | Everything that may be merged is: two neighbouring batches touch only where the first has reached the threshold |
| `Pipeline.LongBatchesStayBelow` | crates/tachyon-io/src/pipeline.rs:186-194 | And nothing more: a batch of three or more segments is below the threshold without its last one |
| `Pipeline.GaplessRunIsOneBatch` | crates/tachyon-io/src/pipeline.rs:100-114 | Segments without gaps that stay below the threshold together are a single write |
| `Pipeline.EmptyBatchIff` | crates/tachyon-io/src/pipeline.rs:186-202 | A batch without data is written exactly where a batch that was flushed at the threshold is followed by a gap |
| `Pipeline.OrderIsInvisible` | crates/tachyon-io/src/pipeline.rs:115-155 | Pairwise disjoint segments leave the same storage in every order, so sorting them is harmless |
| `Pipeline.WriteBatch` | crates/tachyon-io/src/pipeline.rs:115-155 | The storage holds exactly what was persisted of each merged batch, in order, and the returned total is the sum of just that; it is the sum of all segment lengths if and only if no write was short, and then the storage is that of the sorted segments, and of the caller's order when they are disjoint; it never asks for more permits than exist |
| `Pipeline.SumIsFullIff` | crates/tachyon-io/src/pipeline.rs:144-152 | Counts of persisted bytes add up to all the bytes exactly when each batch was written in full |
| `Pipeline.SortIndices` | crates/tachyon-io/src/pipeline.rs:115-135 | The write order is the offset order and a permutation of the segments |
| `Pipeline.PermitsCanBeGranted` | crates/tachyon-io/src/pipeline.rs:136-143 | The permits a batch write asks for can be granted exactly when the pipeline has any; below 2^32 they are one for each batch, or all there are |
| `Pipeline.CoveredByte` | crates/tachyon-io/src/pipeline.rs:166-208 | An offset covered by one segment only gets that segment's byte, wherever the segment stands in the order |
| `RateLimiter.FixedRateBound` | crates/tachyon-core/src/rate_limit.rs:50-84 | In every interleaving of calls at one rate, if each returned call was within its means (rate times the time since the baseline plus five seconds covers its total) when it decided how long to wait, the bytes of all calls returned by time T are at most rate * (T + 1 s + 1 ns), in exact integers |
| `RateLimiter.NoBurstAfterUpdate` | crates/tachyon-core/src/rate_limit.rs:69-112 | After any update to a non-zero rate, at any time and whatever came before, the calls that start later get at most rate * (T - t_update + 1 ns): the initial one-second burst never reopens |
| `RateLimiter.StepKeepsInv` | crates/tachyon-core/src/rate_limit.rs:63-112 | Every step of every call keeps the calls' totals in disjoint intervals of the debt counter, and each returned call within the rate's budget |
| `RateLimiter.WaitPaysOff` | crates/tachyon-core/src/rate_limit.rs:74-84 | The truncating divisions of allowance and wait together cost less than a nanosecond |
| `RateLimiter.WaitIsNotLonger` | crates/tachyon-core/src/rate_limit.rs:74-84 | The converse: a call within its budget does not wait, and any other waits until the rate has earned less than one byte beyond its total |
| `RateLimiter.ClampIsTheCondition` | crates/tachyon-core/src/rate_limit.rs:71-83 | When its wait is over, clamped or not, a call is within the rate's budget if and only if it was within its means when it decided: an exact condition on the counter, the rate and the clock before the wait |
| `RateLimiter.CutWaitOverdraws` | crates/tachyon-core/src/rate_limit.rs:77-83 | What the clamp costs in bytes: a full wait above five seconds overdraws the budget, up to one byte of rounding |
| `RateLimiter.FreeIff` | crates/tachyon-core/src/rate_limit.rs:63-67 | In every reachable state a call of the current rate is free of any wait if and only if the rate is zero or it asks for nothing |
| `RateLimiter.NoLimitNoWait` | crates/tachyon-core/src/rate_limit.rs:90-95 | After any history, an update to zero frees every call that starts before the next update |
| `RateLimiter.EveryCallReturns` | crates/tachyon-core/src/rate_limit.rs:63-84 | From every reachable state a call's own remaining steps and five seconds are enough for it to return |
| `RateLimiter.FirstCallAfterUpdate` | crates/tachyon-core/src/rate_limit.rs:90-112 | The first call after an update owes what the old rate had earned as well as its own bytes; unless the clamp cuts its wait short it waits until the new rate has earned both since the update, and no longer |
| `RateLimiter.UpdateIsContinuousIff` | crates/tachyon-core/src/rate_limit.rs:102-109 | The continuity the update is documented to keep: an update to the very same rate leaves what a call owes as it was if and only if the debt happens to be twice the earnings |
| `RateLimiter.IdleUpdateCharges` | crates/tachyon-core/src/rate_limit.rs:90-112 | A limiter idle for ten seconds makes the first call after such an update wait for the full five seconds, for every rate and size up to 10^9 |
| `RateLimiter.ClampedCallOverdraws` | crates/tachyon-core/src/rate_limit.rs:77-83 | A concrete clamped call that breaks the fixed-rate bound |
| `RateLimiter.CallInFlightEscapes` | crates/tachyon-core/src/rate_limit.rs:71-77 | A call that read the clock before an update and the baseline after it wraps to a huge elapsed time and does not wait: why the bound speaks of later calls only |
| `RateLimiter.CallInFlightRun` | crates/tachyon-core/src/rate_limit.rs:63-112 | A run from a new limiter, for every rate up to 10^9 and any bytes, in which that happens |
| `RateLimiter.Limiter.Acquire` | crates/tachyon-core/src/rate_limit.rs:63-84 | Link: with nothing in between, the fields after a call and the sleep it asks for are those of the four-step protocol |
| `RateLimiter.Limiter.UpdateRate` | crates/tachyon-core/src/rate_limit.rs:90-112 | Link: the update is the update step of the protocol |
| `Iocp.EveryAddressInOnePlace` | crates/tachyon-io/src/iocp.rs:183-211 | In every reachable state each OVERLAPPED ever allocated is in exactly one of pool, submitting writer, registry and poller's hand, and no other address is in any |
| `Iocp.KernelMemoryIsAlive` | crates/tachyon-io/src/iocp.rs:616-710 | Whatever request the kernel holds, the registry holds its OVERLAPPED and its very buffer, also after the future was dropped |
| `Iocp.ResolvedOnceWithOwnResult` | crates/tachyon-io/src/iocp.rs:482-517 | No write is told a result twice, what a future returns is its own write's result, and the poller meets no packet unknown to the registry |
| `Iocp.ResultsAreCarried` | crates/tachyon-io/src/iocp.rs:482-517 | A result fixed by the kernel never changes on its way through packet, poller and channel |
| `Iocp.QuietMeansResolved` | crates/tachyon-io/src/iocp.rs:421-517 | When kernel, port, poller and submissions are quiet every write is resolved, dropped futures included, the registry is empty, and every OVERLAPPED is back in the pool |
| `Iocp.LookupHits` | crates/tachyon-io/src/iocp.rs:482-500 | The packet the poller takes next always has its entry |
| `Iocp.GuardHitsAnotherIff` | crates/tachyon-io/src/iocp.rs:87-117 | A dropped future's guard cancels a write other than its own if and only if its own result has already been sent and its key is registered; it cancels its own if and only if the key is registered and its result is not sent; and whatever is registered is what it cancels |
| `Iocp.GuardHitsOwnWriteIff` | crates/tachyon-io/src/iocp.rs:87-117 | Its own write is found exactly while the kernel has it or its packet waits for the poller |
| `Iocp.GuardCanHitAnotherWrite` | crates/tachyon-io/src/iocp.rs:87-117 | A reachable state, for any address and data, in which a guard cancels a different write that reuses the OVERLAPPED |
| `Iocp.StepKeepsInv` | crates/tachyon-io/src/iocp.rs:421-710 | Every step of writers, kernel and poller keeps ownership and the links between registry, kernel, packets and writers |
| `IocpAnswers.EveryWriteGetsItsAnswer` | crates/tachyon-io/src/iocp.rs:482-710 | In every run, whatever registry, packet, poller, channel and future report of a write is the one answer `WriteFile` or the kernel gave to it |
| `IocpAnswers.AnsweredOnce` | crates/tachyon-io/src/iocp.rs:616-710 | No write is answered twice |
| `IocpAnswers.QuietFuturesReturn` | crates/tachyon-io/src/iocp.rs:704-710 | When kernel, port and poller are quiet a future that still waits returns as soon as it looks, and with its own answer |
| `IocpAnswers.UnsettledMoves` | crates/tachyon-io/src/iocp.rs:421-710 | As long as a write is not answered or its future neither returned nor dropped, some step is open |
| `IocpAnswers.WorkIsBounded` | crates/tachyon-io/src/iocp.rs:421-710 | No run takes more than nine steps for each write begun, whatever the schedule |
| `IocpAnswers.EverythingSettles` | crates/tachyon-io/src/iocp.rs:421-710 | So every run taken as far as it goes, new writes apart, ends with every write answered, every future returned or dropped, the registry empty and every OVERLAPPED pooled |
| `IocpStorage.IoCpStorage.Submit` | crates/tachyon-io/src/iocp.rs:616-704 | An answered-at-once write gives its OVERLAPPED back and leaves the registry as it was; a pending one leaves exactly its own entry, shared with the kernel |
| `IocpStorage.IoCpStorage.CompletePendingWrite` | crates/tachyon-io/src/iocp.rs:482-517 | Handling a packet tells its write its result, removes exactly its entry, and pools its OVERLAPPED |
| `IocpStorage.IoCpStorage.PollAll` | crates/tachyon-io/src/iocp.rs:421-470 | The poller's loop delivers every arrived packet to its own write and pools the addresses in arrival order |
| `IocpStorage.IoCpStorage.DropGuard` | crates/tachyon-io/src/iocp.rs:87-117 | The guard asks for a cancellation only and frees nothing: registry, pool and kernel keep what they hold |
| `Connection.LimitsHold` | crates/tachyon-engine/src/connection.rs:91-115 | In every interleaving of acquires, drops, cancellations and cleanups, active connections <= held global permits <= global limit, and each host semaphore bounds its holders |
| `Connection.StepKeepsInv` | crates/tachyon-engine/src/connection.rs:79-168 | Every step keeps each permit either free or held by exactly one task, in every semaphore ever made |
| `Connection.NeverStuck` | crates/tachyon-engine/src/connection.rs:91-103 | With both limits positive any unfinished task implies an enabled step, although host waiters hold global permits |
| `Connection.ProgressIsBounded` | crates/tachyon-engine/src/connection.rs:91-168 | Progress cannot go on for ever: no schedule takes more steps than the work left |
| `Connection.EverythingDrains` | crates/tachyon-engine/src/connection.rs:91-168 | Where progress ends every acquire has been served and every permit of every semaphore is back |
| `Connection.DeadlockFreeIff` | crates/tachyon-engine/src/connection.rs:91-103 | The pool is free of deadlock if and only if both limits are positive |
| `Connection.DetachedIff` | crates/tachyon-engine/src/connection.rs:131-134 | A step separates a host's tasks from the semaphore in the table if and only if it is a cleanup that finds the entry idle while an acquirer is between lookup and permit |
| `Connection.HostLimitHolds` | crates/tachyon-engine/src/connection.rs:79-115 | The limit per host holds in every run in which no cleanup finds the host idle in that window; visits that find it busy are harmless |
| `Connection.HostLimitUnderCleanupIff` | crates/tachyon-engine/src/connection.rs:110-134 | With cleanups at any time, the limit per host holds in all runs if and only if the global limit does not exceed it or it is zero |
| `Connection.CleanupBreaksTheLimit` | crates/tachyon-engine/src/connection.rs:110-134 | Otherwise a run with one connection too many on a host, for every such pair of limits |
| `Connection.ConnectionPool.Poll` | crates/tachyon-engine/src/connection.rs:91-115 | Polling an acquire is a run of the protocol that ends active or waiting for an empty semaphore, and moves no other task; a connection made cleans the idle hosts out exactly if the table has outgrown its threshold |
| `Connection.CancelGivesBack` | crates/tachyon-engine/src/connection.rs:91-103 | An acquire can be given up wherever it waits, and gives back just the permit it holds |
| `Connection.ConnectionPool.CleanupIdleHosts` | crates/tachyon-engine/src/connection.rs:131-134 | Exactly the entries with a permit in use survive the cleanup |
| `Connection.ConnectionPool.Drop` | crates/tachyon-engine/src/connection.rs:163-167 | Dropping a permit gives back exactly what its acquire took |
| `CircuitBreakers.Projection` | crates/tachyon-engine/src/circuit_breaker.rs:114-138 | After any history of calls the breaker of a source is a fresh breaker run on that source's calls alone |
| `CircuitBreakers.AnswersProject` | crates/tachyon-engine/src/circuit_breaker.rs:115-121 | Link: so is every answer it gives |
| `CircuitBreakers.KnownIff` | crates/tachyon-engine/src/circuit_breaker.rs:115-138 | A source has an entry exactly when it was asked for or failed; a success alone leaves none |
| `CircuitBreakers.ClosedIff` | crates/tachyon-engine/src/circuit_breaker.rs:41-85 | A breaker is closed if and only if fewer failures than the threshold (zero acting as one) followed the last success, also after its 32-bit counter has wrapped |
| `CircuitBreakers.ConfiguredThresholdIff` | crates/tachyon-engine/src/circuit_breaker.rs:79-85 | With the threshold as configured that claim holds for all histories exactly when it is positive |
| `CircuitBreakers.ProbesBetweenOutcomes` | crates/tachyon-engine/src/circuit_breaker.rs:56-69 | Between two recorded outcomes an open breaker lets at most one request through, none before its time is up, and one if one is due after the opening failure; a closed one lets all through |
| `CircuitBreakers.OpenedByIsRecorded` | crates/tachyon-engine/src/circuit_breaker.rs:79-85 | The time a breaker counts from is that of the last failure that met the threshold since the last success |
| `CircuitBreakers.BreakerIsItsHistory` | crates/tachyon-engine/src/circuit_breaker.rs:41-85 | After any history counter, opening time and probe of a breaker are told by the history alone |
| `CircuitBreakers.AllowsIff` | crates/tachyon-engine/src/circuit_breaker.rs:56-69 | A request is let through if and only if fewer failures than the threshold followed the last success, or the breaker has been open long enough since the failure that opened it and no probe has been let through since |
| `CircuitBreakers.CircuitBreaker.Allow` | crates/tachyon-engine/src/circuit_breaker.rs:56-69 | Link: the object answers and moves as the machine these statements are about |
| `CircuitBreakers.CircuitBreaker.RecordFailure` | crates/tachyon-engine/src/circuit_breaker.rs:79-85 | Link: the object's failure step is the machine's, wrap-around included |
| `CircuitBreakers.SourceCircuitBreakers.Allow` | crates/tachyon-engine/src/circuit_breaker.rs:115-121 | The shared map answers each source as a breaker that saw that source's calls only |
| `CircuitBreakers.SourceCircuitBreakers.RecordSuccess` | crates/tachyon-engine/src/circuit_breaker.rs:124-129 | Link: recording a success keeps the map equal to the history of calls |
| `CircuitBreakers.SourceCircuitBreakers.RecordFailure` | crates/tachyon-engine/src/circuit_breaker.rs:132-138 | Link: recording a failure keeps the map equal to the history of calls |
| `BufferPools.BooksBalance` | crates/tachyon-io/src/buffer.rs:87-118 | In every interleaving of the separate steps of alloc, release and prewarm, permits + in transition + outstanding = capacity, the counter is the number of buffers out and never underflows, and no buffer is in two places |
| `BufferPools.NeverDiscardsIff` | crates/tachyon-io/src/buffer.rs:111-118 | From any such state, no schedule of allocs and releases drops a buffer if and only if the buffers in existence fit the capacity |
| `BufferPools.PrewarmRuns` | crates/tachyon-io/src/buffer.rs:134-148 | Uninterrupted, the steps of prewarm fill the queue to capacity minus outstanding |
| `BufferPools.PrewarmFitsIff` | crates/tachyon-io/src/buffer.rs:134-148 | An uninterrupted prewarm keeps that fit exactly when it adds nothing or no more buffers are on their way back than allocs are on their way to one |
| `BufferPools.CalmIff` | crates/tachyon-io/src/buffer.rs:87-148 | Over whole runs of single alloc and release steps and uninterrupted prewarms, the buffers fit the capacity all along if and only if every prewarm meets that condition, and then no release drops one |
| `BufferPools.MovesAreSteps` | crates/tachyon-io/src/buffer.rs:134-148 | Such a run is a run of single steps, prewarms included |
| `BufferPools.NeverDiscardsIffNoCapacity` | crates/tachyon-io/src/buffer.rs:111-148 | Over all interleavings, prewarms included, release drops no buffer if and only if the capacity is zero |
| `BufferPools.RacingPrewarm` | crates/tachyon-io/src/buffer.rs:111-148 | For every positive capacity, a run in which a prewarm between the two halves of a release makes it drop its buffer |
| `BufferPools.RacingAlloc` | crates/tachyon-io/src/buffer.rs:87-148 | And one in which an alloc in the middle of a prewarm does it |
| `BufferPools.StaleCounter` | crates/tachyon-io/src/buffer.rs:87-148 | And one in which an alloc between the two readings of a prewarm does it: it trusts the counter it read first |
| `BufferPools.BufferPool.WithPrefill` | crates/tachyon-io/src/buffer.rs:55-70 | A prefilled pool has all its permits and exactly capacity buffers queued |
| `BufferPools.BufferPool.Alloc` | crates/tachyon-io/src/buffer.rs:87-102 | With whole operations, alloc waits exactly when capacity buffers are out, and otherwise hands out a buffer nobody else holds, the oldest queued one if there is one |
| `BufferPools.BufferPool.Release` | crates/tachyon-io/src/buffer.rs:111-118 | With whole operations, release always finds room: the buffer is queued, the permit back |
| `BufferPools.BufferPool.Prewarm` | crates/tachyon-io/src/buffer.rs:134-148 | With whole operations, prewarm makes queued + outstanding equal to the capacity |
| `HttpDate.CountsTheCalendar` | crates/tachyon-protocol/src/http.rs:266-280 | For every month of every year from 0 on, and any day number, the era arithmetic with its truncating divisions is the recursive proleptic Gregorian day count from 1970-01-01 |
| `HttpDate.NextDayIsOneMore` | crates/tachyon-protocol/src/http.rs:266-280 | Zero at the epoch, and exactly one more for the next day across month, leap-year and era boundaries |
| `HttpDate.OrderIsKept` | crates/tachyon-protocol/src/http.rs:266-280 | One valid date is before another if and only if its day count is smaller, so no two dates share one |
| `HttpDate.EveryDayHasOneDate` | crates/tachyon-protocol/src/http.rs:266-280 | Every day number from year 0 on belongs to exactly one valid date: the count has an inverse |
| `HttpDate.WaitIsPromisedIff` | crates/tachyon-protocol/src/http.rs:228-262 | With the cast to u64 and wrapping arithmetic, the wait is the documented one (zero for a past date) if and only if the date is not before 1970, or the clock stands within that distance of 2^64 |
| `HttpDate.WaitBeforeTheEpoch` | crates/tachyon-protocol/src/http.rs:251-262 | One second before 1970 asks, at every clock reading, for a wait of 2^64 - 1 seconds less the reading |
| `HttpDate.DateRoundTrip` | crates/tachyon-protocol/src/http.rs:228-249 | Parsing a rendered IMF-fixdate (section 7.1.1.1 of RFC 7231) gives back the date and time, whatever stands for the weekday |
| `HttpDate.DateIff` | crates/tachyon-protocol/src/http.rs:228-249 | A text is read as a date and time if and only if its words are six or more, the second to fifth of them day, month name, year and time; weekday, zone and anything behind are not looked at |
| `HttpDate.RenderedIsDateText` | crates/tachyon-protocol/src/http.rs:228-249 | Rendered IMF-fixdates are such texts |
| `HttpDate.DelayRoundTrip` | crates/tachyon-protocol/src/http.rs:194-199 | Any number of seconds below 2^64, with leading zeros and white space around it or not, is read as that number at every clock reading |
| `HttpDate.SecondsAreRead` | crates/tachyon-protocol/src/http.rs:194-199 | So is every other text of one word that is a number, with a plus sign, say |
| `HttpDate.DatesAreRead` | crates/tachyon-protocol/src/http.rs:201-204 | A text that is a date is counted down to |
| `HttpDate.RefusedIff` | crates/tachyon-protocol/src/http.rs:194-204 | A value is refused if and only if it is neither |
| `HttpDate.RetryAfterIsTheDistance` | crates/tachyon-protocol/src/http.rs:194-262 | From the header text on: any text of a valid date not before 1970 gives the calendar's distance from now, and zero once it has passed |
| `Text.ParsesDigits` | crates/tachyon-protocol/src/http.rs:240-249 | Zero-padded decimal fields are read as their value |
| `Text.ParsesIff` | crates/tachyon-protocol/src/http.rs:240-249 | Exactly the decimal texts of the numbers below the limit, signed with a plus or not, are read as numbers, and as what they say |
| `AlignedWrite.MaskAligns` | crates/tachyon-io/src/storage.rs:53-62 | For a power-of-two alignment, and-ing with the complement of alignment - 1 subtracts the remainder, for all 64-bit words |
| `AlignedWrite.MaskIsModulus` | crates/tachyon-io/src/storage.rs:53-62 | The same for words of any width |
| `AlignedWrite.StartIsAligned` | crates/tachyon-io/src/storage.rs:55-58 | The write starts on a boundary, less than a block before the user's range, for every alignment the assertion accepts |
| `AlignedWrite.LengthIsRounded` | crates/tachyon-io/src/storage.rs:60-62 | The padded length is the rounded-up one; when the 64-bit sum wraps, the rounded-up length is beyond every allocation and the wrapped one too short |
| `AlignedWrite.RoundedUpFits` | crates/tachyon-io/src/storage.rs:60-62 | Rounding up covers the range and adds less than a block |
| `AlignedWrite.WriteAtAligned` | crates/tachyon-io/src/storage.rs:39-76 | One write, aligned in offset and length; for any short write the count returned is exactly the number of user bytes persisted, each at its own offset, and the user's range beyond it is untouched; the call panics in front of the write, and writes nothing, exactly when the padded block exceeds the longest allocation |
| `AlignedWrite.WriteBlock` | crates/tachyon-io/src/storage.rs:64-74 | The same once place and length are known |
| `AlignedWrite.FillBlock` | crates/tachyon-io/src/storage.rs:64-66 | The block is the user's bytes between zero bytes |
| `Filename.SanitizeFilename` | crates/tachyon-core/src/filename.rs:21-84 | The loops with their early exits compute the function the statements below are about |
| `Filename.SanitizeIsClean` | crates/tachyon-core/src/filename.rs:21-84 | Whatever the name, the result is one or more words joined by single spaces, without any of the nine dangerous characters and without a word of dots only |
| `Filename.KeptIff` | crates/tachyon-core/src/filename.rs:21-84 | A name is left as it is if and only if it is clean in that sense |
| `Filename.Idempotent` | crates/tachyon-core/src/filename.rs:21-84 | Sanitising twice is sanitising once |
| `Filename.CleanIsSingleSpaced` | crates/tachyon-core/src/filename.rs:70-78 | A clean name has no white space at its ends and only single spaces inside |
| `Filename.NothingElseIsLost` | crates/tachyon-core/src/filename.rs:21-84 | Apart from white space, dots and dangerous characters the result has exactly the characters of the name, in order; a name with none of them becomes "unknown" |
| `FilenameDots.DotsSurviveIff` | crates/tachyon-core/src/filename.rs:15-19 | When the documented removals fail, read off the name: a ".." survives exactly if two dots have only vanishing characters between them in a stretch (between white space and separators) with a letter; a leading dot, exactly if a dot precedes the first letter in its stretch; a trailing dot, exactly if a dot follows the last letter in its stretch |
| `FilenameDots.WordsOfName` | crates/tachyon-core/src/filename.rs:31-77 | Blanking separators out and filtering each stretch gives the same words as the two passes: trimming and skipping lone dots make no difference |
| `Filename.DotsSurvive` | crates/tachyon-core/src/filename.rs:15-19 | ".a..b." goes through unchanged |
| `Filename.ExtractIsClean` | crates/tachyon-core/src/filename.rs:92-121 | Whatever header and URL say the extracted name is clean, and the second sanitising on the URL path changes nothing; the header's name wins: the result has exactly the letters of the header's name if there is one and of the URL's if not, and is "unknown" if that has none |
| `Text.TokensOfJoin` | crates/tachyon-core/src/filename.rs:72-77 | Splitting at white space undoes joining with spaces |

## Left out

- Network and operating system: HTTP, QUIC and FTP clients, DNS, TLS, the io_uring and IOCP system calls, the GPU. They are nondeterministic steps; for IOCP it is assumed that a write which succeeds at once posts no completion packet (iocp.rs:359-370).
- `execute_full_download` and the `verify` read loop of downloader.rs: single-stream paths without a short-write loop.
- Resuming with other fragment boundaries than the earlier session's.
- RateLimiter.NoBurstAfterUpdate: takes `update_rate` as one atomic step, and says nothing of calls already past their clock reading; the debt counter's wrap at 2^64 bytes is not modelled.
- RateLimiter.FirstCallAfterUpdate: elapsed times and earnings below 2^64 only; the wrap beyond is `CallInFlightEscapes`.
- RateLimiter.UpdateIsContinuousIff: the same restriction.
- RateLimiter.FixedRateBound: calls within their means only; what the others do is `ClampIsTheCondition`.
- Blake3Tree.TreeReduce: chaining values are a free algebra, so two different trees never collide; the compression function and the WGSL shader are not modelled.
- Pipeline.SortIndices: an insertion sort stands in for the library's unstable sort; it is promised to sort and to permute, so nothing rests on how equal offsets are ordered.
- Pipeline.WriteBatch: like the code it makes one write per batch and does not repeat a short one; an end offset past 2^64 is not modelled.
- Planner.PlanFragments: what `compute_fragment_size` returns (a clamped floating-point product) is an arbitrary number.
- The bandwidth predictors, EWMA and peer scores, the priority scheduler and DHT.
- Iocp: shutdown (`cancel_pending_operations`, draining with a timeout), a `WriteFile` on a missing file handle, reading, and the file offset stored inside an OVERLAPPED.
- IocpStorage.IoCpStorage.Submit: runs a submission without interruption; the interleaved case is `Iocp.StepKeepsInv`.
- Connection: closed semaphores (the pool never closes its own) and the order in which a semaphore serves its waiters.
- BufferPools: the contents and sizes of buffers.
- HttpDate.WaitIsPromisedIff: the parser checks neither the weekday, the zone nor the range of day and hour; such dates are counted on from the first of the month, as the code does.
- AlignedWrite.WriteAtAligned: the padding overwrites the neighbours of the user's range with zero bytes by design, and nothing is said about them.
- Filename: `parse_content_disposition`, percent decoding and URL parsing are parameters; Unicode normalisation and case are untouched.
- `IoUringHandle::alloc_buffer_index`: its search does not match its own comment on which bit value means occupied.
- `DownloadState::try_transition`, error classification, configuration checks, URL and IP filters, serialisation, metrics, the hub API, the desktop application and its front end: tables and single branches, or not part of the download logic.
