# A model of the metrics agent and server

The repository holds an agent that collects runtime metrics and reports them in batches, a server
that keeps gauges (overwritten) and counters (added up) in memory, in a file or in PostgreSQL, and
a small code generator that writes `Reset` methods. This project models the parts where something
can go wrong between functions, between goroutines or between runs, and proves what holds there.
`dafny verify dfyconfig.toml` checks all of it.

**The agent.** `WorkerPool` is the pool as a protocol: every goroutine has a program counter, the
scheduler picks any enabled action, and the state holds the queue, the closed flag, the context,
the `stopped` flag, the read-write lock with its pending writer, the once and the wait group. The
theorems are about every run: no panic, nothing lost or reordered, the context branches drop
nothing, and Stop comes back exactly when there is at least one worker. `AgentShutdown` puts main,
the poller and the reporter around it, up to the final batch. `BuildMetrics` and `Delivery` build
a batch and bring it to the server over a network that loses requests and replies; `Transports`
says exactly when HTTP and gRPC do the same.

**The server.** `Metrics` gives a batch its meaning: the fold of its metrics over a store, with
Go's int64 wrap-around, and what that leaves under each name. `Storage`, `Service`, `Database` and
`Retry` are the batch paths (one critical section; one call per metric; aggregation into maps,
upserts in any map order and a retried transaction), each proved against that fold.
`Interleaving` runs many clients at once, `Listing` is the sorted page, and `Persistence` saves and
restores the store. `SaverProtocol` lets the periodic saver, or with interval 0 the handlers, save
while requests go on, the two reads of a save apart from each other; `SaverReads` says which requests
each file holds, and `Sessions` strings such runs together on one file, through failing restores and
writes.

**The generator.** `GoTypes` has the type printer and a parser that undoes it. `ResetGen` builds
the generated text, and the same as statements, and `ResetRead` reads the text back with its own idea
of how Go writes them. `ResetSemantics` gives those statements a meaning
on a heap with shared cells and maps and tells which field types give Go that compiles.
`ResetCorrect` and `ResetTermination` prove that the generated code, whenever it compiles, resets
exactly what the receiver reaches, and that it returns exactly when no marked struct leads back to
itself. `ResetFiles` fixes the basic types name by name and the code checked in for the repository's
own structs letter for letter.

`Options` and `Sums` are shared helpers.

## What the code does not do

For each expectation the code fails, a member with a concrete input, and the condition under which
the code does meet it, for all inputs.

- With no workers the channel has no buffer: a Submit blocks while it holds the read lock, and
  Stop blocks behind it (`WorkerPool.NoWorkersBlocks`). Stop comes back in every run exactly when
  there is a worker (`WorkerPool.StopReturnsExactlyWithWorkers`).
- The database path adds deltas in Go before the database sees them, so two valid deltas can wrap
  to a negative row that commits without an error (`Database.OverflowCanCommit`). A valid batch
  commits its exact totals, on any rows, exactly when neither the sum of a name's deltas nor its new
  total is above int64 (`Database.CommitsExactlyWhenSumsFit`); whenever it commits at all, it
  commits the fold (`Database.AggregateIsFold`).
- A NaN gauge is not `< 0`, is stored, and blocks every save, however many requests follow, until
  one gives that gauge another value (`Persistence.NaNBlocksSaving`). A store can be saved after a request exactly when
  every gauge it then holds is finite (`Persistence.SavableExactly`).
- A metric without its field is skipped over HTTP and stored as zero over gRPC
  (`Delivery.MissingFieldDiffers`); a NaN gauge cannot be sent over HTTP and is stored over gRPC
  (`Transports.NaNDiffers`). `Transports.TransportsAgreeExactly` has the exact condition.
- A restore that fails is only logged: the server starts empty and its saves replace the file. Its
  final save does (`Persistence.ContentLost`), and a tick does even when the final save fails
  (`Sessions.TickLosesContent`). What was in the file survives a life exactly when every save of it
  read a non-finite gauge or failed to write, or the last one that worked wrote that very content
  (`Sessions.ContentSurvivesExactly`).
- With interval 0 a slow handler overwrites what a later one has saved
  (`SaverProtocol.SyncSavesOvertake`). Saved counters never fall, without overflow, exactly when the
  interval is not 0 (`SaverProtocol.FilesGrowExactlyWithoutSync`).
- Without batch support a batch that fails half way stays half applied (`Service.HalfApplied`): it
  keeps exactly the metrics before the first failed call (`Service.UpdateOneByOne`), which leaves
  the store as it was exactly when those metrics repeat what it held
  (`Service.FailureChangesNothingExactly`).
- The generator writes Go that does not compile for `[3]time.Duration`, `*[]time.Duration`,
  `[pkg.N]int`, `**int` and `*func()` fields, since its file imports nothing and prints what it does
  not know as `any` (`ResetSemantics.FormsThatDoNotCompile`), and for fields of a named basic or
  interface type, of a type the receiver hides, or with the blank name
  (`ResetSemantics.NamesThatDoNotCompile`). The exact conditions are
  `ResetSemantics.CompilesExactlyWhenSupported` for a field and `ResetSemantics.FileCompilesExactly`
  for the file.
- `Reset` on a node that leads back to itself never returns (`ResetTermination.LoopNeverReturns`);
  it returns exactly when no marked struct does (`ResetTermination.ReturnsExactlyWhenAcyclic`).

## Model

| member | source | states |
|---|---|---|
| WorkerPool.NextKeepsInv | internal/agent/worker_pool.go:41-106 | Every atomic action of a submitter, worker, stopper or caller keeps the invariant that ties lock, flags, queue, wait group and histories together. |
| WorkerPool.RunIsSafe | internal/agent/worker_pool.go:29-106 | At every point of every run: no send on a closed channel, no second close, no bad unlock or Done; dequeued tasks followed by the queue are the accepted tasks in order, without repeats; the queue holds at most 2*workers and at most `workers` tasks are being sent. |
| WorkerPool.ContextDropsNothing | internal/agent/worker_pool.go:51-103 | Once the context is done the pool is stopped and closed, all workers have exited and no submitter is past its stopped check; a returned Submit has its task accepted unless the stopped flag refused it. |
| WorkerPool.StopReturnsAfterDrain | internal/agent/worker_pool.go:95-106 | When any Stop call has returned, every accepted task was dequeued and handled and every worker exited. |
| WorkerPool.StepLowersMeasure | internal/agent/worker_pool.go:48-106 | Every action lowers a measure of the work left; only a new call raises it, by a fixed cost. |
| WorkerPool.RunIsBounded | internal/agent/worker_pool.go:48-106 | A run is no longer than 3*workers plus the cost of the calls in it, so finitely many calls make a finite run. |
| WorkerPool.StopAdvances | internal/agent/worker_pool.go:70-106 | While Stop has been called and its body has not finished, some goroutine of the pool can move, even with submitters blocked on a full queue under the read lock. |
| WorkerPool.MaximalRunFinishes | internal/agent/worker_pool.go:70-106 | A run with a Stop call that cannot continue has returned from every Submit and Stop, ended every worker and handled every accepted task. |
| WorkerPool.NoWorkersBlocks | internal/agent/worker_pool.go:29-33 | With zero workers there is a run in which Submit and Stop block for ever. |
| WorkerPool.StopReturnsExactlyWithWorkers | internal/agent/worker_pool.go:29-106 | No run gets stuck with Stop pending if and only if the pool has at least one worker. |
| WorkerPool.IdlePoolHasSentEverything | internal/agent/worker_pool.go:41-93 | A run without Stop, with at least one worker, that can only go on by a new call has started every worker, returned from every Submit with its task accepted, and handled all accepted tasks. |
| WorkerPool.QueueTakesTwoAWorker | internal/agent/worker_pool.go:29-38 | For every n up to 2*workers there is a run in which n Submit calls come back accepted before any worker has started. |
| WorkerPool.FullQueueBlocks | internal/agent/worker_pool.go:70-93 | A send on an open queue can go through if and only if fewer than 2*workers tasks are queued. |
| AgentShutdown.NextKeepsInv | cmd/agent/main.go:62-147 | Every step of main, the poller, the reporter and the pool keeps the agent's invariant. |
| AgentShutdown.ShutdownDeliversEverything | cmd/agent/main.go:62-147 | When main returns, all batches were accepted in submission order, dequeued and handled, their poll counts never fall, and the final batch carries the number of Collect calls of the whole run. |
| AgentShutdown.BatchesCarryCollects | cmd/agent/main.go:76-147 | At every point of every run the poll count is the number of Collect calls among the events so far, and the j-th submitted batch, periodic or final, carries the number there was when it was built. |
| AgentShutdown.HandledBatchesCarryCollects | cmd/agent/main.go:76-147 | When main returns every such batch has been handled, and the final one carries all Collect calls. |
| AgentShutdown.TicksAreTaken | cmd/agent/main.go:76-133 | While the agent serves, a poll tick is taken, a report tick builds a batch unless one is being submitted, and a built batch can be submitted. |
| AgentShutdown.ShutdownAdvances | cmd/agent/main.go:135-147 | After the signal, with at least one worker, the shutdown has a step of its own, neither tick nor signal, until main has returned. |
| AgentShutdown.StepLowersMeasure | cmd/agent/main.go:62-147 | Every step of its own, of main, the goroutines or the pool, lowers a measure; only a tick or a signal adds to it, by a fixed cost. |
| AgentShutdown.RunIsBounded | cmd/agent/main.go:62-147 | A run is no longer than 3*rateLimit + 25 plus the cost of its ticks and signals. |
| AgentShutdown.MainReturns | cmd/agent/main.go:135-147 | A signalled run, with at least one worker, that has no step of its own left has returned from main. |
| Metrics.BatchMeaning | internal/storage/storage.go:121-138 | A batch leaves each gauge at the last value it gives it, or untouched, and each counter at its old value plus the sum of its deltas, wrapped to int64. |
| Metrics.BatchConcat | internal/storage/storage.go:121-138 | Two batches one after the other are the concatenated batch. |
| Metrics.RepeatMeaning | internal/storage/storage.go:121-138 | A batch applied k >= 1 times leaves gauges as once and counters grown by k times the batch sum. |
| Metrics.ServeCounts | internal/service/metrics.go:96-116 | A request adds its deltas to each counter when it is valid and nothing when it is refused. |
| Metrics.BatchChangesNothingExactly | internal/storage/storage.go:121-138 | A batch leaves the store as it was if and only if the last value it gives each gauge is there already and its deltas for each counter, already present, cancel out in int64. |
| Metrics.RefusedValues | internal/service/metrics.go:99-112 | A gauge is refused exactly when its value is a finite number below zero or minus infinity, not when it is NaN, plus infinity or the negative zero; a counter exactly when its delta is below zero. |
| Metrics.BatchExample | internal/storage/storage.go:121-138 | On literals: a gauge overwrites, a counter at the largest int64 wraps to the smallest, a metric of another type does nothing. |
| Storage.MemStorage.UpdateGauge | internal/storage/storage.go:55-60 | The store afterwards has the gauge set and all else as before. |
| Storage.MemStorage.UpdateCounter | internal/storage/storage.go:62-67 | The store afterwards has the delta added, wrapped, and all else as before. |
| Storage.MemStorage.UpdateMetricsBatch | internal/storage/storage.go:121-138 | The store afterwards is the fold of the batch. |
| Storage.MemStorage.SetGauges | internal/storage/storage.go:103-110 | The given gauges overwrite, the others and the counters stay. |
| Storage.MemStorage.SetCounters | internal/storage/storage.go:112-119 | The given counters overwrite, the others and the gauges stay. |
| Storage.CopyEntries | internal/storage/storage.go:83-110 | Ranging over a map in any order and writing its entries gives the one merged map. |
| Retry.WithRetry | internal/retry/retry.go:36-67 | One to four runs; every run but the last failed with a retriable error, the last one's error is returned, and is retriable only after four; the delays are 0, 1, 3 seconds. |
| Database.UpsertBatch | internal/repository/gauge.go:73-92 | In any map order the rows end overwritten by the map, or a driver error is returned. |
| Database.AddBatch | internal/repository/counter.go:88-107 | In any map order the rows end with all deltas added; without a driver error it fails exactly when a row would leave BIGINT, and that error is not retriable. |
| Database.Aggregate | internal/service/metrics.go:141-155 | The two maps built from a batch are the fold of the batch over the empty store. |
| Database.AggregateIsFold | internal/service/metrics.go:140-170 | Upserting the aggregated maps is the fold over the rows, for every batch and all rows, whenever no row leaves BIGINT. |
| Database.TotalsFit | internal/service/metrics.go:140-170 | For valid deltas on non-negative rows, final totals within int64 are enough for every upsert to be accepted. |
| Database.CommitsExactlyWhenSumsFit | internal/service/metrics.go:140-170 | For valid deltas on any rows, the upserts are accepted and every row ends as old value plus exact sum of deltas if and only if, for every name, neither that sum nor the new total is above int64. |
| Database.CommitsExactlyWhenTotalsFit | internal/service/metrics.go:140-170 | On non-negative rows the totals alone decide that. |
| Database.ExecRetried | internal/repository/counter.go:28-39 | A retried single upsert: at most four runs, the next one only after an error that may be retried, and what the last driver call reports is returned; applied once for each commit that took effect, those that reported an error and on nil one more; if no commit is lost, once on nil and not at all on an error. |
| Database.OverflowCanCommit | internal/service/metrics.go:150-153 | Two valid deltas whose Go sum wraps pass the database's check and leave a negative row. |
| Database.BatchBody | internal/service/metrics.go:140-170 | On nil the transaction's rows are the fold of the batch over the rows it began with. |
| Database.TransactionOnce | internal/database/transaction.go:25-39 | One attempt: it ends at its first failing driver call with that call's error, or at a row outside BIGINT, or with the commit; it leaves the batch applied or nothing. |
| Database.WithTransaction | internal/database/transaction.go:23-41 | At most four runs, told by the numbered driver calls: every fault before the last call may be retried and is followed by one more run, no other outcome is, and what the last call reports is returned; a first call that fails with an error that is not retriable is the only one and nothing is committed. The committed rows are the batch applied once for each commit that took effect, which are those that reported an error, and on nil one more; if no commit that reports an error takes effect, exactly once on nil and not at all on error; without faults it succeeds if and only if no row leaves BIGINT. |
| Database.RunsAreDecided | internal/retry/retry.go:36-67 | When no error is retriable there is one run; when no commit is lost the runs are one more than the faults before the last call, all of them retriable; and a first call with an error that is not retriable is the last. |
| Service.MetricsService.UpdateGauge | internal/service/metrics.go:48-56 | Refuses exactly the values below zero, changing nothing, and otherwise sets the gauge in its storage or passes the error on; with the database as storage, provided no commit is lost, that is the committed row. |
| Service.MetricsService.UpdateCounter | internal/service/metrics.go:58-66 | Refuses exactly the negative deltas, changing nothing, and otherwise adds the delta in its storage or passes the error on; with the database as storage, provided no commit is lost, that is the committed row, and without faults it fails exactly when the row leaves BIGINT. |
| Service.MetricsService.UpdateMetricsBatch | internal/service/metrics.go:96-171 | A batch with a negative value changes nothing and reports the first one. Otherwise the in-memory path leaves the fold of the batch; the fallback does if and only if none of its calls fails, and else keeps exactly the metrics before the first failed call; the transaction, provided no commit is lost, leaves the fold on nil and nothing on an error. |
| Service.UpdateOneByOne | internal/service/metrics.go:119-137 | Succeeds if and only if none of the calls it makes for the metrics fails, with the fold of the batch; otherwise the store is the fold of the metrics before the first failed call, whose error is returned. |
| Service.HalfApplied | internal/service/metrics.go:119-137 | Two gauges on a storage whose second call fails leave the first one set and the second missing. |
| Service.FailureChangesNothingExactly | internal/service/metrics.go:119-137 | A failed fallback leaves the store as it was if and only if the metrics before the failed call repeat what it held; so it does when the first call fails. |
| Delivery.EncodeJson | internal/agent/sender.go:217-220 | JSON is produced exactly when no metric holds a non-finite value. |
| Delivery.EncodeProto | internal/agent/grpc.go:44-76 | The converted batch, or the first metric of unknown type refuses all of it. |
| Delivery.Handle | internal/grpcserver/server.go:47-83 | The server refuses an empty, malformed or negative request without a change, on any storage; an accepted one leaves the fold of what it received and any other failure nothing, provided no commit is lost and a storage without batches does not fail. When no driver call fails it succeeds if and only if the request is acceptable and, with a database, no row leaves BIGINT, or, with a storage without batches, none of its calls fails. |
| Delivery.TransportsAgree | internal/agent/grpc.go:44-76 | Sending a batch of finite metrics that carry their fields does the same to every store, and reports the same, over HTTP and gRPC. |
| Delivery.MissingFieldDiffers | internal/agent/grpc.go:50-63 | A counter without its delta is skipped over HTTP and stored as zero over gRPC. |
| Transports.TransportsAgreeExactly | internal/agent/grpc.go:44-76 | For every batch, sending it over HTTP and over gRPC does the same to all stores if and only if it is empty or has a negative value, or neither side can encode it, or both can, every counter it names gets a delta, and the last metric of each gauge carries a value (or repeats a zero). |
| Transports.NaNDiffers | internal/agent/sender.go:217-220 | A NaN gauge is refused by the JSON encoder and stored over gRPC. |
| Delivery.SendWithRetries | internal/agent/sender.go:227-256 | At most three attempts, none after one that was answered with success; the store ends with the request applied once for every attempt the server accepted, provided no commit is lost and a storage without batches does not fail; on the in-memory storage that is every attempt that arrived. Without faults what the server takes is applied if and only if an attempt arrives, with nil after one attempt when that is answered, and a database that does not take it ends with an error and no application. |
| Delivery.SendMetricsBatch | internal/agent/sender.go:203-257 | Nothing is sent for an empty batch, or, with an error, for one that cannot be encoded; otherwise the retried request, with nil only after an answered application and an error only after three attempts, and without faults applied whenever it arrives if the server takes it. |
| Delivery.SendOverGoodNetwork | internal/agent/sender.go:203-257 | On the in-memory storage, when nothing is lost, the outcome is that of sending the batch once. |
| Delivery.EffectTimesIsRepeat | internal/agent/sender.go:227-256 | The effect of k arrivals of a valid batch is the batch applied k times, over either transport. |
| Delivery.DeliveredAtLeastOnce | internal/agent/sender.go:203-257 | For a valid batch: 1 <= k <= 3 applications on success, 0 <= k <= 3 otherwise; gauges as after one, every counter grown by k times the batch sum. |
| Interleaving.NothingIsLost | internal/storage/storage.go:55-67 | In every interleaving each counter is its initial value plus what has been accepted so far, wrapped to int64. |
| Interleaving.CountersAreExact | internal/storage/storage.go:62-67 | With totals within int64: at every point the exact sum, never falling, and the full total when all requests are served. |
| Interleaving.NothingNegative | internal/service/metrics.go:96-116 | From a non-negative store, with totals within int64, nothing stored is ever negative. |
| BuildMetrics.AppendGauges | internal/agent/build_metrics.go:8-24 | In any map order the appended metrics give every name the map's value. |
| BuildMetrics.ReportEffect | internal/agent/build_metrics.go:5-34 | The effect of a report on a store depends only on the two maps and the poll count. |
| BuildMetrics.Build | internal/agent/build_metrics.go:5-34 | Whatever orders the ranges take, on every store system values win over runtime values, those over the store, and the counter "PollCount", the last metric, grows by pollCount; all others are gauges. |
| Listing.LessIsTotal | internal/handler/handler.go:180-185 | Go's byte-wise string order is total and irreflexive. |
| Listing.LessIsTransitive | internal/handler/handler.go:180-185 | Go's byte-wise string order is transitive. |
| Listing.LessExactly | internal/handler/handler.go:180-185 | One string is less than another if and only if at the first position where they differ it has the smaller byte or has ended. |
| Listing.RowLessExactly | internal/handler/handler.go:180-185 | On the page all counters come before all gauges, each in the order of their names. |
| Listing.PageIsUnique | internal/handler/handler.go:155-185 | Any two sorted listings of all entries are the same sequence. |
| Listing.ListMetrics | internal/handler/handler.go:155-185 | In any map orders the result is sorted and holds every entry exactly once. |
| Persistence.EncodeStore | internal/storage/persistence.go:94-112 | In any map orders the records decode to the store. |
| Persistence.DecodeStore | internal/storage/persistence.go:136-150 | The maps built from the records are what the records decode to. |
| Persistence.Persister.SaveToFile | internal/storage/persistence.go:87-120 | Succeeds if and only if all gauges are finite and the write does; then the file decodes to the store, otherwise it is as before. |
| Persistence.Persister.LoadFromFile | internal/storage/persistence.go:122-163 | The file's content goes over the store; a missing file changes nothing without an error, an unreadable one nothing with one. |
| Persistence.Session | cmd/server/main.go:77-88 | One life of a server that saves only at shutdown, whatever fails: it starts with the file's content, or empty when the restore fails, serves, and leaves its final store in the file if and only if that is finite and can be written; else the file is as before. |
| Persistence.FailedRestoreForgets | cmd/server/main.go:81-85 | When the one save is the final one: after a failed restore the old content survives if and only if nothing can be written or the session ends with that very content; otherwise each counter is what this session accepted. |
| Persistence.ContentLost | cmd/server/main.go:81-85 | A counter saved by one session is gone after an idle one whose restore failed. |
| Persistence.RunSessions | cmd/server/main.go:206-220 | Over any number of sessions of a server that saves only at shutdown each starts with the store the last one ended with, and the file ends with everything accepted in any of them. |
| Persistence.CountersAreTotals | internal/storage/persistence.go:87-163 | From no file, each counter is the sum of all deltas ever accepted, as long as that fits int64. |
| Persistence.SavableExactly | internal/storage/persistence.go:114-117 | After a request the store can be saved if and only if every gauge it then holds is finite. |
| Persistence.SavableValues | internal/storage/persistence.go:114-117 | A store with one gauge can be saved exactly when that is a finite number or the negative zero, not when it is NaN or infinite. |
| Persistence.RestoreExample | internal/storage/persistence.go:136-150 | On literals: a restore sets gauges and counters, and of two records of one name the later stands. |
| Persistence.NaNBlocksSaving | internal/service/metrics.go:102-105 | A NaN gauge is accepted and leaves a store that cannot be saved, nor after any number of requests none of which is accepted and gives that gauge a value. |
| SaverProtocol.NextKeepsInv | internal/storage/persistence.go:35-120 | Every step of the handlers, the periodic saver and main keeps the saving invariant, for every store interval. |
| SaverProtocol.OneSaverAtATime | internal/storage/persistence.go:35-73 | With a store interval other than 0, at every point of every run at most one save is in progress, and none once main is done. |
| SaverProtocol.FilesAreStates | internal/storage/persistence.go:87-120 | Every file holds the gauges of one state of the run and the counters of that or a later state; with an interval other than 0 the next file's gauges are no older than this file's counters. |
| SaverReads.SaveIsFresh | internal/storage/persistence.go:55-120 | Every save of every run, of a tick, of a handler or at shutdown, takes the gauges of the store as it is when the save begins and the counters as they are at its second read, and writes them exactly when they are finite and the write works; so the file of a tick holds every request accepted before it. |
| SaverReads.NothingIsPutOff | internal/storage/persistence.go:55-73 | While the server serves every request is taken, every tick that does not come during a save begins one, and a save that has begun can go on. |
| SaverReads.NegativeIntervalSavesOnce | internal/storage/persistence.go:35-77 | With a negative interval, at every point of every run, there has been no save but the final one. |
| SaverReads.EveryRequestIsSaved | internal/handler/handler.go:345-347 | With interval 0, when main is done there has been one save for every accepted request and the final one, and for each of those requests one that read a store with it. |
| SaverProtocol.NothingWrittenExactly | internal/storage/persistence.go:87-120 | No file was written if and only if every save that is over had read a non-finite gauge or failed to write. |
| SaverProtocol.FinalFileIsCurrent | cmd/server/main.go:206-220 | When the final save succeeds the file is the store the server ended with. |
| SaverProtocol.SavedCountersNeverDecrease | internal/storage/persistence.go:55-120 | With an interval other than 0, if no request overflows a counter, no counter is smaller in a later file. |
| SaverProtocol.SyncSavesOvertake | internal/handler/handler.go:345-347 | With interval 0 two handlers can save in the other order, and the file goes back to the older counter. |
| SaverProtocol.FilesGrowExactlyWithoutSync | internal/storage/persistence.go:35-77 | In all runs without overflow saved counters never fall if and only if the interval is not 0. |
| SaverProtocol.ShutdownAdvances | internal/storage/persistence.go:42-73 | Until main is done the server has a step of its own, neither request nor tick, so its waits for the handlers and the saver are never stuck. |
| SaverProtocol.RunIsBounded | internal/storage/persistence.go:42-73 | A run is no longer than 7 plus the cost of its requests and ticks. |
| SaverProtocol.MainReturns | cmd/server/main.go:206-220 | A run that has no step of its own left has ended every save, stopped the saver and finished with the final save. |
| Sessions.StoreIsServed | cmd/server/main.go:94-220 | At every point of a run the store is what the requests so far made of the first one. |
| Sessions.SaveHoldsRequests | internal/storage/persistence.go:55-120 | The file of a save holds the gauges that all requests before its beginning have left, and the counters that all requests before its second read have. |
| Sessions.ContentSurvivesExactly | cmd/server/main.go:81-87 | For any store interval, after a restore that worked or failed: what was in the file survives a life if and only if no save of it worked or the last one that did wrote that very content; and nothing was written if and only if every save read a non-finite gauge or failed to write. |
| Sessions.FinalSaveDecides | cmd/server/main.go:206-220 | A life whose final save worked leaves in the file its last store, all its requests served to the first one; after a failed restore each counter is what this life accepted. |
| Sessions.TickLosesContent | cmd/server/main.go:81-87 | After a failed restore, with interval 300, one tick loses the old file although the final save fails. |
| Sessions.LivesContinue | cmd/server/main.go:77-220 | Over any number of lives, with any intervals and interleavings, whose restores and final saves work, each starts where the last one ended. |
| Sessions.CountersOfAllLives | cmd/server/main.go:77-220 | From no file, after all of them, each counter is the sum of all deltas ever accepted, as long as that fits int64. |
| GoTypes.RoundTrip | cmd/reset/main.go:282-302 | The parser reads back every well-formed type from its printed form. |
| GoTypes.ParseIsSound | cmd/reset/main.go:282-302 | Whatever the parser accepts is a well-formed type and its text is what the printer writes. |
| GoTypes.PrinterIsInjective | cmd/reset/main.go:282-302 | Well-formed types with the same printed form are the same. |
| GoTypes.PrinterConfusesExactly | cmd/reset/main.go:282-302 | Of types that are well formed once unknown nodes are read as `any`, two print alike if and only if they differ only in interface, function, channel and other nodes and the name `any`. |
| GoTypes.PrintsTheType | cmd/reset/main.go:282-302 | What is printed for a type reads back as that type if and only if, with `interface{}` read as `any`, it is well formed; array lengths are names or any number or rune token. |
| GoTypes.PrintedForms | cmd/reset/main.go:282-302 | On literals: `time.Time`, `map[string][]*time.Time` and `[3]any` are printed so. |
| ResetGen.GenerateStruct | cmd/reset/main.go:162-177 | One piece of code for each named field, in order, embedded fields passed over. |
| ResetGen.GenerateFile | cmd/reset/main.go:154-177 | One Reset method a struct, each field generated with all marked names of the package known. |
| ResetGen.CompileIsBuild | cmd/reset/main.go:192-280 | The statements the semantics runs print as the text the generator writes, for every field. |
| ResetRead.BuildReads | cmd/reset/main.go:192-280 | A reader of the generated Go with tokens of its own reads the text of every field, under any receiver the generator picks, back as the statement the semantics runs. |
| ResetRead.CodeReads | cmd/reset/main.go:162-177 | So it does for the whole code of a struct, field by field in order. |
| ResetFiles.NumericField | cmd/reset/main.go:256-267 | For each of the 17 predeclared numeric names, spelled out, a field compiles, gets `= 0`, and holds 0 after a Reset. |
| ResetFiles.BoolField | cmd/reset/main.go:256-259 | A bool field compiles, gets `= false`, and holds false after a Reset. |
| ResetFiles.StringField | cmd/reset/main.go:256-261 | A string field compiles, gets `= ""`, and is empty after a Reset. |
| ResetFiles.OtherField | cmd/reset/main.go:196-200 | A field of any other name gets that name with `{}`, or a Reset call if its struct is marked. |
| ResetFiles.NamedFieldsGrow | cmd/reset/main.go:162-170 | One more declaration adds its names in order, each with its type; an embedded field adds none. |
| ResetFiles.StorageCode | internal/storage/reset.gen.go:10-14 | The generated code of MemStorage, letter for letter. |
| ResetFiles.MetricsCode | internal/model/reset.gen.go:10-17 | The generated code of Metrics, letter for letter. |
| ResetFiles.CollectorCode | internal/agent/reset.gen.go:10-20 | The generated code of MetricsCollector, letter for letter, in a package with two marked structs. |
| ResetSemantics.CompilesExactlyWhenSupported | cmd/reset/main.go:192-302 | Under a given receiver, the code for a field compiles if and only if its type is answered with a comment, or the field is not blank and its type is in the supported fragment: no qualified name, no name the receiver hides and no unknown node in a printed literal, no interface, named basic or second pointer to be given one. |
| ResetSemantics.FileCompilesExactly | cmd/reset/main.go:143-250 | The generated file compiles if and only if every marked struct has a name that starts with an ASCII letter, is neither generic nor an alias, and has no Reset of its own and only such fields. |
| ResetSemantics.FormsThatDoNotCompile | cmd/reset/main.go:143-250 | In every package the code for `[3]time.Duration`, `*[]time.Duration`, `[pkg.N]int`, `**int` and `*func()` fields does not compile. |
| ResetSemantics.NamesThatDoNotCompile | cmd/reset/main.go:192-250 | Neither does that for a field of a named int or interface type, of a type spelled like the receiver, or with the blank name `_`. |
| ResetSemantics.LengthsThatCompile | cmd/reset/main.go:222-226 | An array of int with any literal token as its length compiles. |
| ResetCorrect.RunCorrect | cmd/reset/main.go:147-250 | Whenever a Reset of a package whose generated code compiles returns, for any pointer graph, the receiver's fields and everything reached are in reset form and the rest of the heap is unchanged. |
| ResetCorrect.ResetFacts | cmd/reset/main.go:192-250 | The reset form of a value keeps its shape and the cells and maps it leads to, and is its own reset form. |
| ResetCorrect.SweepThenSweep | cmd/reset/main.go:192-250 | Resetting what one field reaches and then what another reaches, shared cells included, is resetting what both reach. |
| ResetFiles.MetricsResets | internal/model/metrics.go:7-12 | In any heap and package, resetting a Metrics empties its strings, keeps its pointers and puts 0 behind those that are not nil. |
| ResetFiles.BufferResets | cmd/reset/main.go:222-247 | A slice keeps its array and capacity with length 0, an int array is all zeros, a function is nil, and the map object that was there is empty. |
| ResetFiles.FreshBehindPointer | cmd/reset/main.go:216-218 | Behind a pointer a slice and a map are replaced by new empty ones. |
| ResetFiles.ForeignResets | cmd/reset/main.go:212-236 | A value of a type declared elsewhere is left in the state of its own Reset method, in a field or behind a pointer, or as it is when it has none. |
| ResetTermination.ReturnsExactlyWhenAcyclic | cmd/reset/main.go:192-250 | Reset returns if and only if no marked struct reached through pointers leads back to itself. |
| ResetTermination.ResetIsCorrect | cmd/reset/main.go:147-250 | On such a receiver Reset returns and every field, reached cell and reached map is in its reset form, all other cells and maps as before. |
| ResetTermination.ResetTwice | cmd/reset/main.go:147-250 | A second Reset returns and changes nothing. |
| ResetTermination.LoopNeverReturns | cmd/reset/main.go:202-208 | On a node whose pointer field leads to itself no amount of nested calls is enough. |

## Left out

- HTTP routing and templates, the gRPC transport, logging, gzip, encryption, HMAC, the middleware and IP discovery: plumbing around library code.
- Flags, environment and configuration files, migrations, the audit listeners, the linters, gopsutil and the runtime memory statistics: precedence of settings and thin wrappers, with no property that spans them.
- Tickers, timeouts and deadlines: a tick is a step that may happen at any time; no context of the service or the database expires, and the server's shutdown is not cut short.
- Goroutines: `WorkerPool`, `AgentShutdown`, `SaverProtocol` and `Interleaving` are state machines on values, not objects with locks, because their subject is the interleaving; every critical section, channel operation and flag access is one step. The logger calls are not steps.
- A negative number of workers, for which making the channel panics before anything else happens.
- Every send of a worker is taken to return. The gopsutil goroutine of the agent, which touches neither the pool nor the poll count, is not a process of `AgentShutdown`.
- Poll counts are unbounded; the overflow of 2^63 collections is not modelled.
- Float64 arithmetic: the program does none. A float is a finite real, the negative zero, an infinity or NaN.
- JSON text and protobuf bytes: encoding is faithful on finite numbers and refuses others. Names that are not valid UTF-8 are not modelled.
- Which PostgreSQL errors are retriable: an error carries a flag. The connection uses another driver than the one `IsRetriableError` knows (internal/retry/retry.go:28-31, internal/database/database.go:12).
- Retry.WithRetry: the library behind it is not part of the repository; attempts and delays follow internal/retry/retry_test.go:133-151 and 224-270.
- Several database clients at once, the `updated_at` column and the length limit of names.
- Service.MetricsService.UpdateMetricsBatch: with commits that are lost it says nothing of the rows; `Database.WithTransaction` does.
- Delivery.SendMetricsBatch: a lone sender; a request is applied within its attempt or never. What it does to a database that loses commits, or to a storage without batches that fails, is left to the contracts of `Service` and `Database`.
- The snapshot of a save is not atomic, and the model does not make it so. A request of `SaverProtocol` is a batch; updates of single metrics save in the same way.
- Persistence.Session: a server that saves only at shutdown; `Sessions` has all store intervals.
- Persistence.RunSessions: likewise, with `Sessions.LivesContinue` for all intervals.
- Persistence.Persister.SaveToFile: writing a file is one atomic step, so a torn write is not modelled.
- Listing.ListMetrics: the number formatting is left out, a cell holds the number; an insertion sort stands for `sort.Slice`, whose result `PageIsUnique` fixes.
- findResetStructs, the template's header and nil check, gofmt and writing the file.
- ResetSemantics.CompilesExactlyWhenSupported: a package that declares a predeclared name anew, such as `any`, `nil` or `clear`, is not modelled.
- ResetCorrect.RunCorrect: pointers lead to whole cells, not into the middle of one, so a receiver that aliases a part of another is not modelled; elements beyond the length of a truncated slice are kept as they are; the Reset of a foreign type is a fixed state.
