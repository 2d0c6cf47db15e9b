# Verified model of the task scheduler and query gateway

The system is a distributed task scheduler with an SQL query gateway. Several scheduler
nodes share Redis and a database; executors run tasks and heartbeat; queries run on one node
and can be watched and cancelled from any other. This project models its protocols and
self-contained algorithms in Dafny and proves what they promise.

How the model is built:

- Redis is a map (one per kind of key) changed by atomic commands, the database is a set of
  tables, time is an integer. Redis failures, query failures, clock readings, probe outcomes
  and scan pages are parameters.
- An object that the program updates in place is a class; each of its methods is proved to
  take the abstract value of the object to the value a specification function gives. The
  theorems are lemmas about those functions, over every sequence of steps.
- Concurrency is interleaving: a run is any sequence of events, each one atomic step (a locked
  section of a node, a Lua script, or a single INCR/DECR).

| file | contents |
|---|---|
| `QueryRegistry.dfy` | the in-memory registry, which is also the specification of the next one |
| `DistributedRegistry.dfy`, `RegistryRefinement.dfy`, `RegistryRuns.dfy` | the Redis-backed registry, one node, then all nodes; refinement of the in-memory one |
| `QueryLifetime.dfy` | expiry of the Redis copy against the cleanup of the local one |
| `Admission.dfy`, `AdmissionRuns.dfy` | admission control with three limits, command by command, with expiry and failing commands; calibration; whole calls as a count of holders |
| `Leases.dfy`, `LeaseVerdicts.dfy`, `LeaseSafety.dfy`, `LeasePasses.dfy`, `LeaseService.dfy` | task leases: what each pass does to any row, spelt out, what a heartbeating executor is guaranteed, also by passes that take their time, and the row-by-row code |
| `Lineage.dfy` | lineage and impact over a dependency table with cycles |
| `WorkerPool.dfy` | the resizable worker pool |
| `CronLock.dfy`, `CronEntries.dfy` | the cron lock scripts; the scheduler's entry map |
| `CircuitBreaker.dfy` | the circuit breaker and its history |
| `QueryCache.dfy` | cache keys, invalidation, refinement of a map keyed by queries |
| `Permissions.dfy` | the inclusion table, grants and checks |
| `SchedulerProbe.dfy` | how an executor chooses a scheduler |
| `Backoff.dfy` | the delay between its attempts to subscribe |
| `CancelMailbox.dfy` | cancel requests handed out with heartbeats |
| `JsonEscape.dfy` | escaping of log text |

What the proofs found, each stated below as an exact condition:

- `Cancelled` is not final: `CancelledIsNotFinal` is a run that leaves it, `CancelledExactly`
  and `CancelledStaysExactly` say when a cancelled query is still cancelled.
- The registry's interface lets a query complete without a result while an older result is
  still in Redis; other nodes then show the older one (`RemoteResultExact`). The program
  itself never gets there, because it reports a nil result as an error
  (`DrivenNodesRefineRegistry`).
- The Redis copy of a query that keeps running is never renewed and can expire
  (`RunningCopyCanExpire`); a limit on the time since the last save excludes that if and only
  if it is below 35 minutes (`RunningCopyAliveExactly`).
- An admission counter that expires falls short by the attempts that owed it at that time, and
  one whose DECR fails keeps it until it expires (`ExpiryCostsExactly`).
- A dead-task pass reads the renewals before it checks the rows; the time in between counts
  against the timeout like the heartbeat gap (`RowVerdictExact`, `PassLeaseSafety`).
- A task without a stored timeout has 300 seconds for cleanup and no timeout for recovery, so
  the next dead-task pass can fail what recovery keeps (`RecoveryAgreesWithDeadPass`);
  recovery tolerates heartbeats of 90 seconds, the offline pass 45
  (`RecoveryAgreesWithOfflinePass`). Registering again exposes every running execution to the
  dead-task pass until the next heartbeat (`RegistrationExposes`).
- `GetTaskLineage` lists the task itself, and every task on a cycle with it, twice;
  `GetTaskImpact` does not need the task itself to exist.
- The shrink loop of the pool compares its index with a length that shrinks, so it stops
  min(c - n, ceil(w / 2)) workers (`ShrinkStopsNewest`, `EqualityKeptExactly`).
- The cron lock never expires, since no script reads its `expire` field (`CrashKeepsLock`).
  Exclusion holds throughout a run if and only if no node acquires a task it is running
  already (`ExclusionExact`); otherwise other nodes get in too (`OverlapBreaksExclusion`).
- A calibration corrupts a right counter exactly when it sets a key that an unfinished attempt
  has taken (`CalibrationIsRight`).
- Two databases can share a cache key exactly when one name begins with the other and a colon
  (`DatabasesShareKeys`). `InvalidateByDatabase`, documented as precise, drops the whole
  datasource (`ByDatabaseIsPrecise`).
- From the 32nd retry on, the doubled reconnection delay does not fit in 64 bits and depends
  on what the conversion gives (`Fits`, `BackoffDelay`).
- A grant whose insert fails after its delete, or one that sweeps a row shared with another
  subject, can lose permissions (`HalfwayGrantLoses`, `StrangerKeepsExactly`).
- `escapeJSON` copies control characters other than newline, carriage return and tab, which
  JSON forbids (`ReaderRecovers`).

## Model

| member | source | states |
|---|---|---|
| QueryRegistry.QueryRegistry.Register | scheduler/internal/handler/query_registry.go:55-60 | the registry becomes the old one with the query stored under its id, creation time set |
| QueryRegistry.QueryRegistry.Get | scheduler/internal/handler/query_registry.go:62-67 | finds exactly the registered queries |
| QueryRegistry.QueryRegistry.UpdateResult | scheduler/internal/handler/query_registry.go:69-78 | a known query becomes completed with result and time; an unknown id changes nothing |
| QueryRegistry.QueryRegistry.UpdateError | scheduler/internal/handler/query_registry.go:80-89 | a known query becomes failed with message and time; an unknown id changes nothing |
| QueryRegistry.QueryRegistry.Cancel | scheduler/internal/handler/query_registry.go:91-107 | cancels and calls the cancel function exactly when the query is pending or running, and answers so |
| QueryRegistry.QueryRegistry.SetRunning | scheduler/internal/handler/query_registry.go:109-117 | a known query becomes running from the given time, whatever its status was |
| QueryRegistry.QueryRegistry.Cleanup | scheduler/internal/handler/query_registry.go:119-130 | afterwards exactly those queries are gone that were completed, failed or cancelled and created more than the maximum age ago; the others are as they were |
| DistributedRegistry.DistributedQueryRegistry.Register | scheduler/internal/handler/query_registry_distributed.go:164-187 | stores the query locally and publishes its description with this node's id |
| DistributedRegistry.DistributedQueryRegistry.Get | scheduler/internal/handler/query_registry_distributed.go:190-234 | the local record, else the one rebuilt from Redis, with the result only when completed |
| DistributedRegistry.DistributedQueryRegistry.UpdateResult | scheduler/internal/handler/query_registry_distributed.go:237-259 | completes a local query, mirrors it, saves the cut result; nothing for other ids |
| DistributedRegistry.DistributedQueryRegistry.UpdateError | scheduler/internal/handler/query_registry_distributed.go:262-281 | fails a local query and mirrors it |
| DistributedRegistry.DistributedQueryRegistry.Cancel | scheduler/internal/handler/query_registry_distributed.go:284-332 | cancels locally, or publishes one command exactly when another node runs an unfinished query; the answer says whether either happened |
| DistributedRegistry.DistributedQueryRegistry.HandleCancelCommand | scheduler/internal/handler/query_registry_distributed.go:335-372 | cancels a pending or running local query, with the message, and mirrors it; otherwise nothing |
| DistributedRegistry.DistributedQueryRegistry.SetRunning | scheduler/internal/handler/query_registry_distributed.go:375-393 | a local query becomes running and is mirrored |
| DistributedRegistry.DistributedQueryRegistry.Cleanup | scheduler/internal/handler/query_registry_distributed.go:396-411 | the local queries that are completed, failed or cancelled and were created more than the maximum age ago leave the local map and both Redis maps; nothing else does |
| DistributedRegistry.RedisRoundTrip | scheduler/internal/handler/query_registry_distributed.go:190-234 | another node reads back every field of a published record but result and cancel function, with times cut to whole seconds |
| DistributedRegistry.DistributedQueryRegistry.SaveResultToRedis | scheduler/internal/handler/query_registry_distributed.go:517-543 | saves at most the first 10000 rows and the true row count; no result writes nothing |
| DistributedRegistry.Cut | scheduler/internal/handler/query_registry_distributed.go:517-543 | the saved rows are a prefix of the result, of length min(rows, 10000) |
| RegistryRefinement.StepKeepsInv | scheduler/internal/handler/query_registry_distributed.go:164-411 | every step of every node keeps: one owner per query, an exact mirror naming it, no orphan keys |
| RegistryRefinement.OnlyOwnerWrites | scheduler/internal/handler/query_registry_distributed.go:237-411 | a Redis record changes only by a step of the node that runs or registers the query |
| RegistryRefinement.StepRefines | scheduler/internal/handler/query_registry_distributed.go:164-411 | one step of the nodes is one step, or none, of the in-memory registry |
| RegistryRuns.NodesRefineRegistry | scheduler/internal/handler/query_registry_distributed.go:164-411 | main refinement: after any interleaving, `Get` on any node finds a query exactly when the in-memory registry has it, with its status and time; remote completed results are the owner's, cut |
| RegistryRuns.GetShowsTheRegistry | scheduler/internal/handler/query_registry_distributed.go:190-234 | what `Get` shows on the owner and on the other nodes, field by field |
| RegistryRuns.RemoteResultExact | scheduler/internal/handler/query_registry_distributed.go:237-259 | a remote completed result is right if and only if a result was reported or no older one is left in Redis; a property of the interface, which the program's driver does not use that way |
| RegistryRuns.DrivenNodesRefineRegistry | scheduler/internal/handler/query.go:222-352 | for the program as a whole: every node shows every query as the in-memory registry would, a completed one with the owner's result, cut |
| RegistryRuns.CancelAnswersAgree | scheduler/internal/handler/query_registry_distributed.go:284-332 | `Cancel` on any node answers what the in-memory registry would |
| RegistryRuns.RecordNamesOwner | scheduler/internal/handler/query_registry_distributed.go:456-488 | every published query is local to exactly one node, the one its `node_id` names |
| RegistryRuns.CleanupsCompose | scheduler/internal/handler/query_registry.go:119-130 | cleanups of two groups of queries at one instant are one cleanup of both |
| RegistryRuns.StepRecords | scheduler/internal/handler/query_registry_distributed.go:164-411 | a step changes at most the record it is about |
| RegistryRuns.DrivenStepIsAdmissible | scheduler/internal/handler/query.go:230-270 | from the handler's own order of calls: no id is registered twice, and only the node that runs a query reports on it |
| RegistryRuns.DrivenIsAdmissible | scheduler/internal/handler/query.go:265-352 | over every run of the driver, all calls are ones the registry allows, and no nil result is reported |
| RegistryRuns.GoneStays | scheduler/internal/handler/query.go:230-241 | a query that cleanup removed never comes back |
| RegistryRuns.ReportedStays | scheduler/internal/handler/query.go:265-352 | under the driver, a completed or failed query stays exactly as it is until cleanup, whatever follows |
| RegistryRuns.ReportedKeptExactly | scheduler/internal/handler/query_registry_distributed.go:396-411 | in every driven run, a reported query is still there if and only if no cleanup of its node came later than its creation plus the maximum age |
| RegistryRuns.LateCancelIsIdle | scheduler/internal/handler/query_registry_distributed.go:335-372 | late or duplicate cancels change nothing of a finished query, on any node |
| RegistryRuns.CancelledIsNotFinal | scheduler/internal/handler/query_registry_distributed.go:375-393 | a run of the driver in which a cancelled query is running again |
| RegistryRuns.CancelledExactly | scheduler/internal/handler/query.go:265-352 | in every driven run, a query still owned is cancelled at the end if and only if it was not reported on and its cancel came after its start |
| RegistryRuns.CancelStandsExactly | scheduler/internal/handler/query_registry_distributed.go:284-393 | that order spelt out: every start is followed by a cancel on the node, and there is one at all |
| RegistryRuns.CancelledStaysExactly | scheduler/internal/handler/query.go:265-352 | a query cancelled after its start stays cancelled if and only if no report on it follows |
| QueryLifetime.FinishedCopyOutlivesLocal | scheduler/internal/handler/query_registry_distributed.go:396-411 | with ticks every 5 minutes and maximum age 30 minutes, the Redis copy of a finished query outlives the local one in every run |
| QueryLifetime.LocalKept | scheduler/internal/handler/query.go:69 | a query stays on its node for the first 30 minutes, however it fares |
| QueryLifetime.RunningCopyCanExpire | scheduler/internal/handler/query_registry_distributed.go:477-488 | whenever it was registered, a query that only keeps running can lose its Redis copy |
| QueryLifetime.RunningCopyAliveExactly | scheduler/internal/handler/query_registry_distributed.go:477-488 | a bound on the time an unfinished query goes without a save keeps every copy alive in every run if and only if it is below 35 minutes |
| Admission.StepKeepsInv | scheduler/internal/datasource/concurrent.go:177-299 | every single command, failed DECR and expiry keeps the balance of each counter and the bound on the attempts past its check |
| Admission.AdmissionIsSafe | scheduler/internal/datasource/concurrent.go:228-299 | in every interleaving, a counter that does not expire equals the attempts that incremented and did not yet decrement it, plus the DECRs that failed, and permits never exceed its limit, be it of the user, the system or the datasource |
| Admission.LimitsHold | scheduler/internal/datasource/concurrent.go:228-299 | in every interleaving without expiry, a user holds at most the limit per user, all together at most the global limit, and a datasource has at most the limit per datasource |
| Admission.ExpiryCostsExactly | scheduler/internal/datasource/concurrent.go:191-202 | after an expiry the counter is that number minus the attempts that owed it then; permits exceed the limit by at most those |
| Admission.LossesExactly | scheduler/internal/datasource/concurrent.go:177-299 | only expiry and failing DECRs disturb a counter |
| Admission.AllDoneAllZero | scheduler/internal/datasource/concurrent.go:228-299 | once every attempt is rejected, errored out or released, a counter that did not expire holds the DECRs that failed, so zero if none did |
| Admission.SecondReleaseIsIdle | scheduler/internal/datasource/concurrent.go:287-296 | a second call of a release function changes nothing |
| AdmissionRuns.SequentialRunsCountHolders | scheduler/internal/datasource/concurrent.go:177-299 | over every sequence of whole acquires and releases, failing and repeated ones included, permits are handed out as a plain count of holders would, and every counter is that count |
| AdmissionRuns.DoIsIdeal | scheduler/internal/datasource/concurrent.go:177-299 | one whole acquire or release does what the count of holders says |
| Admission.SequentialAdmission | scheduler/internal/datasource/concurrent.go:228-299 | an attempt that overlaps no other: granted exactly when the user's permits, all permits and the datasource's permits are each below their own limit, otherwise all counters as before |
| Admission.AloneSpeltOut | scheduler/internal/datasource/concurrent.go:228-299 | the answer of an undisturbed attempt, test by test, and its effect on each counter |
| Admission.AloneCounts | scheduler/internal/datasource/concurrent.go:177-285 | one undisturbed attempt: the exact condition of success and its exact effect on every counter, errors included |
| Admission.AloneIsARun | scheduler/internal/datasource/concurrent.go:177-299 | the sequential attempt is one of the interleaved machine's runs |
| Admission.ConcurrentService.Acquire | scheduler/internal/datasource/concurrent.go:177-225 | granted exactly when no INCR fails and the user's and the global counter are below their limits; does what an undisturbed two-key attempt does |
| Admission.ConcurrentService.AcquireForDatasource | scheduler/internal/datasource/concurrent.go:228-299 | granted exactly when no INCR fails and all three counters are below their limits; does what an undisturbed three-key attempt does, with its own error for the datasource limit |
| Admission.ConcurrentService.Release | scheduler/internal/datasource/concurrent.go:287-296 | gives back each counter once; later calls nothing |
| Admission.ConcurrentService.RefreshRuntimeConfig | scheduler/internal/datasource/concurrent.go:159-175 | a positive setting is taken as it is, any other becomes 5, 50 or 10 |
| Admission.ConcurrentService.CalibrateCounters | scheduler/internal/datasource/concurrent.go:76-148 | sets every listed and readable counter to its actual count and no other |
| Admission.CalibrationIsRight | scheduler/internal/datasource/concurrent.go:76-148 | a truthful calibration leaves all counters right if and only if every key it sets has no unfinished attempt and every key it leaves was right |
| Admission.QuiescentCalibrationIsIdle | scheduler/internal/datasource/concurrent.go:76-148 | between attempts a truthful calibration changes no counter and keeps the invariant |
| LeaseSafety.LeaseSafety | scheduler/internal/service/cleanup_service.go:168-232 | lease safety over whole runs: no cleanup, offline or recovery pass ends a steadily heartbeating execution before start plus timeout, nor ever without one |
| LeaseSafety.VerdictsOnLiveLease | scheduler/internal/service/cleanup_service.go:168-232 | exactly when each of the three procedures takes a live lease |
| LeaseSafety.StepKeepsAlive | scheduler/internal/service/executor_service.go:269-297 | every step of the system keeps a live lease live and its row unchanged |
| LeaseSafety.RenewAllRenews | scheduler/internal/service/cleanup_service.go:561-614 | renewal gives every listed execution a fresh lease of at least 60 seconds and touches no other |
| LeaseSafety.LeaseTtls | scheduler/internal/service/execution_service.go:1163-1177 | every lease time lies between 60 and 7200 seconds |
| LeaseSafety.OfflinePassExact | scheduler/internal/service/cleanup_service.go:282-343 | a running execution is failed if and only if its executor is offline or silent for more than 45 seconds |
| LeaseSafety.RegistrationExposes | scheduler/internal/service/cleanup_service.go:639-702 | after registering again the dead-task pass fails exactly the live executions old enough to be selected |
| LeaseSafety.RecoveryOutcome | scheduler/internal/service/execution_service.go:988-1142 | every scanned row ends failed with no keys left, or unchanged with fresh lock and renewal; no other row or key changes |
| LeaseSafety.RecoveryAgreesWithDeadPass | scheduler/internal/service/cleanup_service.go:168-232 | a row recovery keeps is failed by the dead-task pass at that instant if and only if its timeout is missing and 300 seconds have passed |
| LeaseSafety.RecoveryAgreesWithOfflinePass | scheduler/internal/service/cleanup_service.go:316-343 | a row recovery keeps is failed by the offline pass if and only if the heartbeat is older than 45 seconds |
| LeaseSafety.NullTimeoutDisagrees | scheduler/internal/service/execution_service.go:1008-1071 | a concrete world in which recovery keeps and the dead-task pass fails the same row |
| LeasePasses.PassLeaseSafety | scheduler/internal/service/cleanup_service.go:125-232 | the same for passes that check row by row while everything else goes on: safe when heartbeat gap and the time from reading to checking a row together stay within the timeout |
| LeasePasses.RowVerdictExact | scheduler/internal/service/cleanup_service.go:168-232 | exactly when a row's check fails a live lease: the renewal that was read is older than the timeout by then, or the timeout has passed since the start |
| LeasePasses.RowAtOnceIsPass | scheduler/internal/service/cleanup_service.go:168-232 | with no time between reading and checking, a row's verdict is that of the whole pass |
| LeasePasses.NextKeepsAlive | scheduler/internal/service/execution_service.go:988-1142 | every row of every pass, and every step in between, keeps a live lease |
| LeaseVerdicts.DeadPassExactly | scheduler/internal/service/cleanup_service.go:47-280 | for every row: which rows the dead-task pass looks at, the five conditions under which it fails one, the first of them as the reason, and the resulting row |
| LeaseVerdicts.DeadRowExactly | scheduler/internal/service/cleanup_service.go:168-232 | the same for a row read at one time and checked at another |
| LeaseVerdicts.RecoveryPassExactly | scheduler/internal/service/execution_service.go:953-1071 | for every row: the six conditions under which recovery fails it, and the reason |
| LeaseVerdicts.OfflinePassExactly | scheduler/internal/service/cleanup_service.go:282-379 | which executors are marked offline and which rows fail, unknown and missing executors included |
| LeaseVerdicts.FailedRowsLoseTheirKeys | scheduler/internal/service/cleanup_service.go:530-559 | lock, renewal and fail count of exactly the failed rows are deleted |
| LeaseVerdicts.StaleLockPassExactly | scheduler/internal/service/cleanup_service.go:385-528 | exactly which locks, renewals and fail counts the pass deletes |
| LeaseVerdicts.RenewalExactly | scheduler/internal/service/cleanup_service.go:561-614 | the lease a renewal writes: twice the timeout, an hour or 300 seconds, within one minute and two hours |
| LeaseVerdicts.RecoveryTtlExactly | scheduler/internal/service/execution_service.go:1163-1177 | the same rule for recovery |
| LeaseVerdicts.HeartbeatExactly | scheduler/internal/service/executor_service.go:269-297 | a heartbeat moves the time of an online executor and of no other, and no row |
| LeaseVerdicts.RegistrationExactly | scheduler/internal/service/executor_service.go:67-167 | a registration drops the renewals of exactly the rows running on a known executor |
| LeaseVerdicts.ReportExactly | scheduler/internal/service/execution_service.go:27-79 | the row a reported result leaves, times included |
| LeaseService.SchedulerService.CleanupDeadTasks | scheduler/internal/service/cleanup_service.go:47-280 | the row-by-row pass fails exactly the rows, with exactly the reasons, of the specification |
| LeaseService.SchedulerService.DeadVerdict | scheduler/internal/service/cleanup_service.go:168-232 | the cascade of tests decides the reason that `LeaseVerdicts.DeadPassExactly` spells out |
| LeaseService.SchedulerService.CleanupOfflineExecutors | scheduler/internal/service/cleanup_service.go:282-314 | marks silent executors offline, then fails the executions of offline ones |
| LeaseService.SchedulerService.CleanupTasksFromOfflineExecutors | scheduler/internal/service/cleanup_service.go:316-379 | fails exactly the running executions of offline executors |
| LeaseService.SchedulerService.CleanupStaleTaskLocks | scheduler/internal/service/cleanup_service.go:385-528 | removes exactly the keys of executions that are not known as running |
| LeaseService.SchedulerService.ForceFail | scheduler/internal/service/cleanup_service.go:530-559 | ends the row as failed and removes its three keys, and nothing else |
| LeaseService.SchedulerService.RenewTaskLock | scheduler/internal/service/cleanup_service.go:561-614 | lock and renewal with the lease time that the task's timeout gives |
| LeaseService.SchedulerService.UpdateExecutionResult | scheduler/internal/service/execution_service.go:27-79 | ends the row with status, reason and times, and removes its keys |
| LeaseService.SchedulerService.RecoverRunningTasks | scheduler/internal/service/execution_service.go:953-1161 | the recovery loop does exactly the specified pass |
| LeaseService.SchedulerService.RecoveryVerdict | scheduler/internal/service/execution_service.go:1008-1071 | the cascade of tests decides the specified reason |
| LeaseService.SchedulerService.CalculateLockTtl | scheduler/internal/service/execution_service.go:1163-1177 | the lease time of a recovered row |
| LeaseService.SchedulerService.UpdateExecutorHeartbeatWithRunningTasks | scheduler/internal/service/executor_service.go:269-297 | an executor that is online gets the new heartbeat time, any other stays as it is; every listed execution is renewed either way |
| LeaseService.SchedulerService.RegisterKnownExecutor | scheduler/internal/service/executor_service.go:67-167 | the executor is online and fresh, and the renewals of its running executions are gone |
| Lineage.BuildLineage | scheduler/internal/lineage/lineage.go:57-94 | one pass adds each newly reached task once and exactly the dependency rows leaving them; it ends on every table and fails only on a reachable missing task |
| Lineage.GetTaskLineage | scheduler/internal/lineage/lineage.go:38-55 | upstream closure plus downstream closure, each once, and exactly the rows leaving them; no answer if and only if a task of the closures is missing |
| Lineage.GetTaskImpact | scheduler/internal/lineage/lineage.go:191-229 | exactly the tasks reachable downstream other than the start, each once, cycles included |
| Lineage.CollectImpact | scheduler/internal/lineage/lineage.go:191-229 | one recursive pass of the impact search, for any set already visited |
| Lineage.ClosedIsClosure | scheduler/internal/lineage/lineage.go:57-94 | a closed set of reached tasks is the set of all tasks reachable by paths of any length |
| Lineage.RelatedIsEdge | scheduler/internal/lineage/lineage.go:112-160 | the neighbour queries return exactly the tasks joined by a dependency row |
| Lineage.EdgeMeans | scheduler/internal/lineage/lineage.go:112-160 | upstream leads from a task to its parents, downstream to its children |
| Lineage.RowsLeavingExactly | scheduler/internal/lineage/lineage.go:75-88 | the relations of a set of tasks run from parent to child, each as often as its row occurs |
| Lineage.RelatedAreRows | scheduler/internal/lineage/lineage.go:57-94 | the relations of one task are its dependency rows, as often as they occur |
| WorkerPool.Pool.Start | executor/internal/pool/pool.go:35-42 | records as many new workers as the capacity |
| WorkerPool.Pool.StartWorker | executor/internal/pool/pool.go:44-70 | records one new worker |
| WorkerPool.Pool.Submit | executor/internal/pool/pool.go:79-87 | accepted at the end of the queue exactly when fewer than twice the capacity wait |
| WorkerPool.Pool.UpdateCapacity | executor/internal/pool/pool.go:109-160 | the new workers, queue and dropped tasks of a resize; refused exactly for a capacity that is not positive |
| WorkerPool.Pool.StopWorkers | executor/internal/pool/pool.go:133-140 | the loop with the moving bound stops min(c - n, ceil(w / 2)) workers |
| WorkerPool.Pool.MigrateQueue | executor/internal/pool/pool.go:146-157 | moves what fits, drops the rest |
| WorkerPool.EveryRunFits | executor/internal/pool/pool.go:79-160 | in every run each accepted task is exactly one of queued, taken, dropped; FIFO order; workers at least capacity |
| WorkerPool.ResizeKeepsPrefix | executor/internal/pool/pool.go:146-157 | migration keeps the longest prefix that fits in twice the new capacity; growing never drops |
| WorkerPool.GrowStartsWorkers | executor/internal/pool/pool.go:120-132 | growing starts one worker for each unit of capacity and stops none |
| WorkerPool.ShrinkStopsNewest | executor/internal/pool/pool.go:133-140 | shrinking cancels min(c - n, ceil(w / 2)) workers, newest first |
| WorkerPool.EqualityKeptExactly | executor/internal/pool/pool.go:109-160 | workers equal capacity after a resize if and only if it does not go below half |
| WorkerPool.GentleRunsAreExact | executor/internal/pool/pool.go:109-160 | that equality over whole runs |
| CronLock.LockClient.AcquireTaskLock | scheduler/internal/cron/cron_scheduler.go:403-430 | succeeds exactly when the lock is free or already this node's, and then owns it |
| CronLock.LockClient.ReleaseTaskLock | scheduler/internal/cron/cron_scheduler.go:433-457 | frees exactly the node's own lock |
| CronLock.LockClient.RenewTaskLock | scheduler/internal/cron/cron_scheduler.go:460-487 | renews exactly the node's own lock |
| CronLock.MutualExclusion | scheduler/internal/cron/cron_scheduler.go:359-371 | in every interleaving without overlap on one node, at most one execution of a task is between acquire and release, and its node owns the lock |
| CronLock.StepKeepsInv | scheduler/internal/cron/cron_scheduler.go:359-487 | every script of every node keeps the invariant behind exclusion |
| CronLock.ExclusionExact | scheduler/internal/cron/cron_scheduler.go:299-371 | every state of a run is exclusive if and only if no node acquires a task that it is running already |
| CronLock.OverlapBreaksExclusion | scheduler/internal/cron/cron_scheduler.go:299-400 | for any two nodes and any task, overlap on the one leads to a state in which both are running it |
| CronLock.StrangersChangeNothing | scheduler/internal/cron/cron_scheduler.go:433-487 | release or renewal by a node that does not own the lock changes nothing |
| CronLock.CrashKeepsLock | scheduler/internal/cron/cron_scheduler.go:403-487 | after a crash, in every run in which the crashed node id does not acquire the task again, it keeps the lock and any other node's acquire is refused |
| CronEntries.CronScheduler.RegisterTask | scheduler/internal/cron/cron_scheduler.go:247-284 | the task gets a new entry, its old one goes, others stay; an unparsable expression leaves it unscheduled |
| CronEntries.CronScheduler.UnregisterTask | scheduler/internal/cron/cron_scheduler.go:287-296 | the task's entry is gone from both maps |
| CronEntries.CronScheduler.OnLoseLeader | scheduler/internal/cron/cron_scheduler.go:116-132 | a leader loses every entry; any other node changes nothing |
| CronEntries.CronScheduler.OnBecomeLeader | scheduler/internal/cron/cron_scheduler.go:73-96 | the cron library is started once for all, and tasks are loaded exactly when the node was not leader before |
| CronEntries.CronScheduler.LoadAndRegisterTasks | scheduler/internal/cron/cron_scheduler.go:210-244 | registers the enabled tasks that have an expression, up to a loss of leadership |
| CronEntries.RegisteredExactly | scheduler/internal/cron/cron_scheduler.go:73-296 | over every history, a task is registered if and only if its last registration parsed and neither an unregistration nor a loss of leadership followed |
| CronEntries.TickRunsEachOnce | scheduler/internal/cron/cron_scheduler.go:259-283 | while map and entries agree, a tick due for every entry runs each registered task exactly once and no other |
| CronEntries.AgreeIsBijection | scheduler/internal/cron/cron_scheduler.go:247-296 | entry map and cron entries that agree are inverse bijections |
| CircuitBreaker.CircuitBreaker.AllowRequest | scheduler/internal/datasource/circuit_breaker.go:67-92 | the answer and the next state |
| CircuitBreaker.CircuitBreaker.RecordSuccess | scheduler/internal/datasource/circuit_breaker.go:95-114 | the next state |
| CircuitBreaker.CircuitBreaker.RecordFailure | scheduler/internal/datasource/circuit_breaker.go:117-144 | the next state |
| CircuitBreaker.CounterLaw | scheduler/internal/datasource/circuit_breaker.go:67-144 | over every history: closed, the counter is the current failure run, below 5; half-open, the successes since entry, below 2 |
| CircuitBreaker.OpensAtFifthFailure | scheduler/internal/datasource/circuit_breaker.go:117-144 | closed opens exactly at the fifth failure in a row |
| CircuitBreaker.OpenAdmitsExactly | scheduler/internal/datasource/circuit_breaker.go:67-92 | open admits a request if and only if more than 30 seconds have passed since it opened |
| CircuitBreaker.AdmitsExactly | scheduler/internal/datasource/circuit_breaker.go:67-92 | closed and half-open admit every request, open exactly those after the 30 seconds |
| CircuitBreaker.TriesExactly | scheduler/internal/datasource/circuit_breaker.go:67-92 | half-open is entered exactly by a request admitted while open |
| CircuitBreaker.StaysOpen | scheduler/internal/datasource/circuit_breaker.go:67-144 | no events within those 30 seconds but a reset leave the open state |
| CircuitBreaker.ClosesOnlyByTrial | scheduler/internal/datasource/circuit_breaker.go:95-170 | closed again exactly by a reset or by the second success without failure in half-open |
| CircuitBreaker.TrialFailureReopens | scheduler/internal/datasource/circuit_breaker.go:117-144 | a failure in half-open opens again, from that time |
| QueryCache.SameKey | scheduler/internal/datasource/cache.go:212-215 | without a collision, two queries share a key exactly when datasource, limit and joined database and statement agree |
| QueryCache.DatabasesShareKeys | scheduler/internal/datasource/cache.go:212-215 | different databases can share a key exactly when one name begins with the other and a colon; colon-free names never |
| QueryCache.ColonConfuses | scheduler/internal/datasource/cache.go:212-215 | two different queries with one key |
| QueryCache.PrefixFits | scheduler/internal/datasource/cache.go:134-135 | the scan prefix of a datasource fits its own keys only, so 1 never matches 12 |
| QueryCache.CacheRefinesMap | scheduler/internal/datasource/cache.go:73-163 | in every run the cache answers as a map keyed by datasource, database, statement and limit |
| QueryCache.HitExactly | scheduler/internal/datasource/cache.go:73-163 | over every run: a query hits if and only if caching is on, its latest storing was while caching was on, no invalidation of its datasource came later, and its time has not run out |
| QueryCache.EvictionsAreRemovals | scheduler/internal/datasource/cache.go:138-159 | the evictions counted are the entries removed, when the scan repeats no key |
| QueryCache.InvalidateExactly | scheduler/internal/datasource/cache.go:134-163 | invalidation removes exactly the datasource's queries and no key outside the query cache |
| QueryCache.ByDatabaseIsPrecise | scheduler/internal/datasource/cache.go:166-207 | invalidation by database is precise if and only if no other database of the datasource is cached |
| QueryCache.ScanDeletes | scheduler/internal/datasource/cache.go:138-154 | deleting page by page removes matching keys only, and all of them when the scan completes, repeats or not |
| QueryCache.CacheService.Get | scheduler/internal/datasource/cache.go:73-112 | a hit exactly when the cache is on and the entry has not expired; hits and misses counted |
| QueryCache.CacheService.Set | scheduler/internal/datasource/cache.go:116-132 | stores under the query's key when the cache is on |
| QueryCache.CacheService.Invalidate | scheduler/internal/datasource/cache.go:134-163 | the cursor loop leaves exactly the keys of other datasources; a failed scan reports an error and counts nothing |
| QueryCache.CacheService.InvalidateByDatabase | scheduler/internal/datasource/cache.go:166-207 | the same for every database name |
| Permissions.GetIncludedPermissions | scheduler/internal/datasource/permission.go:25-34 | exactly the actions a valid type allows; nothing for an unknown type |
| Permissions.GetEffectivePermissions | scheduler/internal/datasource/permission.go:36-54 | exactly the types that allow an action, in any iteration order of the table |
| Permissions.IsValidPermissionType | scheduler/internal/datasource/permission.go:12-23 | the valid types are exactly the keys of the inclusion table |
| Permissions.CoversIsTransitive | scheduler/internal/datasource/permission.go:3-10 | the inclusion table is transitively closed |
| Permissions.TableIsAChain | scheduler/internal/datasource/permission.go:3-10 | the table is the chain read, query, download, update, manage, with delete beside it and included in manage alone |
| Permissions.DatasourceService.GrantPermission | scheduler/internal/datasource/service.go:299-370 | the table after a grant, with either statement failing; success exactly when the row is inserted |
| Permissions.DatasourceService.CheckPermission | scheduler/internal/datasource/service.go:425-488 | allows exactly what the user's own rows or the rows of one of the user's roles allow; errors only from a query that was needed |
| Permissions.GrantsLoseNothing | scheduler/internal/datasource/service.go:299-370 | after any sequence of grants to one user or one role each, every subject may do on every datasource exactly what it could before plus what its grants include |
| Permissions.GrantAddsExactly | scheduler/internal/datasource/service.go:299-370 | in any table, a successful grant adds exactly the new type's actions to every subject it names |
| Permissions.GrantSweepsExactly | scheduler/internal/datasource/service.go:308-339 | exactly which rows a grant deletes, and that the new row is the only other change |
| Permissions.StrangerKeepsExactly | scheduler/internal/datasource/service.go:314-339 | a subject the grant does not name gains nothing, and loses nothing if and only if its swept rows are covered by its surviving ones |
| Permissions.HalfwayGrantLoses | scheduler/internal/datasource/service.go:334-366 | a grant whose insert fails after its delete costs nothing if and only if the swept rows are covered |
| Permissions.SharedRowIsLost | scheduler/internal/datasource/service.go:314-339 | a concrete grant to a role that takes an action from a user |
| Permissions.GrantsKeepTypes | scheduler/internal/datasource/service.go:304-306 | grants leave only valid types in the table |
| SchedulerProbe.MultiClient.ConnectToScheduler | executor/internal/grpcclient/client.go:117-192 | probes the addresses one position after the other, round the list, up to the first leader; stores and returns the leader, else the first follower, else nothing; open afterwards are exactly the returned connection and the first follower before it |
| SchedulerProbe.MultiClient.TryScheduler | executor/internal/grpcclient/client.go:127-177 | one attempt at the address the index points to: what is opened, closed, stored and by how much the index moves |
| SchedulerProbe.RotationIsFair | executor/internal/grpcclient/client.go:96-103 | no two attempts of a call use one position; a full round returns to its start |
| SchedulerProbe.ProbesCoverTheList | executor/internal/grpcclient/client.go:96-130 | with distinct addresses a call probes none twice, and every one when no leader answers |
| Backoff.BackoffDelay | executor/internal/grpcclient/client.go:505-514 | the capped doubling plus jitter when the doubling fits in 64 bits; otherwise whatever the conversion gives, capped |
| Backoff.Fits | executor/internal/grpcclient/client.go:328-332 | from three seconds the doubling fits in 64 bits if and only if there were at most 31 retries, and is at the cap from the fifth on |
| Backoff.IntendedDoubles | executor/internal/grpcclient/client.go:505-514 | the intended delay starts at three seconds and doubles up to a minute |
| Backoff.IntendedGrows | executor/internal/grpcclient/client.go:505-514 | the intended delay never shrinks and stays between three seconds and a minute |
| CancelMailbox.Server.AddCancelExecutionId | scheduler/internal/grpcserver/server.go:52-56 | the id waits at the end of the executor's list |
| CancelMailbox.Server.TakeHeartbeat | scheduler/internal/grpcserver/server.go:187-202 | a named heartbeat returns the executor's list, leaves it empty and every other list as it was, and clears the sync flag; an unnamed one takes nothing |
| CancelMailbox.Server.SyncRunningTasks | scheduler/internal/grpcserver/server.go:217-229 | asks for a full sync with the next heartbeat |
| CancelMailbox.RunLosesNothing | scheduler/internal/grpcserver/server.go:52-56 | in every interleaving, from any boxes: the lists returned followed by what waits are what waited before followed by what was added since |
| CancelMailbox.MailboxDelivers | scheduler/internal/grpcserver/server.go:187-202 | all lists ever returned to an executor, followed by what waits, equal everything ever added for it, in order |
| CancelMailbox.HeartbeatCatchesUp | scheduler/internal/grpcserver/server.go:187-202 | with a heartbeat of its own an executor has been handed everything |
| JsonEscape.FivePassesAreOne | scheduler/internal/handler/task.go:920-927 | the five successive replacements equal one per-character pass |
| JsonEscape.UnescapeInverts | scheduler/internal/handler/task.go:920-927 | the output is well escaped, and unescaping it recovers every input |
| JsonEscape.EscapeIsBijective | scheduler/internal/handler/task.go:920-927 | the outputs are exactly the texts in which the five characters occur only in escape pairs, and no two inputs share one |
| JsonEscape.ReaderRecovers | scheduler/internal/handler/task.go:920-927 | a JSON reader gets back exactly the text and stops at its closing quotation mark, if and only if no other control character occurs in it |

## Left out

- Admission.AdmissionIsSafe: limits stay fixed during a run; that a key expires five minutes after its first INCR is not modelled, it may expire at any time (`Admission.ExpiryCostsExactly`).
- Admission.ConcurrentService.Release: calls of one release function do not overlap; the flag is not guarded in the program, so overlapping ones could both decrement.
- Admission.CalibrationIsRight: the calibration is one step, and the counts it is told are those of unreleased permits; what counts them is a callback that only the repository's tests provide.
- RegistryRuns.NodesRefineRegistry: `Register` writes Redis in the same step as the local map, `UpdateResult` writes both keys in one step, Redis never fails, and keys do not expire (expiry is `QueryLifetime.dfy`).
- RegistryRuns.DrivenIsAdmissible: every query id is new; the program takes the day and 32 random bits for it.
- QueryRegistry.QueryRegistry.Get: later changes to the returned record, which the program shares with its callers, are not modelled.
- LeaseSafety.LeaseSafety: each pass is one instant; `LeasePasses.PassLeaseSafety` has them row by row.
- LeasePasses.PassLeaseSafety: the check of one row is one instant, and failures of single statements are not modelled.
- LeaseService.SchedulerService.RegisterKnownExecutor: the insertion of a new executor and the rejection of a duplicate host are not modelled; neither touches a lease of another executor.
- WorkerPool.Pool.UpdateCapacity: atomic, so no task is taken or submitted while the queue migrates; workers are recorded ones, since closing the old queue ends workers that idle on it; 32-bit overflow of the capacity is not modelled.
- WorkerPool.Pool.Submit: atomic; in the program it fetches the queue before it sends, so a resize in between makes it send on a closed channel, which panics (executor/internal/pool/pool.go:79-87).
- CronLock.MutualExclusion: node ids are distinct and Redis is configured; without Redis the program grants every lock.
- QueryCache.CacheRefinesMap: MD5 is a parameter assumed free of collisions among the queries in use; JSON encoding of results and errors of single GET, SET and DEL commands are not modelled, nor is the metadata cache.
- Permissions.GrantsLoseNothing: updates and revocations by row id, and the columns that record who granted what and when.
- SchedulerProbe.MultiClient.ConnectToScheduler: 64-bit overflow of the rotation index; connection stubs are represented by the number of their attempt.
- JsonEscape.ReaderRecovers: the \u escapes of section 7 of RFC 8259 are refused by the reader, because the program never writes them.
- CronEntries.CronScheduler.OnBecomeLeader: the recovery of running tasks that it starts is the recovery pass of `Leases.dfy`; loading runs after it, not beside it.
- CronEntries.CronScheduler.RegisterTask: a cron expression is represented by whether it parses with six fields and with five.
- Backoff.BackoffDelay: floating point is replaced by integers, which is exact for a whole number of nanoseconds times a power of two; the loop around it is not modelled.
- Task failure handling, manual triggering and retries; leader election; pausing of the cron scheduler.
- HTTP handlers, gRPC streams, server-sent events, metrics, logging, SQL text and row scanning, timestamps as text: plumbing without state of interest.
- Encryption, tokens, password hashing, SQL limit rewriting, drivers, shell and HTTP task execution, notifications and the frontend.
