/** Task leases of the scheduler: executions are rows of a table, the lease of a running
    execution is a pair of expiring Redis keys (`task:lock:<id>` and `task:renew:<id>`)
    that executor heartbeats renew. Three procedures, written separately, decide when a
    running execution is given up: the dead-task pass, the offline pass and the recovery
    pass of a new leader. Times are nanoseconds since the Unix epoch. */
module Leases {
  import opened Prelude

  type ExecutionId = string
  type ExecutorId = int
  type TaskId = int

  const OFFLINE_AFTER := 45 * SECOND
  const RECENTLY_ACTIVE := 90 * SECOND
  const DEAD_MIN_AGE := 300 * SECOND
  const RECOVERY_MAX_AGE := 86_400 * SECOND
  const DEFAULT_TIMEOUT := 300

  function Unix(t: int): int {
    t / SECOND
  }

  datatype Reason =
    | ExecutorOffline | HeartbeatExpired | Unreachable | NoRenewal | RenewalExpired | TimedOut
    | WentOffline | Reported(text: string)

  datatype Status = Running | Success | Failed | Timeout | OtherStatus {
    predicate Ends() {
      Success? || Failed? || Timeout?
    }
  }

  datatype Execution = Execution(
    taskId: TaskId, executorId: Option<ExecutorId>, status: Status,
    startTime: Option<int>, endTime: Option<int>, createdAt: int, error: Option<Reason>)

  datatype ExecutorStatus = Online | Offline | OtherState

  datatype Executor = Executor(status: ExecutorStatus, lastHeartbeat: Option<int>)

  /** A renew key: the Unix second it was written, and when Redis drops it. */
  datatype Renewal = Renewal(value: int, expires: int)

  /** Everything the passes read: the database, Redis, the clock, and which executors
      answer a connectivity check. A task's timeout may be NULL. */
  datatype World = World(
    now: int,
    tasks: map<TaskId, Option<int>>,
    executions: map<ExecutionId, Execution>,
    executors: map<ExecutorId, Executor>,
    reachable: set<ExecutorId>,
    locks: map<ExecutionId, int>,
    renewals: map<ExecutionId, Renewal>,
    failCounts: set<ExecutionId>)

  // ---------------------------------------------------------------- reading the world

  function LastRenewal(w: World, id: ExecutionId): Option<int> {
    if id in w.renewals && w.now < w.renewals[id].expires then Some(w.renewals[id].value) else None
  }

  /** An integer column read as a Go int64: NULL becomes 0. */
  function ColumnInt(c: Option<int>): int {
    c.GetOr(0)
  }

  function ExecutorOf(w: World, x: Execution): Option<Executor> {
    var e := ColumnInt(x.executorId);
    if e in w.executors then Some(w.executors[e]) else None
  }

  /** Seconds since the last renewal, 9999 when there is none. */
  function RenewedAgo(w: World, id: ExecutionId): int {
    match LastRenewal(w, id)
    case Some(v) => Unix(w.now) - v
    case None => 9999
  }

  // ---------------------------------------------------------------- the dead-task pass

  predicate DeadSelected(w: World, id: ExecutionId) {
    && id in w.executions
    && var x := w.executions[id];
    x.status.Running? && x.taskId in w.tasks && x.startTime.Some? && x.createdAt < w.now - DEAD_MIN_AGE
  }

  function DeadTimeout(w: World, x: Execution): int
    requires x.taskId in w.tasks
  {
    w.tasks[x.taskId].GetOr(DEFAULT_TIMEOUT)
  }

  predicate StartedBefore(w: World, x: Execution, seconds: int) {
    x.startTime.Some? && w.now - x.startTime.value > seconds * SECOND
  }

  /** Why the dead-task pass fails a selected execution, or None when it keeps it. */
  function DeadReason(w: World, id: ExecutionId): Option<Reason>
    requires DeadSelected(w, id)
  {
    var x := w.executions[id];
    var e := ColumnInt(x.executorId);
    var rawTimeout := DeadTimeout(w, x);
    var noTimeout := rawTimeout <= 0;
    var online := e <= 0 || (ExecutorOf(w, x).Some? && ExecutorOf(w, x).value.status.Online?);
    var reachable := !(online && e > 0) || e in w.reachable;
    var noRenewal := LastRenewal(w, id).None?;
    var renewalExpired := !noTimeout && RenewedAgo(w, id) > rawTimeout;
    var timedOut := !noTimeout && StartedBefore(w, x, rawTimeout);
    if !online then Some(ExecutorOffline)
    else if !reachable then Some(Unreachable)
    else if noRenewal then Some(NoRenewal)
    else if renewalExpired then Some(RenewalExpired)
    else if timedOut then Some(TimedOut)
    else None
  }

  ghost function DeadFailures(w: World): map<ExecutionId, Reason> {
    map id | id in w.executions && DeadSelected(w, id) && DeadReason(w, id).Some? :: DeadReason(w, id).value
  }

  // ---------------------------------------------------------------- the offline pass

  function MarkedOffline(w: World): World {
    w.(executors := map e | e in w.executors ::
         var x := w.executors[e];
         if x.status.Online? && x.lastHeartbeat.Some? && x.lastHeartbeat.value < w.now - OFFLINE_AFTER
         then x.(status := Offline) else x)
  }

  /** Rows selected after the silent executors have been marked offline. A NULL heartbeat
      compares as unknown, a missing executor row as well. */
  predicate OfflineSelected(w: World, id: ExecutionId) {
    && id in w.executions && w.executions[id].status.Running?
    && var x := w.executions[id];
    || (x.executorId.Some? && x.executorId.value in w.executors &&
          var e := w.executors[x.executorId.value];
          e.status.Offline? || (e.lastHeartbeat.Some? && e.lastHeartbeat.value < w.now - OFFLINE_AFTER))
    || x.executorId == Some(0)
    || x.executorId.None?
  }

  ghost function OfflineFailures(w: World): map<ExecutionId, Reason> {
    map id | id in w.executions && OfflineSelected(w, id) :: WentOffline
  }

  // ---------------------------------------------------------------- the recovery pass

  predicate RecoverySelected(w: World, id: ExecutionId) {
    id in w.executions && w.executions[id].status.Running? && w.executions[id].createdAt > w.now - RECOVERY_MAX_AGE
  }

  /** The timeout recovery works with: None means no timeout. A missing task counts as 300
      seconds; a NULL timeout reads as 0 and so as none. */
  function RecoveryTimeout(w: World, x: Execution): Option<int> {
    if x.taskId !in w.tasks then Some(DEFAULT_TIMEOUT)
    else if ColumnInt(w.tasks[x.taskId]) > 0 then Some(ColumnInt(w.tasks[x.taskId]))
    else None
  }

  function RecoveryReason(w: World, id: ExecutionId): Option<Reason>
    requires RecoverySelected(w, id)
  {
    var x := w.executions[id];
    var executor := ExecutorOf(w, x);
    var timeout := RecoveryTimeout(w, x);
    var online := executor.Some? && executor.value.status.Online?;
    var active := executor.Some? && executor.value.lastHeartbeat.Some?
                  && w.now - executor.value.lastHeartbeat.value < RECENTLY_ACTIVE;
    var reachable := online && ColumnInt(x.executorId) in w.reachable;
    var noRenewal := LastRenewal(w, id).None?;
    var renewalExpired := timeout.Some? && RenewedAgo(w, id) > timeout.value;
    var timedOut := timeout.Some? && StartedBefore(w, x, timeout.value);
    if !online then Some(ExecutorOffline)
    else if !active then Some(HeartbeatExpired)
    else if !reachable then Some(Unreachable)
    else if noRenewal then Some(NoRenewal)
    else if renewalExpired then Some(RenewalExpired)
    else if timedOut then Some(TimedOut)
    else None
  }

  ghost function RecoveryFailures(w: World): map<ExecutionId, Reason> {
    map id | id in w.executions && RecoverySelected(w, id) && RecoveryReason(w, id).Some? ::
      RecoveryReason(w, id).value
  }

  ghost function RecoveryKept(w: World): set<ExecutionId> {
    set id | id in w.executions && RecoverySelected(w, id) && RecoveryReason(w, id).None?
  }

  /** The leases that recovery renews. */
  ghost function RecoveryLeases(w: World): map<ExecutionId, int> {
    map id | id in RecoveryKept(w) :: RecoveryTtl(w, w.executions[id])
  }

  // ---------------------------------------------------------------- changing the world

  /** `UpdateExecutionResult` on one row. */
  function Ended(x: Execution, status: Status, reason: Reason, start: int, end: int): Execution {
    x.(status := status, error := Some(reason),
       endTime := if status.Ends() then Some(end) else x.endTime,
       startTime := if x.startTime.None? then Some(start) else x.startTime)
  }

  /** The start and end of an execution, in nanoseconds. */
  datatype Span = Span(start: int, end: int)

  /** A start and end reported in Unix seconds is used when it makes sense, the clock otherwise. */
  function SpanOf(now: int, reported: Option<Span>): Span {
    if reported.Some? && reported.value.start > 0 && reported.value.end >= reported.value.start
    then Span(reported.value.start * SECOND, reported.value.end * SECOND)
    else Span(now, now)
  }

  function EndRow(rows: map<ExecutionId, Execution>, id: ExecutionId, status: Status, reason: Reason, span: Span)
    : map<ExecutionId, Execution>
  {
    if id in rows then rows[id := Ended(rows[id], status, reason, span.start, span.end)] else rows
  }

  /** One row ended as failed, its Redis keys deleted. */
  function FailOne(w: World, id: ExecutionId, reason: Reason): World {
    w.(executions := EndRow(w.executions, id, Failed, reason, Span(w.now, w.now)),
       locks := w.locks - {id}, renewals := w.renewals - {id}, failCounts := w.failCounts - {id})
  }

  /** Ends the given rows as failed and drops their Redis keys. */
  ghost function FailAll(w: World, f: map<ExecutionId, Reason>): World {
    w.(executions := map id | id in w.executions ::
         if id in f then Ended(w.executions[id], Failed, f[id], w.now, w.now) else w.executions[id],
       locks := w.locks - f.Keys, renewals := w.renewals - f.Keys, failCounts := w.failCounts - f.Keys)
  }

  function ClampTtl(ttl: int): int {
    if ttl < 60 then 60 else if ttl > 7200 then 7200 else ttl
  }

  /** The lease length `renewTaskLock` computes, in seconds. */
  function RenewTtl(w: World, id: ExecutionId): int {
    if id in w.executions && w.executions[id].taskId in w.tasks
    then
      var t := ColumnInt(w.tasks[w.executions[id].taskId]);
      ClampTtl(if t > 0 then t * 2 else 3600)
    else ClampTtl(300)
  }

  /** The lease length `calculateLockTTL` computes during recovery, in seconds. */
  function RecoveryTtl(w: World, x: Execution): int {
    match RecoveryTimeout(w, x)
    case Some(t) => if x.taskId in w.tasks then ClampTtl(t * 2) else ClampTtl(300)
    case None => ClampTtl(3600)
  }

  function Leased(w: World, id: ExecutionId, ttl: int): World {
    w.(locks := w.locks[id := w.now + ttl * SECOND],
       renewals := w.renewals[id := Renewal(Unix(w.now), w.now + ttl * SECOND)],
       failCounts := w.failCounts - {id})
  }

  ghost function LockTimes(now: int, ttls: map<ExecutionId, int>): map<ExecutionId, int> {
    map id | id in ttls :: now + ttls[id] * SECOND
  }

  ghost function Renewals(now: int, ttls: map<ExecutionId, int>): map<ExecutionId, Renewal> {
    map id | id in ttls :: Renewal(Unix(now), now + ttls[id] * SECOND)
  }

  /** Fresh leases of the given lengths, in seconds. */
  ghost function LeaseAll(w: World, ttls: map<ExecutionId, int>): World {
    w.(locks := w.locks + LockTimes(w.now, ttls),
       renewals := w.renewals + Renewals(w.now, ttls),
       failCounts := w.failCounts - ttls.Keys)
  }

  ghost function DeadPass(w: World): World {
    FailAll(w, DeadFailures(w))
  }

  ghost function OfflinePass(w: World): World {
    var m := MarkedOffline(w);
    FailAll(m, OfflineFailures(m))
  }

  ghost function RecoveryPass(w: World): World {
    LeaseAll(FailAll(w, RecoveryFailures(w)), RecoveryLeases(w))
  }

  function RenewAll(w: World, ids: seq<ExecutionId>): World
    decreases |ids|
  {
    if ids == [] then w else RenewAll(Leased(w, ids[0], RenewTtl(w, ids[0])), ids[1..])
  }

  /** A heartbeat that lists the executions the executor is running. */
  function Heartbeat(w: World, e: ExecutorId, ids: seq<ExecutionId>): World {
    var beaten := if e in w.executors && w.executors[e].status.Online?
                  then w.(executors := w.executors[e := w.executors[e].(lastHeartbeat := Some(w.now))])
                  else w;
    RenewAll(beaten, ids)
  }

  // ---------------------------------------------------------------- stale locks, registration

  /** The running executions the stale-lock pass knows: those whose task still exists. */
  predicate KnownRunning(w: World, id: ExecutionId) {
    id in w.executions && w.executions[id].status.Running? && w.executions[id].taskId in w.tasks
  }

  predicate RenewalRecovered(w: World, id: ExecutionId)
    requires KnownRunning(w, id)
  {
    var timeout := DeadTimeout(w, w.executions[id]);
    LastRenewal(w, id).None? || timeout <= 0 || RenewedAgo(w, id) <= timeout
  }

  function StaleLocks(w: World): set<ExecutionId> {
    set id | id in w.locks && w.now < w.locks[id] && !KnownRunning(w, id)
  }

  function RecoveredCounts(w: World): set<ExecutionId> {
    set id | id in w.executions && KnownRunning(w, id) && RenewalRecovered(w, id)
  }

  function StaleLockPass(w: World): World {
    var stale := StaleLocks(w);
    w.(locks := w.locks - stale, renewals := w.renewals - stale,
       failCounts := w.failCounts - RecoveredCounts(w) - stale)
  }

  function RunningOn(w: World, e: ExecutorId): set<ExecutionId> {
    set id | id in w.executions && w.executions[id].status.Running? && w.executions[id].executorId == Some(e)
  }

  /** An accepted registration: the renewals of the rows still running on a known executor
      are dropped, because a restarted executor will not renew them. */
  function Registration(w: World, e: ExecutorId): World {
    var stale := if e in w.executors && e > 0 then RunningOn(w, e) else {};
    w.(executors := w.executors[e := Executor(Online, Some(w.now))],
       renewals := w.renewals - stale, failCounts := w.failCounts - stale)
  }

  function ResultReported(w: World, id: ExecutionId, status: Status, text: string, reported: Option<Span>): World {
    w.(executions := EndRow(w.executions, id, status, Reason.Reported(text), SpanOf(w.now, reported)),
       locks := w.locks - {id}, renewals := w.renewals - {id}, failCounts := w.failCounts - {id})
  }
}
