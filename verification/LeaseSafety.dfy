/** What the three procedures together guarantee to an execution whose executor keeps
    heartbeating, and how recovery and cleanup agree. */
module LeaseSafety {
  import opened Prelude
  import opened Leases

  // ---------------------------------------------------------------- runs

  datatype Event =
    | Elapse(d: nat)
    | Beat(executor: ExecutorId, ids: seq<ExecutionId>)
    | Dead
    | OfflineExecutors
    | StaleTaskLocks
    | Recovery
    | Register(executor: ExecutorId)
    | Report(id: ExecutionId, status: Status, text: string, reported: Option<Span>)
    | Insert(id: ExecutionId, row: Execution)
    | Connectivity(reachable: set<ExecutorId>)
    | SetStatus(executor: ExecutorId, state: ExecutorStatus)

  ghost function Step(w: World, e: Event): World {
    match e
    case Elapse(d) => w.(now := w.now + d)
    case Beat(x, ids) => Heartbeat(w, x, ids)
    case Dead => DeadPass(w)
    case OfflineExecutors => OfflinePass(w)
    case StaleTaskLocks => StaleLockPass(w)
    case Recovery => RecoveryPass(w)
    case Register(x) => Registration(w, x)
    case Report(id, status, text, reported) => ResultReported(w, id, status, text, reported)
    case Insert(id, row) => if id in w.executions then w else w.(executions := w.executions[id := row])
    case Connectivity(r) => w.(reachable := r)
    case SetStatus(x, st) =>
      if x in w.executors then w.(executors := w.executors[x := w.executors[x].(status := st)]) else w
  }

  /** A world, and the time of the last heartbeat that listed the watched execution. */
  datatype Watch = Watch(w: World, beat: int)

  ghost function Observe(v: Watch, e: Event, id: ExecutionId): Watch {
    Watch(Step(v.w, e), if e.Beat? && id in e.ids then v.w.now else v.beat)
  }

  /** The executor `x` stays online and connected, does not register again, and lists
      the execution in heartbeats at most `gap` apart; nobody else reports its result. */
  predicate Steady(v: Watch, e: Event, id: ExecutionId, x: ExecutorId, gap: int) {
    match e
    case Elapse(d) => v.w.now + d <= v.beat + gap
    case Beat(y, ids) => id in ids ==> y == x
    case Register(y) => y != x
    case Report(i, _, _, _) => i != id
    case Connectivity(r) => x in r
    case SetStatus(y, _) => y != x
    case _ => true
  }

  /** The deadline of an execution in seconds after its start; None when it has no timeout.
      A NULL timeout and a deleted task both count as the default 300 seconds. */
  function Deadline(w: World, id: ExecutionId): Option<int>
    requires id in w.executions
  {
    var t := if w.executions[id].taskId in w.tasks
             then w.tasks[w.executions[id].taskId].GetOr(DEFAULT_TIMEOUT) else DEFAULT_TIMEOUT;
    if t > 0 then Some(t) else None
  }

  predicate InTime(w: World, id: ExecutionId)
    requires id in w.executions
  {
    match Deadline(w, id)
    case Some(t) => !StartedBefore(w, w.executions[id], t)
    case None => true
  }

  /** The lease of a running execution as its executor's heartbeats keep it. */
  predicate Alive(v: Watch, id: ExecutionId, x: ExecutorId, gap: int) {
    var w := v.w;
    && x > 0 && x in w.reachable && x in w.executors
    && w.executors[x].status.Online? && w.executors[x].lastHeartbeat.Some?
    && v.beat <= w.executors[x].lastHeartbeat.value
    && id in w.executions && w.executions[id].status.Running? && w.executions[id].executorId == Some(x)
    && w.executions[id].taskId in w.tasks
    && id in w.renewals
    && Unix(v.beat) <= w.renewals[id].value && v.beat + 60 * SECOND <= w.renewals[id].expires
    && v.beat <= w.now <= v.beat + gap
  }

  /** The gap the passes tolerate: 45 seconds, and not more than the timeout. */
  predicate Tolerable(w: World, id: ExecutionId, gap: int)
    requires id in w.executions
  {
    && gap <= OFFLINE_AFTER
    && (Deadline(w, id).Some? ==> gap <= Deadline(w, id).value * SECOND)
  }

  lemma UnixGap(a: int, b: int, seconds: int)
    requires b <= a + seconds * SECOND
    ensures Unix(b) <= Unix(a) + seconds
  {
  }

  /** A lease kept alive has been renewed recently enough for every procedure. */
  lemma AliveIsRenewed(v: Watch, id: ExecutionId, x: ExecutorId, gap: int)
    requires Alive(v, id, x, gap) && Tolerable(v.w, id, gap)
    ensures LastRenewal(v.w, id).Some?
    ensures Deadline(v.w, id).Some? ==> RenewedAgo(v.w, id) <= Deadline(v.w, id).value
  {
    if Deadline(v.w, id).Some? {
      UnixGap(v.beat, v.w.now, Deadline(v.w, id).value);
    }
  }

  /** Exactly what each procedure does to a live lease: the offline pass never takes it; the
      dead-task pass takes it if and only if it selects the row and the timeout has passed;
      recovery takes it only for the timeout, and never when the timeout is NULL. */
  lemma VerdictsOnLiveLease(v: Watch, id: ExecutionId, x: ExecutorId, gap: int)
    requires Alive(v, id, x, gap) && Tolerable(v.w, id, gap)
    ensures !OfflineSelected(MarkedOffline(v.w), id)
    ensures id in DeadFailures(v.w) <==>
      v.w.executions[id].createdAt < v.w.now - DEAD_MIN_AGE && v.w.executions[id].startTime.Some? && !InTime(v.w, id)
    ensures id in RecoveryFailures(v.w) <==>
      && v.w.executions[id].createdAt > v.w.now - RECOVERY_MAX_AGE
      && v.w.tasks[v.w.executions[id].taskId].Some? && !InTime(v.w, id)
  {
    AliveIsRenewed(v, id, x, gap);
  }

  lemma LeaseTtls(w: World, id: ExecutionId)
    ensures 60 <= RenewTtl(w, id) <= 7200
    ensures id in w.executions ==> 60 <= RecoveryTtl(w, w.executions[id]) <= 7200
  {
  }

  /** Renewing a list of executions touches only their keys and leaves fresh leases. */
  lemma {:induction false} RenewAllRenews(w: World, ids: seq<ExecutionId>)
    ensures var r := RenewAll(w, ids);
      && r == w.(locks := r.locks, renewals := r.renewals, failCounts := r.failCounts)
      && (forall id :: id in ids ==> id in r.renewals && r.renewals[id].value == Unix(w.now)
                                     && w.now + 60 * SECOND <= r.renewals[id].expires)
      && (forall id :: id !in ids ==>
            (id in r.renewals <==> id in w.renewals) && (id in w.renewals ==> r.renewals[id] == w.renewals[id]))
    decreases |ids|
  {
    if ids != [] {
      var w1 := Leased(w, ids[0], RenewTtl(w, ids[0]));
      LeaseTtls(w, ids[0]);
      RenewAllRenews(w1, ids[1..]);
      assert ids == [ids[0]] + ids[1..];
    }
  }

  lemma BeatKeepsAlive(v: Watch, e: Event, id: ExecutionId, x: ExecutorId, gap: int)
    requires Alive(v, id, x, gap) && e.Beat? && Steady(v, e, id, x, gap) && 0 <= gap
    ensures Alive(Observe(v, e, id), id, x, gap)
  {
    var beaten := Heartbeat(v.w, e.executor, []);
    RenewAllRenews(beaten, e.ids);
  }

  lemma RecoveryKeepsAlive(v: Watch, id: ExecutionId, x: ExecutorId, gap: int)
    requires Alive(v, id, x, gap) && Tolerable(v.w, id, gap) && InTime(v.w, id)
    ensures Alive(Observe(v, Recovery, id), id, x, gap)
  {
    VerdictsOnLiveLease(v, id, x, gap);
    LeaseTtls(v.w, id);
  }

  lemma StepKeepsAlive(v: Watch, e: Event, id: ExecutionId, x: ExecutorId, gap: int)
    requires Alive(v, id, x, gap) && Tolerable(v.w, id, gap) && InTime(v.w, id)
    requires Steady(v, e, id, x, gap) && 0 <= gap
    ensures var v' := Observe(v, e, id);
      && Alive(v', id, x, gap)
      && v'.w.executions[id] == v.w.executions[id] && v'.w.tasks == v.w.tasks && v.w.now <= v'.w.now
  {
    match e
    case Beat(_, ids) =>
      BeatKeepsAlive(v, e, id, x, gap);
      RenewAllRenews(Heartbeat(v.w, e.executor, []), ids);
    case Recovery => RecoveryKeepsAlive(v, id, x, gap); VerdictsOnLiveLease(v, id, x, gap);
    case Dead => VerdictsOnLiveLease(v, id, x, gap);
    case OfflineExecutors => VerdictsOnLiveLease(v, id, x, gap);
    case _ =>
  }

  ghost predicate AllSteady(v: Watch, es: seq<Event>, id: ExecutionId, x: ExecutorId, gap: int)
    decreases |es|
  {
    es == [] || (Steady(v, es[0], id, x, gap) && AllSteady(Observe(v, es[0], id), es[1..], id, x, gap))
  }

  ghost function After(v: Watch, es: seq<Event>, id: ExecutionId): Watch
    decreases |es|
  {
    if es == [] then v else After(Observe(v, es[0], id), es[1..], id)
  }

  lemma {:induction false} TimeMovesOn(v: Watch, es: seq<Event>, id: ExecutionId)
    ensures v.w.now <= After(v, es, id).w.now
    decreases |es|
  {
    if es != [] {
      if es[0].Beat? {
        RenewAllRenews(Heartbeat(v.w, es[0].executor, []), es[0].ids);
      }
      TimeMovesOn(Observe(v, es[0], id), es[1..], id);
    }
  }

  /** Lease safety: in every run in which the executor stays online and connected, does not
      register again and heartbeats the execution at tolerable gaps, no cleanup, offline or
      recovery pass, of this or any other execution, ends it before its start plus timeout,
      nor ever when it has no timeout. */
  lemma {:induction false} LeaseSafety(v: Watch, es: seq<Event>, id: ExecutionId, x: ExecutorId, gap: int)
    requires 0 <= gap && Alive(v, id, x, gap) && Tolerable(v.w, id, gap) && AllSteady(v, es, id, x, gap)
    requires match Deadline(v.w, id)
             case Some(t) => v.w.executions[id].startTime.Some? ==>
               After(v, es, id).w.now - v.w.executions[id].startTime.value <= t * SECOND
             case None => true
    ensures Alive(After(v, es, id), id, x, gap)
    ensures After(v, es, id).w.executions[id] == v.w.executions[id]
    decreases |es|
  {
    if es != [] {
      TimeMovesOn(v, es, id);
      StepKeepsAlive(v, es[0], id, x, gap);
      LeaseSafety(Observe(v, es[0], id), es[1..], id, x, gap);
    }
  }

  // ---------------------------------------------------------------- the limits of the claim

  lemma OfflineVerdict(w: World, id: ExecutionId, x: ExecutorId)
    requires id in w.executions && w.executions[id].status.Running?
    requires w.executions[id].executorId == Some(x) && x > 0 && x in w.executors
    ensures OfflineSelected(MarkedOffline(w), id) <==>
      || w.executors[x].status.Offline?
      || (w.executors[x].lastHeartbeat.Some? && w.executors[x].lastHeartbeat.value < w.now - OFFLINE_AFTER)
  {
  }

  /** The 45 seconds are exact: the offline pass fails a running execution of a known
      executor if and only if that executor is offline or silent for more than 45 seconds. */
  lemma OfflinePassExact(w: World, id: ExecutionId, x: ExecutorId)
    requires id in w.executions && w.executions[id].status.Running?
    requires w.executions[id].executorId == Some(x) && x > 0 && x in w.executors
    ensures OfflinePass(w).executions[id].status.Failed? <==>
      || w.executors[x].status.Offline?
      || (w.executors[x].lastHeartbeat.Some? && w.executors[x].lastHeartbeat.value < w.now - OFFLINE_AFTER)
  {
    OfflineVerdict(w, id, x);
  }

  /** Registering again drops the renewal, so until the next heartbeat the dead-task pass
      fails every live execution old enough for it to look at. */
  lemma RegistrationExposes(v: Watch, id: ExecutionId, x: ExecutorId, gap: int)
    requires Alive(v, id, x, gap)
    ensures var w := Registration(v.w, x);
      && LastRenewal(w, id).None?
      && (DeadPass(w).executions[id].status.Failed? <==>
            w.executions[id].createdAt < w.now - DEAD_MIN_AGE && w.executions[id].startTime.Some?)
  {
    var w := Registration(v.w, x);
    assert id in RunningOn(v.w, x);
    if DeadSelected(w, id) {
      assert DeadReason(w, id) == Some(NoRenewal);
    }
  }

  // ---------------------------------------------------------------- recovery and cleanup

  ghost predicate PositiveExecutorIds(w: World) {
    forall e :: e in w.executors ==> e > 0
  }

  /** Every row recovery scans ends failed, with the reason it found and no Redis keys left,
      or unchanged with a fresh lock and renewal; every other row keeps its row and keys. */
  lemma RecoveryOutcome(w: World, id: ExecutionId)
    requires id in w.executions
    ensures var r := RecoveryPass(w);
      if !RecoverySelected(w, id) then
        && r.executions[id] == w.executions[id]
        && (id in r.renewals <==> id in w.renewals) && (id in w.renewals ==> r.renewals[id] == w.renewals[id])
        && (id in r.locks <==> id in w.locks) && (id in w.locks ==> r.locks[id] == w.locks[id])
      else if RecoveryReason(w, id).Some? then
        && r.executions[id].status.Failed? && r.executions[id].error == RecoveryReason(w, id)
        && r.executions[id].endTime == Some(w.now)
        && id !in r.locks && id !in r.renewals && id !in r.failCounts
      else
        && r.executions[id] == w.executions[id]
        && id in r.renewals && r.renewals[id].value == Unix(w.now) && r.renewals[id].expires >= w.now + 60 * SECOND
        && id in r.locks && r.locks[id] == r.renewals[id].expires
        && id !in r.failCounts
  {
    LeaseTtls(w, id);
  }

  lemma KeptFacts(w: World, id: ExecutionId)
    requires id in RecoveryKept(w)
    ensures var r := RecoveryPass(w);
      && r.now == w.now && r.tasks == w.tasks && r.executors == w.executors && r.reachable == w.reachable
      && id in r.executions && r.executions[id] == w.executions[id]
      && LastRenewal(r, id) == Some(Unix(r.now))
  {
    RecoveryOutcome(w, id);
  }

  /** A row that recovery keeps is failed by the dead-task pass at the same instant if and
      only if its task's timeout is NULL, which cleanup reads as 300 seconds and recovery as
      no timeout, and it has run longer than that. */
  lemma RecoveryAgreesWithDeadPass(w: World, id: ExecutionId)
    requires PositiveExecutorIds(w) && id in RecoveryKept(w)
    ensures var r := RecoveryPass(w); var x := w.executions[id];
      id in DeadFailures(r) <==>
        && x.taskId in w.tasks && w.tasks[x.taskId].None?
        && x.createdAt < w.now - DEAD_MIN_AGE && StartedBefore(w, x, DEFAULT_TIMEOUT)
  {
    var r := RecoveryPass(w);
    KeptFacts(w, id);
    KeptWasSound(w, id);
    if DeadSelected(r, id) {
      FreshLeaseVerdict(r, id);
    }
  }

  /** What recovery has made sure of when it keeps a row. */
  lemma KeptWasSound(w: World, id: ExecutionId)
    requires PositiveExecutorIds(w) && id in RecoveryKept(w)
    ensures var x := w.executions[id];
      && x.status.Running? && Serves(w, x)
      && (RecoveryTimeout(w, x).Some? ==> !StartedBefore(w, x, RecoveryTimeout(w, x).value))
  {
  }

  predicate Serves(w: World, x: Execution) {
    ColumnInt(x.executorId) > 0 && ColumnInt(x.executorId) in w.reachable
    && ExecutorOf(w, x).Some? && ExecutorOf(w, x).value.status.Online?
  }

  /** With a serving executor and a renewal of this second, only the timeout is left. */
  lemma FreshLeaseVerdict(w: World, id: ExecutionId)
    requires DeadSelected(w, id) && Serves(w, w.executions[id]) && LastRenewal(w, id) == Some(Unix(w.now))
    ensures var x := w.executions[id]; var t := DeadTimeout(w, x);
      DeadReason(w, id).Some? <==> t > 0 && StartedBefore(w, x, t)
  {
  }

  /** A row that recovery keeps is failed by the offline pass at the same instant if and
      only if the heartbeat is more than 45 seconds old; recovery tolerates up to 90. */
  lemma RecoveryAgreesWithOfflinePass(w: World, id: ExecutionId)
    requires PositiveExecutorIds(w) && id in RecoveryKept(w)
    ensures ExecutorOf(w, w.executions[id]).Some? && ExecutorOf(w, w.executions[id]).value.lastHeartbeat.Some?
    ensures OfflineSelected(MarkedOffline(RecoveryPass(w)), id) <==>
      ExecutorOf(w, w.executions[id]).value.lastHeartbeat.value < w.now - OFFLINE_AFTER
  {
    KeptFacts(w, id);
    OfflineVerdict(RecoveryPass(w), id, ColumnInt(w.executions[id].executorId));
  }

  /** The disagreement on a NULL timeout is reachable: one task, one executor with a fresh
      heartbeat, one execution started ten minutes ago. */
  lemma NullTimeoutDisagrees()
    ensures var now := 1000 * SECOND;
      var x := Execution(1, Some(1), Running, Some(now - 600 * SECOND), None, now - 600 * SECOND, None);
      var w := World(now, map[1 := None], map["e" := x], map[1 := Executor(Online, Some(now))], {1},
                     map[], map["e" := Renewal(Unix(now), now + 60 * SECOND)], {});
      && RecoveryPass(w).executions["e"].status.Running?
      && DeadPass(RecoveryPass(w)).executions["e"].status.Failed?
  {
    var now := 1000 * SECOND;
    var x := Execution(1, Some(1), Running, Some(now - 600 * SECOND), None, now - 600 * SECOND, None);
    var w := World(now, map[1 := None], map["e" := x], map[1 := Executor(Online, Some(now))], {1},
                   map[], map["e" := Renewal(Unix(now), now + 60 * SECOND)], {});
    assert RecoverySelected(w, "e") && RecoveryReason(w, "e").None?;
    RecoveryAgreesWithDeadPass(w, "e");
    KeptFacts(w, "e");
  }
}
