/** The passes row by row, with everything else in between. A dead-task pass reads the rows
    and all their renewals first and then checks row after row, each at its own time; the
    offline pass reads its list first; recovery checks each row when it comes to it. */
module LeasePasses {
  import opened Prelude
  import opened Leases
  import opened LeaseSafety

  /** `scan` is what the dead-task pass under way has read, `listed` what the offline pass has. */
  datatype Pass = Pass(v: Watch, scan: Option<Watch>, listed: set<ExecutionId>)

  datatype PassEvent =
    | Other(e: Event)
    | ReadDead
    | DeadRow(id: ExecutionId)
    | ReadOffline
    | OfflineRow(id: ExecutionId)
    | RecoveryRow(id: ExecutionId)

  /** The verdict on one row at `w`, from the row and the renewal read at `read`. */
  function DeadRowReason(read: World, w: World, id: ExecutionId): Option<Reason>
    requires DeadSelected(read, id)
  {
    var x := read.executions[id];
    var e := ColumnInt(x.executorId);
    var rawTimeout := DeadTimeout(read, x);
    var noTimeout := rawTimeout <= 0;
    var online := e <= 0 || (ExecutorOf(read, x).Some? && ExecutorOf(read, x).value.status.Online?);
    var reachable := !(online && e > 0) || (e in w.executors && e in w.reachable);
    var renewal := LastRenewal(read, id);
    var ago := if renewal.Some? then Unix(w.now) - renewal.value else 9999;
    if !online then Some(ExecutorOffline)
    else if !reachable then Some(Unreachable)
    else if renewal.None? then Some(NoRenewal)
    else if !noTimeout && ago > rawTimeout then Some(RenewalExpired)
    else if !noTimeout && StartedBefore(w, x, rawTimeout) then Some(TimedOut)
    else None
  }

  /** Without delay between reading and checking, the row's verdict is that of the pass. */
  lemma RowAtOnceIsPass(w: World, id: ExecutionId)
    requires DeadSelected(w, id)
    ensures DeadRowReason(w, w, id) == DeadReason(w, id)
  {
  }

  function Fail(p: Pass, id: ExecutionId, reason: Option<Reason>): Pass {
    if reason.Some? then p.(v := p.v.(w := FailOne(p.v.w, id, reason.value))) else p
  }

  ghost function Next(p: Pass, e: PassEvent, id: ExecutionId): Pass {
    var w := p.v.w;
    match e
    case Other(o) => p.(v := Observe(p.v, o, id))
    case ReadDead => p.(scan := Some(p.v))
    case DeadRow(i) =>
      if p.scan.Some? && DeadSelected(p.scan.value.w, i) then Fail(p, i, DeadRowReason(p.scan.value.w, w, i)) else p
    case ReadOffline =>
      var m := MarkedOffline(w);
      p.(v := p.v.(w := m), listed := OfflineFailures(m).Keys)
    case OfflineRow(i) => if i in p.listed then Fail(p, i, Some(WentOffline)) else p
    case RecoveryRow(i) =>
      if !RecoverySelected(w, i) then p
      else if RecoveryReason(w, i).Some? then Fail(p, i, RecoveryReason(w, i))
      else p.(v := p.v.(w := Leased(w, i, RecoveryTtl(w, w.executions[i]))))
  }

  /** As in `LeaseSafety`; besides, no row is checked more than `lag` after it was read. */
  predicate SteadyPass(p: Pass, e: PassEvent, id: ExecutionId, x: ExecutorId, gap: int, lag: int) {
    match e
    case Other(o) => Steady(p.v, o, id, x, gap)
    case DeadRow(_) => p.scan.Some? ==> p.v.w.now <= p.scan.value.w.now + lag
    case _ => true
  }

  /** What gap and lag together must not exceed: 45 seconds for the gap alone, the timeout
      for both. */
  predicate TolerablePass(w: World, id: ExecutionId, gap: int, lag: int)
    requires id in w.executions
  {
    && 0 <= gap <= OFFLINE_AFTER && 0 <= lag
    && (Deadline(w, id).Some? ==> gap + lag <= Deadline(w, id).value * SECOND)
  }

  /** The lease is alive, and was when the passes under way read it. */
  ghost predicate PassAlive(p: Pass, id: ExecutionId, x: ExecutorId, gap: int) {
    && Alive(p.v, id, x, gap) && id !in p.listed
    && (p.scan.Some? ==>
          && Alive(p.scan.value, id, x, gap) && p.scan.value.w.now <= p.v.w.now
          && p.scan.value.w.executions[id] == p.v.w.executions[id] && p.scan.value.w.tasks == p.v.w.tasks)
  }

  /** Exactly when a row's check fails a live lease: the renewal that was read is older than
      the timeout by now, or the timeout has passed since the start. */
  lemma RowVerdictExact(p: Pass, id: ExecutionId, x: ExecutorId, gap: int)
    requires PassAlive(p, id, x, gap) && gap <= OFFLINE_AFTER
    requires p.scan.Some? && DeadSelected(p.scan.value.w, id)
    ensures LastRenewal(p.scan.value.w, id).Some?
    ensures DeadRowReason(p.scan.value.w, p.v.w, id).Some? <==>
      match Deadline(p.v.w, id)
      case Some(t) => Unix(p.v.w.now) - LastRenewal(p.scan.value.w, id).value > t || !InTime(p.v.w, id)
      case None => false
  {
  }

  /** The row of the live lease is kept when the lag leaves room for it. */
  lemma DeadRowKeeps(p: Pass, id: ExecutionId, x: ExecutorId, gap: int, lag: int)
    requires PassAlive(p, id, x, gap) && TolerablePass(p.v.w, id, gap, lag) && InTime(p.v.w, id)
    requires SteadyPass(p, DeadRow(id), id, x, gap, lag)
    ensures Next(p, DeadRow(id), id) == p
  {
    if p.scan.Some? && DeadSelected(p.scan.value.w, id) {
      RowVerdictExact(p, id, x, gap);
      if Deadline(p.v.w, id).Some? {
        UnixGap(p.scan.value.beat, p.v.w.now, Deadline(p.v.w, id).value);
      }
    }
  }

  /** Failing another row does not touch the lease. */
  lemma OthersFail(p: Pass, i: ExecutionId, reason: Option<Reason>, id: ExecutionId, x: ExecutorId, gap: int)
    requires PassAlive(p, id, x, gap) && i != id
    ensures PassAlive(Fail(p, i, reason), id, x, gap)
    ensures Fail(p, i, reason).v.w.executions[id] == p.v.w.executions[id]
  {
  }

  lemma ReadOfflineKeeps(p: Pass, id: ExecutionId, x: ExecutorId, gap: int)
    requires PassAlive(p, id, x, gap) && gap <= OFFLINE_AFTER
    ensures PassAlive(Next(p, ReadOffline, id), id, x, gap)
  {
    OfflineVerdict(p.v.w, id, x);
  }

  lemma RecoveryRowKeeps(p: Pass, i: ExecutionId, id: ExecutionId, x: ExecutorId, gap: int)
    requires PassAlive(p, id, x, gap) && Tolerable(p.v.w, id, gap) && InTime(p.v.w, id)
    ensures PassAlive(Next(p, RecoveryRow(i), id), id, x, gap)
    ensures Next(p, RecoveryRow(i), id).v.w.executions[id] == p.v.w.executions[id]
  {
    var w := p.v.w;
    if RecoverySelected(w, i) {
      VerdictsOnLiveLease(p.v, id, x, gap);
      LeaseTtls(w, i);
      if i != id {
        OthersFail(p, i, RecoveryReason(w, i), id, x, gap);
      }
    }
  }

  lemma NextKeepsAlive(p: Pass, e: PassEvent, id: ExecutionId, x: ExecutorId, gap: int, lag: int)
    requires PassAlive(p, id, x, gap) && TolerablePass(p.v.w, id, gap, lag) && InTime(p.v.w, id)
    requires SteadyPass(p, e, id, x, gap, lag)
    ensures var q := Next(p, e, id);
      && PassAlive(q, id, x, gap)
      && q.v.w.executions[id] == p.v.w.executions[id] && q.v.w.tasks == p.v.w.tasks
  {
    match e
    case Other(o) => StepKeepsAlive(p.v, o, id, x, gap);
    case ReadDead =>
    case DeadRow(i) =>
      if i == id {
        DeadRowKeeps(p, id, x, gap, lag);
      } else if p.scan.Some? && DeadSelected(p.scan.value.w, i) {
        OthersFail(p, i, DeadRowReason(p.scan.value.w, p.v.w, i), id, x, gap);
      }
    case ReadOffline => ReadOfflineKeeps(p, id, x, gap);
    case OfflineRow(i) =>
      if i in p.listed {
        OthersFail(p, i, Some(WentOffline), id, x, gap);
      }
    case RecoveryRow(i) => RecoveryRowKeeps(p, i, id, x, gap);
  }

  ghost function AfterAll(p: Pass, es: seq<PassEvent>, id: ExecutionId): Pass
    decreases |es|
  {
    if es == [] then p else AfterAll(Next(p, es[0], id), es[1..], id)
  }

  ghost predicate SteadyAll(p: Pass, es: seq<PassEvent>, id: ExecutionId, x: ExecutorId, gap: int, lag: int)
    decreases |es|
  {
    es == [] || (SteadyPass(p, es[0], id, x, gap, lag) && SteadyAll(Next(p, es[0], id), es[1..], id, x, gap, lag))
  }

  lemma {:induction false} ClockMovesOn(p: Pass, es: seq<PassEvent>, id: ExecutionId)
    ensures p.v.w.now <= AfterAll(p, es, id).v.w.now
    decreases |es|
  {
    if es != [] {
      if es[0].Other? {
        TimeMovesOn(p.v, [es[0].e], id);
        assert [es[0].e][1..] == [];
      }
      ClockMovesOn(Next(p, es[0], id), es[1..], id);
    }
  }

  /** Lease safety with passes that take their time: when gap and lag together stay within
      the timeout, no row check of any pass, whatever happens in between, ends a steadily
      renewed execution before its start plus timeout, nor ever without a timeout. */
  lemma {:induction false} PassLeaseSafety(p: Pass, es: seq<PassEvent>, id: ExecutionId, x: ExecutorId,
                                           gap: int, lag: int)
    requires PassAlive(p, id, x, gap) && TolerablePass(p.v.w, id, gap, lag) && SteadyAll(p, es, id, x, gap, lag)
    requires match Deadline(p.v.w, id)
             case Some(t) => p.v.w.executions[id].startTime.Some? ==>
               AfterAll(p, es, id).v.w.now - p.v.w.executions[id].startTime.value <= t * SECOND
             case None => true
    ensures PassAlive(AfterAll(p, es, id), id, x, gap)
    ensures AfterAll(p, es, id).v.w.executions[id] == p.v.w.executions[id]
    decreases |es|
  {
    if es != [] {
      ClockMovesOn(p, es, id);
      NextKeepsAlive(p, es[0], id, x, gap, lag);
      PassLeaseSafety(Next(p, es[0], id), es[1..], id, x, gap, lag);
    }
  }
}
