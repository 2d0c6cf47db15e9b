/** What every lease procedure does to any row, spelt out in the facts it reads: live lease
    or not, executor known or not. */
module LeaseVerdicts {
  import opened Prelude
  import opened Leases
  import opened LeasePasses

  /** The dead-task pass looks at running rows that have a task and a start and are more than
      five minutes old. It fails such a row if and only if the row has a positive executor id
      and that executor is not known to be online, or is but cannot be reached; or no renewal
      is stored; or the task has a timeout (300 seconds when the column is NULL) and the
      renewal, or the start, is older. The reason is the first of these. */
  lemma DeadPassExactly(w: World, id: ExecutionId)
    requires id in w.executions
    ensures var x, y := w.executions[id], DeadPass(w).executions[id];
      if !(x.status == Running && x.taskId in w.tasks && x.startTime.Some? && x.createdAt + 300_000_000_000 < w.now)
      then y == x
      else
        var e, t := x.executorId.GetOr(0), w.tasks[x.taskId].GetOr(300);
        var offline := e > 0 && (e !in w.executors || w.executors[e].status != Online);
        var unreachable := e > 0 && e !in w.reachable;
        var unrenewed := id !in w.renewals || w.renewals[id].expires <= w.now;
        var stale := !unrenewed && t > 0 && w.now / 1_000_000_000 - w.renewals[id].value > t;
        var overdue := t > 0 && w.now - x.startTime.value > t * 1_000_000_000;
        && (y.status == Failed <==> offline || unreachable || unrenewed || stale || overdue)
        && (y.status != Failed ==> y == x)
        && (y.status == Failed ==>
              y == x.(status := Failed, endTime := Some(w.now), error := Some(
                if offline then ExecutorOffline else if unreachable then Unreachable
                else if unrenewed then NoRenewal else if stale then RenewalExpired else TimedOut)))
  {
  }

  /** The same for one row that was read at `read` and is checked at `w`: its executor's state,
      its timeout and its renewal are those that were read, the rest is current. */
  lemma DeadRowExactly(read: World, w: World, id: ExecutionId)
    requires id in read.executions
    ensures var x := read.executions[id];
      && (DeadSelected(read, id) <==>
            && x.status == Running && x.taskId in read.tasks && x.startTime.Some?
            && x.createdAt + 300_000_000_000 < read.now)
      && (DeadSelected(read, id) ==>
            var e, t := x.executorId.GetOr(0), read.tasks[x.taskId].GetOr(300);
            var offline := e > 0 && (e !in read.executors || read.executors[e].status != Online);
            var unreachable := e > 0 && (e !in w.executors || e !in w.reachable);
            var unrenewed := id !in read.renewals || read.renewals[id].expires <= read.now;
            var stale := !unrenewed && t > 0 && w.now / 1_000_000_000 - read.renewals[id].value > t;
            var overdue := t > 0 && w.now - x.startTime.value > t * 1_000_000_000;
            DeadRowReason(read, w, id) ==
              if offline then Some(ExecutorOffline) else if unreachable then Some(Unreachable)
              else if unrenewed then Some(NoRenewal) else if stale then Some(RenewalExpired)
              else if overdue then Some(TimedOut) else None)
  {
  }

  /** Recovery looks at running rows created in the last 24 hours. It fails such a row if and
      only if its executor is not known to be online, or has been silent for 90 seconds, or
      cannot be reached; or no renewal is stored; or the task has a positive timeout (300
      seconds when the task is gone) and the renewal, or the start, is older. */
  lemma RecoveryPassExactly(w: World, id: ExecutionId)
    requires id in w.executions
    ensures var x, y := w.executions[id], RecoveryPass(w).executions[id];
      if !(x.status == Running && x.createdAt + 86_400_000_000_000 > w.now)
      then y == x
      else
        var e := x.executorId.GetOr(0);
        var t := if x.taskId in w.tasks then w.tasks[x.taskId].GetOr(0) else 300;
        var offline := e !in w.executors || w.executors[e].status != Online;
        var silent := !offline && (w.executors[e].lastHeartbeat.None?
                                   || w.now - w.executors[e].lastHeartbeat.value >= 90_000_000_000);
        var unreachable := e !in w.reachable;
        var unrenewed := id !in w.renewals || w.renewals[id].expires <= w.now;
        var stale := !unrenewed && t > 0 && w.now / 1_000_000_000 - w.renewals[id].value > t;
        var overdue := t > 0 && x.startTime.Some? && w.now - x.startTime.value > t * 1_000_000_000;
        && (y.status == Failed <==> offline || silent || unreachable || unrenewed || stale || overdue)
        && (y.status != Failed ==> y == x)
        && (y.status == Failed ==>
              && y.endTime == Some(w.now) && (x.startTime.Some? ==> y.startTime == x.startTime)
              && y.error == Some(
                   if offline then ExecutorOffline else if silent then HeartbeatExpired
                   else if unreachable then Unreachable else if unrenewed then NoRenewal
                   else if stale then RenewalExpired else TimedOut))
  {
    if RecoverySelected(w, id) {
      RecoveryReasonExactly(w, id);
      RecoveryPassRow(w, id);
    }
  }

  lemma RecoveryPassRow(w: World, id: ExecutionId)
    requires RecoverySelected(w, id)
    ensures var x, y, r := w.executions[id], RecoveryPass(w).executions[id], RecoveryReason(w, id);
      if r.None? then y == x else y == Ended(x, Failed, r.value, w.now, w.now)
  {
  }

  lemma RecoveryReasonExactly(w: World, id: ExecutionId)
    requires RecoverySelected(w, id)
    ensures var x := w.executions[id];
      var e := x.executorId.GetOr(0);
      var t := if x.taskId in w.tasks then w.tasks[x.taskId].GetOr(0) else 300;
      var offline := e !in w.executors || w.executors[e].status != Online;
      var silent := !offline && (w.executors[e].lastHeartbeat.None?
                                 || w.now - w.executors[e].lastHeartbeat.value >= 90_000_000_000);
      var unreachable := e !in w.reachable;
      var unrenewed := id !in w.renewals || w.renewals[id].expires <= w.now;
      var stale := !unrenewed && t > 0 && w.now / 1_000_000_000 - w.renewals[id].value > t;
      var overdue := t > 0 && x.startTime.Some? && w.now - x.startTime.value > t * 1_000_000_000;
      RecoveryReason(w, id) ==
        if offline then Some(ExecutorOffline) else if silent then Some(HeartbeatExpired)
        else if unreachable then Some(Unreachable) else if unrenewed then Some(NoRenewal)
        else if stale then Some(RenewalExpired) else if overdue then Some(TimedOut) else None
  {
  }

  /** The offline pass first marks online executors offline whose heartbeat is older than 45
      seconds, and then fails exactly the running rows without an executor id, with id 0, or
      with a known executor that is offline by then or whose heartbeat is that old. */
  lemma OfflinePassExactly(w: World, id: ExecutionId, e: ExecutorId)
    ensures e in OfflinePass(w).executors <==> e in w.executors
    ensures e in w.executors ==>
      var a, b := w.executors[e], OfflinePass(w).executors[e];
      var silent := a.lastHeartbeat.Some? && a.lastHeartbeat.value + 45_000_000_000 < w.now;
      b == if a.status == Online && silent then a.(status := Offline) else a
    ensures id in w.executions ==>
      var x, y := w.executions[id], OfflinePass(w).executions[id];
      var known := x.executorId.Some? && x.executorId.value in w.executors;
      var lost := || x.executorId == None || x.executorId == Some(0)
                  || (known && w.executors[x.executorId.value].status == Offline)
                  || (known && w.executors[x.executorId.value].lastHeartbeat.Some?
                      && w.executors[x.executorId.value].lastHeartbeat.value + 45_000_000_000 < w.now);
      if x.status != Running || !lost then y == x
      else y.status == Failed && y.endTime == Some(w.now) && y.error == Some(WentOffline)
  {
  }

  /** A failed row loses its lock, renewal and fail count; nothing else is deleted. */
  lemma FailedRowsLoseTheirKeys(w: World, f: map<ExecutionId, Reason>, id: ExecutionId)
    ensures var r := FailAll(w, f);
      && (id in r.locks <==> id in w.locks && id !in f)
      && (id in r.renewals <==> id in w.renewals && id !in f)
      && (id in r.failCounts <==> id in w.failCounts && id !in f)
      && (id in r.locks ==> r.locks[id] == w.locks[id])
      && (id in r.renewals ==> r.renewals[id] == w.renewals[id])
  {
  }

  /** The stale-lock pass deletes the lock and renewal of an execution exactly when it holds an
      unexpired lock and is not a running row of an existing task. It resets the fail count of
      such an execution, and of a running one unless its renewal is older than its timeout. */
  lemma StaleLockPassExactly(w: World, id: ExecutionId)
    ensures var r := StaleLockPass(w);
      var running := id in w.executions && w.executions[id].status == Running && w.executions[id].taskId in w.tasks;
      var stale := id in w.locks && w.now < w.locks[id] && !running;
      && (id in r.locks <==> id in w.locks && !stale)
      && (id in r.renewals <==> id in w.renewals && !stale)
      && (id in r.failCounts <==>
            && id in w.failCounts && !stale
            && (running ==>
                  var t := w.tasks[w.executions[id].taskId].GetOr(300);
                  && t > 0 && id in w.renewals && w.now < w.renewals[id].expires
                  && w.now / 1_000_000_000 - w.renewals[id].value > t))
      && r == w.(locks := r.locks, renewals := r.renewals, failCounts := r.failCounts)
  {
  }

  /** The lease a renewal writes: twice the task's timeout, an hour without one, 300 seconds
      for an unknown execution or task, and in any case between one minute and two hours. */
  lemma RenewalExactly(w: World, id: ExecutionId)
    ensures var r := Leased(w, id, RenewTtl(w, id));
      var known := id in w.executions && w.executions[id].taskId in w.tasks;
      var t := if known then w.tasks[w.executions[id].taskId].GetOr(0) else 150;
      var ttl := if t > 0 then if t < 30 then 60 else if t > 3600 then 7200 else 2 * t else 3600;
      && r.renewals == w.renewals[id := Renewal(w.now / 1_000_000_000, w.now + ttl * 1_000_000_000)]
      && r.locks == w.locks[id := w.now + ttl * 1_000_000_000]
      && r.failCounts == w.failCounts - {id}
  {
  }

  /** The lease recovery writes for a row it keeps: the same rule, on the row's own task. */
  lemma RecoveryTtlExactly(w: World, x: Execution)
    ensures var t := if x.taskId in w.tasks then w.tasks[x.taskId].GetOr(0) else 150;
      RecoveryTtl(w, x) == if t <= 0 then 3600 else if t < 30 then 60 else if t > 3600 then 7200 else 2 * t
  {
  }

  /** A heartbeat moves the heartbeat time of an online executor and of no other. */
  lemma HeartbeatExactly(w: World, e: ExecutorId, ids: seq<ExecutionId>)
    ensures var r := Heartbeat(w, e, ids);
      && r.executions == w.executions && r.tasks == w.tasks && r.now == w.now
      && r.executors == if e in w.executors && w.executors[e].status == Online
                        then w.executors[e := w.executors[e].(lastHeartbeat := Some(w.now))] else w.executors
  {
    RenewAllLeavesRows(Heartbeat(w, e, []), ids);
  }

  lemma {:induction false} RenewAllLeavesRows(w: World, ids: seq<ExecutionId>)
    ensures var r := RenewAll(w, ids);
      r.executions == w.executions && r.tasks == w.tasks && r.now == w.now && r.executors == w.executors
    decreases |ids|
  {
    if ids != [] {
      RenewAllLeavesRows(Leased(w, ids[0], RenewTtl(w, ids[0])), ids[1..]);
    }
  }

  /** A registration puts the executor online as of now and drops the renewals and fail counts
      of exactly the rows still running on it, when it was known before. */
  lemma RegistrationExactly(w: World, e: ExecutorId, id: ExecutionId)
    ensures var r := Registration(w, e);
      var dropped := e in w.executors && e > 0 && id in w.executions
                     && w.executions[id].status == Running && w.executions[id].executorId == Some(e);
      && r.executors == w.executors[e := Executor(Online, Some(w.now))]
      && r.executions == w.executions && r.locks == w.locks
      && (id in r.renewals <==> id in w.renewals && !dropped)
      && (id in r.failCounts <==> id in w.failCounts && !dropped)
  {
  }

  /** A reported result sets status and text; the end is set exactly for success, failure and
      timeout; the start is set only if there was none; sensible reported times are used, else
      the clock; the keys go. */
  lemma ReportExactly(w: World, id: ExecutionId, status: Status, text: string, reported: Option<Span>)
    ensures var r := ResultReported(w, id, status, text, reported);
      && r.locks == w.locks - {id} && r.renewals == w.renewals - {id} && r.failCounts == w.failCounts - {id}
      && (id !in w.executions ==> r.executions == w.executions)
      && (id in w.executions ==>
            var x := w.executions[id];
            var usable := reported.Some? && 0 < reported.value.start <= reported.value.end;
            var start := if usable then reported.value.start * 1_000_000_000 else w.now;
            var end := if usable then reported.value.end * 1_000_000_000 else w.now;
            r.executions == w.executions[id := x.(
              status := status, error := Some(Reason.Reported(text)),
              startTime := if x.startTime == None then Some(start) else x.startTime,
              endTime := if status in {Success, Failed, Timeout} then Some(end) else x.endTime)])
  {
  }
}
