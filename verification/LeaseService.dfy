/** The scheduler service's lease procedures as the service runs them: row by row, with
    Redis keys set and deleted one command at a time. Each is proved to do what the
    functions of `Leases` say of the whole world. */
module LeaseService {
  import opened Prelude
  import opened Leases

  /** The part of a verdict that a loop has already carried out. */
  ghost predicate Handled<V>(all: map<ExecutionId, V>, done: map<ExecutionId, V>, todo: set<ExecutionId>) {
    forall id :: (id in done <==> id in all && id !in todo) && (id in done ==> done[id] == all[id])
  }

  lemma FailOneMore(w: World, f: map<ExecutionId, Reason>, id: ExecutionId, r: Reason)
    requires id in w.executions && id !in f
    ensures FailOne(FailAll(w, f), id, r) == FailAll(w, f[id := r])
  {
    var m, n := FailOne(FailAll(w, f), id, r), FailAll(w, f[id := r]);
    assert f[id := r].Keys == f.Keys + {id};
    assert n.executions == m.executions;
    assert n.locks == m.locks;
    assert n.renewals == m.renewals;
  }

  lemma HandledAll<V>(all: map<ExecutionId, V>, done: map<ExecutionId, V>)
    requires Handled(all, done, {})
    ensures done == all
  {
  }

  function Took<V>(all: map<ExecutionId, V>, done: map<ExecutionId, V>, id: ExecutionId): map<ExecutionId, V> {
    if id in all then done[id := all[id]] else done
  }

  lemma HandledOne<V>(all: map<ExecutionId, V>, done: map<ExecutionId, V>, todo: set<ExecutionId>, id: ExecutionId)
    requires Handled(all, done, todo) && id in todo
    ensures id !in done && Handled(all, Took(all, done, id), todo - {id})
  {
  }

  lemma NothingDone(w: World)
    ensures LeaseAll(FailAll(w, map[]), map[]) == w
  {
    assert FailAll(w, map[]).executions == w.executions;
    assert FailAll(w, map[]) == w;
  }

  lemma PlusOne<K, V>(m: map<K, V>, f: map<K, V>, k: K, v: V)
    ensures (m + f)[k := v] == m + f[k := v]
  {
  }

  lemma PlusMinus<K, V>(m: map<K, V>, f: map<K, V>, k: K)
    requires k !in f
    ensures m + f - {k} == (m - {k}) + f
  {
  }

  lemma MinusOne<K>(s: set<K>, a: set<K>, k: K)
    ensures s - a - {k} == s - (a + {k})
  {
  }

  lemma LeaseMaps(now: int, ttls: map<ExecutionId, int>, id: ExecutionId, ttl: int)
    ensures LockTimes(now, ttls[id := ttl]) == LockTimes(now, ttls)[id := now + ttl * SECOND]
    ensures Renewals(now, ttls[id := ttl]) == Renewals(now, ttls)[id := Renewal(Unix(now), now + ttl * SECOND)]
  {
  }

  lemma LeaseOneMore(w: World, ttls: map<ExecutionId, int>, id: ExecutionId, ttl: int)
    requires id !in ttls
    ensures Leased(LeaseAll(w, ttls), id, ttl) == LeaseAll(w, ttls[id := ttl])
  {
    LeaseMaps(w.now, ttls, id, ttl);
    PlusOne(w.locks, LockTimes(w.now, ttls), id, w.now + ttl * SECOND);
    PlusOne(w.renewals, Renewals(w.now, ttls), id, Renewal(Unix(w.now), w.now + ttl * SECOND));
    MinusOne(w.failCounts, ttls.Keys, id);
    assert ttls[id := ttl].Keys == ttls.Keys + {id};
  }

  lemma FailBesideLeases(w: World, ttls: map<ExecutionId, int>, id: ExecutionId, r: Reason)
    requires id !in ttls
    ensures FailOne(LeaseAll(w, ttls), id, r) == LeaseAll(FailOne(w, id, r), ttls)
  {
    PlusMinus(w.locks, LockTimes(w.now, ttls), id);
    PlusMinus(w.renewals, Renewals(w.now, ttls), id);
    MinusOne(w.failCounts, ttls.Keys, id);
    MinusOne(w.failCounts, {id}, id);
    assert w.failCounts - ttls.Keys - {id} == w.failCounts - {id} - ttls.Keys;
  }

  /** A row not handled yet still has the renewal it had. */
  lemma SameKeys(w: World, f: map<ExecutionId, Reason>, ttls: map<ExecutionId, int>, id: ExecutionId)
    requires id !in f && id !in ttls
    ensures LastRenewal(LeaseAll(FailAll(w, f), ttls), id) == LastRenewal(w, id)
  {
  }

  class SchedulerService {
    var now: int
    var tasks: map<TaskId, Option<int>>
    var executions: map<ExecutionId, Execution>
    var executors: map<ExecutorId, Executor>
    var reachable: set<ExecutorId>
    var locks: map<ExecutionId, int>
    var renewals: map<ExecutionId, Renewal>
    var failCounts: set<ExecutionId>

    constructor (w: World)
      ensures View() == w
    {
      now, tasks, executions, executors := w.now, w.tasks, w.executions, w.executors;
      reachable, locks, renewals, failCounts := w.reachable, w.locks, w.renewals, w.failCounts;
    }

    function View(): World
      reads this
    {
      World(now, tasks, executions, executors, reachable, locks, renewals, failCounts)
    }

    method DeleteKeys(id: ExecutionId)
      modifies this`locks, this`renewals, this`failCounts
      ensures locks == old(locks) - {id} && renewals == old(renewals) - {id} && failCounts == old(failCounts) - {id}
    {
      locks := locks - {id};
      renewals := renewals - {id};
      failCounts := failCounts - {id};
    }

    method UpdateExecutionResult(id: ExecutionId, status: Status, reason: Reason, reported: Option<Span>)
      modifies this`executions, this`locks, this`renewals, this`failCounts
      ensures executions == EndRow(old(executions), id, status, reason, SpanOf(now, reported))
      ensures locks == old(locks) - {id} && renewals == old(renewals) - {id} && failCounts == old(failCounts) - {id}
    {
      var startTime, endTime := now, now;
      if reported.Some? && reported.value.start > 0 && reported.value.end > 0
         && reported.value.end >= reported.value.start {
        startTime, endTime := reported.value.start * SECOND, reported.value.end * SECOND;
      }
      UpdateRow(id, status, reason, startTime, endTime);
      DeleteKeys(id);
    }

    /** The UPDATE statement. */
    method UpdateRow(id: ExecutionId, status: Status, reason: Reason, start: int, end: int)
      modifies this`executions
      ensures executions == EndRow(old(executions), id, status, reason, Span(start, end))
    {
      if id in executions {
        var x := executions[id];
        var row := x.(status := status, error := Some(reason));
        if status == Success || status == Failed || status == Timeout {
          row := row.(endTime := Some(end));
        }
        if x.startTime == None {
          row := row.(startTime := Some(start));
        }
        executions := executions[id := row];
      }
    }

    /** Ends a row as failed and deletes its keys, as every pass does. */
    method ForceFail(id: ExecutionId, reason: Reason)
      modifies this`executions, this`locks, this`renewals, this`failCounts
      ensures View() == FailOne(old(View()), id, reason)
    {
      UpdateExecutionResult(id, Failed, reason, None);
      DeleteKeys(id);
    }

    method CleanupDeadTasks()
      modifies this`executions, this`locks, this`renewals, this`failCounts
      ensures View() == DeadPass(old(View()))
    {
      var rows := set id | id in executions && DeadSelected(View(), id);
      var renewed := map id | id in rows && LastRenewal(View(), id).Some? :: LastRenewal(View(), id).value;
      FailDeadRows(rows, renewed, View(), DeadFailures(View()));
    }

    /** The loop over the selected rows; `all` holds the verdicts to be carried out. */
    method FailDeadRows(rows: set<ExecutionId>, renewed: map<ExecutionId, int>,
                        ghost w: World, ghost all: map<ExecutionId, Reason>)
      requires View() == w && all.Keys <= rows
      requires forall id :: id in rows ==>
        && DeadSelected(w, id) && Lookup(renewed, id) == LastRenewal(w, id)
        && DeadReason(w, id) == (if id in all then Some(all[id]) else None)
      modifies this`executions, this`locks, this`renewals, this`failCounts
      ensures View() == FailAll(w, all)
    {
      var todo := rows;
      ghost var failed: map<ExecutionId, Reason> := map[];
      NothingDone(w);
      while todo != {}
        invariant todo <= rows
        invariant Handled(all, failed, todo)
        invariant View() == FailAll(w, failed)
        decreases todo
      {
        var id :| id in todo;
        HandledOne(all, failed, todo, id);
        failed := CleanupDeadTask(id, renewed, w, failed);
        todo := todo - {id};
      }
      HandledAll(all, failed);
    }

    method CleanupDeadTask(id: ExecutionId, renewed: map<ExecutionId, int>, ghost w: World,
                           ghost failed: map<ExecutionId, Reason>)
      returns (ghost failed': map<ExecutionId, Reason>)
      requires DeadSelected(w, id) && id !in failed && View() == FailAll(w, failed)
      requires Lookup(renewed, id) == LastRenewal(w, id)
      modifies this`executions, this`locks, this`renewals, this`failCounts
      ensures failed' == if DeadReason(w, id).Some? then failed[id := DeadReason(w, id).value] else failed
      ensures View() == FailAll(w, failed')
    {
      failed' := failed;
      assert executions[id] == w.executions[id];
      var reason := DeadVerdict(id, executions[id], renewed);
      assert reason == DeadReason(w, id);
      if reason.Some? {
        ForceFail(id, reason.value);
        FailOneMore(w, failed, id, reason.value);
        failed' := failed[id := reason.value];
      }
    }

    /** The tests of the dead-task loop, in the order in which they decide the reason. */
    method DeadVerdict(id: ExecutionId, x: Execution, renewed: map<ExecutionId, int>) returns (reason: Option<Reason>)
      requires x.taskId in tasks && x.startTime.Some?
      ensures forall w: World ::
        && w.now == now && w.tasks == tasks && w.executors == executors && w.reachable == reachable
        && DeadSelected(w, id) && w.executions[id] == x
        && Lookup(renewed, id) == LastRenewal(w, id)
        ==> reason == DeadReason(w, id)
    {
      var timeout := tasks[x.taskId].GetOr(DEFAULT_TIMEOUT);
      var noTimeout := timeout <= 0;
      if noTimeout {
        timeout := 300;
      }
      var lastRenewSecondsAgo := 9999;
      if id in renewed {
        lastRenewSecondsAgo := Unix(now) - renewed[id];
      }
      var e := ColumnInt(x.executorId);
      var executorOnline := true;
      if e > 0 {
        executorOnline := e in executors && executors[e].status == Online;
      }
      var executorReachable := true;
      if executorOnline && e > 0 {
        executorReachable := e in reachable;
      }
      var taskTimeout := false;
      if !noTimeout && now - x.startTime.value > timeout * SECOND {
        taskTimeout := true;
      }
      if !executorOnline {
        reason := Some(ExecutorOffline);
      } else if !executorReachable {
        reason := Some(Unreachable);
      } else if id !in renewed {
        reason := Some(NoRenewal);
      } else if !noTimeout && lastRenewSecondsAgo > timeout {
        reason := Some(RenewalExpired);
      } else if taskTimeout {
        reason := Some(TimedOut);
      } else {
        reason := None;
      }
    }

    method CleanupOfflineExecutors()
      modifies this`executors, this`executions, this`locks, this`renewals, this`failCounts
      ensures View() == OfflinePass(old(View()))
    {
      executors := map e | e in executors ::
        if executors[e].status == Online && executors[e].lastHeartbeat.Some?
           && executors[e].lastHeartbeat.value < now - OFFLINE_AFTER
        then executors[e].(status := Offline) else executors[e];
      assert View() == MarkedOffline(old(View()));
      CleanupTasksFromOfflineExecutors();
    }

    method CleanupTasksFromOfflineExecutors()
      modifies this`executions, this`locks, this`renewals, this`failCounts
      ensures View() == FailAll(old(View()), OfflineFailures(old(View())))
    {
      ghost var w := View();
      var todo := set id | id in executions && OfflineSelected(View(), id);
      ghost var failed: map<ExecutionId, Reason> := map[];
      while todo != {}
        invariant todo <= OfflineFailures(w).Keys && View() == FailAll(w, failed)
        invariant Handled(OfflineFailures(w), failed, todo)
        decreases todo
      {
        var id :| id in todo;
        ForceFail(id, WentOffline);
        FailOneMore(w, failed, id, WentOffline);
        failed := failed[id := WentOffline];
        todo := todo - {id};
      }
      HandledAll(OfflineFailures(w), failed);
    }

    method RenewTaskLock(id: ExecutionId)
      modifies this`locks, this`renewals, this`failCounts
      ensures View() == Leased(old(View()), id, RenewTtl(old(View()), id))
    {
      var lockTtl := 300;
      var noTimeout := false;
      if id in executions && executions[id].taskId in tasks {
        var taskTimeout := ColumnInt(tasks[executions[id].taskId]);
        if taskTimeout > 0 {
          lockTtl := taskTimeout * 2;
        } else {
          noTimeout := true;
        }
      }
      if noTimeout {
        lockTtl := 3600;
      }
      if lockTtl < 60 {
        lockTtl := 60;
      }
      if lockTtl > 7200 {
        lockTtl := 7200;
      }
      locks := locks[id := now + lockTtl * SECOND];
      renewals := renewals[id := Renewal(Unix(now), now + lockTtl * SECOND)];
      failCounts := failCounts - {id};
    }

    method UpdateExecutorHeartbeatWithRunningTasks(e: ExecutorId, ids: seq<ExecutionId>)
      modifies this`executors, this`locks, this`renewals, this`failCounts
      ensures View() == Heartbeat(old(View()), e, ids)
    {
      if e in executors && executors[e].status == Online {
        executors := executors[e := executors[e].(lastHeartbeat := Some(now))];
      }
      ghost var beaten := View();
      for i := 0 to |ids|
        invariant RenewAll(View(), ids[i..]) == RenewAll(beaten, ids)
        invariant executors == beaten.executors
      {
        assert ids[i..][0] == ids[i] && ids[i..][1..] == ids[i + 1..];
        RenewTaskLock(ids[i]);
      }
      assert ids[|ids|..] == [];
    }

    method RegisterKnownExecutor(e: ExecutorId)
      modifies this`executors, this`renewals, this`failCounts
      ensures View() == Registration(old(View()), e)
    {
      if e in executors && e > 0 {
        var stale := RunningOn(View(), e);
        renewals := renewals - stale;
        failCounts := failCounts - stale;
      }
      executors := executors[e := Executor(Online, Some(now))];
    }

    method CleanupStaleTaskLocks()
      modifies this`locks, this`renewals, this`failCounts
      ensures View() == StaleLockPass(old(View()))
    {
      ghost var w := View();
      failCounts := failCounts - set id | id in executions && KnownRunning(View(), id)
        && RenewalRecovered(View(), id);
      ghost var counts := failCounts;
      var todo := set id | id in locks && now < locks[id];
      ghost var gone: set<ExecutionId> := {};
      while todo != {}
        invariant forall id :: id in todo ==> id in w.locks && w.now < w.locks[id]
        invariant forall id :: id in gone <==> id in StaleLocks(w) && id !in todo
        invariant locks == w.locks - gone && renewals == w.renewals - gone && failCounts == counts - gone
        decreases todo
      {
        var id :| id in todo;
        gone := CleanupTaskLock(id, w, counts, gone);
        todo := todo - {id};
      }
      assert gone == StaleLocks(w);
    }

    method CleanupTaskLock(id: ExecutionId, ghost w: World, ghost counts: set<ExecutionId>,
                           ghost gone: set<ExecutionId>)
      returns (ghost gone': set<ExecutionId>)
      requires executions == w.executions && tasks == w.tasks
      requires locks == w.locks - gone && renewals == w.renewals - gone && failCounts == counts - gone
      modifies this`locks, this`renewals, this`failCounts
      ensures gone' == if KnownRunning(w, id) then gone else gone + {id}
      ensures locks == w.locks - gone' && renewals == w.renewals - gone' && failCounts == counts - gone'
    {
      gone' := gone;
      if !(id in executions && executions[id].status == Running && executions[id].taskId in tasks) {
        DeleteKeys(id);
        gone' := gone + {id};
      }
    }

    /** The recovery pass of a new leader. */
    method RecoverRunningTasks()
      modifies this`executions, this`locks, this`renewals, this`failCounts
      ensures View() == RecoveryPass(old(View()))
    {
      var rows := set id | id in executions && RecoverySelected(View(), id);
      RecoverRows(rows, View(), RecoveryFailures(View()), RecoveryLeases(View()));
    }

    method RecoverRows(rows: set<ExecutionId>, ghost w: World,
                       ghost verdicts: map<ExecutionId, Reason>, ghost renewed: map<ExecutionId, int>)
      requires View() == w && verdicts.Keys + renewed.Keys == rows && verdicts.Keys !! renewed.Keys
      requires forall id :: id in rows ==>
        && RecoverySelected(w, id)
        && RecoveryReason(w, id) == (if id in verdicts then Some(verdicts[id]) else None)
        && (id in renewed ==> renewed[id] == RecoveryTtl(w, w.executions[id]))
      modifies this`executions, this`locks, this`renewals, this`failCounts
      ensures View() == LeaseAll(FailAll(w, verdicts), renewed)
    {
      var todo := rows;
      ghost var failed: map<ExecutionId, Reason>, leases: map<ExecutionId, int> := map[], map[];
      NothingDone(w);
      while todo != {}
        invariant todo <= rows
        invariant Handled(verdicts, failed, todo) && Handled(renewed, leases, todo)
        invariant View() == LeaseAll(FailAll(w, failed), leases)
        decreases todo
      {
        var id :| id in todo;
        HandledOne(verdicts, failed, todo, id);
        HandledOne(renewed, leases, todo, id);
        failed, leases := RecoverTask(id, w, failed, leases);
        todo := todo - {id};
      }
      HandledAll(verdicts, failed);
      HandledAll(renewed, leases);
    }

    method RecoverTask(id: ExecutionId, ghost w: World, ghost failed: map<ExecutionId, Reason>,
                       ghost leases: map<ExecutionId, int>)
      returns (ghost failed': map<ExecutionId, Reason>, ghost leases': map<ExecutionId, int>)
      requires RecoverySelected(w, id) && id !in failed && id !in leases
      requires View() == LeaseAll(FailAll(w, failed), leases)
      modifies this`executions, this`locks, this`renewals, this`failCounts
      ensures failed' == if RecoveryReason(w, id).Some? then failed[id := RecoveryReason(w, id).value] else failed
      ensures leases' == if RecoveryReason(w, id).Some? then leases
                         else leases[id := RecoveryTtl(w, w.executions[id])]
      ensures View() == LeaseAll(FailAll(w, failed'), leases')
    {
      failed', leases' := failed, leases;
      var x := executions[id];
      assert x == w.executions[id];
      var reason := RecoveryVerdict(id, x);
      SameKeys(w, failed, leases, id);
      assert reason == RecoveryReason(w, id);
      if reason.Some? {
        FailOneMore(w, failed, id, reason.value);
        FailBesideLeases(FailAll(w, failed), leases, id, reason.value);
        ForceFail(id, reason.value);
        failed' := failed[id := reason.value];
      } else {
        var lockTtl := CalculateLockTtl(x);
        LeaseOneMore(FailAll(w, failed), leases, id, lockTtl);
        RecoverLease(id, lockTtl);
        leases' := leases[id := lockTtl];
      }
    }

    method RecoverLease(id: ExecutionId, lockTtl: int)
      modifies this`locks, this`renewals, this`failCounts
      ensures View() == Leased(old(View()), id, lockTtl)
    {
      locks := locks[id := now + lockTtl * SECOND];
      renewals := renewals[id := Renewal(Unix(now), now + lockTtl * SECOND)];
      failCounts := failCounts - {id};
    }

    method CalculateLockTtl(x: Execution) returns (ttl: int)
      ensures ttl == RecoveryTtl(View(), x)
    {
      ttl := 300;
      if x.taskId in tasks {
        ttl := if ColumnInt(tasks[x.taskId]) > 0 then ColumnInt(tasks[x.taskId]) * 2 else 3600;
      }
      if ttl < 60 {
        ttl := 60;
      }
      if ttl > 7200 {
        ttl := 7200;
      }
    }

    /** The tests of the recovery loop, in the order in which they decide the reason. */
    method RecoveryVerdict(id: ExecutionId, x: Execution) returns (reason: Option<Reason>)
      ensures forall w: World ::
        && w.now == now && w.tasks == tasks && w.executors == executors && w.reachable == reachable
        && RecoverySelected(w, id) && w.executions[id] == x && LastRenewal(w, id) == LastRenewal(View(), id)
        ==> reason == RecoveryReason(w, id)
    {
      var timeout := 300;
      var noTimeout := false;
      if x.taskId in tasks {
        if ColumnInt(tasks[x.taskId]) > 0 {
          timeout := ColumnInt(tasks[x.taskId]);
        } else {
          noTimeout := true;
        }
      }
      var taskTimeout := !noTimeout && x.startTime.Some? && now - x.startTime.value > timeout * SECOND;
      var e := ColumnInt(x.executorId);
      var executorOnline := e in executors && executors[e].status == Online;
      var recentlyActive := false;
      if e in executors && executors[e].lastHeartbeat.Some? {
        recentlyActive := now - executors[e].lastHeartbeat.value < RECENTLY_ACTIVE;
      }
      var executorReachable := executorOnline && e in reachable;
      var noRenewal := !(id in renewals && now < renewals[id].expires);
      var lastRenewSecondsAgo := 9999;
      if !noRenewal {
        lastRenewSecondsAgo := Unix(now) - renewals[id].value;
      }
      var renewalExpired := !noTimeout && lastRenewSecondsAgo > timeout;
      if !executorOnline {
        reason := Some(ExecutorOffline);
      } else if !recentlyActive {
        reason := Some(HeartbeatExpired);
      } else if !executorReachable {
        reason := Some(Unreachable);
      } else if noRenewal {
        reason := Some(NoRenewal);
      } else if renewalExpired {
        reason := Some(RenewalExpired);
      } else if taskTimeout {
        reason := Some(TimedOut);
      } else {
        reason := None;
      }
    }
  }
}
