/** The distributed lock around the execution of a cron task. Each of the three Lua
    scripts is one atomic step on the lock hash; `executeTask` runs of all nodes
    interleave. The lock carries an expiry field that no script reads. */
module CronLock {
  type NodeId = string
  type TaskId = int

  datatype Lock = Lock(owner: NodeId, expire: int)

  type Locks = map<TaskId, Lock>

  predicate OwnedBy(locks: Locks, t: TaskId, n: NodeId) {
    t in locks && locks[t].owner == n
  }

  predicate Grants(locks: Locks, t: TaskId, n: NodeId) {
    t !in locks || locks[t].owner == n
  }

  function AcquireScript(locks: Locks, t: TaskId, n: NodeId, expire: int): Locks {
    if Grants(locks, t, n) then locks[t := Lock(n, expire)] else locks
  }

  function RenewScript(locks: Locks, t: TaskId, n: NodeId, expire: int): Locks {
    if OwnedBy(locks, t, n) then locks[t := Lock(n, expire)] else locks
  }

  function ReleaseScript(locks: Locks, t: TaskId, n: NodeId): Locks {
    if OwnedBy(locks, t, n) then locks - {t} else locks
  }

  /** The Redis side of a node's cron scheduler. */
  class LockStore {
    var locks: Locks

    constructor ()
      ensures locks == map[]
    {
      locks := map[];
    }
  }

  class LockClient {
    const redis: LockStore
    const nodeId: NodeId

    constructor (redis: LockStore, nodeId: NodeId)
      ensures this.redis == redis && this.nodeId == nodeId
    {
      this.redis, this.nodeId := redis, nodeId;
    }

    method AcquireTaskLock(t: TaskId, expire: int) returns (acquired: bool)
      modifies redis
      ensures redis.locks == AcquireScript(old(redis.locks), t, nodeId, expire)
      ensures acquired <==> OwnedBy(redis.locks, t, nodeId)
      ensures acquired <==> Grants(old(redis.locks), t, nodeId)
      ensures acquired <==> t !in old(redis.locks) || old(redis.locks)[t].owner == nodeId
      ensures redis.locks == if acquired then old(redis.locks)[t := Lock(nodeId, expire)] else old(redis.locks)
    {
      if t !in redis.locks {
        redis.locks := redis.locks[t := Lock(nodeId, expire)];
        return true;
      }
      if redis.locks[t].owner == nodeId {
        redis.locks := redis.locks[t := redis.locks[t].(expire := expire)];
        return true;
      }
      return false;
    }

    method ReleaseTaskLock(t: TaskId) returns (released: bool)
      modifies redis
      ensures redis.locks == ReleaseScript(old(redis.locks), t, nodeId)
      ensures released <==> OwnedBy(old(redis.locks), t, nodeId)
      ensures released <==> t in old(redis.locks) && old(redis.locks)[t].owner == nodeId
      ensures redis.locks == if released then old(redis.locks) - {t} else old(redis.locks)
    {
      if t in redis.locks && redis.locks[t].owner == nodeId {
        redis.locks := redis.locks - {t};
        return true;
      }
      return false;
    }

    method RenewTaskLock(t: TaskId, expire: int) returns (renewed: bool)
      modifies redis
      ensures redis.locks == RenewScript(old(redis.locks), t, nodeId, expire)
      ensures renewed <==> OwnedBy(old(redis.locks), t, nodeId)
      ensures renewed <==> t in old(redis.locks) && old(redis.locks)[t].owner == nodeId
      ensures redis.locks == if renewed then old(redis.locks)[t := Lock(nodeId, expire)] else old(redis.locks)
    {
      if t in redis.locks && redis.locks[t].owner == nodeId {
        redis.locks := redis.locks[t := redis.locks[t].(expire := expire)];
        return true;
      }
      return false;
    }
  }

  // ---------------------------------------------------------------- all nodes together

  /** One call of `executeTask` between its acquire and its release. */
  datatype Invocation = Invocation(node: NodeId, task: TaskId)

  datatype System = System(locks: Locks, running: map<int, Invocation>)

  datatype Event =
    | Acquire(id: int, node: NodeId, task: TaskId, expire: int)
    | Renew(node: NodeId, task: TaskId, expire: int)  // by any node, also late
    | Release(id: int)
    | Crash(id: int)                                  // the node dies inside; the lock stays

  predicate Possible(s: System, e: Event) {
    match e
    case Acquire(id, _, _, _) => id !in s.running
    case Renew(_, _, _) => true
    case Release(id) => id in s.running
    case Crash(id) => id in s.running
  }

  function Step(s: System, e: Event): System
    requires Possible(s, e)
  {
    match e
    case Acquire(id, n, t, expire) =>
      System(AcquireScript(s.locks, t, n, expire),
             if Grants(s.locks, t, n) then s.running[id := Invocation(n, t)] else s.running)
    case Renew(n, t, expire) => s.(locks := RenewScript(s.locks, t, n, expire))
    case Release(id) =>
      System(ReleaseScript(s.locks, s.running[id].task, s.running[id].node), s.running - {id})
    case Crash(id) => s.(running := s.running - {id})
  }

  /** The node starts no second `executeTask` of a task while one is running. */
  ghost predicate Single(s: System, e: Event) {
    e.Acquire? ==> forall i :: i in s.running ==> s.running[i] != Invocation(e.node, e.task)
  }

  ghost predicate Exclusive(s: System) {
    forall i, j :: i in s.running && j in s.running && s.running[i].task == s.running[j].task ==> i == j
  }

  ghost predicate Inv(s: System) {
    && (forall i :: i in s.running ==> OwnedBy(s.locks, s.running[i].task, s.running[i].node))
    && (forall i, j :: i in s.running && j in s.running && s.running[i] == s.running[j] ==> i == j)
  }

  lemma InvIsExclusive(s: System)
    requires Inv(s)
    ensures Exclusive(s)
  {
    forall i, j | i in s.running && j in s.running && s.running[i].task == s.running[j].task ensures i == j {
      assert OwnedBy(s.locks, s.running[i].task, s.running[i].node);
      assert s.running[i] == s.running[j];
    }
  }

  lemma StepKeepsInv(s: System, e: Event)
    requires Inv(s) && Possible(s, e) && Single(s, e)
    ensures Inv(Step(s, e))
  {
  }

  predicate Follows(s: System, es: seq<Event>)
    decreases |es|
  {
    es == [] || (Possible(s, es[0]) && Follows(Step(s, es[0]), es[1..]))
  }

  ghost predicate AllSingle(s: System, es: seq<Event>)
    requires Follows(s, es)
    decreases |es|
  {
    es == [] || (Single(s, es[0]) && AllSingle(Step(s, es[0]), es[1..]))
  }

  function After(s: System, es: seq<Event>): System
    requires Follows(s, es)
    decreases |es|
  {
    if es == [] then s else After(Step(s, es[0]), es[1..])
  }

  lemma {:induction false} RunKeepsInv(s: System, es: seq<Event>)
    requires Inv(s) && Follows(s, es) && AllSingle(s, es)
    ensures Inv(After(s, es))
    decreases |es|
  {
    if es != [] {
      StepKeepsInv(s, es[0]);
      RunKeepsInv(Step(s, es[0]), es[1..]);
    }
  }

  /** Mutual exclusion: in every interleaving in which no node overlaps two executions of
      one task, at most one execution of a task is between acquire and release anywhere,
      and its node owns the lock. */
  lemma MutualExclusion(es: seq<Event>)
    requires Follows(System(map[], map[]), es) && AllSingle(System(map[], map[]), es)
    ensures Exclusive(After(System(map[], map[]), es))
    ensures var s := After(System(map[], map[]), es);
      forall i :: i in s.running ==> OwnedBy(s.locks, s.running[i].task, s.running[i].node)
  {
    RunKeepsInv(System(map[], map[]), es);
    InvIsExclusive(After(System(map[], map[]), es));
  }

  ghost predicate AlwaysExclusive(s: System, es: seq<Event>)
    requires Follows(s, es)
    decreases |es|
  {
    Exclusive(s) && (es == [] || AlwaysExclusive(Step(s, es[0]), es[1..]))
  }

  /** The discipline is exactly what exclusion needs: every state of a run is exclusive if
      and only if no node in it acquires a task that it is running already. */
  lemma {:induction false} ExclusionExact(s: System, es: seq<Event>)
    requires Inv(s) && Follows(s, es)
    ensures AlwaysExclusive(s, es) <==> AllSingle(s, es)
    decreases |es|
  {
    InvIsExclusive(s);
    if es != [] {
      var e, s1 := es[0], Step(s, es[0]);
      if Single(s, e) {
        StepKeepsInv(s, e);
        ExclusionExact(s1, es[1..]);
      } else {
        OverlapIsGranted(s, e);
      }
    }
  }

  lemma OverlapIsGranted(s: System, e: Event)
    requires Inv(s) && Possible(s, e) && !Single(s, e)
    ensures !Exclusive(Step(s, e))
  {
    var i :| i in s.running && s.running[i] == Invocation(e.node, e.task);
    var s1 := Step(s, e);
    assert OwnedBy(s.locks, e.task, e.node);
    assert s1.running[i].task == s1.running[e.id].task && i != e.id;
  }

  ghost predicate Reachable(s: System) {
    exists es :: Follows(System(map[], map[]), es) && After(System(map[], map[]), es) == s
  }

  /** Overlap lets in other nodes as well: for any two nodes and any task there is a run in
      which `a` overlaps two executions, the first release frees the lock, and `b` enters
      while the second still runs. */
  lemma OverlapBreaksExclusion(a: NodeId, b: NodeId, t: TaskId)
    requires a != b
    ensures exists s :: Reachable(s) && {Invocation(a, t), Invocation(b, t)} <= s.running.Values
  {
    var s0 := System(map[], map[]);
    var e1, e2, e3, e4 := Acquire(1, a, t, 60), Acquire(2, a, t, 60), Release(1), Acquire(3, b, t, 60);
    var s1 := Step(s0, e1);
    var s2 := Step(s1, e2);
    var s3 := Step(s2, e3);
    var s4 := Step(s3, e4);
    assert s4.running[2] == Invocation(a, t) && s4.running[3] == Invocation(b, t);
    var es := [e1, e2, e3, e4];
    assert es[1..] == [e2, e3, e4] && [e2, e3, e4][1..] == [e3, e4] && [e3, e4][1..] == [e4] && [e4][1..] == [];
    assert Follows(s4, []) && After(s4, []) == s4;
    assert Follows(s3, [e4]) && After(s3, [e4]) == s4;
    assert Follows(s2, [e3, e4]) && After(s2, [e3, e4]) == s4;
    assert Follows(s1, [e2, e3, e4]) && After(s1, [e2, e3, e4]) == s4;
    assert Follows(s0, es) && After(s0, es) == s4;
    assert Reachable(s4);
  }

  /** A release or a renewal by a node that does not own the lock changes nothing. */
  lemma StrangersChangeNothing(locks: Locks, t: TaskId, n: NodeId, expire: int)
    ensures RenewScript(locks, t, n, expire) == locks || OwnedBy(locks, t, n)
    ensures ReleaseScript(locks, t, n) != locks <==> OwnedBy(locks, t, n)
  {
    if OwnedBy(locks, t, n) {
      assert t !in ReleaseScript(locks, t, n);
    }
  }

  /** The lock of a task is owned, but nobody is inside. */
  ghost predicate Abandoned(s: System, t: TaskId, n: NodeId) {
    OwnedBy(s.locks, t, n) && forall i :: i in s.running ==> s.running[i].task != t
  }

  predicate Reacquires(e: Event, t: TaskId, n: NodeId) {
    e.Acquire? && e.node == n && e.task == t
  }

  lemma {:induction false} AbandonedStays(s: System, es: seq<Event>, t: TaskId, n: NodeId)
    requires Abandoned(s, t, n) && Follows(s, es)
    requires forall k :: 0 <= k < |es| ==> !Reacquires(es[k], t, n)
    ensures Abandoned(After(s, es), t, n)
    decreases |es|
  {
    if es != [] {
      assert !Reacquires(es[0], t, n);
      assert Abandoned(Step(s, es[0]), t, n);
      AbandonedStays(Step(s, es[0]), es[1..], t, n);
    }
  }

  /** The lock never expires: once its owner has crashed, and as long as that node does not
      acquire the task again, the lock keeps its owner through every run, however long, and
      exactly that node's acquire would be granted. */
  lemma CrashKeepsLock(s: System, id: int, es: seq<Event>)
    requires Inv(s) && id in s.running && Follows(Step(s, Crash(id)), es)
    requires forall k :: 0 <= k < |es| ==> !Reacquires(es[k], s.running[id].task, s.running[id].node)
    ensures var s', t, n := After(Step(s, Crash(id)), es), s.running[id].task, s.running[id].node;
      && OwnedBy(s'.locks, t, n)
      && forall m :: Grants(s'.locks, t, m) <==> m == n
  {
    var s1, t, n := Step(s, Crash(id)), s.running[id].task, s.running[id].node;
    forall i | i in s1.running
      ensures s1.running[i].task != t
    {
      var other := s.running[i];
      assert OwnedBy(s.locks, other.task, other.node) && other != Invocation(n, t);
    }
    AbandonedStays(s1, es, t, n);
  }
}
