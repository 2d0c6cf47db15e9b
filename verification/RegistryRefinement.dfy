/** All nodes of the distributed registry together. Every event is one atomic step of
    one node; cancel commands may reach any node, late, twice, or never. The machine
    is proved to refine the in-memory registry. */
module RegistryRefinement {
  import opened Prelude
  import opened QueryRegistry
  import opened DistributedRegistry

  datatype System = System(nodes: map<NodeId, Registry>, store: Store, sent: set<QueryId>)

  datatype Event =
    | Register(node: NodeId, query: Query, now: nat)
    | SetRunning(node: NodeId, id: QueryId, now: nat)
    | UpdateResult(node: NodeId, id: QueryId, result: Option<QueryResult>, execTime: real)
    | UpdateError(node: NodeId, id: QueryId, msg: string, execTime: real)
    | Cancel(node: NodeId, id: QueryId)
    | Deliver(node: NodeId, id: QueryId)
    | Cleanup(node: NodeId, maxAge: int, now: nat)

  function At(s: System, n: NodeId): NodeState
    requires n in s.nodes
  {
    NodeState(s.nodes[n], s.store)
  }

  function Put(s: System, n: NodeId, ns: NodeState): System {
    s.(nodes := s.nodes[n := ns.local], store := ns.store)
  }

  function Step(s: System, e: Event): System
    requires e.node in s.nodes
    requires e.UpdateResult? ==> Countable(e.result)
  {
    var n := e.node;
    match e
    case Register(_, q, now) => Put(s, n, NodeRegister(n, At(s, n), q, now))
    case SetRunning(_, id, now) => Put(s, n, NodeSetRunning(n, At(s, n), id, now))
    case UpdateResult(_, id, r, t) => Put(s, n, NodeUpdateResult(n, At(s, n), id, r, t))
    case UpdateError(_, id, msg, t) => Put(s, n, NodeUpdateError(n, At(s, n), id, msg, t))
    case Cancel(_, id) =>
      var s' := Put(s, n, NodeCancel(n, At(s, n), id));
      if Forwards(n, At(s, n), id) then s'.(sent := s.sent + {id}) else s'
    case Deliver(_, id) => Put(s, n, NodeHandleCancel(n, At(s, n), id))
    case Cleanup(_, maxAge, now) => Put(s, n, NodeCleanup(At(s, n), maxAge, now))
  }

  /** The in-memory registry sees the same calls; a cancel that is only forwarded takes
      effect when its command reaches the node that runs the query. */
  function SpecStep(m: Registry, s: System, e: Event): Registry
    requires e.node in s.nodes
  {
    match e
    case Register(_, q, now) => Registered(m, q, now)
    case SetRunning(_, id, now) => WithRunning(m, id, now)
    case UpdateResult(_, id, r, t) => WithResult(m, id, r, t)
    case UpdateError(_, id, msg, t) => WithError(m, id, msg, t)
    case Cancel(n, id) => if id in s.nodes[n] then WithCancel(m, id) else m
    case Deliver(n, id) => if id in s.nodes[n] then WithCancel(m, id) else m
    case Cleanup(n, maxAge, now) => Cleaned(m, s.nodes[n].Keys, maxAge, now)
  }

  predicate Owns(s: System, n: NodeId, id: QueryId) {
    n in s.nodes && id in s.nodes[n]
  }

  ghost predicate Local(s: System, id: QueryId) {
    exists n :: Owns(s, n, id)
  }

  /** A record as the handler builds it before registering. */
  predicate FreshRecord(q: Query) {
    q.status.Pending? && q.result.None? && q.error == "" && q.executionTime == 0.0
    && !q.fromCache && q.startTime.None?
  }

  /** What the callers guarantee: ids are new when registered, only the node that runs a
      query reports on it, and results count their rows. */
  ghost predicate Admissible(s: System, e: Event) {
    && e.node in s.nodes
    && match e
       case Register(_, q, _) => FreshRecord(q) && !Local(s, q.queryId)
       case SetRunning(n, id, _) => Local(s, id) ==> id in s.nodes[n]
       case UpdateResult(n, id, r, _) => (Local(s, id) ==> id in s.nodes[n]) && Countable(r)
       case UpdateError(n, id, _, _) => Local(s, id) ==> id in s.nodes[n]
       case Cancel(_, _) => true
       case Deliver(_, id) => id in s.sent
       case Cleanup(_, _, _) => true
  }

  // ---------------------------------------------------------------- invariant

  /** Node `n` runs `id` with record `q`; Redis holds exactly that record, naming `n`,
      and the cut result of a completed query. */
  predicate RecordOk(n: NodeId, id: QueryId, q: Query, state: Option<RedisState>, result: Option<QueryResult>) {
    && q.queryId == id
    && state == Some(ToRedis(q, n))
    && Countable(q.result)
    && (q.status.Completed? && q.result.Some? ==> result == Some(Cut(q.result.value)))
  }

  ghost predicate Mirrored(s: System, n: NodeId, id: QueryId)
    requires Owns(s, n, id)
  {
    RecordOk(n, id, s.nodes[n][id], Lookup(s.store.states, id), Lookup(s.store.results, id))
  }

  ghost predicate Inv(s: System) {
    && "" !in s.nodes
    && (forall n, n', id :: Owns(s, n, id) && Owns(s, n', id) ==> n == n')
    && (forall n, id :: Owns(s, n, id) ==> Mirrored(s, n, id))
    && (forall id :: id in s.store.states ==> Local(s, id))
    && s.store.results.Keys <= s.store.states.Keys
  }

  ghost predicate Initial(s: System) {
    && "" !in s.nodes
    && (forall n :: n in s.nodes ==> s.nodes[n] == map[])
    && s.store == Store(map[], map[]) && s.sent == {}
  }

  /** The distributed record `a` shows what the in-memory record `b` shows. Only the error
      text may differ: a cancel command leaves its message, a local cancel does not. */
  predicate Agrees(a: Query, b: Query) {
    && a == b.(error := a.error)
    && (a.error == b.error || a.error == CANCEL_MESSAGE)
    && (a.status.Failed? ==> a.error == b.error)
  }

  ghost predicate Refines(s: System, m: Registry) {
    && (forall id :: id in m <==> Local(s, id))
    && (forall n, id :: Owns(s, n, id) ==> id in m && Agrees(s.nodes[n][id], m[id]))
  }

  // ---------------------------------------------------------------- one step

  /** `s'` is `s` with the record of one query, run by `n`, replaced and mirrored. */
  ghost predicate OneChanged(s: System, s': System, n: NodeId, id: QueryId) {
    && n in s.nodes
    && s'.nodes.Keys == s.nodes.Keys
    && (forall k :: k in s.nodes && k != n ==> s'.nodes[k] == s.nodes[k])
    && id in s'.nodes[n] && s'.nodes[n] == s.nodes[n][id := s'.nodes[n][id]]
    && id in s'.store.states && s'.store.states == s.store.states[id := s'.store.states[id]]
    && (s'.store.results == s.store.results ||
        (id in s'.store.results && s'.store.results == s.store.results[id := s'.store.results[id]]))
  }

  lemma OneChangedLocal(s: System, s': System, n: NodeId, id: QueryId)
    requires OneChanged(s, s', n, id)
    ensures forall i :: Local(s', i) <==> Local(s, i) || i == id
  {
    forall i ensures Local(s', i) <==> Local(s, i) || i == id {
      if Local(s, i) {
        var k :| Owns(s, k, i);
        assert Owns(s', k, i);
      }
      if Local(s', i) {
        var k :| Owns(s', k, i);
        assert i == id || Owns(s, k, i);
      }
      assert Owns(s', n, id);
    }
  }

  lemma OneChangedKeepsInv(s: System, s': System, n: NodeId, id: QueryId)
    requires Inv(s) && OneChanged(s, s', n, id)
    requires forall k :: Owns(s, k, id) ==> k == n
    requires RecordOk(n, id, s'.nodes[n][id], Lookup(s'.store.states, id), Lookup(s'.store.results, id))
    ensures Inv(s')
  {
    OneChangedLocal(s, s', n, id);
    forall k, i | Owns(s', k, i) ensures Mirrored(s', k, i) {
      assert k != n ==> Owns(s, k, i);
      if i != id {
        assert Owns(s, k, i) && Mirrored(s, k, i);
        assert s'.nodes[k][i] == s.nodes[k][i];
        assert Lookup(s'.store.states, i) == Lookup(s.store.states, i);
        assert Lookup(s'.store.results, i) == Lookup(s.store.results, i);
      }
    }
    forall k, k', i | Owns(s', k, i) && Owns(s', k', i) ensures k == k' {
      if i != id {
        assert Owns(s, k, i) && Owns(s, k', i);
      }
    }
  }

  lemma RegisterStep(s: System, e: Event)
    requires Inv(s) && e.Register? && Admissible(s, e)
    ensures Inv(Step(s, e)) && OneChanged(s, Step(s, e), e.node, e.query.queryId)
  {
    var s', n, id := Step(s, e), e.node, e.query.queryId;
    assert forall k :: Owns(s, k, id) ==> Local(s, id);
    OneChangedKeepsInv(s, s', n, id);
  }

  /** The record that a report, a start or a cancel leaves at the node that runs the query. */
  function NewRecord(q: Query, e: Event): Query
    requires !e.Register? && !e.Cleanup?
  {
    match e
    case SetRunning(_, _, now) => Run(q, now)
    case UpdateResult(_, _, r, t) => Complete(q, r, t)
    case UpdateError(_, _, msg, t) => Fail(q, msg, t)
    case Cancel(_, _) => CancelQuery(q)
    case Deliver(_, _) => if q.status.Cancellable() then CancelQuery(q).(error := CANCEL_MESSAGE) else q
  }

  predicate Touches(s: System, e: Event) {
    && !e.Register? && !e.Cleanup? && Owns(s, e.node, e.id)
    && (e.Cancel? || e.Deliver? ==> s.nodes[e.node][e.id].status.Cancellable())
  }

  lemma TouchStep(s: System, e: Event)
    requires Inv(s) && Admissible(s, e) && Touches(s, e)
    ensures Inv(Step(s, e)) && OneChanged(s, Step(s, e), e.node, e.id)
    ensures Step(s, e).nodes[e.node][e.id] == NewRecord(s.nodes[e.node][e.id], e)
  {
    var s', n, id := Step(s, e), e.node, e.id;
    assert Mirrored(s, n, id);
    OneChangedKeepsInv(s, s', n, id);
  }

  lemma IdleStep(s: System, e: Event)
    requires Inv(s) && Admissible(s, e) && !e.Register? && !e.Cleanup? && !Touches(s, e)
    ensures Step(s, e).nodes == s.nodes && Step(s, e).store == s.store
  {
    assert s.nodes[e.node := s.nodes[e.node]] == s.nodes;
  }

  lemma CleanupStep(s: System, e: Event)
    requires Inv(s) && e.Cleanup? && Admissible(s, e)
    ensures Inv(Step(s, e))
    ensures forall k, i :: Owns(Step(s, e), k, i) <==>
      Owns(s, k, i) && !(k == e.node && Expired(s.nodes[k][i], e.maxAge, e.now))
    ensures forall k, i :: Owns(Step(s, e), k, i) ==> Step(s, e).nodes[k][i] == s.nodes[k][i]
  {
    var s', n := Step(s, e), e.node;
    var gone := s.nodes[n].Keys - s'.nodes[n].Keys;
    forall k, i | Owns(s', k, i) ensures Mirrored(s', k, i) {
      assert Owns(s, k, i) && Mirrored(s, k, i);
      assert i in gone ==> Owns(s, n, i);
    }
    forall i | i in s'.store.states ensures Local(s', i) {
      var k :| Owns(s, k, i);
      assert Owns(s', k, i);
    }
  }

  /** Every step keeps the invariant. */
  lemma StepKeepsInv(s: System, e: Event)
    requires Inv(s) && Admissible(s, e)
    ensures Inv(Step(s, e)) && Step(s, e).nodes.Keys == s.nodes.Keys
  {
    if e.Register? {
      RegisterStep(s, e);
    } else if e.Cleanup? {
      CleanupStep(s, e);
    } else if Touches(s, e) {
      TouchStep(s, e);
    } else {
      IdleStep(s, e);
      assert forall n, id :: Owns(s, n, id) ==> Owns(Step(s, e), n, id) && Mirrored(s, n, id);
    }
  }

  /** Only the node that runs a query, or registers it, writes its Redis record. */
  lemma OnlyOwnerWrites(s: System, e: Event, id: QueryId)
    requires Inv(s) && Admissible(s, e)
    ensures Lookup(Step(s, e).store.states, id) != Lookup(s.store.states, id) ||
            Lookup(Step(s, e).store.results, id) != Lookup(s.store.results, id)
            ==> Owns(s, e.node, id) || (e.Register? && e.query.queryId == id && !Local(s, id))
  {
    if !e.Register? && !e.Cleanup? {
      if Touches(s, e) {
        TouchStep(s, e);
      } else {
        IdleStep(s, e);
      }
    }
  }

  // ---------------------------------------------------------------- refinement

  /** Replacing one record on both sides by records that agree keeps the refinement. */
  lemma OneChangedRefines(s: System, s': System, n: NodeId, id: QueryId, m: Registry, q: Query)
    requires Refines(s, m) && OneChanged(s, s', n, id)
    requires forall k :: Owns(s, k, id) ==> k == n
    requires Agrees(s'.nodes[n][id], q)
    ensures Refines(s', m[id := q])
  {
    OneChangedLocal(s, s', n, id);
    forall k, i | Owns(s', k, i)
      ensures i in m[id := q] && Agrees(s'.nodes[k][i], m[id := q][i])
    {
      OthersAgree(s, s', n, id, m, k, i);
    }
  }

  lemma OthersAgree(s: System, s': System, n: NodeId, id: QueryId, m: Registry, k: NodeId, i: QueryId)
    requires Refines(s, m) && OneChanged(s, s', n, id) && Owns(s', k, i)
    requires Owns(s, k, id) ==> k == n
    ensures if i == id then k == n else i in m && Agrees(s'.nodes[k][i], m[i])
  {
    if i == id {
      assert k != n ==> Owns(s, k, id);
    } else {
      assert Owns(s, k, i) && s'.nodes[k][i] == s.nodes[k][i];
      assert Agrees(s.nodes[k][i], m[i]);
    }
  }

  function SpecRecord(q: Query, e: Event): Query
    requires !e.Register? && !e.Cleanup?
  {
    if e.Deliver? then CancelQuery(q) else NewRecord(q, e)
  }

  lemma RecordsAgree(a: Query, b: Query, e: Event)
    requires Agrees(a, b) && !e.Register? && !e.Cleanup?
    ensures Agrees(NewRecord(a, e), SpecRecord(b, e))
  {
  }

  lemma SpecStepOfTouch(s: System, m: Registry, e: Event)
    requires Touches(s, e) && e.id in m
    ensures SpecStep(m, s, e) == m[e.id := SpecRecord(m[e.id], e)]
  {
  }

  lemma RegisterRefines(s: System, m: Registry, e: Event)
    requires Inv(s) && Refines(s, m) && e.Register? && Admissible(s, e)
    ensures Refines(Step(s, e), SpecStep(m, s, e))
  {
    var n, id, q := e.node, e.query.queryId, e.query.(createdAt := e.now);
    RegisterStep(s, e);
    assert forall k :: Owns(s, k, id) ==> Local(s, id);
    assert Step(s, e).nodes[n][id] == q;
    OneChangedRefines(s, Step(s, e), n, id, m, q);
  }

  lemma TouchRefines(s: System, m: Registry, e: Event)
    requires Inv(s) && Refines(s, m) && Admissible(s, e) && Touches(s, e)
    ensures Refines(Step(s, e), SpecStep(m, s, e))
  {
    var n, id := e.node, e.id;
    assert Owns(s, n, id);
    SpecStepOfTouch(s, m, e);
    TouchStep(s, e);
    RecordsAgree(s.nodes[n][id], m[id], e);
    OneChangedRefines(s, Step(s, e), n, id, m, SpecRecord(m[id], e));
  }

  lemma IdleRefines(s: System, m: Registry, e: Event)
    requires Inv(s) && Refines(s, m) && Admissible(s, e)
    requires !e.Register? && !e.Cleanup? && !Touches(s, e)
    ensures Refines(Step(s, e), SpecStep(m, s, e))
  {
    IdleStep(s, e);
    if Owns(s, e.node, e.id) {
      assert Agrees(s.nodes[e.node][e.id], m[e.id]);
      assert m[e.id := m[e.id]] == m;
    } else if !e.Cancel? && !e.Deliver? {
      assert !Local(s, e.id);
    }
    assert SpecStep(m, s, e) == m;
    assert forall n, id :: Owns(Step(s, e), n, id) <==> Owns(s, n, id);
  }

  lemma CleanupRefines(s: System, m: Registry, e: Event)
    requires Inv(s) && Refines(s, m) && e.Cleanup? && Admissible(s, e)
    ensures Refines(Step(s, e), SpecStep(m, s, e))
  {
    var s', n, m' := Step(s, e), e.node, SpecStep(m, s, e);
    CleanupStep(s, e);
    forall k, i | Owns(s, k, i)
      ensures i in m && (i in m' <==> Owns(s', k, i)) && (i in m' ==> m'[i] == m[i])
    {
      assert Agrees(s.nodes[k][i], m[i]);
      assert i in s.nodes[n] ==> Owns(s, n, i);
    }
    forall i ensures i in m' <==> Local(s', i) {
      if i in m' {
        var k :| Owns(s, k, i);
        assert Owns(s', k, i);
      }
      if Local(s', i) {
        var k :| Owns(s', k, i);
        assert Owns(s, k, i);
      }
    }
  }

  /** One step of the nodes is one step (or no step) of the in-memory registry. */
  lemma StepRefines(s: System, m: Registry, e: Event)
    requires Inv(s) && Refines(s, m) && Admissible(s, e)
    ensures Refines(Step(s, e), SpecStep(m, s, e))
  {
    if e.Register? {
      RegisterRefines(s, m, e);
    } else if e.Cleanup? {
      CleanupRefines(s, m, e);
    } else if Touches(s, e) {
      TouchRefines(s, m, e);
    } else {
      IdleRefines(s, m, e);
    }
  }
}
