/** What callers of the distributed registry observe, over whole runs. */
module RegistryRuns {
  import opened Prelude
  import opened QueryRegistry
  import opened DistributedRegistry
  import opened RegistryRefinement

  ghost predicate AllAdmissible(s: System, es: seq<Event>)
    decreases |es|
  {
    es == [] || (Admissible(s, es[0]) && AllAdmissible(Step(s, es[0]), es[1..]))
  }

  ghost function After(s: System, es: seq<Event>): System
    requires AllAdmissible(s, es)
    decreases |es|
  {
    if es == [] then s else After(Step(s, es[0]), es[1..])
  }

  ghost function SpecAfter(m: Registry, s: System, es: seq<Event>): Registry
    requires AllAdmissible(s, es)
    decreases |es|
  {
    if es == [] then m else SpecAfter(SpecStep(m, s, es[0]), Step(s, es[0]), es[1..])
  }

  lemma InitialRefines(s: System)
    requires Initial(s)
    ensures Inv(s) && Refines(s, map[])
  {
  }

  lemma {:induction false} RunFrom(s: System, m: Registry, es: seq<Event>)
    requires Inv(s) && Refines(s, m) && AllAdmissible(s, es)
    ensures Inv(After(s, es)) && Refines(After(s, es), SpecAfter(m, s, es))
    ensures After(s, es).nodes.Keys == s.nodes.Keys
    decreases |es|
  {
    if es != [] {
      StepKeepsInv(s, es[0]);
      StepRefines(s, m, es[0]);
      RunFrom(Step(s, es[0]), SpecStep(m, s, es[0]), es[1..]);
    }
  }

  // ---------------------------------------------------------------- what Get shows

  /** The view of a query that a reader gets, compared with the in-memory record `m`. */
  predicate Shows(g: Query, m: Query) {
    && g.queryId == m.queryId && g.datasourceId == m.datasourceId && g.database == m.database
    && g.sql == m.sql && g.userId == m.userId && g.fromCache == m.fromCache
    && g.status == m.status && g.executionTime == m.executionTime
    && (g.error == m.error || (g.error == CANCEL_MESSAGE && !m.status.Failed?))
  }

  function CutOption(r: Option<QueryResult>): Option<QueryResult>
    requires Countable(r)
  {
    if r.Some? then Some(Cut(r.value)) else None
  }

  /** On every node `Get` finds a query exactly when the in-memory registry has it, with
      the same status and execution time. The node that runs the query shows the result
      itself; any other node shows it cut to 10000 rows once the query has completed. */
  lemma GetShowsTheRegistry(s: System, m: Registry, n: NodeId, id: QueryId)
    requires Inv(s) && Refines(s, m) && n in s.nodes
    ensures var g := NodeGet(At(s, n), id);
      && (g.Some? <==> id in m)
      && (g.Some? ==>
            && Shows(g.value, m[id])
            && Countable(m[id].result)
            && (id in s.nodes[n] ==> g.value.result == m[id].result && g.value.startTime == m[id].startTime)
            && (id !in s.nodes[n] ==>
                  && (!m[id].status.Completed? ==> g.value.result.None?)
                  && (m[id].status.Completed? && m[id].result.Some? ==>
                        g.value.result == CutOption(m[id].result))))
  {
    if id in m {
      var k :| Owns(s, k, id);
      assert Mirrored(s, k, id);
      assert Agrees(s.nodes[k][id], m[id]);
    } else {
      assert Owns(s, n, id) ==> Local(s, id);
    }
  }

  /** The one gap: a query completed without a result. Another node then shows the right
      thing (nothing) if and only if no earlier result of that query is still in Redis. */
  lemma RemoteResultExact(s: System, m: Registry, n: NodeId, id: QueryId)
    requires Inv(s) && Refines(s, m) && n in s.nodes && id in m && id !in s.nodes[n]
    requires m[id].status.Completed?
    ensures Countable(m[id].result) && NodeGet(At(s, n), id).Some?
    ensures NodeGet(At(s, n), id).value.result == CutOption(m[id].result)
      <==> (m[id].result.Some? || id !in s.store.results)
  {
    GetShowsTheRegistry(s, m, n, id);
    var k :| Owns(s, k, id);
    assert Mirrored(s, k, id);
  }

  predicate TouchesRecord(s: System, e: Event, n: NodeId, id: QueryId) {
    Touches(s, e) && e.node == n && e.id == id
  }

  /** What becomes of a record that a step leaves in place. */
  lemma RecordAfter(s: System, e: Event, n: NodeId, id: QueryId)
    requires Inv(s) && Admissible(s, e) && Owns(s, n, id) && Owns(Step(s, e), n, id)
    ensures Step(s, e).nodes[n][id] ==
      if TouchesRecord(s, e, n, id) then NewRecord(s.nodes[n][id], e) else s.nodes[n][id]
  {
    StepRecords(s, e);
    if TouchesRecord(s, e, n, id) {
      TouchStep(s, e);
    }
    assert Local(s, id);
  }

  /** A step changes at most the record it is about. */
  lemma StepRecords(s: System, e: Event)
    requires Inv(s) && Admissible(s, e)
    ensures forall n, id :: Owns(Step(s, e), n, id) ==>
      || (e.Register? && n == e.node && id == e.query.queryId
        && Step(s, e).nodes[n][id] == e.query.(createdAt := e.now))
      || (Owns(s, n, id) && Step(s, e).nodes[n][id] == s.nodes[n][id])
      || (Touches(s, e) && n == e.node && id == e.id && Step(s, e).nodes[n][id] == NewRecord(s.nodes[n][id], e))
  {
    if e.Register? {
      RegisterStep(s, e);
    } else if e.Cleanup? {
      CleanupStep(s, e);
    } else if Touches(s, e) {
      TouchStep(s, e);
    } else {
      IdleStep(s, e);
    }
  }

  predicate ReportsResult(e: Event) {
    e.UpdateResult? ==> e.result.Some?
  }

  ghost predicate CompletedHaveResults(s: System) {
    forall n, id :: Owns(s, n, id) && s.nodes[n][id].status.Completed? ==> s.nodes[n][id].result.Some?
  }

  lemma StepHasResults(s: System, e: Event)
    requires Inv(s) && Admissible(s, e) && CompletedHaveResults(s) && ReportsResult(e)
    ensures CompletedHaveResults(Step(s, e))
  {
    StepRecords(s, e);
  }

  lemma {:induction false} RunHasResults(s: System, es: seq<Event>)
    requires Inv(s) && AllAdmissible(s, es) && CompletedHaveResults(s)
    requires forall i :: 0 <= i < |es| ==> ReportsResult(es[i])
    ensures CompletedHaveResults(After(s, es))
    decreases |es|
  {
    if es != [] {
      StepKeepsInv(s, es[0]);
      StepHasResults(s, es[0]);
      RunHasResults(Step(s, es[0]), es[1..]);
    }
  }

  /** Main result: from empty nodes, after any interleaving of owner reports, local
      cancels, forwarded cancels and cleanups, the nodes refine the in-memory registry,
      every node answers `Get` like it, and if results are never reported as nil another
      node's result is the owner's, cut. */
  lemma NodesRefineRegistry(s: System, es: seq<Event>, n: NodeId, id: QueryId)
    requires Initial(s) && AllAdmissible(s, es) && n in s.nodes
    ensures var s', m := After(s, es), SpecAfter(map[], s, es);
      && n in s'.nodes && Inv(s') && Refines(s', m)
      && (NodeGet(At(s', n), id).Some? <==> id in m)
      && (id in m ==> Shows(NodeGet(At(s', n), id).value, m[id]))
    ensures (forall i :: 0 <= i < |es| ==> ReportsResult(es[i])) ==>
      var s', m := After(s, es), SpecAfter(map[], s, es);
      id in m && id !in s'.nodes[n] && m[id].status.Completed? ==>
        Countable(m[id].result) && NodeGet(At(s', n), id).value.result == CutOption(m[id].result)
  {
    InitialRefines(s);
    RunFrom(s, map[], es);
    var s', m := After(s, es), SpecAfter(map[], s, es);
    GetShowsTheRegistry(s', m, n, id);
    if forall i :: 0 <= i < |es| ==> ReportsResult(es[i]) {
      RunHasResults(s, es);
      if id in m {
        var k :| Owns(s', k, id);
        assert Agrees(s'.nodes[k][id], m[id]);
      }
    }
  }

  /** `Cancel` on any node answers what the in-memory registry would answer at that moment,
      whether it cancels locally or forwards the request. */
  lemma CancelAnswersAgree(s: System, m: Registry, n: NodeId, id: QueryId)
    requires Inv(s) && Refines(s, m) && n in s.nodes
    ensures CancelAnswer(s.nodes[n], id) || Forwards(n, At(s, n), id) <==> CancelAnswer(m, id)
  {
    if id in m {
      var k :| Owns(s, k, id);
      assert Mirrored(s, k, id) && Agrees(s.nodes[k][id], m[id]);
      assert Owns(s, n, id) ==> n == k;
    } else {
      assert Owns(s, n, id) ==> Local(s, id);
    }
  }

  /** Every known query is run by exactly one node, the one its Redis record names. */
  lemma RecordNamesOwner(s: System, id: QueryId)
    requires Inv(s) && id in s.store.states
    ensures Owns(s, s.store.states[id].nodeId, id)
    ensures forall n :: Owns(s, n, id) ==> n == s.store.states[id].nodeId
  {
    var k :| Owns(s, k, id);
    assert Mirrored(s, k, id);
  }

  /** Nodes that clean up at the same instant remove together what one registry would. */
  lemma CleanupsCompose(m: Registry, a: set<QueryId>, b: set<QueryId>, maxAge: int, now: nat)
    ensures Cleaned(Cleaned(m, a, maxAge, now), b, maxAge, now) == Cleaned(m, a + b, maxAge, now)
  {
  }

  // ---------------------------------------------------------------- the query driver

  /** What the handler has done with a query: registered it on `node`, then started it
      there, then reported on it there. */
  datatype Phase = Waiting | Started | Reported

  datatype Ticket = Ticket(node: NodeId, phase: Phase)

  type Tickets = map<QueryId, Ticket>

  /** What `Execute` and `executeQuery` do: a new id is registered on some node; that node
      sets it running once and then reports once, a result that is not nil or an error, be
      it that of a recovered panic. Anybody cancels and cleans up at any time; only commands
      that were sent arrive. */
  predicate Driven(s: System, ts: Tickets, e: Event) {
    && e.node in s.nodes
    && match e
       case Register(_, q, _) => FreshRecord(q) && q.queryId !in ts
       case SetRunning(n, id, _) => id in ts && ts[id] == Ticket(n, Waiting)
       case UpdateResult(n, id, r, _) => id in ts && ts[id] == Ticket(n, Started) && r.Some? && Countable(r)
       case UpdateError(n, id, _, _) => id in ts && ts[id] == Ticket(n, Started)
       case Cancel(_, _) => true
       case Deliver(_, id) => id in s.sent
       case Cleanup(_, _, _) => true
  }

  function NextTickets(ts: Tickets, e: Event): Tickets {
    match e
    case Register(n, q, _) => ts[q.queryId := Ticket(n, Waiting)]
    case SetRunning(n, id, _) => ts[id := Ticket(n, Started)]
    case UpdateResult(n, id, _, _) => ts[id := Ticket(n, Reported)]
    case UpdateError(n, id, _, _) => ts[id := Ticket(n, Reported)]
    case _ => ts
  }

  ghost predicate AllDriven(s: System, ts: Tickets, es: seq<Event>)
    decreases |es|
  {
    es == [] || (Driven(s, ts, es[0]) && AllDriven(Step(s, es[0]), NextTickets(ts, es[0]), es[1..]))
  }

  /** Every record is on the node that registered it, and is final by report only. */
  ghost predicate TicketsFit(s: System, ts: Tickets) {
    && (forall n, id :: Owns(s, n, id) ==> id in ts && ts[id].node == n)
    && (forall n, id :: Owns(s, n, id) ==> (HasOutcome(s.nodes[n][id]) <==> ts[id].phase.Reported?))
  }

  predicate HasOutcome(q: Query) {
    q.status.Completed? || q.status.Failed?
  }

  lemma DrivenStep(s: System, ts: Tickets, e: Event)
    requires Inv(s) && TicketsFit(s, ts) && Driven(s, ts, e)
    ensures Admissible(s, e) && Inv(Step(s, e)) && TicketsFit(Step(s, e), NextTickets(ts, e))
  {
    DrivenStepIsAdmissible(s, ts, e);
    StepKeepsInv(s, e);
    var s', ts' := Step(s, e), NextTickets(ts, e);
    forall n, id | Owns(s', n, id)
      ensures id in ts' && ts'[id].node == n && (HasOutcome(s'.nodes[n][id]) <==> ts'[id].phase.Reported?)
    {
      TicketFits(s, ts, e, n, id);
    }
  }

  lemma TicketFits(s: System, ts: Tickets, e: Event, n: NodeId, id: QueryId)
    requires Inv(s) && TicketsFit(s, ts) && Driven(s, ts, e) && Owns(Step(s, e), n, id)
    ensures var ts' := NextTickets(ts, e);
      id in ts' && ts'[id].node == n && (HasOutcome(Step(s, e).nodes[n][id]) <==> ts'[id].phase.Reported?)
  {
    DrivenStepIsAdmissible(s, ts, e);
    StepRecords(s, e);
  }

  /** A driven step is one the registry allows: nobody else reports on a query of a node,
      and nobody registers an id twice. */
  lemma DrivenStepIsAdmissible(s: System, ts: Tickets, e: Event)
    requires Inv(s) && TicketsFit(s, ts) && Driven(s, ts, e)
    ensures Admissible(s, e)
  {
    if e.Register? {
      assert forall n :: Owns(s, n, e.query.queryId) ==> e.query.queryId in ts;
    } else if e.SetRunning? || e.UpdateResult? || e.UpdateError? {
      assert forall n :: Owns(s, n, e.id) ==> ts[e.id].node == n;
    }
  }

  /** The driver keeps to what the registry asks of its callers, over every run. */
  lemma {:induction false} DrivenIsAdmissible(s: System, ts: Tickets, es: seq<Event>)
    requires Inv(s) && TicketsFit(s, ts) && AllDriven(s, ts, es)
    ensures AllAdmissible(s, es)
    ensures forall i :: 0 <= i < |es| ==> ReportsResult(es[i])
    decreases |es|
  {
    if es != [] {
      DrivenStep(s, ts, es[0]);
      DrivenIsAdmissible(Step(s, es[0]), NextTickets(ts, es[0]), es[1..]);
      assert forall i :: 1 <= i < |es| ==> es[i] == es[1..][i - 1];
    }
  }

  /** For the program as a whole: whatever the queries, cancels and cleanups, every node
      shows every query as the in-memory registry would, and a completed one with the
      owner's result, cut. */
  lemma DrivenNodesRefineRegistry(s: System, es: seq<Event>, n: NodeId, id: QueryId)
    requires Initial(s) && AllDriven(s, map[], es) && n in s.nodes
    ensures AllAdmissible(s, es)
    ensures var s', m := After(s, es), SpecAfter(map[], s, es);
      && n in s'.nodes && Refines(s', m)
      && (NodeGet(At(s', n), id).Some? <==> id in m)
      && (id in m ==> Shows(NodeGet(At(s', n), id).value, m[id]))
      && (id in m && id !in s'.nodes[n] && m[id].status.Completed? ==>
            && m[id].result.Some? && Countable(m[id].result)
            && NodeGet(At(s', n), id).value.result == CutOption(m[id].result))
  {
    InitialRefines(s);
    assert TicketsFit(s, map[]);
    DrivenIsAdmissible(s, map[], es);
    NodesRefineRegistry(s, es, n, id);
    RunHasResults(s, es);
    var s', m := After(s, es), SpecAfter(map[], s, es);
    if id in m {
      var k :| Owns(s', k, id);
      assert Agrees(s'.nodes[k][id], m[id]);
    }
  }

  /** A query that a node no longer has never comes back to it. */
  lemma {:induction false} GoneStays(s: System, ts: Tickets, es: seq<Event>, n: NodeId, id: QueryId)
    requires Inv(s) && TicketsFit(s, ts) && AllDriven(s, ts, es) && id in ts && !Owns(s, n, id)
    ensures AllAdmissible(s, es) && !Owns(After(s, es), n, id)
    decreases |es|
  {
    DrivenIsAdmissible(s, ts, es);
    if es != [] {
      var s1 := Step(s, es[0]);
      DrivenStep(s, ts, es[0]);
      StepRecords(s, es[0]);
      assert !Owns(s1, n, id);
      GoneStays(s1, NextTickets(ts, es[0]), es[1..], n, id);
    }
  }

  /** Under the driver, a reported outcome stays as it is, whatever cancels, cancel commands,
      cleanups and other queries follow, until cleanup removes the query for good. */
  lemma {:induction false} ReportedStays(s: System, ts: Tickets, es: seq<Event>, n: NodeId, id: QueryId)
    requires Inv(s) && TicketsFit(s, ts) && AllDriven(s, ts, es)
    requires n in s.nodes && id in ts && ts[id].phase.Reported?
    ensures AllAdmissible(s, es) && n in After(s, es).nodes
    ensures Owns(After(s, es), n, id) ==> Owns(s, n, id) && After(s, es).nodes[n][id] == s.nodes[n][id]
    decreases |es|
  {
    DrivenIsAdmissible(s, ts, es);
    if es != [] {
      var s1 := Step(s, es[0]);
      DrivenStep(s, ts, es[0]);
      StepRecords(s, es[0]);
      assert Owns(s1, n, id) ==> Owns(s, n, id) && s1.nodes[n][id] == s.nodes[n][id];
      ReportedStays(s1, NextTickets(ts, es[0]), es[1..], n, id);
    }
  }

  /** How long a reported query is kept: its node still has it if and only if no cleanup of
      that node has come later than its creation plus the maximum age, to the nanosecond. */
  lemma {:induction false} ReportedKeptExactly(s: System, ts: Tickets, es: seq<Event>, n: NodeId, id: QueryId)
    requires Inv(s) && TicketsFit(s, ts) && AllDriven(s, ts, es)
    requires Owns(s, n, id) && ts[id].phase.Reported?
    ensures AllAdmissible(s, es)
    ensures Owns(After(s, es), n, id) <==>
      forall i :: 0 <= i < |es| && es[i].Cleanup? && es[i].node == n ==>
        es[i].now <= s.nodes[n][id].createdAt + es[i].maxAge
    decreases |es|
  {
    DrivenIsAdmissible(s, ts, es);
    if es != [] {
      var e, s1, ts1 := es[0], Step(s, es[0]), NextTickets(ts, es[0]);
      DrivenStep(s, ts, e);
      ReportedKeptByStep(s, ts, e, n, id);
      assert forall i :: 1 <= i < |es| ==> es[i] == es[1..][i - 1];
      if Owns(s1, n, id) {
        ReportedKeptExactly(s1, ts1, es[1..], n, id);
      } else {
        GoneStays(s1, ts1, es[1..], n, id);
      }
    }
  }

  lemma ReportedKeptByStep(s: System, ts: Tickets, e: Event, n: NodeId, id: QueryId)
    requires Inv(s) && TicketsFit(s, ts) && Driven(s, ts, e)
    requires Owns(s, n, id) && ts[id].phase.Reported?
    ensures Owns(Step(s, e), n, id) <==>
      (e.Cleanup? && e.node == n ==> e.now <= s.nodes[n][id].createdAt + e.maxAge)
    ensures Owns(Step(s, e), n, id) ==> Step(s, e).nodes[n][id] == s.nodes[n][id]
  {
    DrivenStepIsAdmissible(s, ts, e);
    if e.Cleanup? {
      CleanupStep(s, e);
    } else {
      OnlyCleanupRemoves(s, e, n, id);
    }
    if Owns(Step(s, e), n, id) {
      RecordAfter(s, e, n, id);
      assert HasOutcome(s.nodes[n][id]);
    }
  }

  lemma OnlyCleanupRemoves(s: System, e: Event, n: NodeId, id: QueryId)
    requires Inv(s) && Admissible(s, e) && !e.Cleanup? && Owns(s, n, id)
    ensures Owns(Step(s, e), n, id)
  {
    if e.Register? {
      RegisterStep(s, e);
    } else if Touches(s, e) {
      TouchStep(s, e);
    } else {
      IdleStep(s, e);
    }
  }

  /** A late or duplicate cancel command changes nothing of a finished query. */
  lemma LateCancelIsIdle(s: System, e: Event)
    requires Inv(s) && Admissible(s, e) && (e.Deliver? || e.Cancel?)
    requires forall n :: Owns(s, n, e.id) ==> s.nodes[n][e.id].status.Final()
    ensures Step(s, e) == s
  {
    IdleStep(s, e);
    if e.Cancel? && Forwards(e.node, At(s, e.node), e.id) {
      RecordNamesOwner(s, e.id);
      assert false;
    }
  }

  // ---------------------------------------------------------------- cancelled queries

  /** The events that bear on whether query `id` of node `n` is cancelled. */
  predicate Starts(e: Event, id: QueryId) {
    e.SetRunning? && e.id == id
  }

  predicate Reports(e: Event, id: QueryId) {
    (e.UpdateResult? || e.UpdateError?) && e.id == id
  }

  predicate Cancels(e: Event, n: NodeId, id: QueryId) {
    (e.Cancel? || e.Deliver?) && e.node == n && e.id == id
  }

  /** A cancel in `es` comes after any start in it; `before` says whether one came earlier. */
  predicate CancelStands(es: seq<Event>, n: NodeId, id: QueryId, before: bool) {
    if es == [] then before
    else
      var last := es[|es| - 1];
      !Starts(last, id) && (Cancels(last, n, id) || CancelStands(es[..|es| - 1], n, id, before))
  }

  /** Spelt out: every start is followed by a cancel, and there is a cancel at all. */
  lemma {:induction false} CancelStandsExactly(es: seq<Event>, n: NodeId, id: QueryId, before: bool)
    ensures CancelStands(es, n, id, before) <==>
      && (forall i :: 0 <= i < |es| && Starts(es[i], id) ==> exists j :: i < j < |es| && Cancels(es[j], n, id))
      && (before || exists j :: 0 <= j < |es| && Cancels(es[j], n, id))
  {
    if es != [] {
      var k := |es| - 1;
      CancelStandsExactly(es[..k], n, id, before);
    }
  }

  lemma {:induction false} StandsFromFirst(es: seq<Event>, n: NodeId, id: QueryId, before: bool)
    requires es != []
    ensures CancelStands(es, n, id, before) ==
      CancelStands(es[1..], n, id, !Starts(es[0], id) && (Cancels(es[0], n, id) || before))
    decreases |es|
  {
    var k := |es| - 1;
    if k > 0 {
      StandsFromFirst(es[..k], n, id, before);
      assert es[..k][1..] == es[1..][..k - 1];
    }
  }

  /** What one driven step does to a query that has not been reported on. */
  lemma CancelStep(s: System, ts: Tickets, e: Event, n: NodeId, id: QueryId)
    requires Inv(s) && TicketsFit(s, ts) && Driven(s, ts, e)
    requires Owns(s, n, id) && Owns(Step(s, e), n, id) && !HasOutcome(s.nodes[n][id])
    ensures HasOutcome(Step(s, e).nodes[n][id]) <==> Reports(e, id)
    ensures !Reports(e, id) ==>
      (Step(s, e).nodes[n][id].status.Cancelled? <==>
         !Starts(e, id) && (Cancels(e, n, id) || s.nodes[n][id].status.Cancelled?))
  {
    DrivenStepIsAdmissible(s, ts, e);
    RecordAfter(s, e, n, id);
    assert ts[id].node == n;
    if TouchesRecord(s, e, n, id) {
      RecordCancelled(s.nodes[n][id], e);
    }
  }

  lemma RecordCancelled(q: Query, e: Event)
    requires !e.Register? && !e.Cleanup? && !HasOutcome(q)
    ensures HasOutcome(NewRecord(q, e)) <==> e.UpdateResult? || e.UpdateError?
    ensures NewRecord(q, e).status.Cancelled? <==> e.Cancel? || e.Deliver?
  {
  }

  predicate Unreported(es: seq<Event>, id: QueryId) {
    forall i :: 0 <= i < |es| ==> !Reports(es[i], id)
  }

  lemma UnreportedFromFirst(es: seq<Event>, id: QueryId)
    requires es != []
    ensures Unreported(es, id) <==> !Reports(es[0], id) && Unreported(es[1..], id)
  {
    assert forall i :: 1 <= i < |es| ==> es[i] == es[1..][i - 1];
  }

  /** When a cancelled query is still cancelled. As long as a node still has the query, it is
      cancelled if and only if it was not reported on, and a cancel reached the node after
      the start. So one cancelled while waiting is brought back by its start, and any
      cancelled one by its report, and by nothing else. */
  lemma {:induction false} CancelledExactly(s: System, ts: Tickets, es: seq<Event>, n: NodeId, id: QueryId)
    requires Inv(s) && TicketsFit(s, ts) && AllDriven(s, ts, es)
    requires Owns(s, n, id) && !HasOutcome(s.nodes[n][id])
    ensures AllAdmissible(s, es)
    ensures Owns(After(s, es), n, id) ==>
      (After(s, es).nodes[n][id].status.Cancelled? <==>
         && Unreported(es, id)
         && CancelStands(es, n, id, s.nodes[n][id].status.Cancelled?))
    decreases |es|
  {
    DrivenIsAdmissible(s, ts, es);
    if es != [] && Owns(After(s, es), n, id) {
      var e, rest, s1, ts1 := es[0], es[1..], Step(s, es[0]), NextTickets(ts, es[0]);
      DrivenStep(s, ts, e);
      if !Owns(s1, n, id) {
        GoneStays(s1, ts1, rest, n, id);
        assert false;
      }
      CancelStep(s, ts, e, n, id);
      UnreportedFromFirst(es, id);
      if Reports(e, id) {
        ReportedStays(s1, ts1, rest, n, id);
      } else {
        CancelledExactly(s1, ts1, rest, n, id);
        StandsFromFirst(es, n, id, s.nodes[n][id].status.Cancelled?);
      }
    }
  }

  /** A started query that has been cancelled stays so if and only if it is not reported on. */
  lemma CancelledStaysExactly(s: System, ts: Tickets, es: seq<Event>, n: NodeId, id: QueryId)
    requires Inv(s) && TicketsFit(s, ts) && AllDriven(s, ts, es)
    requires Owns(s, n, id) && s.nodes[n][id].status.Cancelled? && ts[id].phase.Started?
    ensures AllAdmissible(s, es)
    ensures Owns(After(s, es), n, id) ==>
      (After(s, es).nodes[n][id].status.Cancelled? <==> Unreported(es, id))
  {
    CancelledExactly(s, ts, es, n, id);
    NoSecondStart(s, ts, es, id);
    CancelStandsExactly(es, n, id, true);
  }

  lemma {:induction false} NoSecondStart(s: System, ts: Tickets, es: seq<Event>, id: QueryId)
    requires AllDriven(s, ts, es) && id in ts && !ts[id].phase.Waiting?
    ensures forall i :: 0 <= i < |es| ==> !Starts(es[i], id)
    decreases |es|
  {
    if es != [] {
      NoSecondStart(Step(s, es[0]), NextTickets(ts, es[0]), es[1..], id);
      assert forall i :: 1 <= i < |es| ==> es[i] == es[1..][i - 1];
    }
  }

  /** `Cancelled` itself is not final: a query cancelled before its driver starts it is
      put back to running, its context already cancelled. */
  lemma CancelledIsNotFinal(q: Query, now: nat, t: nat)
    requires FreshRecord(q) && q.cancelFunc.Armed?
    ensures var s := System(map["a" := map[]], Store(map[], map[]), {});
      var es := [Register("a", q, now), Cancel("a", q.queryId), SetRunning("a", q.queryId, t)];
      && Initial(s) && AllDriven(s, map[], es) && AllAdmissible(s, es)
      && var s' := After(s, es);
      Owns(s', "a", q.queryId) && s'.nodes["a"][q.queryId].status.Running?
      && s'.nodes["a"][q.queryId].cancelFunc.Fired?
  {
    var s := System(map["a" := map[]], Store(map[], map[]), {});
    var e0, e1, e2 := Register("a", q, now), Cancel("a", q.queryId), SetRunning("a", q.queryId, t);
    var es := [e0, e1, e2];
    var s1 := Step(s, e0);
    assert forall n, id :: !Owns(s, n, id);
    assert s1.nodes["a"] == map[q.queryId := q.(createdAt := now)];
    var s2 := Step(s1, e1);
    assert s2.nodes["a"][q.queryId].status.Cancelled?;
    var s3 := Step(s2, e2);
    var ts1 := NextTickets(map[], e0);
    assert forall k: Tickets :: AllDriven(s3, k, []);
    assert es[1..] == [e1, e2] && [e1, e2][1..] == [e2] && [e2][1..] == [];
    assert AllDriven(s2, ts1, [e2]);
    assert AllDriven(s1, ts1, [e1, e2]);
    assert After(s2, [e2]) == s3;
    assert After(s1, [e1, e2]) == s3;
    assert AllDriven(s, map[], es);
    InitialRefines(s);
    DrivenIsAdmissible(s, map[], es);
    assert After(s, es) == s3;
  }
}
