/** The gRPC server's per-executor mailbox of executions to cancel: cancel requests append
    to it, a named heartbeat takes everything in it. */
module CancelMailbox {
  type Name = string
  type ExecutionId = string

  datatype Event = Add(executor: Name, id: ExecutionId) | Heartbeat(name: Name)

  type Boxes = map<Name, seq<ExecutionId>>

  function Pending(b: Boxes, n: Name): seq<ExecutionId> {
    if n in b then b[n] else []
  }

  function Step(b: Boxes, e: Event): Boxes {
    match e
    case Add(n, id) => b[n := Pending(b, n) + [id]]
    // the probe a client sends before it has a name takes nothing
    case Heartbeat(n) => if n == "" || Pending(b, n) == [] then b else b - {n}
  }

  /** The list an event brings to executor `n`: a heartbeat of its own is answered with one. */
  function Answer(b: Boxes, e: Event, n: Name): seq<ExecutionId> {
    if e == Heartbeat(n) && n != "" then Pending(b, n) else []
  }

  class Server {
    var cancelExecIds: Boxes
    var needExecSync: set<Name>

    constructor ()
      ensures cancelExecIds == map[] && needExecSync == {}
    {
      cancelExecIds, needExecSync := map[], {};
    }

    method AddCancelExecutionId(executor: Name, id: ExecutionId)
      modifies this`cancelExecIds
      ensures cancelExecIds == Step(old(cancelExecIds), Add(executor, id))
      ensures Pending(cancelExecIds, executor) == Pending(old(cancelExecIds), executor) + [id]
      ensures forall m :: m != executor ==> Pending(cancelExecIds, m) == Pending(old(cancelExecIds), m)
    {
      cancelExecIds := cancelExecIds[executor := Pending(cancelExecIds, executor) + [id]];
    }

    method SyncRunningTasks(executor: Name)
      modifies this`needExecSync
      ensures needExecSync == old(needExecSync) + {executor}
    {
      needExecSync := needExecSync + {executor};
    }

    /** The part of a heartbeat that runs under the server's lock. A named one empties the
        executor's box into the answer and leaves every other box as it was. */
    method TakeHeartbeat(name: Name) returns (cancelIds: seq<ExecutionId>, needFullSync: bool)
      modifies this
      ensures cancelExecIds == Step(old(cancelExecIds), Heartbeat(name))
      ensures cancelIds == Answer(old(cancelExecIds), Heartbeat(name), name)
      ensures name != "" ==> cancelIds == Pending(old(cancelExecIds), name) && Pending(cancelExecIds, name) == []
      ensures name == "" ==> cancelIds == [] && cancelExecIds == old(cancelExecIds)
      ensures forall m :: m != name ==> Pending(cancelExecIds, m) == Pending(old(cancelExecIds), m)
      ensures needFullSync <==> name != "" && name in old(needExecSync)
      ensures needExecSync == if name == "" then old(needExecSync) else old(needExecSync) - {name}
    {
      if name == "" {
        return [], false;
      }
      needFullSync := name in needExecSync;
      cancelIds := Pending(cancelExecIds, name);
      if |cancelIds| > 0 {
        cancelExecIds := cancelExecIds - {name};
      }
      if needFullSync {
        needExecSync := needExecSync - {name};
      }
    }
  }

  // ---------------------------------------------------------------- runs, latest event last

  function After(b: Boxes, es: seq<Event>): Boxes {
    if es == [] then b else Step(After(b, es[..|es| - 1]), es[|es| - 1])
  }

  /** The lists returned to an executor over a run, one after the other. */
  function Answered(b: Boxes, es: seq<Event>, n: Name): seq<ExecutionId> {
    if es == [] then []
    else
      var before := es[..|es| - 1];
      Answered(b, before, n) + Answer(After(b, before), es[|es| - 1], n)
  }

  /** The requests for one executor, in order. */
  function Asked(es: seq<Event>, n: Name): seq<ExecutionId> {
    if es == [] then [] else Asked(es[..|es| - 1], n) + AskedBy(es[|es| - 1], n)
  }

  function AskedBy(e: Event, n: Name): seq<ExecutionId> {
    if e.Add? && e.executor == n then [e.id] else []
  }

  /** One event moves ids from the box into the answer, and adds only its own. */
  lemma StepLosesNothing(b: Boxes, e: Event, n: Name)
    ensures Answer(b, e, n) + Pending(Step(b, e), n) == Pending(b, n) + AskedBy(e, n)
  {
  }

  /** In every interleaving, the lists returned to an executor followed by what waits for it
      are, in order, what waited before followed by everything asked for it since. */
  lemma {:induction false} RunLosesNothing(b: Boxes, es: seq<Event>, n: Name)
    ensures Answered(b, es, n) + Pending(After(b, es), n) == Pending(b, n) + Asked(es, n)
  {
    if es != [] {
      var before, e := es[..|es| - 1], es[|es| - 1];
      var m := After(b, before);
      RunLosesNothing(b, before, n);
      StepLosesNothing(m, e, n);
      Extend(Answered(b, before, n), Pending(m, n), Pending(b, n), Asked(before, n),
             Answer(m, e, n), Pending(Step(m, e), n), AskedBy(e, n));
    }
  }

  lemma Extend<T>(returned: seq<T>, waits: seq<T>, first: seq<T>, asked: seq<T>, x: seq<T>, y: seq<T>, q: seq<T>)
    requires returned + waits == first + asked && x + y == waits + q
    ensures (returned + x) + y == first + (asked + q)
  {
    assert (returned + x) + y == returned + (x + y);
    assert returned + (waits + q) == (returned + waits) + q;
    assert (first + asked) + q == first + (asked + q);
  }

  /** From empty boxes: all lists ever returned to an executor, followed by what waits for it,
      are exactly what was asked for it, in order. So every request is handed out at most once
      and none disappears. */
  lemma MailboxDelivers(es: seq<Event>, n: Name)
    ensures Answered(map[], es, n) + Pending(After(map[], es), n) == Asked(es, n)
  {
    RunLosesNothing(map[], es, n);
  }

  /** With a heartbeat of its own, an executor has been handed everything. */
  lemma HeartbeatCatchesUp(es: seq<Event>, n: Name)
    requires n != "" && es != [] && es[|es| - 1] == Heartbeat(n)
    ensures Answered(map[], es, n) == Asked(es, n)
  {
    MailboxDelivers(es, n);
    assert Pending(After(map[], es), n) == [];
  }
}
