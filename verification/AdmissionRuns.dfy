/** Whole acquires and releases, one after the other: what the counters do then is what a
    plain count of the permits held would do. */
module AdmissionRuns {
  import opened Prelude
  import opened Admission

  /** A call of `Acquire` or `AcquireForDatasource`, one of whose INCRs may fail, and a call
      of the release function of an earlier one. */
  datatype Op =
    | AcquireOp(id: int, userId: int, datasource: Option<int>, failAt: Option<nat>)
    | ReleaseOp(id: int)

  /** The keys each unreleased permit holds. */
  type Permits = map<int, seq<Key>>

  datatype Service = Service(counters: Counters, permits: Permits)

  function KeysOf(op: Op): seq<Key>
    requires op.AcquireOp?
  {
    Keys(Attempt(op.userId, op.datasource, Held))
  }

  /** The program: INCRs and DECRs. */
  function Do(s: Service, op: Op, limits: Limits): Service {
    match op
    case AcquireOp(id, _, _, failAt) =>
      var (c, answer) := Alone(s.counters, KeysOf(op), limits, failAt, 0);
      Service(c, if answer.Granted? then s.permits[id := KeysOf(op)] else s.permits)
    case ReleaseOp(id) =>
      if id in s.permits then Service(Undo(s.counters, s.permits[id]), s.permits - {id}) else s
  }

  function Holding(p: Permits, k: Key): set<int> {
    set id | id in p && k in p[id]
  }

  function HoldersOf(p: Permits, k: Key): nat {
    |Holding(p, k)|
  }

  predicate Room(p: Permits, op: Op, limits: Limits)
    requires op.AcquireOp?
  {
    && HoldersOf(p, User(op.userId)) < limits.perUser && HoldersOf(p, Global) < limits.global
    && (op.datasource.Some? ==> HoldersOf(p, Datasource(op.datasource.value)) < limits.perDatasource)
  }

  /** The specification: a permit is handed out exactly when no Redis error occurs and each
      of its keys has room. */
  function Ideal(p: Permits, op: Op, limits: Limits): Permits {
    match op
    case AcquireOp(id, _, _, failAt) =>
      if (failAt.None? || failAt.value >= |KeysOf(op)|) && Room(p, op, limits) then p[id := KeysOf(op)] else p
    case ReleaseOp(id) => p - {id}
  }

  function DoAll(s: Service, ops: seq<Op>, limits: Limits): Service {
    if ops == [] then s else Do(DoAll(s, ops[..|ops| - 1], limits), ops[|ops| - 1], limits)
  }

  function IdealAll(p: Permits, ops: seq<Op>, limits: Limits): Permits {
    if ops == [] then p else Ideal(IdealAll(p, ops[..|ops| - 1], limits), ops[|ops| - 1], limits)
  }

  /** Every acquire is a new one. */
  predicate Fresh(ops: seq<Op>) {
    forall i, j :: 0 <= i < j < |ops| && ops[i].AcquireOp? && ops[j].AcquireOp? ==> ops[i].id != ops[j].id
  }

  ghost predicate Counted(s: Service) {
    && (forall id :: id in s.permits ==> Distinct(s.permits[id]))
    && (forall k :: Count(s.counters, k) == HoldersOf(s.permits, k))
  }

  lemma HeldOneMore(p: Permits, id: int, ks: seq<Key>, k: Key)
    requires id !in p
    ensures HoldersOf(p[id := ks], k) == HoldersOf(p, k) + if k in ks then 1 else 0
  {
    assert Holding(p[id := ks], k) == if k in ks then Holding(p, k) + {id} else Holding(p, k);
  }

  lemma HeldOneLess(p: Permits, id: int, k: Key)
    requires id in p
    ensures HoldersOf(p - {id}, k) == HoldersOf(p, k) - if k in p[id] then 1 else 0
  {
    assert Holding(p - {id}, k) == if k in p[id] then Holding(p, k) - {id} else Holding(p, k);
  }

  lemma DoIsIdeal(s: Service, op: Op, limits: Limits)
    requires Counted(s) && (op.AcquireOp? ==> op.id !in s.permits)
    ensures Counted(Do(s, op, limits)) && Do(s, op, limits).permits == Ideal(s.permits, op, limits)
  {
    if op.AcquireOp? {
      AcquireIsIdeal(s, op, limits);
    } else if op.id in s.permits {
      UndoCounts(s.counters, s.permits[op.id]);
      forall k ensures Count(Do(s, op, limits).counters, k) == HoldersOf(s.permits - {op.id}, k) {
        HeldOneLess(s.permits, op.id, k);
      }
    } else {
      assert s.permits - {op.id} == s.permits;
    }
  }

  lemma AcquireIsIdeal(s: Service, op: Op, limits: Limits)
    requires Counted(s) && op.AcquireOp? && op.id !in s.permits
    ensures Counted(Do(s, op, limits)) && Do(s, op, limits).permits == Ideal(s.permits, op, limits)
  {
    var ks := KeysOf(op);
    AloneSpeltOut(s.counters, limits, op.userId, op.datasource, op.failAt);
    KeysAre(Attempt(op.userId, op.datasource, Held));
    forall k ensures Count(Do(s, op, limits).counters, k) == HoldersOf(Do(s, op, limits).permits, k) {
      HeldOneMore(s.permits, op.id, ks, k);
    }
  }

  lemma {:induction false} PermitsWereAcquired(s: Service, ops: seq<Op>, limits: Limits, id: int)
    requires id in DoAll(s, ops, limits).permits
    ensures id in s.permits || exists i :: 0 <= i < |ops| && ops[i].AcquireOp? && ops[i].id == id
  {
    if ops != [] {
      var n := |ops| - 1;
      if id in DoAll(s, ops[..n], limits).permits {
        PermitsWereAcquired(s, ops[..n], limits, id);
      } else {
        assert ops[n].AcquireOp? && ops[n].id == id;
      }
    }
  }

  /** Over every sequence of whole acquires and releases, failed ones and repeated releases
      included, the permits handed out are those that a count of the holders would hand out,
      and every counter is that count. */
  lemma {:induction false} SequentialRunsCountHolders(ops: seq<Op>, limits: Limits)
    requires Fresh(ops)
    ensures var s := DoAll(Service(map[], map[]), ops, limits);
      && s.permits == IdealAll(map[], ops, limits)
      && forall k :: Count(s.counters, k) == HoldersOf(s.permits, k)
    ensures Counted(DoAll(Service(map[], map[]), ops, limits))
  {
    var start := Service(map[], map[]);
    if ops == [] {
      assert forall k :: Holding(start.permits, k) == {};
    } else {
      var n := |ops| - 1;
      SequentialRunsCountHolders(ops[..n], limits);
      var s := DoAll(start, ops[..n], limits);
      if ops[n].AcquireOp? && ops[n].id in s.permits {
        PermitsWereAcquired(start, ops[..n], limits, ops[n].id);
        assert false;
      }
      DoIsIdeal(s, ops[n], limits);
    }
  }
}
