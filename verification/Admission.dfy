/** Admission control over three dimensions (user, global, datasource), at the grain of
    single Redis commands. An attempt increments its counters one by one, undoes what it
    has incremented when a limit is hit or a command fails, and decrements all of them
    when its permit is released. Any number of attempts interleave, counters may expire at
    any time, and DECRs may fail. */
module Admission {
  import opened Prelude

  datatype Key = User(userId: int) | Global | Datasource(datasourceId: int)

  datatype Limits = Limits(perUser: int, global: int, perDatasource: int)

  function LimitOf(limits: Limits, k: Key): int {
    match k
    case User(_) => limits.perUser
    case Global => limits.global
    case Datasource(_) => limits.perDatasource
  }

  type Counters = map<Key, int>

  /** Redis reads a missing counter as zero. */
  function Count(c: Counters, k: Key): int {
    if k in c then c[k] else 0
  }

  function Add(c: Counters, k: Key, d: int): Counters {
    c[k := Count(c, k) + d]
  }

  datatype Outcome = Rejected | Errored | Released

  /** Where an attempt stands. `Acquiring(k)`: its first k counters are incremented and
      within their limits. `Undoing(k, j, o)`: of its first k counters, which it has
      incremented, the first j are decremented again. */
  datatype Progress =
    | Acquiring(k: nat)
    | Held
    | Undoing(n: nat, j: nat, outcome: Outcome)
    | Done(result: Outcome)

  /** An attempt by `Acquire` (no datasource) or `AcquireForDatasource`. */
  datatype Attempt = Attempt(userId: int, datasource: Option<int>, progress: Progress)

  /** The counters of an attempt, in the order in which they are taken and given back. */
  function Keys(a: Attempt): (ks: seq<Key>)
    ensures forall i, j :: 0 <= i < j < |ks| ==> ks[i] != ks[j]
  {
    [User(a.userId), Global] + if a.datasource.Some? then [Datasource(a.datasource.value)] else []
  }

  /** Besides counters and attempts, two tallies that no command reads: how many attempts
      owed a counter when it last expired, and how many of its DECRs have failed since. */
  datatype State = State(counters: Counters, attempts: map<int, Attempt>, debt: Counters, leaked: Counters)

  datatype Event =
    | Begin(id: int, userId: int, datasource: Option<int>)
    | Incr(id: int)      // the next INCR, with the check of the value it returns
    | IncrFails(id: int) // the next INCR returns an error
    | Decr(id: int)      // the next DECR of a compensation or a release
    | DecrFails(id: int) // that DECR returns an error, which nobody looks at
    | Release(id: int)   // the release function is called
    | Expire(key: Key)   // Redis drops a counter

  predicate Enabled(s: State, e: Event) {
    match e
    case Begin(id, _, _) => id !in s.attempts
    case Incr(id) => id in s.attempts && s.attempts[id].progress.Acquiring?
    case IncrFails(id) => id in s.attempts && s.attempts[id].progress.Acquiring?
    case Decr(id) => id in s.attempts && s.attempts[id].progress.Undoing?
    case DecrFails(id) => id in s.attempts && s.attempts[id].progress.Undoing?
    case Expire(_) => true
    case Release(id) =>
      // only a granted permit has a release function
      && id in s.attempts
      && match s.attempts[id].progress
         case Acquiring(_) => false
         case Held => true
         case Undoing(_, _, o) => o.Released?
         case Done(o) => o.Released?
  }

  predicate WellFormed(a: Attempt) {
    match a.progress
    case Acquiring(k) => k < |Keys(a)|
    case Held => true
    case Undoing(n, j, o) => j < n <= |Keys(a)| && (o.Released? ==> n == |Keys(a)|)
    case Done(_) => true
  }

  function AfterIncr(a: Attempt, value: int, limits: Limits): Progress
    requires a.progress.Acquiring? && WellFormed(a)
  {
    var k := a.progress.k;
    if value > LimitOf(limits, Keys(a)[k]) then Undoing(k + 1, 0, Rejected)
    else if k + 1 == |Keys(a)| then Held
    else Acquiring(k + 1)
  }

  function AfterFailure(a: Attempt): Progress
    requires a.progress.Acquiring?
  {
    if a.progress.k == 0 then Done(Errored) else Undoing(a.progress.k, 0, Errored)
  }

  function AfterDecr(a: Attempt): Progress
    requires a.progress.Undoing?
  {
    var p := a.progress;
    if p.j + 1 == p.n then Done(p.outcome) else p.(j := p.j + 1)
  }

  /** The release flag makes every call but the first do nothing. */
  function AfterRelease(a: Attempt): Progress {
    if a.progress.Held? then Undoing(|Keys(a)|, 0, Released) else a.progress
  }

  ghost predicate AllWellFormed(s: State) {
    forall id :: id in s.attempts ==> WellFormed(s.attempts[id])
  }

  function Moved(s: State, id: int, p: Progress): map<int, Attempt>
    requires id in s.attempts
  {
    s.attempts[id := s.attempts[id].(progress := p)]
  }

  function Step(s: State, e: Event, limits: Limits): State
    requires AllWellFormed(s) && Enabled(s, e)
  {
    match e
    case Begin(id, u, d) => s.(attempts := s.attempts[id := Attempt(u, d, Acquiring(0))])
    case Incr(id) =>
      var a := s.attempts[id];
      var k := Keys(a)[a.progress.k];
      var c := Add(s.counters, k, 1);
      s.(counters := c, attempts := Moved(s, id, AfterIncr(a, Count(c, k), limits)))
    case IncrFails(id) => s.(attempts := Moved(s, id, AfterFailure(s.attempts[id])))
    case Decr(id) =>
      var a := s.attempts[id];
      s.(counters := Add(s.counters, Keys(a)[a.progress.j], -1), attempts := Moved(s, id, AfterDecr(a)))
    case DecrFails(id) =>
      var a := s.attempts[id];
      s.(leaked := Add(s.leaked, Keys(a)[a.progress.j], 1), attempts := Moved(s, id, AfterDecr(a)))
    case Release(id) => s.(attempts := Moved(s, id, AfterRelease(s.attempts[id])))
    case Expire(k) =>
      s.(counters := s.counters - {k}, debt := s.debt[k := |Owing(s, k)|], leaked := s.leaked - {k})
  }

  // ---------------------------------------------------------------- what is owed

  /** The counters an attempt has incremented and not yet decremented. */
  function Owed(a: Attempt): seq<Key>
    requires WellFormed(a)
  {
    match a.progress
    case Acquiring(k) => Keys(a)[..k]
    case Held => Keys(a)
    case Undoing(n, j, _) => Keys(a)[j..n]
    case Done(_) => []
  }

  /** The counters among them whose limit the attempt has passed. */
  function Passed(a: Attempt): seq<Key>
    requires WellFormed(a)
  {
    match a.progress
    case Undoing(n, j, Rejected) => Keys(a)[j..if j < n - 1 then n - 1 else j]
    case _ => Owed(a)
  }

  function Owing(s: State, k: Key): set<int>
    requires AllWellFormed(s)
  {
    set id | id in s.attempts && k in Owed(s.attempts[id])
  }

  ghost function Passing(s: State, k: Key): set<int>
    requires AllWellFormed(s)
  {
    set id | id in s.attempts && k in Passed(s.attempts[id])
  }

  /** The unreleased permits that count against `k`. */
  ghost function Holders(s: State, k: Key): set<int> {
    set id | id in s.attempts && s.attempts[id].progress.Held? && k in Keys(s.attempts[id])
  }

  ghost predicate Balanced(s: State, k: Key)
    requires AllWellFormed(s)
  {
    && Count(s.counters, k) == |Owing(s, k)| - Count(s.debt, k) + Count(s.leaked, k)
    && Count(s.debt, k) >= 0 && Count(s.leaked, k) >= 0
  }

  /** At most `n` beyond the debt; a limit that is not positive allows none. */
  ghost predicate Within(n: nat, s: State, limits: Limits, k: Key) {
    n <= Count(s.debt, k) || n <= LimitOf(limits, k) + Count(s.debt, k)
  }

  ghost predicate Inv(s: State, limits: Limits) {
    && AllWellFormed(s)
    && (forall k :: Balanced(s, k))
    && (forall k :: Within(|Passing(s, k)|, s, limits, k))
  }

  lemma SubsetSize<T>(a: set<T>, b: set<T>)
    requires a <= b
    ensures |a| <= |b|
  {
    assert b == a + (b - a);
  }

  lemma PassedIsOwed(a: Attempt)
    requires WellFormed(a)
    ensures forall k :: k in Passed(a) ==> k in Owed(a)
  {
  }

  lemma PassingIsOwing(s: State, k: Key)
    requires AllWellFormed(s)
    ensures Passing(s, k) <= Owing(s, k)
  {
    forall id | id in Passing(s, k) ensures id in Owing(s, k) {
      PassedIsOwed(s.attempts[id]);
    }
  }

  /** One INCR adds its key to what the attempt owes, and to what it has passed only if
      the new value is within the limit. */
  lemma IncrOwes(a: Attempt, value: int, limits: Limits)
    requires a.progress.Acquiring? && WellFormed(a)
    ensures var a', k := a.(progress := AfterIncr(a, value, limits)), Keys(a)[a.progress.k];
      && WellFormed(a') && k !in Owed(a)
      && (forall x :: x in Owed(a') <==> x in Owed(a) || x == k)
      && (forall x :: x in Passed(a') ==> x in Passed(a) || (x == k && value <= LimitOf(limits, k)))
  {
    var ks, k := Keys(a), a.progress.k;
    assert ks[..k + 1] == ks[..k] + [ks[k]];
    var a' := a.(progress := AfterIncr(a, value, limits));
    assert Owed(a') == ks[..k + 1];
    if a'.progress.Undoing? {
      assert Passed(a') == ks[..k];
    }
  }

  lemma DecrOwes(a: Attempt)
    requires a.progress.Undoing? && WellFormed(a)
    ensures var a', k := a.(progress := AfterDecr(a)), Keys(a)[a.progress.j];
      && WellFormed(a') && k in Owed(a)
      && (forall x :: x in Owed(a') <==> x in Owed(a) && x != k)
      && (forall x :: x in Passed(a') ==> x in Passed(a))
  {
    var ks, p := Keys(a), a.progress;
    var a' := a.(progress := AfterDecr(a));
    assert ks[p.j..p.n] == [ks[p.j]] + ks[p.j + 1..p.n];
    assert Owed(a') == ks[p.j + 1..p.n];
  }

  /** A step that moves one attempt and leaves the counters alone. */
  lemma QuietStep(s: State, s': State, id: int, limits: Limits)
    requires Inv(s, limits) && id in s'.attempts && WellFormed(s'.attempts[id])
    requires s' == s.(attempts := s.attempts[id := s'.attempts[id]])
    requires id in s.attempts ==> forall k :: k in Owed(s'.attempts[id]) <==> k in Owed(s.attempts[id])
    requires id in s.attempts ==> forall k :: k in Passed(s'.attempts[id]) ==> k in Passed(s.attempts[id])
    requires id !in s.attempts ==> Owed(s'.attempts[id]) == [] && Passed(s'.attempts[id]) == []
    ensures Inv(s', limits)
  {
    forall k ensures Balanced(s', k) && Within(|Passing(s', k)|, s', limits, k) {
      assert Owing(s', k) == Owing(s, k) && Passing(s', k) <= Passing(s, k) && Balanced(s, k);
      SubsetSize(Passing(s', k), Passing(s, k));
      assert Within(|Passing(s, k)|, s, limits, k);
    }
  }

  /** What an INCR or DECR of `key` by attempt `id` means for all attempts together. */
  ghost predicate Moves(s: State, s': State, id: int, key: Key, d: int)
    requires AllWellFormed(s)
  {
    && id in s.attempts && id in s'.attempts && WellFormed(s'.attempts[id])
    && s'.attempts == s.attempts[id := s'.attempts[id]]
    && (s' == s.(attempts := s'.attempts, counters := Add(s.counters, key, d)) ||
        (d == -1 && s' == s.(attempts := s'.attempts, leaked := Add(s.leaked, key, 1))))
    && (d == 1 || d == -1)
    && (key in Owed(s.attempts[id]) <==> d == -1)
    && (forall x :: x in Owed(s'.attempts[id]) <==> if x == key then d == 1 else x in Owed(s.attempts[id]))
  }

  lemma MovesCount(s: State, s': State, id: int, key: Key, d: int, k: Key)
    requires AllWellFormed(s) && AllWellFormed(s') && Moves(s, s', id, key, d)
    requires Balanced(s, k)
    ensures Balanced(s', k)
  {
    OwingMoves(s, s', id, key, d, k);
  }

  lemma OwingMoves(s: State, s': State, id: int, key: Key, d: int, k: Key)
    requires AllWellFormed(s) && AllWellFormed(s') && Moves(s, s', id, key, d)
    ensures |Owing(s', k)| == |Owing(s, k)| + if k == key then d else 0
  {
    var before, after := Owing(s, k), Owing(s', k);
    forall i
      ensures i in after <==> if i == id && k == key then d == 1 else i in before
    {
      assert i != id && i in s.attempts ==> s'.attempts[i] == s.attempts[i];
    }
    assert after == if k != key then before else if d == 1 then before + {id} else before - {id};
  }

  lemma IncrStep(s: State, id: int, limits: Limits)
    requires Inv(s, limits) && Enabled(s, Incr(id))
    ensures Inv(Step(s, Incr(id), limits), limits)
  {
    var s', a := Step(s, Incr(id), limits), s.attempts[id];
    var key := Keys(a)[a.progress.k];
    IncrOwes(a, Count(s'.counters, key), limits);
    assert AllWellFormed(s');
    forall k ensures Balanced(s', k) {
      MovesCount(s, s', id, key, 1, k);
    }
    forall k ensures Within(|Passing(s', k)|, s', limits, k) {
      if k == key && Count(s'.counters, key) <= LimitOf(limits, key) {
        assert Balanced(s', k);
        PassingIsOwing(s', k);
        SubsetSize(Passing(s', k), Owing(s', k));
      } else {
        assert Passing(s', k) <= Passing(s, k) && Within(|Passing(s, k)|, s, limits, k);
        SubsetSize(Passing(s', k), Passing(s, k));
      }
    }
  }

  /** A DECR, whether it succeeds or fails. */
  lemma DecrStep(s: State, e: Event, limits: Limits)
    requires Inv(s, limits) && Enabled(s, e) && (e.Decr? || e.DecrFails?)
    ensures Inv(Step(s, e, limits), limits)
  {
    var s', id, a := Step(s, e, limits), e.id, s.attempts[e.id];
    DecrOwes(a);
    assert AllWellFormed(s');
    forall k ensures Balanced(s', k) {
      MovesCount(s, s', id, Keys(a)[a.progress.j], -1, k);
    }
    forall k ensures Within(|Passing(s', k)|, s', limits, k) {
      assert Passing(s', k) <= Passing(s, k) && Within(|Passing(s, k)|, s, limits, k);
      SubsetSize(Passing(s', k), Passing(s, k));
    }
  }

  lemma ExpireStep(s: State, key: Key, limits: Limits)
    requires Inv(s, limits)
    ensures Inv(Step(s, Expire(key), limits), limits)
  {
    var s' := Step(s, Expire(key), limits);
    forall k ensures Balanced(s', k) && Within(|Passing(s', k)|, s', limits, k) {
      assert Owing(s', k) == Owing(s, k) && Passing(s', k) == Passing(s, k) && Balanced(s, k);
      PassingIsOwing(s, k);
      SubsetSize(Passing(s, k), Owing(s, k));
    }
  }

  lemma StepKeepsInv(s: State, e: Event, limits: Limits)
    requires Inv(s, limits) && Enabled(s, e)
    ensures Inv(Step(s, e, limits), limits)
  {
    match e
    case Incr(id) => IncrStep(s, id, limits);
    case Decr(_) => DecrStep(s, e, limits);
    case DecrFails(_) => DecrStep(s, e, limits);
    case Expire(key) => ExpireStep(s, key, limits);
    case _ => QuietStep(s, Step(s, e, limits), e.id, limits);
  }

  // ---------------------------------------------------------------- runs

  ghost predicate Follows(s: State, es: seq<Event>, limits: Limits)
    requires AllWellFormed(s)
    decreases |es|
  {
    es == [] ||
    (Enabled(s, es[0]) && AllWellFormed(Step(s, es[0], limits)) && Follows(Step(s, es[0], limits), es[1..], limits))
  }

  ghost function After(s: State, es: seq<Event>, limits: Limits): State
    requires AllWellFormed(s) && Follows(s, es, limits)
    decreases |es|
  {
    if es == [] then s else After(Step(s, es[0], limits), es[1..], limits)
  }

  lemma {:induction false} RunKeepsInv(s: State, es: seq<Event>, limits: Limits)
    requires Inv(s, limits) && Follows(s, es, limits)
    ensures Inv(After(s, es, limits), limits)
    decreases |es|
  {
    if es != [] {
      StepKeepsInv(s, es[0], limits);
      RunKeepsInv(Step(s, es[0], limits), es[1..], limits);
    }
  }

  const IDLE := State(map[], map[], map[], map[])

  lemma IdleInv(limits: Limits)
    ensures Inv(IDLE, limits)
  {
    forall k ensures Owing(IDLE, k) == {} && Passing(IDLE, k) == {} {
    }
  }

  /** The two kinds of events that disturb a counter. */
  predicate Expires(es: seq<Event>, k: Key) {
    exists i :: 0 <= i < |es| && es[i] == Expire(k)
  }

  predicate SomeDecrFails(es: seq<Event>) {
    exists i :: 0 <= i < |es| && es[i].DecrFails?
  }

  /** The debt of a key changes only when it expires, and then to what is owed at that time;
      nothing leaks unless a DECR fails. */
  lemma {:induction false} LossesExactly(s: State, es: seq<Event>, limits: Limits, k: Key)
    requires Inv(s, limits) && Follows(s, es, limits)
    ensures !Expires(es, k) ==> Count(After(s, es, limits).debt, k) == Count(s.debt, k)
    ensures !SomeDecrFails(es) && Count(s.leaked, k) == 0 ==> Count(After(s, es, limits).leaked, k) == 0
    decreases |es|
  {
    if es != [] {
      StepKeepsInv(s, es[0], limits);
      LossesExactly(Step(s, es[0], limits), es[1..], limits, k);
      assert forall e :: e in es[1..] ==> e in es;
      assert Expires(es, k) <==> Expire(k) in es;
      assert Expires(es[1..], k) <==> Expire(k) in es[1..];
    }
  }

  /** Exactly what expiry costs: after the last expiry of `k`, in a state `s`, the counter is
      the number of attempts owing, minus those that owed at that time, plus the DECRs that
      failed since; and permits exceed the limit at most by the former. */
  lemma ExpiryCostsExactly(s: State, es: seq<Event>, limits: Limits, k: Key)
    requires Inv(s, limits) && Follows(s, [Expire(k)] + es, limits) && !Expires(es, k)
    ensures var s' := After(s, [Expire(k)] + es, limits);
      && AllWellFormed(s') && Count(s'.leaked, k) >= 0
      && Count(s'.counters, k) == |Owing(s', k)| - |Owing(s, k)| + Count(s'.leaked, k)
      && (!SomeDecrFails(es) ==> Count(s'.leaked, k) == 0)
      && (|Holders(s', k)| <= |Owing(s, k)| || |Holders(s', k)| <= LimitOf(limits, k) + |Owing(s, k)|)
  {
    var s1 := Step(s, Expire(k), limits);
    assert ([Expire(k)] + es)[1..] == es;
    StepKeepsInv(s, Expire(k), limits);
    LossesExactly(s1, es, limits, k);
    RunKeepsInv(s1, es, limits);
    var s' := After(s1, es, limits);
    assert Balanced(s', k);
    HoldersWithin(s', limits, k);
  }

  lemma HoldersWithin(s: State, limits: Limits, k: Key)
    requires Inv(s, limits)
    ensures Within(|Holders(s, k)|, s, limits, k)
  {
    forall id | id in Holders(s, k) ensures id in Passing(s, k) {
      assert Passed(s.attempts[id]) == Keys(s.attempts[id]);
    }
    SubsetSize(Holders(s, k), Passing(s, k));
  }

  /** Safety: in every interleaving in which the counter of `k` does not expire, it equals
      the number of attempts that have incremented it and not yet decremented it, plus the
      DECRs that failed, and the unreleased permits never exceed the limit of `k`, be it
      that of a user, of the whole system, or of a datasource. */
  lemma AdmissionIsSafe(es: seq<Event>, limits: Limits, k: Key)
    requires Follows(IDLE, es, limits) && !Expires(es, k)
    ensures var s := After(IDLE, es, limits);
      && AllWellFormed(s)
      && Count(s.counters, k) == |Owing(s, k)| + Count(s.leaked, k)
      && Count(s.leaked, k) >= 0 && (!SomeDecrFails(es) ==> Count(s.leaked, k) == 0)
      && (Holders(s, k) == {} || |Holders(s, k)| <= LimitOf(limits, k))
  {
    IdleInv(limits);
    RunKeepsInv(IDLE, es, limits);
    LossesExactly(IDLE, es, limits, k);
    var s := After(IDLE, es, limits);
    assert Balanced(s, k);
    HoldersWithin(s, limits, k);
  }

  /** The unreleased permits of a user, of everybody, and on a datasource. */
  function PermitsOf(s: State, userId: int): set<int> {
    set id | id in s.attempts && s.attempts[id].progress == Held && s.attempts[id].userId == userId
  }

  function AllPermits(s: State): set<int> {
    set id | id in s.attempts && s.attempts[id].progress == Held
  }

  function PermitsOn(s: State, datasourceId: int): set<int> {
    set id | id in s.attempts && s.attempts[id].progress == Held && s.attempts[id].datasource == Some(datasourceId)
  }

  lemma HoldersArePermits(s: State, userId: int, datasourceId: int)
    ensures Holders(s, User(userId)) == PermitsOf(s, userId)
    ensures Holders(s, Global) == AllPermits(s)
    ensures Holders(s, Datasource(datasourceId)) == PermitsOn(s, datasourceId)
  {
    forall id | id in s.attempts
      ensures id in Holders(s, User(userId)) <==> id in PermitsOf(s, userId)
      ensures id in Holders(s, Global) <==> id in AllPermits(s)
      ensures id in Holders(s, Datasource(datasourceId)) <==> id in PermitsOn(s, datasourceId)
    {
      KeysAre(s.attempts[id]);
    }
  }

  lemma KeysAre(a: Attempt)
    ensures forall k :: k in Keys(a) <==>
      k == User(a.userId) || k == Global || (a.datasource.Some? && k == Datasource(a.datasource.value))
  {
  }

  predicate SomeExpiry(es: seq<Event>) {
    exists i :: 0 <= i < |es| && es[i].Expire?
  }

  /** The three limits, each on its own dimension: in every interleaving without expiry, a user
      never holds more permits than the limit per user, all together never more than the global
      limit, and a datasource never has more than the limit per datasource. */
  lemma LimitsHold(es: seq<Event>, limits: Limits, userId: int, datasourceId: int)
    requires Follows(IDLE, es, limits) && !SomeExpiry(es)
    ensures var s := After(IDLE, es, limits);
      && (PermitsOf(s, userId) == {} || |PermitsOf(s, userId)| <= limits.perUser)
      && (AllPermits(s) == {} || |AllPermits(s)| <= limits.global)
      && (PermitsOn(s, datasourceId) == {} || |PermitsOn(s, datasourceId)| <= limits.perDatasource)
  {
    AdmissionIsSafe(es, limits, User(userId));
    AdmissionIsSafe(es, limits, Global);
    AdmissionIsSafe(es, limits, Datasource(datasourceId));
    HoldersArePermits(After(IDLE, es, limits), userId, datasourceId);
  }

  /** Once every attempt is rejected, errored out or released, a counter that did not expire
      holds exactly the DECRs that failed: zero when none did. */
  lemma AllDoneAllZero(es: seq<Event>, limits: Limits, k: Key)
    requires Follows(IDLE, es, limits) && !Expires(es, k)
    requires forall id :: id in After(IDLE, es, limits).attempts ==>
               After(IDLE, es, limits).attempts[id].progress.Done?
    ensures var s := After(IDLE, es, limits);
      Count(s.counters, k) == Count(s.leaked, k) && (!SomeDecrFails(es) ==> Count(s.counters, k) == 0)
  {
    AdmissionIsSafe(es, limits, k);
    forall id ensures id !in Owing(After(IDLE, es, limits), k) {
    }
  }

  /** Calling a release function again, during or after the release, changes nothing. */
  lemma SecondReleaseIsIdle(s: State, id: int, limits: Limits)
    requires AllWellFormed(s) && Enabled(s, Release(id)) && !s.attempts[id].progress.Held?
    ensures Step(s, Release(id), limits) == s
  {
    assert s.attempts[id := s.attempts[id]] == s.attempts;
  }

  // ---------------------------------------------------------------- attempts that run alone

  /** Nobody is in the middle of acquiring, compensating or releasing. */
  ghost predicate Quiescent(s: State) {
    forall id :: id in s.attempts ==> s.attempts[id].progress.Held? || s.attempts[id].progress.Done?
  }

  lemma QuiescentCounts(s: State, limits: Limits, k: Key)
    requires Inv(s, limits) && Quiescent(s)
    ensures Count(s.counters, k) == |Holders(s, k)| - Count(s.debt, k) + Count(s.leaked, k)
  {
    assert Balanced(s, k);
    forall id ensures id in Owing(s, k) <==> id in Holders(s, k) {
    }
    assert Owing(s, k) == Holders(s, k);
  }

  /** No counter has expired while owed, and no DECR has failed since. */
  ghost predicate Lossless(s: State) {
    forall k :: Count(s.debt, k) == 0 && Count(s.leaked, k) == 0
  }

  /** The answer to an attempt: a permit, the limit it ran into (a datasource limit has its
      own error), or a Redis error. */
  datatype Answer = Granted | LimitHit(at: Key) | Failure

  /** What one attempt does to the counters when nobody interferes; `failAt` is the index
      of an INCR that returns an error. */
  function Alone(c: Counters, ks: seq<Key>, limits: Limits, failAt: Option<nat>, i: nat): (Counters, Answer)
    requires i <= |ks|
    decreases |ks| - i
  {
    if i == |ks| then (c, Granted)
    else if failAt == Some(i) then (Undo(c, ks[..i]), Failure)
    else
      var c' := Add(c, ks[i], 1);
      if Count(c', ks[i]) > LimitOf(limits, ks[i]) then (Undo(c', ks[..i + 1]), LimitHit(ks[i]))
      else Alone(c', ks, limits, failAt, i + 1)
  }

  function Undo(c: Counters, ks: seq<Key>): Counters
    decreases |ks|
  {
    if ks == [] then c else Undo(Add(c, ks[0], -1), ks[1..])
  }

  ghost predicate Distinct(ks: seq<Key>) {
    forall i, j :: 0 <= i < j < |ks| ==> ks[i] != ks[j]
  }

  lemma {:induction false} UndoCounts(c: Counters, ks: seq<Key>)
    requires Distinct(ks)
    ensures forall k :: Count(Undo(c, ks), k) == Count(c, k) - if k in ks then 1 else 0
    decreases |ks|
  {
    if ks != [] {
      var c' := Add(c, ks[0], -1);
      UndoCounts(c', ks[1..]);
      assert ks == [ks[0]] + ks[1..];
      forall k ensures Count(Undo(c, ks), k) == Count(c, k) - if k in ks then 1 else 0 {
        assert k in ks <==> k == ks[0] || k in ks[1..];
        assert ks[0] !in ks[1..];
      }
    }
  }

  /** `c` counts one more than `base` for each of the keys. */
  ghost predicate Taken(base: Counters, c: Counters, ks: seq<Key>) {
    forall k :: Count(c, k) == Count(base, k) + if k in ks then 1 else 0
  }

  /** From counters `base` plus the first i keys taken: granted exactly when all remaining
      keys have room, and otherwise every counter is back at `base`. */
  lemma {:induction false} AloneCounts(base: Counters, c: Counters, ks: seq<Key>, limits: Limits,
                                       failAt: Option<nat>, i: nat)
    requires Distinct(ks) && i <= |ks| && Taken(base, c, ks[..i])
    ensures var (c', r) := Alone(c, ks, limits, failAt, i);
      && (r.Granted? <==> forall j :: i <= j < |ks| ==>
            failAt != Some(j) && Count(base, ks[j]) < LimitOf(limits, ks[j]))
      && Taken(base, c', if r.Granted? then ks else [])
    decreases |ks| - i
  {
    if i == |ks| {
      assert ks[..i] == ks;
    } else if failAt == Some(i) {
      UndoTaken(base, c, ks, i);
    } else {
      var c1 := Add(c, ks[i], 1);
      TakenOneMore(base, c, ks, i);
      if Count(c1, ks[i]) > LimitOf(limits, ks[i]) {
        UndoTaken(base, c1, ks, i + 1);
      } else {
        AloneCounts(base, c1, ks, limits, failAt, i + 1);
      }
    }
  }

  lemma UndoTaken(base: Counters, c: Counters, ks: seq<Key>, i: nat)
    requires Distinct(ks) && i <= |ks| && Taken(base, c, ks[..i])
    ensures Taken(base, Undo(c, ks[..i]), [])
  {
    UndoCounts(c, ks[..i]);
  }

  lemma TakenOneMore(base: Counters, c: Counters, ks: seq<Key>, i: nat)
    requires Distinct(ks) && i < |ks| && Taken(base, c, ks[..i])
    ensures Count(Add(c, ks[i], 1), ks[i]) == Count(base, ks[i]) + 1
    ensures Taken(base, Add(c, ks[i], 1), ks[..i + 1])
  {
    assert ks[..i + 1] == ks[..i] + [ks[i]];
    assert ks[i] !in ks[..i];
  }

  /** Runs of `AcquireForDatasource` that do not overlap refine a count of holders: without
      Redis errors a permit is granted exactly when each dimension holds fewer permits than
      its limit, and an attempt that is not granted leaves every counter unchanged. */
  lemma SequentialAdmission(s: State, limits: Limits, userId: int, datasource: Option<int>, failAt: Option<nat>)
    requires Inv(s, limits) && Quiescent(s) && Lossless(s)
    ensures var ks := Keys(Attempt(userId, datasource, Held));
      var (c', r) := Alone(s.counters, ks, limits, failAt, 0);
      && (failAt.None? ==> (r.Granted? <==> forall k :: k in ks ==> |Holders(s, k)| < LimitOf(limits, k)))
      && (failAt.None? ==>
            (r.Granted? <==>
               && |PermitsOf(s, userId)| < limits.perUser && |AllPermits(s)| < limits.global
               && (datasource.Some? ==> |PermitsOn(s, datasource.value)| < limits.perDatasource)))
      && (forall k :: Count(c', k) == |Holders(s, k)| + if r.Granted? && k in ks then 1 else 0)
  {
    HoldersArePermits(s, userId, datasource.GetOr(0));
    var ks := Keys(Attempt(userId, datasource, Held));
    AloneCounts(s.counters, s.counters, ks, limits, failAt, 0);
    forall k ensures Count(s.counters, k) == |Holders(s, k)| {
      QuiescentCounts(s, limits, k);
    }
  }

  /** What an undisturbed attempt answers and counts, dimension by dimension. */
  lemma AloneSpeltOut(c: Counters, limits: Limits, userId: int, datasource: Option<int>, failAt: Option<nat>)
    ensures var (c', r) := Alone(c, Keys(Attempt(userId, datasource, Held)), limits, failAt, 0);
      && r == (if failAt == Some(0) then Failure
               else if Count(c, User(userId)) >= limits.perUser then LimitHit(User(userId))
               else if failAt == Some(1) then Failure
               else if Count(c, Global) >= limits.global then LimitHit(Global)
               else if datasource.None? then Granted
               else if failAt == Some(2) then Failure
               else if Count(c, Datasource(datasource.value)) >= limits.perDatasource
               then LimitHit(Datasource(datasource.value))
               else Granted)
      && forall k :: Count(c', k) == Count(c, k) +
           if r == Granted
              && (k == User(userId) || k == Global || (datasource.Some? && k == Datasource(datasource.value)))
           then 1 else 0
  {
    var ks := Keys(Attempt(userId, datasource, Held));
    AloneCounts(c, c, ks, limits, failAt, 0);
    AloneUnfolds(c, ks, limits, failAt);
  }

  function Decrs(id: int, n: nat): seq<Event> {
    seq(n, _ => Decr(id))
  }

  /** The commands of one attempt that runs alone from its i-th INCR on. */
  function AloneEvents(c: Counters, ks: seq<Key>, limits: Limits, failAt: Option<nat>, i: nat, id: int): seq<Event>
    requires i <= |ks|
    decreases |ks| - i
  {
    if i == |ks| then []
    else if failAt == Some(i) then [IncrFails(id)] + Decrs(id, i)
    else
      var c' := Add(c, ks[i], 1);
      [Incr(id)] + if Count(c', ks[i]) > LimitOf(limits, ks[i]) then Decrs(id, i + 1)
                   else AloneEvents(c', ks, limits, failAt, i + 1, id)
  }

  /** `s'` is `s` after attempt `id` moved to `p` and left the counters at `c`. */
  ghost predicate Reached(s: State, es: seq<Event>, limits: Limits, id: int, c: Counters, p: Progress)
    requires AllWellFormed(s) && id in s.attempts
  {
    && Follows(s, es, limits)
    && After(s, es, limits) == s.(counters := c, attempts := Moved(s, id, p))
  }

  lemma ReachedVia(s: State, e: Event, es: seq<Event>, limits: Limits, id: int, c: Counters, p: Progress)
    requires AllWellFormed(s) && id in s.attempts && Enabled(s, e)
      && (e.Incr? || e.IncrFails? || e.Decr? || e.Release?) && e.id == id
    requires AllWellFormed(Step(s, e, limits))
    requires Reached(Step(s, e, limits), es, limits, id, c, p)
    ensures Reached(s, [e] + es, limits, id, c, p)
  {
    assert ([e] + es)[1..] == es;
    var s1 := Step(s, e, limits);
    assert Moved(s1, id, p) == Moved(s, id, p);
  }

  /** The first of the remaining DECRs. */
  lemma UndoOne(s: State, id: int, limits: Limits)
    requires AllWellFormed(s) && id in s.attempts && s.attempts[id].progress.Undoing?
    ensures var a, s1 := s.attempts[id], Step(s, Decr(id), limits); var p := a.progress;
      && AllWellFormed(s1) && id in s1.attempts
      && Undo(s.counters, Keys(a)[p.j..p.n]) == Undo(s1.counters, Keys(a)[p.j + 1..p.n])
      && Decrs(id, p.n - p.j) == [Decr(id)] + Decrs(id, p.n - p.j - 1)
  {
    var a := s.attempts[id];
    var ks := Keys(a)[a.progress.j..a.progress.n];
    DecrOwes(a);
    assert ks[0] == Keys(a)[a.progress.j] && ks[1..] == Keys(a)[a.progress.j + 1..a.progress.n];
  }

  lemma {:induction false} UndoRun(s: State, id: int, limits: Limits)
    requires AllWellFormed(s) && id in s.attempts && s.attempts[id].progress.Undoing?
    ensures var a := s.attempts[id]; var p := a.progress;
      Reached(s, Decrs(id, p.n - p.j), limits, id, Undo(s.counters, Keys(a)[p.j..p.n]), Done(p.outcome))
    decreases s.attempts[id].progress.n - s.attempts[id].progress.j
  {
    var p, s1 := s.attempts[id].progress, Step(s, Decr(id), limits);
    var c := Undo(s1.counters, Keys(s.attempts[id])[p.j + 1..p.n]);
    UndoOne(s, id, limits);
    if p.j + 1 == p.n {
      Stays(s1, id, limits);
    } else {
      UndoRun(s1, id, limits);
    }
    ReachedVia(s, Decr(id), Decrs(id, p.n - p.j - 1), limits, id, c, Done(p.outcome));
  }

  function Ending(r: Answer): Progress {
    match r
    case Granted => Held
    case LimitHit(_) => Done(Rejected)
    case Failure => Done(Errored)
  }

  /** `Alone` is what the interleaved machine does when only this attempt moves. */
  lemma {:induction false} AloneIsARun(s: State, id: int, limits: Limits, failAt: Option<nat>)
    requires AllWellFormed(s) && id in s.attempts && s.attempts[id].progress.Acquiring?
    ensures var a := s.attempts[id]; var i := a.progress.k;
      var (c, r) := Alone(s.counters, Keys(a), limits, failAt, i);
      Reached(s, AloneEvents(s.counters, Keys(a), limits, failAt, i, id), limits, id, c, Ending(r))
    decreases |Keys(s.attempts[id])| - s.attempts[id].progress.k
  {
    var a := s.attempts[id];
    var ks, i := Keys(a), a.progress.k;
    var (c, r) := Alone(s.counters, ks, limits, failAt, i);
    if failAt == Some(i) {
      FailedIncr(s, id, limits, failAt);
    } else {
      var s1 := Step(s, Incr(id), limits);
      var over := Count(s1.counters, ks[i]) > LimitOf(limits, ks[i]);
      var rest := if over then Decrs(id, i + 1) else AloneEvents(s1.counters, ks, limits, failAt, i + 1, id);
      IncrOwes(a, Count(s1.counters, ks[i]), limits);
      if over {
        OverLimit(s1, id, limits, i + 1);
      } else {
        assert Alone(s.counters, ks, limits, failAt, i) == Alone(s1.counters, ks, limits, failAt, i + 1);
        if i + 1 == |ks| {
          Stays(s1, id, limits);
        } else {
          AloneIsARun(s1, id, limits, failAt);
        }
      }
      ReachedVia(s, Incr(id), rest, limits, id, c, Ending(r));
    }
  }

  lemma Stays(s: State, id: int, limits: Limits)
    requires AllWellFormed(s) && id in s.attempts
    ensures Reached(s, [], limits, id, s.counters, s.attempts[id].progress)
  {
    assert Moved(s, id, s.attempts[id].progress) == s.attempts;
  }

  lemma OverLimit(s: State, id: int, limits: Limits, n: nat)
    requires AllWellFormed(s) && id in s.attempts && s.attempts[id].progress == Undoing(n, 0, Rejected)
    ensures Reached(s, Decrs(id, n), limits, id, Undo(s.counters, Keys(s.attempts[id])[..n]), Done(Rejected))
  {
    UndoRun(s, id, limits);
    assert Keys(s.attempts[id])[0..n] == Keys(s.attempts[id])[..n];
  }

  lemma FailedIncr(s: State, id: int, limits: Limits, failAt: Option<nat>)
    requires AllWellFormed(s) && id in s.attempts && s.attempts[id].progress.Acquiring?
    requires failAt == Some(s.attempts[id].progress.k)
    ensures var a := s.attempts[id]; var i := a.progress.k;
      Reached(s, [IncrFails(id)] + Decrs(id, i), limits, id, Undo(s.counters, Keys(a)[..i]), Done(Errored))
  {
    var a := s.attempts[id];
    var ks, i := Keys(a), a.progress.k;
    var s1 := Step(s, IncrFails(id), limits);
    if i > 0 {
      UndoRun(s1, id, limits);
      assert ks[0..i] == ks[..i];
    } else {
      assert Decrs(id, 0) == [] && Undo(s.counters, ks[..0]) == s.counters;
      assert Moved(s1, id, Done(Errored)) == s1.attempts;
    }
    ReachedVia(s, IncrFails(id), Decrs(id, i), limits, id, Undo(s.counters, ks[..i]), Done(Errored));
  }

  // ---------------------------------------------------------------- calibration

  /** The running queries as the calibration is told them, per user and per datasource. */
  datatype Actual = Actual(users: map<int, int>, global: int, datasources: map<int, int>) {
    function Of(k: Key): Option<int> {
      match k
      case User(id) => if id in users then Some(users[id]) else None
      case Global => Some(global)
      case Datasource(id) => if id in datasources then Some(datasources[id]) else None
    }
  }

  function Calibrated(c: Counters, actual: Actual, unreadable: set<Key>, k: Key): int {
    if actual.Of(k).Some? && k !in unreadable then actual.Of(k).value else Count(c, k)
  }

  ghost predicate CalibratedTo(c: Counters, c': Counters, actual: Actual, unreadable: set<Key>) {
    forall k :: Count(c', k) == Calibrated(c, actual, unreadable, k)
  }

  ghost predicate SetAmong(c: Counters, c': Counters, actual: Actual, unreadable: set<Key>, keys: set<Key>) {
    forall k :: Count(c', k) == if k in keys then Calibrated(c, actual, unreadable, k) else Count(c, k)
  }

  /** The calibration is told the unreleased permits of every key it is told about. */
  ghost predicate Truthful(s: State, actual: Actual) {
    forall k :: actual.Of(k).Some? ==> actual.Of(k).value == |Holders(s, k)|
  }

  /** An attempt that counts against `k` without being a permit yet, or any more. */
  ghost predicate InBetween(s: State, k: Key)
    requires AllWellFormed(s)
  {
    exists id :: id in s.attempts && k in Owed(s.attempts[id]) && !s.attempts[id].progress.Held?
  }

  lemma HoldersAndOwing(s: State, k: Key)
    requires AllWellFormed(s)
    ensures |Holders(s, k)| == |Owing(s, k)| <==> !InBetween(s, k)
  {
    var h, o := Holders(s, k), Owing(s, k);
    forall id ensures id in h <==> id in o && s.attempts[id].progress.Held? {
    }
    if InBetween(s, k) {
      var id :| id in s.attempts && k in Owed(s.attempts[id]) && !s.attempts[id].progress.Held?;
      assert id in o && id !in h;
      SubsetSize(h, o - {id});
    } else {
      assert forall id :: id in o ==> id in h;
      assert h == o;
    }
  }

  /** A truthful calibration leaves every counter right exactly when each key it sets has
      nobody in between, and each key it does not set was right before. It therefore breaks
      a right state exactly when it interrupts an attempt, and repairs a wrong one only
      where it is told the key. */
  lemma CalibrationIsRight(s: State, c': Counters, actual: Actual, unreadable: set<Key>)
    requires AllWellFormed(s) && Truthful(s, actual)
    requires CalibratedTo(s.counters, c', actual, unreadable)
    ensures (forall k :: Count(c', k) == |Owing(s, k)|) <==>
      forall k :: if actual.Of(k).Some? && k !in unreadable then !InBetween(s, k)
                  else Count(s.counters, k) == |Owing(s, k)|
  {
    forall k ensures |Holders(s, k)| == |Owing(s, k)| <==> !InBetween(s, k) {
      HoldersAndOwing(s, k);
    }
  }

  /** Calibrating between attempts changes no counter of a right state, so every later
      run is as safe as before. */
  lemma QuiescentCalibrationIsIdle(s: State, c': Counters, actual: Actual, unreadable: set<Key>, limits: Limits)
    requires Inv(s, limits) && Quiescent(s) && Lossless(s) && Truthful(s, actual)
    requires CalibratedTo(s.counters, c', actual, unreadable)
    ensures forall k :: Count(c', k) == Count(s.counters, k)
    ensures Inv(s.(counters := c'), limits)
  {
    forall k ensures Count(s.counters, k) == |Holders(s, k)| {
      QuiescentCounts(s, limits, k);
    }
    var s' := s.(counters := c');
    forall k ensures Balanced(s', k) && Within(|Passing(s', k)|, s', limits, k) {
      assert Owing(s', k) == Owing(s, k) && Passing(s', k) == Passing(s, k) && Balanced(s, k);
      assert Within(|Passing(s, k)|, s, limits, k);
    }
  }

  // ---------------------------------------------------------------- the service

  /** The closure returned with a permit. */
  class Permit {
    const keys: seq<Key>
    var released: bool

    constructor (keys: seq<Key>)
      ensures this.keys == keys && !released
    {
      this.keys := keys;
      released := false;
    }
  }

  class ConcurrentService {
    var redis: Counters
    var limits: Limits

    constructor ()
      ensures redis == map[] && limits == Limits(5, 50, 10)
    {
      redis, limits := map[], Limits(5, 50, 10);
    }

    /** Limits that are not positive fall back to the defaults. */
    method RefreshRuntimeConfig(perUser: int, global: int, perDatasource: int)
      modifies this`limits
      ensures limits.perUser > 0 && limits.global > 0 && limits.perDatasource > 0
      ensures limits.perUser == if perUser > 0 then perUser else 5
      ensures limits.global == if global > 0 then global else 50
      ensures limits.perDatasource == if perDatasource > 0 then perDatasource else 10
    {
      limits := Limits(perUser, global, perDatasource);
      if limits.perUser <= 0 {
        limits := limits.(perUser := 5);
      }
      if limits.global <= 0 {
        limits := limits.(global := 50);
      }
      if limits.perDatasource <= 0 {
        limits := limits.(perDatasource := 10);
      }
    }

    method Incr(k: Key) returns (value: int)
      modifies this`redis
      ensures redis == Add(old(redis), k, 1) && value == Count(redis, k)
    {
      value := Count(redis, k) + 1;
      redis := redis[k := value];
    }

    method Decr(k: Key)
      modifies this`redis
      ensures redis == Add(old(redis), k, -1)
    {
      redis := redis[k := Count(redis, k) - 1];
    }

    /** One key of a calibration: the counter is set to the actual count unless it cannot
        be read, and deleted when the actual count is zero. */
    method CalibrateOne(k: Key, actualCount: int, readable: bool)
      modifies this`redis
      ensures forall x :: Count(redis, x) == if x == k && readable then actualCount else Count(old(redis), x)
    {
      if !readable {
        return;
      }
      var redisCount := Count(redis, k);
      if redisCount != actualCount {
        if actualCount == 0 {
          redis := redis - {k};
        } else {
          redis := redis[k := actualCount];
        }
      }
    }

    /** One loop of the calibration, over the users or over the datasources. */
    method CalibrateEach(keys: set<Key>, actual: Actual, unreadable: set<Key>)
      requires forall k :: k in keys ==> actual.Of(k).Some?
      modifies this`redis
      ensures SetAmong(old(redis), redis, actual, unreadable, keys)
    {
      var todo := keys;
      while todo != {}
        invariant todo <= keys
        invariant SetAmong(old(redis), redis, actual, unreadable, keys - todo)
        decreases todo
      {
        var k :| k in todo;
        CalibrateOne(k, actual.Of(k).value, k !in unreadable);
        todo := todo - {k};
      }
    }

    /** Every listed key, and the global one always, is set to its actual count. */
    method CalibrateCounters(actual: Actual, unreadable: set<Key>)
      modifies this`redis
      ensures CalibratedTo(old(redis), redis, actual, unreadable)
      ensures forall u :: u in actual.users && User(u) !in unreadable ==> Count(redis, User(u)) == actual.users[u]
      ensures forall u :: u !in actual.users || User(u) in unreadable ==>
        Count(redis, User(u)) == Count(old(redis), User(u))
      ensures Count(redis, Global) == if Global in unreadable then Count(old(redis), Global) else actual.global
      ensures forall d :: d in actual.datasources && Datasource(d) !in unreadable ==>
        Count(redis, Datasource(d)) == actual.datasources[d]
      ensures forall d :: d !in actual.datasources || Datasource(d) in unreadable ==>
        Count(redis, Datasource(d)) == Count(old(redis), Datasource(d))
    {
      CalibrateEach(set id | id in actual.users :: User(id), actual, unreadable);
      CalibrateOne(Global, actual.global, Global !in unreadable);
      CalibrateEach(set id | id in actual.datasources :: Datasource(id), actual, unreadable);
    }

    method Acquire(userId: int, failAt: Option<nat>) returns (answer: Answer, permit: Option<Permit>)
      modifies this`redis
      ensures (redis, answer) == Alone(old(redis), Keys(Attempt(userId, None, Held)), limits, failAt, 0)
      ensures answer == Granted <==>
        && failAt != Some(0) && failAt != Some(1)
        && Count(old(redis), User(userId)) < limits.perUser && Count(old(redis), Global) < limits.global
      ensures permit.Some? <==> answer.Granted?
      ensures permit.Some? ==>
        fresh(permit.value) && !permit.value.released && permit.value.keys == Keys(Attempt(userId, None, Held))
    {
      ghost var ks := Keys(Attempt(userId, None, Held));
      AloneSpeltOut(redis, limits, userId, None, failAt);
      AloneUnfolds(redis, ks, limits, failAt);
      if failAt == Some(0) {
        return Failure, None;
      }
      var userCount := Incr(User(userId));
      if userCount > limits.perUser {
        Decr(User(userId));
        return LimitHit(User(userId)), None;
      }
      if failAt == Some(1) {
        Decr(User(userId));
        return Failure, None;
      }
      var globalCount := Incr(Global);
      if globalCount > limits.global {
        Decr(User(userId));
        Decr(Global);
        return LimitHit(Global), None;
      }
      var p := new Permit([User(userId), Global]);
      return Granted, Some(p);
    }

    method AcquireForDatasource(userId: int, datasourceId: int, failAt: Option<nat>)
      returns (answer: Answer, permit: Option<Permit>)
      modifies this`redis
      ensures (redis, answer) ==
        Alone(old(redis), Keys(Attempt(userId, Some(datasourceId), Held)), limits, failAt, 0)
      ensures answer == Granted <==>
        && failAt != Some(0) && failAt != Some(1) && failAt != Some(2)
        && Count(old(redis), User(userId)) < limits.perUser && Count(old(redis), Global) < limits.global
        && Count(old(redis), Datasource(datasourceId)) < limits.perDatasource
      ensures permit.Some? <==> answer.Granted?
      ensures permit.Some? ==>
        && fresh(permit.value) && !permit.value.released
        && permit.value.keys == Keys(Attempt(userId, Some(datasourceId), Held))
    {
      ghost var ks := Keys(Attempt(userId, Some(datasourceId), Held));
      AloneSpeltOut(redis, limits, userId, Some(datasourceId), failAt);
      AloneUnfolds(redis, ks, limits, failAt);
      if failAt == Some(0) {
        return Failure, None;
      }
      var userCount := Incr(User(userId));
      if userCount > limits.perUser {
        Decr(User(userId));
        return LimitHit(User(userId)), None;
      }
      if failAt == Some(1) {
        Decr(User(userId));
        return Failure, None;
      }
      var globalCount := Incr(Global);
      if globalCount > limits.global {
        Decr(User(userId));
        Decr(Global);
        return LimitHit(Global), None;
      }
      if failAt == Some(2) {
        Decr(User(userId));
        Decr(Global);
        return Failure, None;
      }
      var dsCount := Incr(Datasource(datasourceId));
      if dsCount > limits.perDatasource {
        Decr(User(userId));
        Decr(Global);
        Decr(Datasource(datasourceId));
        return LimitHit(Datasource(datasourceId)), None;
      }
      var p := new Permit([User(userId), Global, Datasource(datasourceId)]);
      return Granted, Some(p);
    }

    /** The release closure: the first call gives back every counter, later calls nothing. */
    method Release(p: Permit)
      requires 2 <= |p.keys| <= 3
      modifies this`redis, p
      ensures p.released
      ensures redis == if old(p.released) then old(redis) else Undo(old(redis), p.keys)
    {
      if p.released {
        return;
      }
      p.released := true;
      UndoUnfolds(p.keys);
      assert p.keys[..|p.keys|] == p.keys;
      Decr(p.keys[0]);
      Decr(p.keys[1]);
      if |p.keys| == 3 {
        Decr(p.keys[2]);
      }
    }
  }

  /** The nested tests of the acquire methods, read off the recursive definition. */
  lemma AloneUnfolds(c0: Counters, ks: seq<Key>, limits: Limits, failAt: Option<nat>)
    requires 2 <= |ks| <= 3
    ensures var c1 := Add(c0, ks[0], 1); var c2 := Add(c1, ks[1], 1);
      Alone(c0, ks, limits, failAt, 0) ==
      if failAt == Some(0) then (c0, Failure)
      else if Count(c1, ks[0]) > LimitOf(limits, ks[0]) then (Add(c1, ks[0], -1), LimitHit(ks[0]))
      else if failAt == Some(1) then (Add(c1, ks[0], -1), Failure)
      else if Count(c2, ks[1]) > LimitOf(limits, ks[1]) then (Add(Add(c2, ks[0], -1), ks[1], -1), LimitHit(ks[1]))
      else Alone(c2, ks, limits, failAt, 2)
    ensures |ks| == 3 ==>
      var c2 := Add(Add(c0, ks[0], 1), ks[1], 1); var c3 := Add(c2, ks[2], 1);
      Alone(c2, ks, limits, failAt, 2) ==
      if failAt == Some(2) then (Add(Add(c2, ks[0], -1), ks[1], -1), Failure)
      else if Count(c3, ks[2]) > LimitOf(limits, ks[2])
      then (Add(Add(Add(c3, ks[0], -1), ks[1], -1), ks[2], -1), LimitHit(ks[2]))
      else (c3, Granted)
  {
    UndoUnfolds(ks);
    assert ks[..0] == [];
    var c1 := Add(c0, ks[0], 1);
    assert failAt != Some(0) && Count(c1, ks[0]) <= LimitOf(limits, ks[0]) ==>
      Alone(c0, ks, limits, failAt, 0) == Alone(c1, ks, limits, failAt, 1);
  }

  lemma UndoUnfolds(ks: seq<Key>)
    requires 2 <= |ks| <= 3
    ensures forall c :: Undo(c, ks[..1]) == Add(c, ks[0], -1)
    ensures forall c :: Undo(c, ks[..2]) == Add(Add(c, ks[0], -1), ks[1], -1)
    ensures |ks| == 3 ==> forall c :: Undo(c, ks[..3]) == Add(Add(Add(c, ks[0], -1), ks[1], -1), ks[2], -1)
  {
    assert ks[..1][1..] == [] && ks[..2][1..] == [ks[1]] && [ks[1]][1..] == [];
    forall c ensures Undo(c, ks[..2]) == Add(Add(c, ks[0], -1), ks[1], -1) {
      assert Undo(c, ks[..2]) == Undo(Add(c, ks[0], -1), [ks[1]]);
    }
    if |ks| == 3 {
      assert ks[..3][1..] == [ks[1], ks[2]] && [ks[1], ks[2]][1..] == [ks[2]] && [ks[2]][1..] == [];
      forall c ensures Undo(c, ks[..3]) == Add(Add(Add(c, ks[0], -1), ks[1], -1), ks[2], -1) {
        assert Undo(c, ks[..3]) == Undo(Add(c, ks[0], -1), [ks[1], ks[2]]);
        assert Undo(c, ks[..3]) == Undo(Add(Add(c, ks[0], -1), ks[1], -1), [ks[2]]);
      }
    }
  }
}
