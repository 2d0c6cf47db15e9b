/** Expiry of the Redis copy of one query against the cleanup of its local copy.
    Times are nanoseconds; every save renews the 35-minute lifetime of the Redis copy;
    the cleanup loop ticks every 5 minutes and removes finished queries older than 30. */
module QueryLifetime {
  import opened Prelude

  const MINUTE := 60 * SECOND
  const REDIS_TTL := 35 * MINUTE
  const CLEANUP_INTERVAL := 5 * MINUTE
  const MAX_AGE := 30 * MINUTE

  /** `lastTick` is the latest cleanup tick, `saved` the latest save of the Redis copy. */
  datatype Query = Query(now: int, lastTick: int, created: int, saved: int, final: bool, present: bool)

  datatype Event =
    | Wait(d: nat)          // time passes
    | Tick                  // the cleanup loop runs
    | Save(finished: bool)  // SetRunning, Cancel, UpdateError or UpdateResult

  /** Ticks are neither late nor early, and the clock moves between creation and any report. */
  predicate Possible(q: Query, e: Event) {
    match e
    case Wait(d) => q.now + d <= q.lastTick + CLEANUP_INTERVAL
    case Tick => q.now == q.lastTick + CLEANUP_INTERVAL
    case Save(_) => q.now > q.created
  }

  function Step(q: Query, e: Event): Query {
    match e
    case Wait(d) => q.(now := q.now + d)
    case Tick =>
      q.(lastTick := q.now, present := q.present && !(q.final && q.now - q.created > MAX_AGE))
    case Save(finished) =>
      if q.present then q.(saved := q.now, final := finished) else q
  }

  predicate RedisCopyAlive(q: Query) {
    q.now < q.saved + REDIS_TTL
  }

  /** A query registered at `now`, at most one interval after a tick. */
  predicate Registered(q: Query) {
    q.created == q.saved == q.now && !q.final && q.present
    && q.lastTick <= q.now <= q.lastTick + CLEANUP_INTERVAL
  }

  predicate Fits(q: Query) {
    && q.lastTick <= q.now <= q.lastTick + CLEANUP_INTERVAL
    && q.created <= q.saved <= q.now
    && (q.final ==> q.created < q.saved)
    && (q.present && q.final && q.saved < q.lastTick ==> q.lastTick - q.created <= MAX_AGE)
  }

  predicate Follows(q: Query, es: seq<Event>)
    decreases |es|
  {
    es == [] || (Possible(q, es[0]) && Follows(Step(q, es[0]), es[1..]))
  }

  function After(q: Query, es: seq<Event>): Query
    decreases |es|
  {
    if es == [] then q else After(Step(q, es[0]), es[1..])
  }

  lemma {:induction false} RunFits(q: Query, es: seq<Event>)
    requires Fits(q) && Follows(q, es)
    ensures Fits(After(q, es))
    decreases |es|
  {
    if es != [] {
      RunFits(Step(q, es[0]), es[1..]);
    }
  }

  /** In every run the Redis copy of a finished query is alive as long as the local one is. */
  lemma FinishedCopyOutlivesLocal(q: Query, es: seq<Event>)
    requires Registered(q) && Follows(q, es)
    ensures var q' := After(q, es); q'.present && q'.final ==> RedisCopyAlive(q')
  {
    RunFits(q, es);
  }

  /** A query stays on its node for half an hour, however it fares. */
  lemma {:induction false} LocalKept(q: Query, es: seq<Event>)
    requires Fits(q) && Follows(q, es) && q.present && After(q, es).now - q.created <= 1_800_000_000_000
    ensures After(q, es).present
    decreases |es|
  {
    if es != [] {
      NowGrows(Step(q, es[0]), es[1..]);
      LocalKept(Step(q, es[0]), es[1..]);
    }
  }

  lemma {:induction false} NowGrows(q: Query, es: seq<Event>)
    requires Follows(q, es)
    ensures q.now <= After(q, es).now && After(q, es).created == q.created
    decreases |es|
  {
    if es != [] {
      NowGrows(Step(q, es[0]), es[1..]);
    }
  }

  /** All through the run, an unfinished query is never more than `bound` past its last
      save: what a limit on the time a query waits and runs guarantees. */
  predicate Bounded(q: Query, es: seq<Event>, bound: int)
    decreases |es|
  {
    && (q.present && !q.final ==> q.now - q.saved <= bound)
    && (es == [] || Bounded(Step(q, es[0]), es[1..], bound))
  }

  lemma {:induction false} BoundedAfter(q: Query, es: seq<Event>, bound: int)
    requires Bounded(q, es, bound)
    ensures var q' := After(q, es); q'.present && !q'.final ==> q'.now - q'.saved <= bound
    decreases |es|
  {
    if es != [] {
      BoundedAfter(Step(q, es[0]), es[1..], bound);
    }
  }

  ghost predicate AlwaysAlive(bound: int) {
    forall q, es :: Registered(q) && Follows(q, es) && Bounded(q, es, bound) && After(q, es).present ==>
      RedisCopyAlive(After(q, es))
  }

  /** Nothing renews the copy of a query that keeps running. A bound on the time since its
      last save keeps the copy alive in every run if and only if it is below 35 minutes. */
  lemma RunningCopyAliveExactly(bound: int)
    ensures AlwaysAlive(bound) <==> bound < 2_100_000_000_000
  {
    if bound < REDIS_TTL {
      forall q, es | Registered(q) && Follows(q, es) && Bounded(q, es, bound) && After(q, es).present
        ensures RedisCopyAlive(After(q, es))
      {
        FinishedCopyOutlivesLocal(q, es);
        BoundedAfter(q, es, bound);
      }
    } else {
      var q := Query(0, 0, 0, 0, false, true);
      QuietRun(q, 7);
      QuietIsBounded(q, 7, bound);
      assert After(q, Quiet(7)).present && !RedisCopyAlive(After(q, Quiet(7)));
    }
  }

  /** Whenever it was registered, a query that only keeps running loses its copy. */
  lemma RunningCopyCanExpire(q: Query)
    requires Registered(q)
    ensures exists es ::
              Follows(q, es) && After(q, es).present && !After(q, es).final && !RedisCopyAlive(After(q, es))
  {
    var w := Wait(q.lastTick + CLEANUP_INTERVAL - q.now);
    var q1 := Step(q, w);
    var q2 := Step(q1, Tick);
    QuietRun(q2, 7);
    OneMore(q1, Tick, Quiet(7));
    OneMore(q, w, [Tick] + Quiet(7));
    var lost := After(q, [w] + ([Tick] + Quiet(7)));
    assert lost.present && !lost.final && !RedisCopyAlive(lost);
  }

  lemma OneMore(q: Query, e: Event, es: seq<Event>)
    requires Possible(q, e) && Follows(Step(q, e), es)
    ensures Follows(q, [e] + es) && After(q, [e] + es) == After(Step(q, e), es)
  {
    assert ([e] + es)[1..] == es;
  }

  lemma {:induction false} QuietIsBounded(q: Query, n: nat, bound: int)
    requires q.now == q.lastTick && !q.final && q.now + n * CLEANUP_INTERVAL - q.saved <= bound
    ensures Bounded(q, Quiet(n), bound)
    decreases n
  {
    if n > 0 {
      var q1 := Step(q, Wait(CLEANUP_INTERVAL));
      var q2 := Step(q1, Tick);
      QuietIsBounded(q2, n - 1, bound);
      assert Quiet(n)[1..] == [Tick] + Quiet(n - 1);
      assert ([Tick] + Quiet(n - 1))[1..] == Quiet(n - 1);
      assert Bounded(q1, [Tick] + Quiet(n - 1), bound);
    }
  }

  function Quiet(n: nat): seq<Event> {
    if n == 0 then [] else [Wait(CLEANUP_INTERVAL), Tick] + Quiet(n - 1)
  }

  lemma {:induction false} QuietRun(q: Query, n: nat)
    requires q.now == q.lastTick && !q.final
    ensures Follows(q, Quiet(n))
    ensures After(q, Quiet(n)) == q.(now := q.now + n * CLEANUP_INTERVAL, lastTick := q.now + n * CLEANUP_INTERVAL)
    decreases n
  {
    if n > 0 {
      var q1 := Step(q, Wait(CLEANUP_INTERVAL));
      var q2 := Step(q1, Tick);
      QuietRun(q2, n - 1);
      assert Quiet(n)[1..] == [Tick] + Quiet(n - 1);
      assert ([Tick] + Quiet(n - 1))[1..] == Quiet(n - 1);
      assert Follows(q1, [Tick] + Quiet(n - 1));
      assert After(q1, [Tick] + Quiet(n - 1)) == After(q2, Quiet(n - 1));
      assert After(q, Quiet(n)) == After(q1, [Tick] + Quiet(n - 1));
    }
  }
}
