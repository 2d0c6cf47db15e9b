/** The circuit breaker of a datasource, and what its counter means over every history. */
module CircuitBreaker {
  import opened Prelude

  const FAILURE_THRESHOLD := 5
  const SUCCESS_THRESHOLD := 2
  const RECOVERY_TIMEOUT := 30 * SECOND

  datatype State = Closed | Open | HalfOpen

  /** In Closed and Open `failureCount` counts failures, in HalfOpen it counts successes. */
  datatype Breaker = Breaker(state: State, failureCount: nat, lastStateChange: int, lastFailure: int)

  datatype Event = Allow(at: int) | Success(at: int) | Failure(at: int) | Reset(at: int)

  function New(now: int): Breaker {
    Breaker(Closed, 0, now, 0)
  }

  predicate Recovering(b: Breaker, now: int) {
    b.state.Open? && now - b.lastStateChange > RECOVERY_TIMEOUT
  }

  /** The answer of `AllowRequest`. */
  predicate Allowed(b: Breaker, now: int) {
    !b.state.Open? || Recovering(b, now)
  }

  function Step(b: Breaker, e: Event): Breaker {
    match e
    case Allow(t) => if Recovering(b, t) then Breaker(HalfOpen, 0, t, b.lastFailure) else b
    case Success(t) =>
      if b.state.HalfOpen? then
        if b.failureCount + 1 >= SUCCESS_THRESHOLD then Breaker(Closed, 0, t, b.lastFailure)
        else b.(failureCount := b.failureCount + 1)
      else if b.state.Closed? then b.(failureCount := 0)
      else b
    case Failure(t) =>
      if b.state.HalfOpen? then Breaker(Open, 0, t, t)
      else if b.state.Closed? && b.failureCount + 1 >= FAILURE_THRESHOLD
      then Breaker(Open, b.failureCount + 1, t, t)
      else b.(failureCount := b.failureCount + 1, lastFailure := t)
    case Reset(t) => Breaker(Closed, 0, t, b.lastFailure)
  }

  class CircuitBreaker {
    var state: State
    var failureCount: nat
    var lastFailureTime: int
    var lastStateChange: int

    constructor (now: int)
      ensures View() == New(now)
    {
      state, failureCount, lastFailureTime, lastStateChange := Closed, 0, 0, now;
    }

    function View(): Breaker
      reads this
    {
      Breaker(state, failureCount, lastStateChange, lastFailureTime)
    }

    method AllowRequest(now: int) returns (allowed: bool)
      modifies this
      ensures View() == Step(old(View()), Allow(now)) && allowed == Allowed(old(View()), now)
      ensures allowed <==> old(state) != Open || now - old(lastStateChange) > 30_000_000_000
      ensures if old(state) == Open && allowed then state == HalfOpen && failureCount == 0 && lastStateChange == now
              else View() == old(View())
    {
      match state
      case Closed => return true;
      case Open =>
        if now - lastStateChange > RECOVERY_TIMEOUT {
          state := HalfOpen;
          lastStateChange := now;
          failureCount := 0;
          return true;
        }
        return false;
      case HalfOpen => return true;
    }

    method RecordSuccess(now: int)
      modifies this
      ensures View() == Step(old(View()), Success(now))
    {
      if state == HalfOpen {
        failureCount := failureCount + 1;
        if failureCount >= SUCCESS_THRESHOLD {
          state := Closed;
          failureCount := 0;
          lastStateChange := now;
        }
      } else if state == Closed {
        failureCount := 0;
      }
    }

    method RecordFailure(now: int)
      modifies this
      ensures View() == Step(old(View()), Failure(now)) && lastFailureTime == now
    {
      failureCount := failureCount + 1;
      lastFailureTime := now;
      if state == Closed {
        if failureCount >= FAILURE_THRESHOLD {
          state := Open;
          lastStateChange := now;
        }
      } else if state == HalfOpen {
        state := Open;
        failureCount := 0;
        lastStateChange := now;
      }
    }

    method ResetBreaker(now: int)
      modifies this
      ensures View() == Step(old(View()), Reset(now))
    {
      state := Closed;
      failureCount := 0;
      lastStateChange := now;
    }
  }

  // ---------------------------------------------------------------- histories

  /** The breaker after a history, latest event last. */
  function After(start: int, h: seq<Event>): Breaker
    decreases |h|
  {
    if h == [] then New(start) else Step(After(start, h[..|h| - 1]), h[|h| - 1])
  }

  /** The length of the run of failures at the end of a history; requests do not end it. */
  function FailureRun(h: seq<Event>): nat
    decreases |h|
  {
    if h == [] then 0
    else match h[|h| - 1]
         case Failure(_) => FailureRun(h[..|h| - 1]) + 1
         case Allow(_) => FailureRun(h[..|h| - 1])
         case _ => 0
  }

  /** The successes recorded since the breaker last became half-open. */
  function Trials(start: int, h: seq<Event>): nat
    decreases |h|
  {
    if h == [] || !After(start, h[..|h| - 1]).state.HalfOpen? then 0
    else Trials(start, h[..|h| - 1]) + if h[|h| - 1].Success? then 1 else 0
  }

  /** Counter law: closed, the counter is the length of the current failure run, below 5;
      half-open, it is the number of successes since entry, below 2. */
  lemma {:induction false} CounterLaw(start: int, h: seq<Event>)
    ensures var b := After(start, h);
      && (b.state.Closed? ==> b.failureCount == FailureRun(h) < 5)
      && (b.state.HalfOpen? ==> b.failureCount == Trials(start, h) < 2)
    decreases |h|
  {
    if h != [] {
      CounterLaw(start, h[..|h| - 1]);
    }
  }

  /** The breaker opens from closed exactly at the fifth failure in a row. */
  lemma OpensAtFifthFailure(start: int, h: seq<Event>, e: Event)
    requires After(start, h).state.Closed?
    ensures After(start, h + [e]).state.Open? <==> e.Failure? && FailureRun(h + [e]) == 5
  {
    assert (h + [e])[..|h|] == h;
    CounterLaw(start, h);
  }

  /** The time at which the breaker last became open, read off the history alone. */
  function OpenedAt(start: int, h: seq<Event>): int
    decreases |h|
  {
    if h == [] then start
    else if After(start, h).state.Open? && !After(start, h[..|h| - 1]).state.Open? then h[|h| - 1].at
    else OpenedAt(start, h[..|h| - 1])
  }

  lemma {:induction false} OpenSince(start: int, h: seq<Event>)
    requires After(start, h).state.Open?
    ensures After(start, h).lastStateChange == OpenedAt(start, h)
    decreases |h|
  {
    if After(start, h[..|h| - 1]).state.Open? {
      OpenSince(start, h[..|h| - 1]);
    }
  }

  /** Open admits a request if and only if more than 30 seconds have passed since it opened. */
  lemma OpenAdmitsExactly(start: int, h: seq<Event>, now: int)
    requires After(start, h).state.Open?
    ensures Allowed(After(start, h), now) <==> now - OpenedAt(start, h) > 30_000_000_000
  {
    OpenSince(start, h);
  }

  /** Closed and half-open admit every request, open exactly those after the 30 seconds. */
  lemma AdmitsExactly(start: int, h: seq<Event>, now: int)
    ensures Allowed(After(start, h), now) <==>
      After(start, h).state != Open || now - OpenedAt(start, h) > 30_000_000_000
  {
    if After(start, h).state.Open? {
      OpenSince(start, h);
    }
  }

  /** A breaker becomes half-open exactly by a request it admits while open. */
  lemma TriesExactly(start: int, h: seq<Event>, e: Event)
    requires !After(start, h).state.HalfOpen?
    ensures After(start, h + [e]).state.HalfOpen? <==>
      After(start, h).state.Open? && e.Allow? && e.at - OpenedAt(start, h) > 30_000_000_000
  {
    assert (h + [e])[..|h|] == h;
    if After(start, h).state.Open? {
      OpenSince(start, h);
    }
  }

  /** While it is open, nothing but a reset or the first request after the timeout changes
      the state: any number of events within the 30 seconds leave it open. */
  lemma {:induction false} StaysOpen(start: int, h: seq<Event>, more: seq<Event>)
    requires After(start, h).state.Open?
    requires forall i :: 0 <= i < |more| ==> !more[i].Reset? && more[i].at <= OpenedAt(start, h) + 30_000_000_000
    ensures After(start, h + more).state.Open? && OpenedAt(start, h + more) == OpenedAt(start, h)
    decreases |more|
  {
    if more == [] {
      assert h + more == h;
    } else {
      var init := more[..|more| - 1];
      StaysOpen(start, h, init);
      OpenSince(start, h + init);
      assert (h + more)[..|h + more| - 1] == h + init;
    }
  }

  /** A breaker that is not closed becomes so exactly by a reset, or in half-open by the second
      success with no failure in between. */
  lemma ClosesOnlyByTrial(start: int, h: seq<Event>, e: Event)
    requires !After(start, h).state.Closed?
    ensures After(start, h + [e]).state.Closed? <==>
      e.Reset? || (After(start, h).state.HalfOpen? && e.Success? && Trials(start, h) == 1)
  {
    assert (h + [e])[..|h|] == h;
    CounterLaw(start, h);
  }

  /** A failure while half-open opens the breaker again, whatever came before. */
  lemma TrialFailureReopens(start: int, h: seq<Event>, t: int)
    requires After(start, h).state.HalfOpen?
    ensures After(start, h + [Failure(t)]).state.Open? && OpenedAt(start, h + [Failure(t)]) == t
  {
    assert (h + [Failure(t)])[..|h|] == h;
  }
}
