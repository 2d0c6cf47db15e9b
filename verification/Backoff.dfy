/** The delay between an executor's attempts to subscribe, in nanoseconds. A base times a
    power of two is exact in floating point; what is not is its conversion to 64 bits. */
module Backoff {
  import opened Prelude

  const BASE_DELAY := 3 * SECOND
  const MAX_DELAY := 60 * SECOND
  const INT64_LIMIT := 0x8000_0000_0000_0000

  function Pow2(n: nat): (r: nat)
    ensures r >= 1
  {
    if n == 0 then 1 else 2 * Pow2(n - 1)
  }

  /** The conversion of a float to a 64-bit integer; the language leaves open what a value
      that does not fit becomes. */
  function ToInt64(x: nat, unfit: int): int {
    if x < INT64_LIMIT then x else unfit
  }

  /** `draw` is the random number below the jitter. */
  method BackoffDelay(retryCount: nat, base: nat, max: nat, jitter: nat, draw: nat, unfit: int) returns (delay: int)
    requires max < INT64_LIMIT && (jitter > 0 ==> draw < jitter)
    ensures base * Pow2(retryCount) < INT64_LIMIT || unfit > max ==>
      delay == Min(base * Pow2(retryCount), max) + if jitter > 0 then draw else 0
    ensures base * Pow2(retryCount) >= INT64_LIMIT && unfit <= max ==>
      delay == unfit + if jitter > 0 then draw else 0
  {
    delay := ToInt64(base * Pow2(retryCount), unfit);
    if delay > max {
      delay := max;
    }
    if jitter > 0 {
      delay := delay + draw;
    }
  }

  /** The delay the subscription loop means: doubling from three seconds, capped at a minute. */
  function Intended(retryCount: nat): int {
    Min(BASE_DELAY * Pow2(retryCount), MAX_DELAY)
  }

  lemma {:induction false} Pow2Grows(m: nat, n: nat)
    requires m <= n
    ensures Pow2(m) <= Pow2(n)
    decreases n
  {
    if m < n {
      Pow2Grows(m, n - 1);
    }
  }

  lemma Powers()
    ensures Pow2(4) == 16 && Pow2(5) == 32 && Pow2(31) == 0x8000_0000 && Pow2(32) == 0x1_0000_0000
  {
    assert Pow2(8) == 256;
    assert Pow2(16) == 65536;
    assert Pow2(24) == 0x100_0000;
  }

  /** The doubled delay fits in 64 bits exactly up to 31 retries, and reaches the cap from
      the fifth on. */
  lemma Fits(retryCount: nat)
    ensures BASE_DELAY * Pow2(retryCount) < INT64_LIMIT <==> retryCount <= 31
    ensures Intended(retryCount) == 60_000_000_000 <==> retryCount >= 5
  {
    FitsInInt64(retryCount);
    ReachesTheCap(retryCount);
  }

  lemma FitsInInt64(retryCount: nat)
    ensures BASE_DELAY * Pow2(retryCount) < INT64_LIMIT <==> retryCount <= 31
  {
    Powers();
    Threshold(retryCount, 31);
    var p := Pow2(retryCount);
    assert if retryCount <= 31 then p <= 0x8000_0000 else p >= 0x1_0000_0000;
    assert BASE_DELAY * 0x8000_0000 < INT64_LIMIT <= BASE_DELAY * 0x1_0000_0000;
  }

  lemma ReachesTheCap(retryCount: nat)
    ensures Intended(retryCount) == MAX_DELAY <==> retryCount >= 5
  {
    Powers();
    Threshold(retryCount, 4);
  }

  lemma Threshold(n: nat, k: nat)
    ensures if n <= k then Pow2(n) <= Pow2(k) else Pow2(n) >= Pow2(k + 1)
  {
    if n <= k {
      Pow2Grows(n, k);
    } else {
      Pow2Grows(k + 1, n);
    }
  }

  /** The intended delay starts at three seconds and doubles up to a minute. */
  lemma IntendedDoubles(n: nat)
    ensures Intended(0) == 3_000_000_000
    ensures Intended(n + 1) == Min(2 * Intended(n), 60_000_000_000)
  {
  }

  /** Waiting never gets shorter from one retry to the next. */
  lemma IntendedGrows(m: nat, n: nat)
    requires m <= n
    ensures 3_000_000_000 <= Intended(m) <= Intended(n) <= 60_000_000_000
  {
    Pow2Grows(m, n);
  }
}
