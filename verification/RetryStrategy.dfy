/** src/retry-strategy.ts: the backoff delay and the retry loop around every API call. */
module RetryStrategy {
  import opened Options

  datatype Failure = NetworkError | Status(code: nat)

  /** What one call of the wrapped function does, and how long it takes. */
  datatype Attempt<T> = Succeeded(value: T, ms: nat) | Failed(error: Failure, ms: nat)

  datatype Outcome<T> = Returned(value: T) | Thrown(error: Failure) | ThrownUndefined

  const API_MAX_RETRIES: nat := 3
  const API_BASE_DELAY_MS: nat := 1000
  const API_REQUEST_TIMEOUT: nat := 10_000

  predicate ShouldRetry(error: Failure) {
    match error
    case NetworkError => true
    case Status(code) => code == 408 || code == 429 || code >= 500
  }

  function Pow2(n: nat): (p: nat)
    ensures p >= 1
  {
    if n == 0 then 1 else 2 * Pow2(n - 1)
  }

  /** The undithered delay: exponential, capped before the jitter. */
  function BaseDelay(baseDelayMs: nat, attempt: nat, maxDelayMs: Option<nat>): nat {
    var exponential := baseDelayMs * Pow2(attempt);
    if maxDelayMs.Some? && maxDelayMs.value < exponential then maxDelayMs.value else exponential
  }

  /** `jitter` is the number drawn by Math.random(), or None when jitter is off. */
  function CalculateBackoff(baseDelayMs: nat, attempt: nat, maxDelayMs: Option<nat>, jitter: Option<real>): (delay: nat)
    requires jitter.Some? ==> 0.0 <= jitter.value < 1.0
    ensures delay <= BaseDelay(baseDelayMs, attempt, maxDelayMs) <= 2 * delay
    ensures maxDelayMs.Some? ==> delay <= maxDelayMs.value
  {
    var base := BaseDelay(baseDelayMs, attempt, maxDelayMs);
    if jitter.None? then base else Jittered(base, jitter.value)
  }

  /** Math.round of the base delay scaled into its upper half. */
  function Jittered(base: nat, jitter: real): (delay: nat)
    requires 0.0 <= jitter < 1.0
    ensures delay <= base <= 2 * delay
  {
    var scaled := Scaled(base as real, jitter);
    Rounded(base, scaled);
    (scaled + 0.5).Floor
  }

  /** Between half and all of the base. */
  function Scaled(base: real, jitter: real): (delay: real)
    requires 0.0 <= base && 0.0 <= jitter < 1.0
    ensures base * 0.5 <= delay <= base
  {
    assert 0.0 <= base * jitter <= base;
    assert base * (0.5 + jitter * 0.5) == base * 0.5 + base * jitter * 0.5;
    base * (0.5 + jitter * 0.5)
  }

  lemma Rounded(base: nat, delay: real)
    requires base as real * 0.5 <= delay <= base as real
    ensures 0 <= (delay + 0.5).Floor <= base <= 2 * (delay + 0.5).Floor
  {
    var rounded := (delay + 0.5).Floor;
    assert rounded as real <= delay + 0.5 < rounded as real + 1.0;
    assert rounded as real < base as real + 1.0;
    assert base as real < 2.0 * rounded as real + 1.0 == (2 * rounded + 1) as real;
  }

  /** The longest a retried call can take: n tries of at most `perTry`, plus every delay but the last. */
  function RetryBound(maxRetries: nat, perTry: nat, baseDelayMs: nat): nat {
    if maxRetries == 0 then 0 else maxRetries * perTry + baseDelayMs * (Pow2(maxRetries - 1) - 1)
  }

  /** The try at index k is made only if every earlier one failed with a retryable error. */
  predicate AllRetryable<T>(attempts: seq<Attempt<T>>) {
    forall k :: 0 <= k < |attempts| ==> attempts[k].Failed? && ShouldRetry(attempts[k].error)
  }

  ghost predicate Draws(jitter: seq<real>) {
    forall k :: 0 <= k < |jitter| ==> 0.0 <= jitter[k] < 1.0
  }

  /** The wait before the try at index k. */
  function Wait(jitter: seq<real>, baseDelayMs: nat, k: nat): nat
    requires Draws(jitter) && k <= |jitter|
  {
    if k == 0 then 0 else CalculateBackoff(baseDelayMs, k - 1, None, Some(jitter[k - 1]))
  }

  /** How long the first n tries take, with the waits between them. */
  function Elapsed<T>(attempts: seq<Attempt<T>>, jitter: seq<real>, baseDelayMs: nat, n: nat): nat
    requires n <= |attempts| == |jitter| && Draws(jitter)
  {
    if n == 0 then 0 else
    Elapsed(attempts, jitter, baseDelayMs, n - 1) + Wait(jitter, baseDelayMs, n - 1) + attempts[n - 1].ms
  }

  /** Each wait is between half and all of an exponential step, so n tries take between half and all of the bound. */
  lemma {:induction false} ElapsedBound<T>(attempts: seq<Attempt<T>>, jitter: seq<real>, baseDelayMs: nat, n: nat,
      perTry: nat)
    requires 0 < n <= |attempts| == |jitter| && Draws(jitter)
    requires forall k :: 0 <= k < |attempts| ==> attempts[k].ms <= perTry
    ensures Elapsed(attempts, jitter, baseDelayMs, n) <= n * perTry + baseDelayMs * (Pow2(n - 1) - 1)
    ensures baseDelayMs * (Pow2(n - 1) - 1) <= 2 * Elapsed(attempts, jitter, baseDelayMs, n)
  {
    if n > 1 {
      ElapsedBound(attempts, jitter, baseDelayMs, n - 1, perTry);
      Doubling(baseDelayMs, n - 2);
      assert (n - 1) * perTry + perTry == n * perTry;
    } else {
      assert Pow2(0) == 1 && Elapsed(attempts, jitter, baseDelayMs, 0) == 0;
    }
  }

  /** `attempts[k]` is what the k-th call would do and `jitter[k]` the k-th random number. */
  method WithRetry<T>(attempts: seq<Attempt<T>>, jitter: seq<real>, maxRetries: nat, baseDelayMs: nat, perTry: nat)
    returns (outcome: Outcome<T>, calls: nat, elapsed: nat)
    requires |attempts| == |jitter| == maxRetries && Draws(jitter)
    requires forall k :: 0 <= k < |attempts| ==> attempts[k].ms <= perTry
    ensures calls <= maxRetries && (maxRetries > 0 <==> calls > 0)
    ensures calls > 0 ==> AllRetryable(attempts[..calls - 1])
    ensures outcome.ThrownUndefined? <==> maxRetries == 0
    ensures outcome.Returned? ==>
        calls > 0 && attempts[calls - 1].Succeeded? && outcome.value == attempts[calls - 1].value
    ensures outcome.Thrown? ==> calls > 0 && attempts[calls - 1].Failed? && outcome.error == attempts[calls - 1].error
    ensures outcome.Thrown? ==> calls == maxRetries || !ShouldRetry(outcome.error)
    ensures elapsed == Elapsed(attempts, jitter, baseDelayMs, calls) <= RetryBound(maxRetries, perTry, baseDelayMs)
  {
    elapsed, calls := 0, 0;
    if maxRetries == 0 {
      return ThrownUndefined, 0, 0;
    }
    var lastError := NetworkError;
    for attempt := 0 to maxRetries
      invariant calls == attempt
      invariant AllRetryable(attempts[..attempt])
      invariant attempt > 0 ==> lastError == attempts[attempt - 1].error
      invariant elapsed == Elapsed(attempts, jitter, baseDelayMs, attempt)
                           + if attempt < maxRetries then Wait(jitter, baseDelayMs, attempt) else 0
      invariant elapsed <= RetryBound(maxRetries, perTry, baseDelayMs) || attempt < maxRetries
    {
      calls := attempt + 1;
      assert attempts[..calls - 1] == attempts[..attempt];
      elapsed := elapsed + attempts[attempt].ms;
      ElapsedBound(attempts, jitter, baseDelayMs, calls, perTry);
      BoundGrows(calls, attempt, maxRetries, perTry, baseDelayMs);
      match attempts[attempt] {
        case Succeeded(value, _) =>
          return Returned(value), calls, elapsed;
        case Failed(error, _) =>
          lastError := error;
          if !ShouldRetry(error) {
            return Thrown(error), calls, elapsed;
          }
      }
      if attempt < maxRetries - 1 {
        var delay := CalculateBackoff(baseDelayMs, attempt, None, Some(jitter[attempt]));
        elapsed := elapsed + delay;
      }
    }
    return Thrown(lastError), calls, elapsed;
  }

  lemma Doubling(b: nat, k: nat)
    ensures b * (Pow2(k) - 1) + b * Pow2(k) == b * (Pow2(k + 1) - 1)
  {
  }

  lemma {:induction false} PowMonotone(k: nat, n: nat)
    requires k <= n
    ensures Pow2(k) <= Pow2(n)
    decreases n - k
  {
    if k < n { PowMonotone(k + 1, n); }
  }

  lemma BoundGrows(calls: nat, attempt: nat, maxRetries: nat, perTry: nat, b: nat)
    requires 0 < calls == attempt + 1 <= maxRetries
    ensures calls * perTry + b * (Pow2(attempt) - 1) <= RetryBound(maxRetries, perTry, b)
  {
    PowMonotone(attempt, maxRetries - 1);
    assert calls * perTry <= maxRetries * perTry;
    assert b * (Pow2(attempt) - 1) <= b * (Pow2(maxRetries - 1) - 1);
  }

  /** A network error, a timeout, a rate limit and a server error are tried again, any other answer is final. */
  lemma RetriesExactly(error: Failure)
    ensures ShouldRetry(error) <==>
            match error
            case NetworkError => true
            case Status(code) => code in {408, 429} || 500 <= code
  {
  }

  /** The step doubles with every attempt, from the base on, and stops at the cap. */
  lemma {:induction false} StepDoubles(baseDelayMs: nat, attempt: nat, cap: nat)
    ensures BaseDelay(baseDelayMs, 0, None) == baseDelayMs
    ensures BaseDelay(baseDelayMs, attempt + 1, None) == 2 * BaseDelay(baseDelayMs, attempt, None)
    ensures BaseDelay(baseDelayMs, attempt, Some(cap)) <= cap
    ensures BaseDelay(baseDelayMs, attempt, Some(cap)) in {cap, BaseDelay(baseDelayMs, attempt, None)}
    ensures BaseDelay(baseDelayMs, attempt, Some(cap)) <= BaseDelay(baseDelayMs, attempt, None)
  {
  }

  /** With jitter the delay is the step scaled by a factor between a half and one, to the nearest millisecond. */
  lemma JitterScales(baseDelayMs: nat, attempt: nat, maxDelayMs: Option<nat>, jitter: real)
    requires 0.0 <= jitter < 1.0
    ensures var exact := BaseDelay(baseDelayMs, attempt, maxDelayMs) as real * (0.5 + jitter / 2.0);
            var delay := CalculateBackoff(baseDelayMs, attempt, maxDelayMs, Some(jitter)) as real;
            exact - 0.5 < delay <= exact + 0.5
  {
    assert jitter / 2.0 == jitter * 0.5;
  }
}
