/**
 The retry loop around Aurora queries, `withRetry` in `thread-matcher.ts`. Its budget and its delays grow
 while it runs, when an error says that the cluster is waking up.
 */
module Retry {
  import opened Options
  import opened Text

  const MAX_ATTEMPTS := 3
  const BASE_DELAY_MS := 1000
  const RESUME_MAX_ATTEMPTS := 8
  const RESUME_BASE_DELAY_MS := 2000
  const MAX_DELAY_MS := 8000

  // ---------------------------------------------------------------------------
  // Error classes
  // ---------------------------------------------------------------------------

  /** What is known of a thrown value; a wrapped one hides the original in its cause. */
  datatype Classifiable = NotAnObject
    | Details(name: Option<string>, message: Option<string>, code: Option<string>, status: Option<int>)

  datatype Thrown = Plain(own: Classifiable) | DrizzleQuery(own: Classifiable, cause: Option<Classifiable>)

  function ClassifiableError(e: Thrown): Classifiable {
    if e.DrizzleQuery? && e.cause.Some? then e.cause.value else e.own
  }

  const RESUMING_TEXT := "resuming after being auto-paused"

  predicate MessageIncludes(c: Classifiable, part: string) {
    c.Details? && c.message.Some? && Includes(c.message.value, part)
  }

  predicate IsTransientError(e: Thrown) {
    var c := ClassifiableError(e);
    && c.Details?
    && (|| c.name in {Some("StatementTimeoutException"), Some("ServiceUnavailableError"),
        Some("InternalServerErrorException")}
        || c.code == Some("ThrottlingException")
        || c.name == Some("ThrottlingException")
        || (c.status.Some? && (c.status.value >= 500 || c.status.value == 429))
        || c.name == Some("NetworkingError")
        || MessageIncludes(c, "Connection reset")
        || MessageIncludes(c, RESUMING_TEXT))
  }

  predicate IsAuroraResuming(e: Thrown) {
    MessageIncludes(ClassifiableError(e), RESUMING_TEXT)
  }

  // ---------------------------------------------------------------------------
  // The calls
  // ---------------------------------------------------------------------------

  datatype Outcome<+T> = Returned(value: T) | Threw(error: Thrown)

  datatype Result<+T> = Ok(value: T) | Err(error: Thrown)

  predicate Transient<T>(o: Outcome<T>) {
    o.Threw? && IsTransientError(o.error)
  }

  predicate Resuming<T>(o: Outcome<T>) {
    o.Threw? && IsAuroraResuming(o.error)
  }

  /** One of the first `n` calls found the cluster resuming. */
  ghost predicate SawResuming<T(!new)>(outcome: nat -> Outcome<T>, n: nat) {
    exists j: nat :: j < n && Resuming(outcome(j))
  }

  function Min(a: nat, b: nat): nat {
    if a < b then a else b
  }

  function Pow2(n: nat): nat {
    if n == 0 then 1 else 2 * Pow2(n - 1)
  }

  /** The budget in force after the call with index `i`. */
  ghost function Budget<T(!new)>(outcome: nat -> Outcome<T>, i: nat): nat {
    if SawResuming(outcome, i + 1) then RESUME_MAX_ATTEMPTS else MAX_ATTEMPTS
  }

  ghost function Delay<T(!new)>(outcome: nat -> Outcome<T>, i: nat): nat {
    Min((if SawResuming(outcome, i + 1) then RESUME_BASE_DELAY_MS else BASE_DELAY_MS) * Pow2(i), MAX_DELAY_MS)
  }

  /** The sleep after the first `n` calls. */
  ghost function TotalDelay<T(!new)>(outcome: nat -> Outcome<T>, n: nat): nat {
    if n == 0 then 0 else TotalDelay(outcome, n - 1) + Delay(outcome, n - 1)
  }

  ghost predicate StopsAt<T(!new)>(outcome: nat -> Outcome<T>, i: nat) {
    !Transient(outcome(i)) || i + 1 == Budget(outcome, i)
  }

  /** The loop makes exactly `calls` calls: the last one is the first at which it stops. */
  ghost predicate Makes<T(!new)>(outcome: nat -> Outcome<T>, calls: nat) {
    && calls > 0 && StopsAt(outcome, calls - 1)
    && forall i: nat :: i < calls - 1 ==> !StopsAt(outcome, i)
  }

  function ToResult<T>(o: Outcome<T>): Result<T> {
    match o
    case Returned(v) => Ok(v)
    case Threw(e) => Err(e)
  }

  /** `outcome(i)` is what the call with index `i` does; the return after the source's loop is never reached. */
  method WithRetry<T(!new)>(outcome: nat -> Outcome<T>)
    returns (result: Result<T>, calls: nat, slept: nat, widened: nat)
    ensures Makes(outcome, calls) && result == ToResult(outcome(calls - 1))
    ensures slept == TotalDelay(outcome, calls - 1)
    ensures widened == if SawResuming(outcome, calls) then 1 else 0
  {
    var maxAttempts, baseDelay, attempt := MAX_ATTEMPTS, BASE_DELAY_MS, 0;
    calls, slept, widened := 0, 0, 0;
    while attempt < maxAttempts
      invariant calls == attempt < maxAttempts
      invariant forall i: nat :: i < attempt ==> !StopsAt(outcome, i)
      invariant slept == TotalDelay(outcome, attempt)
      invariant widened == if SawResuming(outcome, attempt) then 1 else 0
      invariant maxAttempts == if widened == 1 then RESUME_MAX_ATTEMPTS else MAX_ATTEMPTS
      invariant baseDelay == if widened == 1 then RESUME_BASE_DELAY_MS else BASE_DELAY_MS
      decreases RESUME_MAX_ATTEMPTS - attempt
    {
      var o := outcome(attempt);
      calls := calls + 1;
      OneMore(outcome, attempt);
      result := ToResult(o);
      if o.Returned? {
        return;
      }
      if IsAuroraResuming(o.error) && maxAttempts == MAX_ATTEMPTS {
        maxAttempts, baseDelay := RESUME_MAX_ATTEMPTS, RESUME_BASE_DELAY_MS;
        widened := widened + 1;
      }
      if !IsTransientError(o.error) || attempt == maxAttempts - 1 {
        return;
      }
      slept := slept + Min(baseDelay * Pow2(attempt), MAX_DELAY_MS);
      attempt := attempt + 1;
    }
    assert false;
  }

  lemma {:induction false} OneMore<T(!new)>(outcome: nat -> Outcome<T>, n: nat)
    ensures SawResuming(outcome, n + 1) <==> SawResuming(outcome, n) || Resuming(outcome(n))
  {
    if SawResuming(outcome, n) {
      var j: nat :| j < n && Resuming(outcome(j));
    }
    if SawResuming(outcome, n + 1) && !Resuming(outcome(n)) {
      var j: nat :| j < n + 1 && Resuming(outcome(j));
      assert j < n;
    }
  }

  // ---------------------------------------------------------------------------
  // Bounds
  // ---------------------------------------------------------------------------

  lemma {:induction false} Doubling(n: nat)
    requires n <= 8
    ensures Pow2(n) == [1, 2, 4, 8, 16, 32, 64, 128, 256][n]
  {
    if n > 0 {
      Doubling(n - 1);
    }
  }

  /** The bounds on sleep after `n` calls: doubling from one second, or from two, up to eight. */
  const SLOW := [0, 2000, 6000, 14000, 22000, 30000, 38000, 46000]

  const FAST := [0, 1000, 3000, 7000, 15000, 23000, 31000, 39000]

  lemma {:induction false} DelayBounds<T(!new)>(outcome: nat -> Outcome<T>, n: nat)
    requires n < 8
    ensures TotalDelay(outcome, n) <= SLOW[n]
    ensures !SawResuming(outcome, n) ==> TotalDelay(outcome, n) == FAST[n]
    ensures (n > 0 ==> Resuming(outcome(0))) ==> TotalDelay(outcome, n) == SLOW[n]
  {
    if n > 0 {
      DelayBounds(outcome, n - 1);
      Doubling(n - 1);
      OneMore(outcome, n - 1);
    }
  }

  /** At most 8 calls and 46 seconds of sleep; 3 calls and 3 seconds if the cluster was never resuming. */
  lemma {:induction false} RetryBounds<T(!new)>(outcome: nat -> Outcome<T>, calls: nat)
    requires Makes(outcome, calls)
    ensures calls <= 8 && TotalDelay(outcome, calls - 1) <= 46000
    ensures !SawResuming(outcome, calls) ==> calls <= 3 && TotalDelay(outcome, calls - 1) <= 3000
    ensures calls > 3 ==> SawResuming(outcome, 3)
  {
    if calls > 3 {
      assert !StopsAt(outcome, 2);
      assert StopsAt(outcome, 7);
    }
    DelayBounds(outcome, calls - 1);
    if !SawResuming(outcome, calls) {
      OneMore(outcome, calls - 1);
    }
  }

  /** Both bounds are met: a cluster that keeps resuming takes all 8 calls and 46 seconds, any other 3 and 3. */
  lemma {:induction false} BoundsAreMet<T(!new)>(outcome: nat -> Outcome<T>, e: Thrown, calls: nat)
    requires Makes(outcome, calls) && IsTransientError(e) && forall i: nat :: outcome(i) == Threw(e)
    ensures IsAuroraResuming(e) ==> calls == 8 && TotalDelay(outcome, 7) == 46000
    ensures !IsAuroraResuming(e) ==> calls == 3 && TotalDelay(outcome, 2) == 3000
  {
    RetryBounds(outcome, calls);
    assert Resuming(outcome(0)) <==> IsAuroraResuming(e);
    if IsAuroraResuming(e) {
      assert SawResuming(outcome, calls);
      DelayBounds(outcome, 7);
    } else {
      assert !SawResuming(outcome, calls);
      DelayBounds(outcome, 2);
    }
  }

  // ---------------------------------------------------------------------------
  // Which errors are retried
  // ---------------------------------------------------------------------------

  /** The error itself, or what a query error wraps. */
  ghost predicate Underlies(c: Classifiable, e: Thrown) {
    match e
    case Plain(own) => c == own
    case DrizzleQuery(own, cause) => c == if cause.Some? then cause.value else own
  }

  const TRANSIENT_NAMES := {"StatementTimeoutException", "ServiceUnavailableError", "InternalServerErrorException",
                            "ThrottlingException", "NetworkingError"}

  /** Retried are timeouts, throttling, server errors, network errors and a resuming cluster, also when wrapped. */
  lemma {:induction false} TransientIff(c: Classifiable, e: Thrown)
    requires Underlies(c, e)
    ensures IsTransientError(e) <==>
              && c.Details?
              && (|| (c.name.Some? && c.name.value in TRANSIENT_NAMES)
                  || c.code == Some("ThrottlingException")
                  || (c.status.Some? && (c.status.value == 429 || c.status.value >= 500))
                  || MessageIncludes(c, "Connection reset")
                  || MessageIncludes(c, "resuming after being auto-paused"))
    ensures IsAuroraResuming(e) <==> MessageIncludes(c, "resuming after being auto-paused")
    ensures IsAuroraResuming(e) ==> IsTransientError(e)
  {
  }

  /** A client's error other than throttling, without a telling name, code or message, ends the call at once. */
  lemma {:induction false} ClientErrorIsFinal<T(!new)>(outcome: nat -> Outcome<T>, e: Thrown, status: int,
                                                       calls: nat)
    requires Makes(outcome, calls) && outcome(0) == Threw(e)
    requires Underlies(Details(None, None, None, Some(status)), e) && 400 <= status < 500
    ensures calls == 1 <==> status != 429
  {
    TransientIff(Details(None, None, None, Some(status)), e);
    assert StopsAt(outcome, 0) <==> !IsTransientError(e);
  }

  // ---------------------------------------------------------------------------
  // Outcome
  // ---------------------------------------------------------------------------

  /** The first answer that is not transient comes at call `i`, within the budget. */
  ghost predicate SettlesAt<T(!new)>(outcome: nat -> Outcome<T>, i: nat) {
    && !Transient(outcome(i))
    && (forall j: nat :: j < i ==> Transient(outcome(j)))
    && (i < 3 || (i < 8 && SawResuming(outcome, 3)))
  }

  lemma {:induction false} SettlingStops<T(!new)>(outcome: nat -> Outcome<T>, i: nat, calls: nat)
    requires SettlesAt(outcome, i) && Makes(outcome, calls)
    ensures calls == i + 1
  {
    assert StopsAt(outcome, i);
    forall j: nat | j < i ensures !StopsAt(outcome, j) {
      if j >= 2 {
      }
    }
  }

  /**
   The call succeeds exactly when its first answer that is not transient is a value and comes in time: among
   the first 3 calls, or among the first 8 if one of the first 3 found the cluster resuming.
   */
  lemma {:induction false} SucceedsIff<T(!new)>(outcome: nat -> Outcome<T>, calls: nat)
    requires Makes(outcome, calls)
    ensures ToResult(outcome(calls - 1)).Ok? <==> exists i: nat :: SettlesAt(outcome, i) && outcome(i).Returned?
  {
    if outcome(calls - 1).Returned? {
      RetryBounds(outcome, calls);
      forall j: nat | j < calls - 1 ensures Transient(outcome(j)) {
        assert !StopsAt(outcome, j);
      }
      assert SettlesAt(outcome, calls - 1);
    }
    if i: nat :| SettlesAt(outcome, i) && outcome(i).Returned? {
      SettlingStops(outcome, i, calls);
    }
  }
}
