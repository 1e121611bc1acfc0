/** The CA client's circuit breaker over whole call histories, and its retry loop. */
module GrpcClient {
  import opened Common

  type Instant = nat

  datatype CircuitState = Closed | Open(openedAt: Instant) | HalfOpen

  /** The value of a breaker object. */
  datatype Breaker = Breaker(state: CircuitState, failures: nat, threshold: nat, timeout: nat)

  /** A call of one of the breaker's methods, taken as one step; clients that share a breaker
      interleave these. */
  datatype Step = Ask(now: Instant) | Success | Failure(now: Instant)

  function Elapsed(since: Instant, now: Instant): nat {
    if now < since then 0 else now - since
  }

  predicate Admits(b: Breaker, now: Instant) {
    b.state.Open? ==> Elapsed(b.state.openedAt, now) >= b.timeout
  }

  function Apply(b: Breaker, step: Step): Breaker {
    match step
    case Ask(now) => if b.state.Open? && Admits(b, now) then b.(state := HalfOpen) else b
    case Success => b.(state := Closed, failures := 0)
    case Failure(now) =>
      var failures := b.failures + 1;
      b.(failures := failures, state := if failures >= b.threshold then Open(now) else b.state)
  }

  function Run(threshold: nat, timeout: nat, steps: seq<Step>): Breaker {
    if steps == [] then Breaker(Closed, 0, threshold, timeout)
    else Apply(Run(threshold, timeout, steps[..|steps| - 1]), steps[|steps| - 1])
  }

  // ----- What the history says, without the breaker -----

  /** The steps after the last success. */
  function SinceSuccess(steps: seq<Step>): seq<Step> {
    if steps == [] || steps[|steps| - 1].Success? then []
    else SinceSuccess(steps[..|steps| - 1]) + [steps[|steps| - 1]]
  }

  function CountFailures(steps: seq<Step>): nat {
    if steps == [] then 0
    else CountFailures(steps[..|steps| - 1]) + (if steps[|steps| - 1].Failure? then 1 else 0)
  }

  function FailuresSinceSuccess(steps: seq<Step>): nat {
    CountFailures(SinceSuccess(steps))
  }

  /** The time of the last failure, and whether a request since then came at least `timeout` later. */
  function LastFailure(steps: seq<Step>): Instant {
    if steps == [] then 0
    else if steps[|steps| - 1].Failure? then steps[|steps| - 1].now
    else LastFailure(steps[..|steps| - 1])
  }

  predicate Probed(timeout: nat, steps: seq<Step>) {
    && steps != []
    && var prefix, last := steps[..|steps| - 1], steps[|steps| - 1];
    && !last.Failure?
    && (Probed(timeout, prefix) || (last.Ask? && (timeout == 0 || last.now >= LastFailure(prefix) + timeout)))
  }

  function Max(a: nat, b: nat): nat {
    if a < b then b else a
  }

  /** Over every history the state is determined by it: closed exactly when the failures since the
      last success are fewer than max(1, threshold); otherwise open since the last failure until a
      request comes at least `timeout` after it, and half-open from then on. */
  lemma {:induction false} StateIsHistory(threshold: nat, timeout: nat, steps: seq<Step>)
    ensures var b := Run(threshold, timeout, steps);
            && b.threshold == threshold && b.timeout == timeout
            && b.failures == FailuresSinceSuccess(steps)
            && b.state == (if FailuresSinceSuccess(steps) < Max(1, threshold) then Closed
                           else if Probed(timeout, steps) then HalfOpen
                           else Open(LastFailure(steps)))
  {
    if steps != [] {
      var prefix, last := steps[..|steps| - 1], steps[|steps| - 1];
      StateIsHistory(threshold, timeout, prefix);
      if !last.Success? {
        var recent := SinceSuccess(prefix);
        assert SinceSuccess(steps) == recent + [last];
        assert (recent + [last])[..|recent|] == recent;
      }
    }
  }

  /** One failure after a half-open probe reopens the circuit, at the time of that failure; one
      success closes it and forgets every failure. */
  lemma ProbeDecides(threshold: nat, timeout: nat, steps: seq<Step>, now: Instant)
    requires Run(threshold, timeout, steps).state == HalfOpen
    ensures Run(threshold, timeout, steps + [Failure(now)]).state == Open(now)
    ensures Run(threshold, timeout, steps + [Success]) == Run(threshold, timeout, [])
  {
    StateIsHistory(threshold, timeout, steps);
    assert (steps + [Failure(now)])[..|steps|] == steps;
    assert (steps + [Success])[..|steps|] == steps;
  }

  /** Step `i` is the last failure, and no request since then came `timeout` after it or later. */
  predicate StillClosedOff(timeout: nat, steps: seq<Step>, i: nat) {
    && i < |steps| && steps[i].Failure?
    && (forall j :: i < j < |steps| ==> !steps[j].Failure?)
    && (forall j :: i < j < |steps| && steps[j].Ask? ==> steps[j].now < steps[i].now + timeout)
  }

  lemma {:induction false} NotProbed(timeout: nat, steps: seq<Step>)
    requires timeout > 0 && CountFailures(steps) > 0
    ensures Probed(timeout, steps) <==> forall i :: 0 <= i < |steps| ==> !StillClosedOff(timeout, steps, i)
    ensures exists i :: 0 <= i < |steps| && steps[i].Failure? && steps[i].now == LastFailure(steps)
                        && forall j :: i < j < |steps| ==> !steps[j].Failure?
  {
    var n := |steps| - 1;
    var prefix, last := steps[..n], steps[n];
    if last.Failure? {
      assert StillClosedOff(timeout, steps, n);
    } else {
      NotProbed(timeout, prefix);
      var i :| 0 <= i < |prefix| && prefix[i].Failure? && prefix[i].now == LastFailure(prefix)
               && forall j :: i < j < |prefix| ==> !prefix[j].Failure?;
      assert steps[i].Failure? && steps[i].now == LastFailure(steps);
      ClosedOffNext(timeout, steps);
      OnlyTheLastFailure(timeout, prefix, i);
      OnlyTheLastFailure(timeout, steps, i);
    }
  }

  lemma ClosedOffNext(timeout: nat, steps: seq<Step>)
    requires steps != [] && !steps[|steps| - 1].Failure?
    ensures forall i: nat :: i < |steps| - 1 ==>
              (StillClosedOff(timeout, steps, i) <==>
                 StillClosedOff(timeout, steps[..|steps| - 1], i)
                 && (steps[|steps| - 1].Ask? ==> steps[|steps| - 1].now < steps[i].now + timeout))
    ensures !StillClosedOff(timeout, steps, |steps| - 1)
  {
    var prefix := steps[..|steps| - 1];
    assert forall j :: 0 <= j < |prefix| ==> prefix[j] == steps[j];
  }

  lemma OnlyTheLastFailure(timeout: nat, steps: seq<Step>, i: nat)
    requires i < |steps| && steps[i].Failure? && forall j :: i < j < |steps| ==> !steps[j].Failure?
    ensures forall k :: 0 <= k < |steps| && StillClosedOff(timeout, steps, k) ==> k == i
  {
  }

  /** Over every history, a request is refused exactly when the failures since the last success have
      reached max(1, threshold), the request comes before `timeout` has passed since the last of
      them, and no request since then came after it had passed. With a timeout of zero none is. */
  lemma RefusedExactly(threshold: nat, timeout: nat, steps: seq<Step>, now: Instant)
    ensures !Admits(Run(threshold, timeout, steps), now) <==>
            && timeout > 0 && FailuresSinceSuccess(steps) >= Max(1, threshold)
            && exists i: nat :: StillClosedOff(timeout, steps, i) && now < steps[i].now + timeout
  {
    StateIsHistory(threshold, timeout, steps);
    if FailuresSinceSuccess(steps) >= Max(1, threshold) {
      SomeFailure(steps);
      if timeout > 0 {
        NotProbed(timeout, steps);
        var i :| 0 <= i < |steps| && steps[i].Failure? && steps[i].now == LastFailure(steps)
                 && forall j :: i < j < |steps| ==> !steps[j].Failure?;
        OnlyTheLastFailure(timeout, steps, i);
      } else {
        ZeroTimeoutAdmits(threshold, steps, now);
      }
    }
  }

  lemma ZeroTimeoutAdmits(threshold: nat, steps: seq<Step>, now: Instant)
    ensures Admits(Run(threshold, 0, steps), now)
  {
    StateIsHistory(threshold, 0, steps);
  }

  lemma {:induction false} SomeFailure(steps: seq<Step>)
    ensures CountFailures(SinceSuccess(steps)) <= CountFailures(steps)
  {
    if steps != [] && !steps[|steps| - 1].Success? {
      var prefix, last := steps[..|steps| - 1], steps[|steps| - 1];
      SomeFailure(prefix);
      assert (SinceSuccess(prefix) + [last])[..|SinceSuccess(prefix)|] == SinceSuccess(prefix);
    }
  }

  // ----- The breaker object -----

  datatype Refused = ServiceUnavailable

  class CircuitBreaker {
    var state: CircuitState
    var failureCount: nat
    const threshold: nat
    const timeout: nat

    function Value(): Breaker
      reads this
    {
      Breaker(state, failureCount, threshold, timeout)
    }

    constructor (threshold: nat, timeout: nat)
      ensures Value() == Run(threshold, timeout, [])
    {
      state := Closed;
      failureCount := 0;
      this.threshold := threshold;
      this.timeout := timeout;
    }

    method IsRequestAllowed(now: Instant) returns (result: Result<(), Refused>)
      modifies this
      ensures Value() == Apply(old(Value()), Ask(now))
      ensures result == if Admits(old(Value()), now) then Ok(()) else Err(ServiceUnavailable)
    {
      match state {
        case Closed => result := Ok(());
        case Open(openedAt) =>
          if Elapsed(openedAt, now) >= timeout {
            state := HalfOpen;
            result := Ok(());
          } else {
            result := Err(ServiceUnavailable);
          }
        case HalfOpen => result := Ok(());
      }
    }

    method RecordSuccess()
      modifies this
      ensures Value() == Apply(old(Value()), Success)
    {
      failureCount := 0;
      state := Closed;
    }

    method RecordFailure(now: Instant)
      modifies this
      ensures Value() == Apply(old(Value()), Failure(now))
    {
      failureCount := failureCount + 1;
      if failureCount >= threshold {
        state := Open(now);
      }
    }
  }

  // ----- The retry loop -----

  datatype Code =
    | Cancelled | Unknown | InvalidArgument | DeadlineExceeded | NotFound | AlreadyExists | PermissionDenied
    | ResourceExhausted | FailedPrecondition | Aborted | OutOfRange | Unimplemented | Internal | Unavailable
    | DataLoss | Unauthenticated

  predicate IsRetryable(code: Code) {
    code in {Unavailable, DeadlineExceeded, ResourceExhausted, Aborted}
  }

  /** What the remote side answers to an attempt. */
  datatype Answer<T> = Response(value: T) | Status(code: Code)

  datatype CallError = CircuitOpen | GrpcError(attempts: nat, code: Code)

  const U64_SIZE := 0x1_0000_0000_0000_0000
  const U64_HALF := 0x8000_0000_0000_0000

  type U64 = n: nat | n < U64_SIZE

  datatype Config = Config(maxRetries: nat, initialBackoff: U64, maxBackoff: U64)

  function Min(a: nat, b: nat): nat {
    if a < b then a else b
  }

  function Pow2(k: nat): nat {
    if k == 0 then 1 else 2 * Pow2(k - 1)
  }

  /** `(backoff_ms * 2).min(cap)` in 64 bits, as a build without overflow checks computes it. */
  function NextBackoff(config: Config, backoff: U64): U64 {
    Min(backoff * 2 % U64_SIZE, config.maxBackoff)
  }

  /** The sleep before attempt `k + 2`. */
  function Backoff(config: Config, k: nat): U64 {
    if k == 0 then config.initialBackoff else NextBackoff(config, Backoff(config, k - 1))
  }

  /** The intended sleep: the first is the initial backoff, uncapped, then it doubles up to the cap. */
  function Sleep(config: Config, k: nat): nat {
    if k == 0 then config.initialBackoff else Min(config.initialBackoff * Pow2(k), config.maxBackoff)
  }

  /** Doubling under the cap, step by step, is the closed form. */
  lemma NextSleep(config: Config, k: nat)
    ensures Min(Sleep(config, k) * 2, config.maxBackoff) == Sleep(config, k + 1)
  {
    var x := config.initialBackoff * Pow2(k);
    assert config.initialBackoff * Pow2(k + 1) == 2 * x;
  }

  /** The doubled backoff wraps harmlessly or not at all. */
  predicate BackoffFits(config: Config) {
    || config.initialBackoff == 0
    || (config.maxBackoff < U64_HALF
        && (config.initialBackoff < U64_HALF || config.initialBackoff * 2 - U64_SIZE >= config.maxBackoff))
  }

  lemma {:induction false} BackoffIsSleep(config: Config, k: nat)
    requires BackoffFits(config)
    ensures Backoff(config, k) == Sleep(config, k)
  {
    if k > 0 {
      BackoffIsSleep(config, k - 1);
      NextSleep(config, k - 1);
      DoublingIsCapped(config, Backoff(config, k - 1), k == 1);
    }
  }

  lemma DoublingIsCapped(config: Config, backoff: U64, first: bool)
    requires BackoffFits(config)
    requires if first then backoff == config.initialBackoff else backoff <= config.maxBackoff
    requires config.initialBackoff == 0 ==> backoff == 0
    ensures NextBackoff(config, backoff) == Min(backoff * 2, config.maxBackoff)
  {
    if backoff >= U64_HALF {
      assert backoff * 2 % U64_SIZE == backoff * 2 - U64_SIZE;
    }
  }

  /** From equal positive sleeps a cap of 2^63 or more leads to a wrong one. */
  lemma WrapsEventually(config: Config, k: nat) returns (wrong: nat)
    requires config.maxBackoff >= U64_HALF && Backoff(config, k) == Sleep(config, k) && Backoff(config, k) >= 1
    ensures Backoff(config, wrong) != Sleep(config, wrong)
    decreases if k == 0 then 1 else 0, U64_SIZE - Backoff(config, k)
  {
    hide Sleep;
    var b := Backoff(config, k);
    NextSleep(config, k);
    assert Backoff(config, k + 1) == NextBackoff(config, b);
    if b >= U64_HALF {
      assert b * 2 % U64_SIZE == b * 2 - U64_SIZE;
      if k == 0 && b * 2 - U64_SIZE >= config.maxBackoff {
        wrong := WrapsEventually(config, 1);
      } else {
        wrong := k + 1;
      }
    } else {
      wrong := WrapsEventually(config, k + 1);
    }
  }

  /** Every sleep is min(initial * 2^k, cap), after the first, if and only if the initial backoff is
      zero, or the cap is below 2^63 and so is the initial backoff or else its doubling wraps to the
      cap or more. */
  lemma BackoffIsSleepExactly(config: Config)
    ensures BackoffFits(config) <==> forall k: nat :: Backoff(config, k) == Sleep(config, k)
  {
    if BackoffFits(config) {
      forall k: nat
        ensures Backoff(config, k) == Sleep(config, k)
      {
        BackoffIsSleep(config, k);
      }
    } else if config.maxBackoff >= U64_HALF {
      var wrong := WrapsEventually(config, 0);
    } else {
      NextSleep(config, 0);
      assert config.initialBackoff * 2 % U64_SIZE == config.initialBackoff * 2 - U64_SIZE;
      assert Backoff(config, 1) != Sleep(config, 1);
    }
  }

  /** Attempt `i` (from 0) ends the loop. */
  predicate Ends<T>(config: Config, server: nat -> Answer<T>, i: nat) {
    server(i).Response? || !IsRetryable(server(i).code) || i + 1 >= config.maxRetries
  }

  /** Every answer but four ends the loop at once: those four leave it running while attempts remain. */
  lemma EndsExactly<T>(config: Config, server: nat -> Answer<T>, i: nat)
    ensures !Ends(config, server, i) <==>
              && i + 1 < config.maxRetries
              && server(i) in {Status(Unavailable), Status(DeadlineExceeded), Status(ResourceExhausted), Status(Aborted)}
  {
  }

  /** A refused call makes no attempt and records nothing. An admitted one makes the attempts up to
      the first that succeeds, fails for good or is the last allowed, at most max(1, max_retries);
      sleeps between them by the doubling rule; answers with that attempt's outcome; and records
      exactly one outcome with the breaker, whatever it went through. */
  method WithRetry<T>(breaker: CircuitBreaker, config: Config, server: nat -> Answer<T>, askedAt: Instant, failedAt: Instant)
    returns (result: Result<T, CallError>, attempts: nat, sleeps: seq<nat>)
    modifies breaker
    ensures attempts == 0 <==> !Admits(old(breaker.Value()), askedAt)
    ensures attempts == 0 ==> result == Err(CircuitOpen) && sleeps == [] && breaker.Value() == old(breaker.Value())
    ensures attempts > 0 ==>
              && attempts <= Max(1, config.maxRetries)
              && (forall i: nat :: i < attempts - 1 ==> !Ends(config, server, i))
              && Ends(config, server, attempts - 1)
              && |sleeps| == attempts - 1
              && (forall k :: 0 <= k < |sleeps| ==> sleeps[k] == Backoff(config, k))
              && (BackoffFits(config) ==> forall k :: 0 <= k < |sleeps| ==> sleeps[k] == Sleep(config, k))
    ensures attempts > 0 ==>
              var asked := Apply(old(breaker.Value()), Ask(askedAt));
              match server(attempts - 1)
              case Response(value) => result == Ok(value) && breaker.Value() == Apply(asked, Success)
              case Status(code) => result == Err(GrpcError(attempts, code)) && breaker.Value() == Apply(asked, Failure(failedAt))
  {
    hide Sleep, BackoffFits, NextBackoff, IsRetryable;
    attempts, sleeps := 0, [];
    BackoffIsSleepExactly(config);
    var allowed := breaker.IsRequestAllowed(askedAt);
    if allowed.Err? {
      return Err(CircuitOpen), attempts, sleeps;
    }
    ghost var asked := breaker.Value();
    var backoff := config.initialBackoff;
    while true
      invariant attempts <= config.maxRetries && (attempts == 0 || attempts < config.maxRetries)
      invariant forall i: nat :: i < attempts ==> !Ends(config, server, i)
      invariant |sleeps| == attempts && forall k :: 0 <= k < |sleeps| ==> sleeps[k] == Backoff(config, k)
      invariant backoff == Backoff(config, attempts)
      invariant breaker.Value() == asked
      decreases config.maxRetries - attempts
    {
      attempts := attempts + 1;
      match server(attempts - 1) {
        case Response(value) =>
          breaker.RecordSuccess();
          return Ok(value), attempts, sleeps;
        case Status(code) =>
          if !IsRetryable(code) || attempts >= config.maxRetries {
            breaker.RecordFailure(failedAt);
            return Err(GrpcError(attempts, code)), attempts, sleeps;
          }
          sleeps := sleeps + [backoff];
          backoff := NextBackoff(config, backoff);
      }
    }
  }
}
