/** Many retrying calls on one shared breaker: any number of `with_retry` calls, interleaved between
    the request, each attempt and the recorded outcome. */
module RetryRuns {
  import opened Common
  import opened GrpcClient

  type CallId = nat

  /** Where a call stands: turned away, making attempts, about to record its outcome, or done. */
  datatype Stage =
    | TurnedAway
    | Trying(attempts: nat)
    | Concluding(attempts: nat, ok: bool)
    | Done(attempts: nat, ok: bool)

  datatype Logged = Logged(call: CallId, step: Step)

  /** `log` lists every use of the breaker, in order, with the call it came from. */
  datatype State = State(breaker: Breaker, calls: map<CallId, Stage>, log: seq<Logged>)

  datatype Event =
    | Arrive(call: CallId, now: Instant)
    | Attempt(call: CallId, answer: Answer<()>)
    | RecordOutcome(call: CallId, now: Instant)

  predicate Enabled(s: State, ev: Event) {
    match ev
    case Arrive(c, _) => c !in s.calls
    case Attempt(c, _) => c in s.calls && s.calls[c].Trying?
    case RecordOutcome(c, _) => c in s.calls && s.calls[c].Concluding?
  }

  function AfterAttempt(maxRetries: nat, attempts: nat, answer: Answer<()>): Stage {
    match answer
    case Response(_) => Concluding(attempts, true)
    case Status(code) =>
      if !IsRetryable(code) || attempts >= maxRetries then Concluding(attempts, false) else Trying(attempts)
  }

  /** A call stops trying exactly where the retry loop would: at a success, a failure for good, or the
      last attempt allowed; and it concludes with that attempt's result. */
  lemma StopsWhereTheLoopEnds(config: Config, server: nat -> Answer<()>, i: nat)
    ensures var k := AfterAttempt(config.maxRetries, i + 1, server(i));
            && (k.Concluding? <==> Ends(config, server, i))
            && (k.Concluding? ==> k.attempts == i + 1 && (k.ok <==> server(i).Response?))
            && (!k.Concluding? ==> k == Trying(i + 1))
  {
  }

  function Outcome(ok: bool, now: Instant): Step {
    if ok then Success else Failure(now)
  }

  function Use(s: State, c: CallId, step: Step): State {
    s.(breaker := Apply(s.breaker, step), log := s.log + [Logged(c, step)])
  }

  function Next(maxRetries: nat, s: State, ev: Event): State
    requires Enabled(s, ev)
  {
    match ev
    case Arrive(c, now) =>
      Use(s, c, Ask(now)).(calls := s.calls[c := if Admits(s.breaker, now) then Trying(0) else TurnedAway])
    case Attempt(c, answer) => s.(calls := s.calls[c := AfterAttempt(maxRetries, s.calls[c].attempts + 1, answer)])
    case RecordOutcome(c, now) =>
      var k := s.calls[c];
      Use(s, c, Outcome(k.ok, now)).(calls := s.calls[c := Done(k.attempts, k.ok)])
  }

  /** The state after a run of events from a new breaker, if every event was possible. */
  function After(maxRetries: nat, threshold: nat, timeout: nat, events: seq<Event>): Option<State> {
    if events == [] then Some(State(Run(threshold, timeout, []), map[], []))
    else
      var before := After(maxRetries, threshold, timeout, events[..|events| - 1]);
      var ev := events[|events| - 1];
      if before.Some? && Enabled(before.value, ev) then Some(Next(maxRetries, before.value, ev)) else None
  }

  function Steps(log: seq<Logged>): (steps: seq<Step>)
    ensures |steps| == |log|
  {
    seq(|log|, i requires 0 <= i < |log| => log[i].step)
  }

  /** What one call did with the breaker. */
  function UsesOf(log: seq<Logged>, c: CallId): seq<Step> {
    if log == [] then []
    else UsesOf(log[..|log| - 1], c) + (if log[|log| - 1].call == c then [log[|log| - 1].step] else [])
  }

  /** A call asks once; when it is done it has also recorded its own outcome, once. */
  predicate UsesFit(k: Stage, uses: seq<Step>) {
    && uses != [] && uses[0].Ask?
    && match k
       case Done(_, ok) => |uses| == 2 && (if ok then uses[1].Success? else uses[1].Failure?)
       case _ => |uses| == 1
  }

  predicate AttemptsFit(maxRetries: nat, k: Stage) {
    match k
    case TurnedAway => true
    case Trying(attempts) => attempts < Max(1, maxRetries)
    case Concluding(attempts, _) => 1 <= attempts <= Max(1, maxRetries)
    case Done(attempts, _) => 1 <= attempts <= Max(1, maxRetries)
  }

  ghost predicate Inv(maxRetries: nat, threshold: nat, timeout: nat, s: State) {
    && s.breaker == Run(threshold, timeout, Steps(s.log))
    && (forall c :: c in s.calls ==> UsesFit(s.calls[c], UsesOf(s.log, c)) && AttemptsFit(maxRetries, s.calls[c]))
    && (forall c :: c !in s.calls ==> UsesOf(s.log, c) == [])
  }

  lemma UseLogs(log: seq<Logged>, c: CallId, step: Step)
    ensures forall d :: UsesOf(log + [Logged(c, step)], d) == UsesOf(log, d) + (if d == c then [step] else [])
    ensures Steps(log + [Logged(c, step)]) == Steps(log) + [step]
  {
    assert (log + [Logged(c, step)])[..|log|] == log;
  }

  lemma UseRuns(threshold: nat, timeout: nat, s: State, c: CallId, step: Step)
    requires s.breaker == Run(threshold, timeout, Steps(s.log))
    ensures Use(s, c, step).breaker == Run(threshold, timeout, Steps(Use(s, c, step).log))
  {
    UseLogs(s.log, c, step);
    assert (Steps(s.log) + [step])[..|s.log|] == Steps(s.log);
  }

  lemma StepKeepsInv(maxRetries: nat, threshold: nat, timeout: nat, s: State, ev: Event)
    requires Inv(maxRetries, threshold, timeout, s) && Enabled(s, ev)
    ensures Inv(maxRetries, threshold, timeout, Next(maxRetries, s, ev))
  {
    hide Run, Apply, Steps, UsesOf, IsRetryable;
    match ev {
      case Arrive(c, now) =>
        UseLogs(s.log, c, Ask(now));
        UseRuns(threshold, timeout, s, c, Ask(now));
      case Attempt(c, _) =>
        assert AttemptsFit(maxRetries, s.calls[c]);
      case RecordOutcome(c, now) =>
        assert AttemptsFit(maxRetries, s.calls[c]);
        UseLogs(s.log, c, Outcome(s.calls[c].ok, now));
        UseRuns(threshold, timeout, s, c, Outcome(s.calls[c].ok, now));
    }
  }

  lemma {:induction false} RunKeepsInv(maxRetries: nat, threshold: nat, timeout: nat, events: seq<Event>)
    requires After(maxRetries, threshold, timeout, events).Some?
    ensures Inv(maxRetries, threshold, timeout, After(maxRetries, threshold, timeout, events).value)
  {
    hide Next, Enabled, Run;
    if events == [] {
      assert Steps([]) == [];
    } else {
      var prefix, ev := events[..|events| - 1], events[|events| - 1];
      RunKeepsInv(maxRetries, threshold, timeout, prefix);
      StepKeepsInv(maxRetries, threshold, timeout, After(maxRetries, threshold, timeout, prefix).value, ev);
    }
  }

  /** Over every interleaving of calls on a shared breaker: a call that was turned away made no
      attempt and recorded nothing; an admitted one records nothing while it tries, and has recorded
      exactly one outcome, its own, after 1 to max(1, max_retries) attempts when it is done. The
      breaker is what the log of all requests and outcomes makes it. */
  lemma EachCallRecordsOnce(maxRetries: nat, threshold: nat, timeout: nat, events: seq<Event>, c: CallId)
    requires After(maxRetries, threshold, timeout, events).Some?
    requires c in After(maxRetries, threshold, timeout, events).value.calls
    ensures var s := After(maxRetries, threshold, timeout, events).value;
            var k, uses := s.calls[c], UsesOf(s.log, c);
            && UsesFit(k, uses) && AttemptsFit(maxRetries, k)
            && s.breaker == Run(threshold, timeout, Steps(s.log))
            && (s.breaker.state.Closed? <==> FailuresSinceSuccess(Steps(s.log)) < Max(1, threshold))
  {
    RunKeepsInv(maxRetries, threshold, timeout, events);
    StateIsHistory(threshold, timeout, Steps(After(maxRetries, threshold, timeout, events).value.log));
  }

  /** Over every interleaving, whoever arrives is turned away exactly when the outcomes recorded so far,
      by whichever calls, say so; otherwise it starts trying. */
  lemma ArrivalsAreJudged(
    maxRetries: nat, threshold: nat, timeout: nat, events: seq<Event>, c: CallId, now: Instant)
    requires After(maxRetries, threshold, timeout, events).Some?
    requires c !in After(maxRetries, threshold, timeout, events).value.calls
    ensures var s := After(maxRetries, threshold, timeout, events).value;
            var steps := Steps(s.log);
            var refused := timeout > 0 && FailuresSinceSuccess(steps) >= Max(1, threshold)
                           && exists i: nat :: StillClosedOff(timeout, steps, i) && now < steps[i].now + timeout;
            Next(maxRetries, s, Arrive(c, now)).calls[c] == if refused then TurnedAway else Trying(0)
  {
    RunKeepsInv(maxRetries, threshold, timeout, events);
    RefusedExactly(threshold, timeout, Steps(After(maxRetries, threshold, timeout, events).value.log), now);
  }
}
