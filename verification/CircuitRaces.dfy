/** The circuit breaker between its two writes: `record_failure` and `record_success` update the
    counter outside the lock that guards the state, so calls of different clients can overlap
    there. When they do not overlap in the one harmful way, the state agrees with the counter
    whenever nothing is in flight; when they do, some continuation makes them disagree. */
module CircuitRaces {
  import opened Common
  import opened GrpcClient

  type CallId = nat

  /** `closing` calls have reset the counter and not yet closed the circuit; `tripping` calls have
      counted up to the threshold and not yet opened it. */
  datatype Circuit = Circuit(breaker: Breaker, closing: set<CallId>, tripping: set<CallId>)

  datatype Half =
    | Request(now: Instant)
    | ResetCount(call: CallId)
    | CloseCircuit(call: CallId)
    | CountFailure(call: CallId)
    | OpenCircuit(call: CallId, now: Instant)

  predicate Enabled(s: Circuit, h: Half) {
    match h
    case Request(_) => true
    case ResetCount(c) => c !in s.closing + s.tripping
    case CloseCircuit(c) => c in s.closing
    case CountFailure(c) => c !in s.closing + s.tripping
    case OpenCircuit(c, _) => c in s.tripping
  }

  function Next(s: Circuit, h: Half): Circuit {
    var b := s.breaker;
    match h
    case Request(now) => s.(breaker := Apply(b, Ask(now)))
    case ResetCount(c) => s.(breaker := b.(failures := 0), closing := s.closing + {c})
    case CloseCircuit(c) => s.(breaker := b.(state := Closed), closing := s.closing - {c})
    case CountFailure(c) =>
      var counted := b.(failures := b.failures + 1);
      s.(breaker := counted, tripping := if counted.failures >= b.threshold then s.tripping + {c} else s.tripping)
    case OpenCircuit(c, now) => s.(breaker := b.(state := Open(now)), tripping := s.tripping - {c})
  }

  function NewCircuit(threshold: nat, timeout: nat): Circuit {
    Circuit(Breaker(Closed, 0, threshold, timeout), {}, {})
  }

  function After(threshold: nat, timeout: nat, halves: seq<Half>): Option<Circuit> {
    if halves == [] then Some(NewCircuit(threshold, timeout))
    else
      var before := After(threshold, timeout, halves[..|halves| - 1]);
      var h := halves[|halves| - 1];
      if before.Some? && Enabled(before.value, h) then Some(Next(before.value, h)) else None
  }

  predicate Quiet(s: Circuit) {
    s.closing == {} && s.tripping == {}
  }

  /** The circuit is closed exactly when the counter is below max(1, threshold). */
  predicate Agrees(s: Circuit) {
    s.breaker.state.Closed? <==> s.breaker.failures < Max(1, s.breaker.threshold)
  }

  // ----- Whole calls -----

  /** A call that nothing comes between does what the one-step breaker does. */
  lemma WholeCallsAreSteps(s: Circuit, c: CallId, now: Instant)
    requires c !in s.closing + s.tripping
    ensures Next(Next(s, ResetCount(c)), CloseCircuit(c)) == s.(breaker := Apply(s.breaker, Success))
    ensures var counted := Next(s, CountFailure(c));
            (if c in counted.tripping then Next(counted, OpenCircuit(c, now)) else counted)
            == s.(breaker := Apply(s.breaker, Failure(now)))
  {
    assert s.closing + {c} - {c} == s.closing;
    assert s.tripping + {c} - {c} == s.tripping;
  }

  // ----- Runs without the harmful overlap -----

  /** At no moment is a success between its halves while a failure that reached the threshold is
      between its own. Anything else may overlap. */
  predicate Separate(threshold: nat, timeout: nat, halves: seq<Half>)
    requires After(threshold, timeout, halves).Some?
  {
    var s := After(threshold, timeout, halves).value;
    (s.closing == {} || s.tripping == {})
    && (halves != [] ==> Separate(threshold, timeout, halves[..|halves| - 1]))
  }

  predicate Inv(s: Circuit) {
    && (s.closing != {} ==> s.breaker.failures < Max(1, s.breaker.threshold))
    && (s.tripping != {} ==> s.breaker.failures >= Max(1, s.breaker.threshold))
    && (Quiet(s) ==> Agrees(s))
  }

  lemma StepKeepsInv(s: Circuit, h: Half)
    requires Inv(s) && Enabled(s, h)
    requires s.closing == {} || s.tripping == {}
    requires Next(s, h).closing == {} || Next(s, h).tripping == {}
    ensures Inv(Next(s, h))
  {
    if h.CountFailure? {
      assert h.call in s.tripping + {h.call};
    } else if h.ResetCount? {
      assert h.call in s.closing + {h.call};
    }
  }

  /** Over every run without the harmful overlap, the circuit is closed exactly when the counter is
      below max(1, threshold), whenever nothing is in flight. */
  lemma {:induction false} SeparateRunsAgree(threshold: nat, timeout: nat, halves: seq<Half>)
    requires After(threshold, timeout, halves).Some? && Separate(threshold, timeout, halves)
    ensures Inv(After(threshold, timeout, halves).value)
    ensures var s := After(threshold, timeout, halves).value; Quiet(s) ==> Agrees(s)
  {
    hide Next, Enabled;
    if halves != [] {
      var prefix, h := halves[..|halves| - 1], halves[|halves| - 1];
      SeparateRunsAgree(threshold, timeout, prefix);
      StepKeepsInv(After(threshold, timeout, prefix).value, h);
    }
  }

  // ----- The harmful overlap -----

  lemma StepAfter(threshold: nat, timeout: nat, halves: seq<Half>, h: Half) returns (halves': seq<Half>, s: Circuit)
    requires After(threshold, timeout, halves).Some? && Enabled(After(threshold, timeout, halves).value, h)
    ensures halves' == halves + [h]
    ensures After(threshold, timeout, halves') == Some(s) && s == Next(After(threshold, timeout, halves).value, h)
  {
    halves' := halves + [h];
    assert halves'[..|halves|] == halves;
    s := Next(After(threshold, timeout, halves).value, h);
  }

  /** Everyone but one success and one tripping failure finishes. */
  lemma OthersFinish(threshold: nat, timeout: nat, halves: seq<Half>, c: CallId, d: CallId)
    returns (halves': seq<Half>, s: Circuit)
    requires After(threshold, timeout, halves).Some?
    requires c in After(threshold, timeout, halves).value.closing && d in After(threshold, timeout, halves).value.tripping
    ensures halves <= halves' && After(threshold, timeout, halves') == Some(s)
    ensures s.closing == {c} && s.tripping == {d}
    decreases |After(threshold, timeout, halves).value.closing| + |After(threshold, timeout, halves).value.tripping|
  {
    hide After;
    halves', s := halves, After(threshold, timeout, halves).value;
    if s.closing != {c} {
      var x :| x in s.closing && x != c;
      ghost var before := s;
      halves', s := StepAfter(threshold, timeout, halves, CloseCircuit(x));
      assert |s.closing| == |before.closing| - 1;
      halves', s := OthersFinish(threshold, timeout, halves', c, d);
    } else if s.tripping != {d} {
      var x :| x in s.tripping && x != d;
      ghost var before := s;
      halves', s := StepAfter(threshold, timeout, halves, OpenCircuit(x, 0));
      assert |s.tripping| == |before.tripping| - 1;
      halves', s := OthersFinish(threshold, timeout, halves', c, d);
    }
  }

  /** From every reachable state with the harmful overlap there is a continuation to a state in which
      nothing is in flight and state and counter disagree: an open circuit with a counter below the
      threshold, or a closed one that has reached it. */
  lemma OverlapCanDisagree(threshold: nat, timeout: nat, halves: seq<Half>)
    returns (halves': seq<Half>, s: Circuit)
    requires After(threshold, timeout, halves).Some?
    requires var s := After(threshold, timeout, halves).value; s.closing != {} && s.tripping != {}
    ensures halves <= halves' && After(threshold, timeout, halves') == Some(s)
    ensures Quiet(s) && !Agrees(s)
  {
    hide After;
    var start := After(threshold, timeout, halves).value;
    var c :| c in start.closing;
    var d :| d in start.tripping;
    halves', s := OthersFinish(threshold, timeout, halves, c, d);
    if s.breaker.failures < Max(1, s.breaker.threshold) {
      halves', s := StepAfter(threshold, timeout, halves', CloseCircuit(c));
      halves', s := StepAfter(threshold, timeout, halves', OpenCircuit(d, 0));
    } else {
      halves', s := StepAfter(threshold, timeout, halves', OpenCircuit(d, 0));
      halves', s := StepAfter(threshold, timeout, halves', CloseCircuit(c));
    }
  }

  lemma {:induction false} CountedUp(threshold: nat, timeout: nat, failures: nat)
    returns (halves: seq<Half>, s: Circuit)
    requires failures < Max(1, threshold)
    ensures After(threshold, timeout, halves) == Some(s)
    ensures s == NewCircuit(threshold, timeout).(breaker := Breaker(Closed, failures, threshold, timeout))
  {
    if failures == 0 {
      halves, s := [], NewCircuit(threshold, timeout);
    } else {
      halves, s := CountedUp(threshold, timeout, failures - 1);
      halves, s := StepAfter(threshold, timeout, halves, CountFailure(0));
    }
  }

  /** The overlap itself: whatever the threshold, an open circuit whose counter is zero. */
  lemma OpenWithoutFailures(threshold: nat, timeout: nat, now: Instant) returns (halves: seq<Half>, s: Circuit)
    ensures After(threshold, timeout, halves) == Some(s) && Quiet(s)
    ensures s.breaker == Breaker(Open(now), 0, threshold, timeout)
  {
    hide After;
    halves, s := CountedUp(threshold, timeout, Max(1, threshold) - 1);
    halves, s := StepAfter(threshold, timeout, halves, CountFailure(0));
    halves, s := StepAfter(threshold, timeout, halves, ResetCount(1));
    halves, s := StepAfter(threshold, timeout, halves, CloseCircuit(1));
    halves, s := StepAfter(threshold, timeout, halves, OpenCircuit(0, now));
  }
}
