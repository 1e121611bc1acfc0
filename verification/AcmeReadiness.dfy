/** When the status "ready" of an order means what section 7.1.6 of RFC 8555 says, that all its
    authorizations are valid: the branches that can make it false, the runs in which none does, and
    the continuation that always can. */
module AcmeReadiness {
  import opened Common
  import opened IpAddresses
  import opened Identifiers
  import opened Finalize
  import opened AcmeState
  import opened AcmeLifecycle

  predicate AllValid(s: State, o: RowId) {
    forall a :: a in s.authzs && s.authzs[a].order == o ==> s.authzs[a].status == Valid
  }

  predicate IsReady(s: State, o: RowId) {
    o in s.orders && s.orders[o].status == Ready
  }

  predicate ReadyMeansValid(s: State, o: RowId) {
    IsReady(s, o) ==> AllValid(s, o)
  }

  // ----- Step by step -----

  /** The failing branches, by what is stored before the step: a new authorization or an invalidated
      one for an order that is ready, and an order set to ready although one is not valid. */
  ghost predicate BreaksReady(ip: IpText, s: State, ev: Event, o: RowId)
    requires Enabled(ip, s, ev)
  {
    match ev
    case NewOrder(t, CreateAuthz(_)) => s.tasks[t].order == o && IsReady(s, o)
    case Validation(t, MarkAuthzInvalid(true)) => s.authzs[s.tasks[t].authz].order == o && IsReady(s, o)
    case Validation(t, MarkReady(_)) => s.tasks[t].order == o && !AllValid(s, o)
    case FinalizeOrder(t, RollBackToReady) => s.tasks[t].call.order == o && !AllValid(s, o)
    case _ => false
  }

  /** A step keeps "ready means all valid" exactly when it takes none of the failing branches. */
  lemma StepBreaksReadyExactly(ip: IpText, s: State, ev: Event, o: RowId)
    requires Inv(ip, s) && Enabled(ip, s, ev) && ReadyMeansValid(s, o)
    ensures ReadyMeansValid(Next(ip, s, ev), o) <==> !BreaksReady(ip, s, ev, o)
  {
    match ev {
      case Tick(_) =>
      case NewOrder(t, step) => NewOrderBreaksExactly(ip, s, t, step, o);
      case Validation(t, step) => ValidationBreaksExactly(ip, s, t, step, o);
      case FinalizeOrder(t, step) => FinalizeBreaksExactly(ip, s, t, step, o);
    }
  }

  lemma NewOrderBreaksExactly(ip: IpText, s: State, t: TaskId, step: NewOrderStep, o: RowId)
    requires Inv(ip, s) && NewOrderEnabled(ip, s, t, step) && ReadyMeansValid(s, o)
    ensures ReadyMeansValid(NewOrderNext(ip, s, t, step), o) <==> !BreaksReady(ip, s, NewOrder(t, step), o)
  {
    hide NewOrderTask, Acceptable, TaskInv, ChallengeTypes;
    var s' := NewOrderNext(ip, s, t, step);
    if step.CreateAuthz? {
      var a := step.authz;
      assert s'.authzs[a].status == Pending && s'.authzs[a].order == s.tasks[t].order;
      assert forall b :: b in s.authzs ==> b in s'.authzs && s'.authzs[b] == s.authzs[b];
    }
  }

  lemma ValidationBreaksExactly(ip: IpText, s: State, t: TaskId, step: ValidationStep, o: RowId)
    requires Inv(ip, s) && ValidationEnabled(s, t, step) && ReadyMeansValid(s, o)
    ensures ReadyMeansValid(ValidationNext(s, t, step), o) <==> !BreaksReady(ip, s, Validation(t, step), o)
  {
    hide ValidationTask, Lists, CheckPermitted, ProvenIn, TaskInv, HistoryInv;
    var s' := ValidationNext(s, t, step);
    if step.MarkAuthzInvalid? && step.applied {
      var a := s.tasks[t].authz;
      assert s'.authzs[a].status == Invalid && s'.authzs[a].order == s.authzs[a].order;
    } else {
      assert forall b :: b in s.authzs && s.authzs[b].status == Valid ==> s'.authzs[b] == s.authzs[b];
    }
  }

  lemma FinalizeBreaksExactly(ip: IpText, s: State, t: TaskId, step: FinalizeStep, o: RowId)
    requires Inv(ip, s) && FinalizeEnabled(s, t, step) && ReadyMeansValid(s, o)
    ensures ReadyMeansValid(FinalizeNext(ip, s, t, step), o) <==> !BreaksReady(ip, s, FinalizeOrder(t, step), o)
  {
    hide FinalizeTask, Lists, TaskInv;
    assert FinalizeNext(ip, s, t, step).authzs == s.authzs;
  }

  ghost predicate MeansValidThroughout(ip: IpText, events: seq<Event>, o: RowId)
    requires After(ip, events).Some?
  {
    ReadyMeansValid(After(ip, events).value, o)
    && (events != [] ==> MeansValidThroughout(ip, events[..|events| - 1], o))
  }

  ghost predicate NeverBreaks(ip: IpText, events: seq<Event>, o: RowId)
    requires After(ip, events).Some?
  {
    events != [] ==>
      && NeverBreaks(ip, events[..|events| - 1], o)
      && !BreaksReady(ip, After(ip, events[..|events| - 1]).value, events[|events| - 1], o)
  }

  /** Over every run, "ready" means all valid at every moment if and only if no step takes a failing
      branch. */
  lemma {:induction false} ThroughoutIffNeverBreaks(ip: IpText, events: seq<Event>, o: RowId)
    requires After(ip, events).Some?
    ensures MeansValidThroughout(ip, events, o) <==> NeverBreaks(ip, events, o)
  {
    hide Inv, Next, Enabled, BreaksReady, ReadyMeansValid;
    if events == [] {
      InitialMeansValid(o);
    } else {
      var prefix, ev := events[..|events| - 1], events[|events| - 1];
      ThroughoutIffNeverBreaks(ip, prefix, o);
      RunKeepsInv(ip, prefix);
      if MeansValidThroughout(ip, prefix, o) {
        StepBreaksReadyExactly(ip, After(ip, prefix).value, ev, o);
      }
    }
  }

  lemma InitialMeansValid(o: RowId)
    ensures ReadyMeansValid(INITIAL, o)
  {
  }

  // ----- Runs without disturbance -----

  /** The step lists the order's authorizations and finds them all valid. */
  ghost predicate SeesAllValid(s: State, ev: Event, o: RowId) {
    && ev.Validation? && ev.validation.ListForReady? && ValidationEnabled(s, ev.task, ev.validation)
    && s.tasks[ev.task].authzRow.order == o && ValidationTask(s, ev.task, ev.validation).AllValidSeen?
  }

  ghost predicate Listed(ip: IpText, events: seq<Event>, o: RowId)
    requires After(ip, events).Some?
  {
    events != [] &&
    (Listed(ip, events[..|events| - 1], o)
     || SeesAllValid(After(ip, events[..|events| - 1]).value, events[|events| - 1], o))
  }

  /** An authorization of the order is invalidated, or one is added after all were seen valid. */
  ghost predicate Disturbs(s: State, ev: Event, o: RowId, listed: bool) {
    match ev
    case NewOrder(t, CreateAuthz(_)) => listed && t in s.tasks && s.tasks[t].OrderWriting? && s.tasks[t].order == o
    case Validation(t, MarkAuthzInvalid(applied)) =>
      applied && t in s.tasks && s.tasks[t].FailingAuthz? && s.tasks[t].authz in s.authzs
      && s.authzs[s.tasks[t].authz].order == o
    case _ => false
  }

  ghost predicate Undisturbed(ip: IpText, events: seq<Event>, o: RowId)
    requires After(ip, events).Some?
  {
    events != [] ==>
      var prefix, ev := events[..|events| - 1], events[|events| - 1];
      Undisturbed(ip, prefix, o) && !Disturbs(After(ip, prefix).value, ev, o, Listed(ip, prefix, o))
  }

  /** What a handler holds of the order shows that it was seen all valid. */
  predicate HoldsReady(k: Task, o: RowId) {
    match k
    case AllValidSeen(_, _, order) => order == o
    case FinalizeOrderRead(_, order, row, _, _) => order == o && row.status == Ready
    case FinalizeAuthzsRead(_, order, row, _, _, _, _, _) => order == o && row.status == Ready
    case FinalizeChecked(call) => call.order == o
    case FinalizeProcessing(call) => call.order == o
    case CaAnswered(call) => call.order == o
    case CertificateStored(call) => call.order == o
    case _ => false
  }

  /** Either all authorizations of the order have been seen valid and still are, or nobody has taken
      the order for ready. */
  ghost predicate Settled(s: State, o: RowId, listed: bool) {
    if listed then AllValid(s, o)
    else !IsReady(s, o) && forall t :: t in s.tasks ==> !HoldsReady(s.tasks[t], o)
  }

  lemma StepKeepsSettled(ip: IpText, s: State, ev: Event, o: RowId, listed: bool)
    requires Inv(ip, s) && Enabled(ip, s, ev) && Settled(s, o, listed) && !Disturbs(s, ev, o, listed)
    ensures Settled(Next(ip, s, ev), o, listed || SeesAllValid(s, ev, o))
  {
    match ev {
      case Tick(_) =>
      case NewOrder(t, step) => NewOrderKeepsSettled(ip, s, t, step, o, listed);
      case Validation(t, step) => ValidationKeepsSettled(ip, s, t, step, o, listed);
      case FinalizeOrder(t, step) => FinalizeKeepsSettled(ip, s, t, step, o, listed);
    }
  }

  lemma NewOrderKeepsSettled(ip: IpText, s: State, t: TaskId, step: NewOrderStep, o: RowId, listed: bool)
    requires Inv(ip, s) && NewOrderEnabled(ip, s, t, step)
    requires Settled(s, o, listed) && !Disturbs(s, NewOrder(t, step), o, listed)
    ensures Settled(NewOrderNext(ip, s, t, step), o, listed)
  {
    hide Acceptable, TaskInv, ChallengeTypes;
    var s' := NewOrderNext(ip, s, t, step);
    assert forall b :: b in s.authzs ==> s'.authzs[b] == s.authzs[b];
    assert !HoldsReady(s'.tasks[t], o);
  }

  lemma ValidationKeepsSettled(ip: IpText, s: State, t: TaskId, step: ValidationStep, o: RowId, listed: bool)
    requires Inv(ip, s) && ValidationEnabled(s, t, step)
    requires Settled(s, o, listed) && !Disturbs(s, Validation(t, step), o, listed)
    ensures Settled(ValidationNext(s, t, step), o, listed || SeesAllValid(s, Validation(t, step), o))
  {
    hide CheckPermitted, ProvenIn, TaskInv, HistoryInv, RowsInv;
    var s' := ValidationNext(s, t, step);
    if step.ListForReady? && s'.tasks[t].AllValidSeen? && s.tasks[t].authzRow.order == o {
      forall a | a in s.authzs && s.authzs[a].order == o
        ensures s.authzs[a].status == Valid
      {
        var i :| 0 <= i < |step.ids| && step.ids[i] == a;
        assert RowsOf(s, step.ids)[i].status == Valid;
      }
    }
  }

  lemma FinalizeKeepsSettled(ip: IpText, s: State, t: TaskId, step: FinalizeStep, o: RowId, listed: bool)
    requires Inv(ip, s) && FinalizeEnabled(s, t, step) && Settled(s, o, listed)
    ensures Settled(FinalizeNext(ip, s, t, step), o, listed)
  {
    hide TaskInv, Lists, ChecksPass, RowsInv, HistoryInv;
    var s' := FinalizeNext(ip, s, t, step);
    if step.Check? {
      CheckedWasReady(ip, CallOf(s, s.tasks[t]));
    }
    if t in s.tasks {
      assert HoldsReady(s'.tasks[t], o) ==> HoldsReady(s.tasks[t], o) || IsReady(s, o);
    }
  }

  lemma CheckedWasReady(ip: IpText, call: CaCall)
    ensures ChecksPass(ip, call) ==> call.orderRow.status == Ready
  {
    hide Acceptable, Bound, AllAddressesProven, CsrMatches, AllUsable;
  }

  lemma {:induction false} RunKeepsSettled(ip: IpText, events: seq<Event>, o: RowId)
    requires After(ip, events).Some? && Undisturbed(ip, events, o)
    ensures Settled(After(ip, events).value, o, Listed(ip, events, o))
  {
    hide Inv, Next, Enabled, Settled, Disturbs, SeesAllValid;
    if events == [] {
      InitialSettled(o);
    } else {
      var prefix, ev := events[..|events| - 1], events[|events| - 1];
      RunKeepsSettled(ip, prefix, o);
      RunKeepsInv(ip, prefix);
      StepKeepsSettled(ip, After(ip, prefix).value, ev, o, Listed(ip, prefix, o));
    }
  }

  lemma InitialSettled(o: RowId)
    ensures Settled(INITIAL, o, false)
  {
  }

  /** Over every run in which no authorization of the order is invalidated and none is added after a
      validation has seen them all valid, a ready order has only valid authorizations. */
  lemma UndisturbedReadyMeansValid(ip: IpText, events: seq<Event>, o: RowId)
    requires After(ip, events).Some? && Undisturbed(ip, events, o)
    ensures ReadyMeansValid(After(ip, events).value, o)
    ensures Listed(ip, events, o) ==> AllValid(After(ip, events).value, o)
  {
    RunKeepsSettled(ip, events, o);
  }

  /** A ready write whose reply is lost leaves the order ready while its validation goes on to fail. */
  lemma LostReplyFails(ip: IpText, s: State, t: TaskId)
    requires ValidationEnabled(s, t, MarkReady(true))
    ensures var k, s' := s.tasks[t], ValidationNext(s, t, MarkReady(true));
            s'.orders == SetOrderStatus(s, k.order, Ready) && s'.tasks == s.tasks[t := Failing(k.challenge, k.row)]
    ensures ValidationNext(s, t, MarkReady(false)).tasks == s.tasks[t := Ended]
  {
    hide Lists;
  }

  // ----- The disturbance is always possible -----

  lemma StepAfter(ip: IpText, events: seq<Event>, ev: Event) returns (events': seq<Event>, s: State)
    requires After(ip, events).Some? && Enabled(ip, After(ip, events).value, ev)
    ensures events' == events + [ev]
    ensures After(ip, events') == Some(s) && s == Next(ip, After(ip, events).value, ev)
  {
    assert (events + [ev])[..|events|] == events;
    events' := events + [ev];
    s := Next(ip, After(ip, events).value, ev);
  }

  /** From every reachable state, a POST of any stored challenge whose validation fails invalidates
      the authorization and leaves every order's status as it is. */
  lemma FailedPostInvalidates(ip: IpText, events: seq<Event>, c: RowId, t: TaskId)
    returns (events': seq<Event>, s': State)
    requires After(ip, events).Some?
    requires c in After(ip, events).value.challenges && t !in After(ip, events).value.tasks
    ensures events <= events' && After(ip, events') == Some(s')
    ensures var s := After(ip, events).value;
            var a := s.challenges[c].authz;
            && a in s.authzs && s'.now == s.now && s'.orders == s.orders && s'.history == s.history
            && s'.authzs == SetAuthzStatus(s, a, Invalid) && s'.challenges == SetChallengeStatus(s, c, Invalid)
            && s'.tasks == s.tasks[t := Ended]
  {
    hide After, NewOrderNext, NewOrderEnabled, FinalizeNext, FinalizeEnabled, CheckPermitted, Lists, Inv;
    StoredChallenge(ip, events, c);
    events', s' := PostFails(ip, events, c, t);
    events', s' := StepAfter(ip, events', Validation(t, MarkChallengeInvalid(true)));
    events', s' := StepAfter(ip, events', Validation(t, MarkAuthzInvalid(true)));
  }

  lemma StoredChallenge(ip: IpText, events: seq<Event>, c: RowId)
    requires After(ip, events).Some? && c in After(ip, events).value.challenges
    ensures After(ip, events).value.challenges[c].authz in After(ip, events).value.authzs
  {
    hide TaskInv, HistoryInv, Tracks;
    RunKeepsInv(ip, events);
  }

  lemma PostFails(ip: IpText, events: seq<Event>, c: RowId, t: TaskId)
    returns (events': seq<Event>, s': State)
    requires After(ip, events).Some?
    requires c in After(ip, events).value.challenges && t !in After(ip, events).value.tasks
    ensures events <= events' && After(ip, events') == Some(s')
    ensures var s := After(ip, events).value;
            && s'.(challenges := s.challenges, tasks := s.tasks) == s
            && s'.challenges == SetChallengeStatus(s, c, Processing)
            && s'.tasks == s.tasks[t := Failing(c, s.challenges[c])]
  {
    hide After, NewOrderNext, NewOrderEnabled, FinalizeNext, FinalizeEnabled, CheckPermitted, Lists, Inv;
    events', s' := StepAfter(ip, events, Validation(t, PostChallenge(c)));
    events', s' := StepAfter(ip, events', Validation(t, MarkProcessing));
    events', s' := StepAfter(ip, events', Validation(t, ValidationFails));
  }

  /** So from every reachable state with a ready order, a failed POST of one of its challenges leaves
      the order ready with an invalid authorization. */
  lemma FailedPostUnsettlesReady(ip: IpText, events: seq<Event>, o: RowId, c: RowId, t: TaskId)
    returns (events': seq<Event>, s': State)
    requires After(ip, events).Some? && IsReady(After(ip, events).value, o)
    requires var s := After(ip, events).value;
             && t !in s.tasks && c in s.challenges
             && s.challenges[c].authz in s.authzs && s.authzs[s.challenges[c].authz].order == o
    ensures events <= events' && After(ip, events') == Some(s')
    ensures IsReady(s', o) && !ReadyMeansValid(s', o)
    ensures var a := After(ip, events).value.challenges[c].authz;
            a in s'.authzs && s'.authzs[a].order == o && s'.authzs[a].status == Invalid
  {
    hide After;
    events', s' := FailedPostInvalidates(ip, events, c, t);
    var a := After(ip, events).value.challenges[c].authz;
    assert a in s'.authzs && s'.authzs[a].status == Invalid && s'.authzs[a].order == o;
  }
}
