/** Where a certificate request comes from: over every run, each call to the CA goes back to the
    finalize request of one account, and everything it was checked against was read from the store
    at moments of the run, in order. */
module AcmeProvenance {
  import opened Common
  import opened IpAddresses
  import opened Identifiers
  import opened Finalize
  import opened AcmeState
  import opened AcmeLifecycle

  /** The event is one of the run, and `before` is the run up to it. */
  ghost predicate Happened(ip: IpText, before: seq<Event>, ev: Event, events: seq<Event>) {
    before + [ev] <= events && After(ip, before).Some?
  }

  /** The task began with this request. */
  ghost predicate Began(ip: IpText, events: seq<Event>, t: TaskId, account: RowId, order: RowId, sans: seq<string>,
                        subject: Subject) {
    exists before :: Happened(ip, before, FinalizeOrder(t, BeginFinalize(account, order, sans, subject)), events)
  }

  /** ... and later read this order row, which is the account's. */
  ghost predicate OrderWasRead(ip: IpText, events: seq<Event>, t: TaskId, account: RowId, order: RowId, row: OrderRow,
                               sans: seq<string>, subject: Subject) {
    exists before ::
      && Happened(ip, before, FinalizeOrder(t, ReadFinalizeOrder), events)
      && var s := After(ip, before).value;
      && order in s.orders && s.orders[order] == row && row.account == account
      && Began(ip, before, t, account, order, sans, subject)
  }

  /** ... and later listed these rows, which were all authorizations of the order at that moment. */
  ghost predicate RowsWereListed(ip: IpText, events: seq<Event>, t: TaskId, account: RowId, order: RowId, row: OrderRow,
                                 rows: seq<AuthzRow>, sans: seq<string>, subject: Subject) {
    exists before, ids ::
      && Happened(ip, before, FinalizeOrder(t, ListFinalizeAuthzs(ids)), events)
      && Lists(After(ip, before).value, order, ids) && rows == RowsOf(After(ip, before).value, ids)
      && OrderWasRead(ip, before, t, account, order, row, sans, subject)
  }

  ghost predicate Stored(s: State, row: ChallengeRow) {
    exists c :: c in s.challenges && s.challenges[c] == row
  }

  /** The challenge row was in the store at some moment of the run. */
  ghost predicate WasStored(ip: IpText, events: seq<Event>, row: ChallengeRow) {
    exists before, ev :: Happened(ip, before, ev, events) && Stored(After(ip, before).value, row)
  }

  /** ... and later passed the check, at the time it was checked against. */
  ghost predicate WasChecked(ip: IpText, events: seq<Event>, t: TaskId, call: CaCall) {
    exists before ::
      && Happened(ip, before, FinalizeOrder(t, Check), events)
      && After(ip, before).value.now == call.checkedAt
      && RowsWereListed(ip, before, t, call.account, call.order, call.orderRow, call.rows, call.sans, call.subject)
      && forall i :: 0 <= i < |call.challenges| ==> WasStored(ip, before, call.challenges[i])
  }

  /** ... and later made the call that stands at position `i` of the history. */
  ghost predicate WasCalled(ip: IpText, events: seq<Event>, t: TaskId, call: CaCall, i: nat) {
    exists before ::
      && Happened(ip, before, FinalizeOrder(t, CallCa), events)
      && |After(ip, before).value.history| == i
      && WasChecked(ip, before, t, call)
  }

  ghost predicate HasPast(ip: IpText, events: seq<Event>, t: TaskId, k: Task) {
    match k
    case Finalizing(account, order, sans, subject) => Began(ip, events, t, account, order, sans, subject)
    case FinalizeOrderRead(account, order, row, sans, subject) =>
      OrderWasRead(ip, events, t, account, order, row, sans, subject)
    case FinalizeAuthzsRead(account, order, row, sans, subject, rows, _, challenges) =>
      && RowsWereListed(ip, events, t, account, order, row, rows, sans, subject)
      && forall i :: 0 <= i < |challenges| ==> WasStored(ip, events, challenges[i])
    case FinalizeChecked(call) => WasChecked(ip, events, t, call)
    case FinalizeProcessing(call) => WasChecked(ip, events, t, call)
    case CaAnswered(call) => WasChecked(ip, events, t, call)
    case _ => true
  }

  ghost predicate Pasts(ip: IpText, events: seq<Event>)
    requires After(ip, events).Some?
  {
    var s := After(ip, events).value;
    && (forall t :: t in s.tasks ==> HasPast(ip, events, t, s.tasks[t]))
    && (forall i :: 0 <= i < |s.history| && s.history[i].Called? ==> exists t :: WasCalled(ip, events, t, s.history[i].call, i))
  }

  // ----- The past stays -----

  lemma HappenedStays(ip: IpText, before: seq<Event>, ev: Event, events: seq<Event>, longer: seq<Event>)
    requires Happened(ip, before, ev, events) && events <= longer
    ensures Happened(ip, before, ev, longer)
  {
  }

  lemma BeganStays(ip: IpText, events: seq<Event>, longer: seq<Event>, t: TaskId, account: RowId, order: RowId,
                   sans: seq<string>, subject: Subject)
    requires Began(ip, events, t, account, order, sans, subject) && events <= longer
    ensures Began(ip, longer, t, account, order, sans, subject)
  {
    hide Happened;
    var ev := FinalizeOrder(t, BeginFinalize(account, order, sans, subject));
    var before :| Happened(ip, before, ev, events);
    HappenedStays(ip, before, ev, events, longer);
  }

  lemma OrderReadStays(ip: IpText, events: seq<Event>, longer: seq<Event>, t: TaskId, account: RowId, order: RowId,
                       row: OrderRow, sans: seq<string>, subject: Subject)
    requires OrderWasRead(ip, events, t, account, order, row, sans, subject) && events <= longer
    ensures OrderWasRead(ip, longer, t, account, order, row, sans, subject)
  {
    hide After, Began;
    var before :|
      && Happened(ip, before, FinalizeOrder(t, ReadFinalizeOrder), events)
      && var s := After(ip, before).value;
      && order in s.orders && s.orders[order] == row && row.account == account
      && Began(ip, before, t, account, order, sans, subject);
    HappenedStays(ip, before, FinalizeOrder(t, ReadFinalizeOrder), events, longer);
  }

  lemma RowsListedStays(ip: IpText, events: seq<Event>, longer: seq<Event>, t: TaskId, account: RowId, order: RowId,
                        row: OrderRow, rows: seq<AuthzRow>, sans: seq<string>, subject: Subject)
    requires RowsWereListed(ip, events, t, account, order, row, rows, sans, subject) && events <= longer
    ensures RowsWereListed(ip, longer, t, account, order, row, rows, sans, subject)
  {
    hide After, OrderWasRead;
    var before, ids :|
      && Happened(ip, before, FinalizeOrder(t, ListFinalizeAuthzs(ids)), events)
      && Lists(After(ip, before).value, order, ids) && rows == RowsOf(After(ip, before).value, ids)
      && OrderWasRead(ip, before, t, account, order, row, sans, subject);
    HappenedStays(ip, before, FinalizeOrder(t, ListFinalizeAuthzs(ids)), events, longer);
  }

  lemma StoredStays(ip: IpText, events: seq<Event>, longer: seq<Event>, row: ChallengeRow)
    requires WasStored(ip, events, row) && events <= longer
    ensures WasStored(ip, longer, row)
  {
    hide After, Stored;
    var before, ev :| Happened(ip, before, ev, events) && Stored(After(ip, before).value, row);
    HappenedStays(ip, before, ev, events, longer);
  }

  lemma CheckedStays(ip: IpText, events: seq<Event>, longer: seq<Event>, t: TaskId, call: CaCall)
    requires WasChecked(ip, events, t, call) && events <= longer
    ensures WasChecked(ip, longer, t, call)
  {
    hide After, RowsWereListed, WasStored;
    var before :|
      && Happened(ip, before, FinalizeOrder(t, Check), events)
      && After(ip, before).value.now == call.checkedAt
      && RowsWereListed(ip, before, t, call.account, call.order, call.orderRow, call.rows, call.sans, call.subject)
      && forall i :: 0 <= i < |call.challenges| ==> WasStored(ip, before, call.challenges[i]);
    HappenedStays(ip, before, FinalizeOrder(t, Check), events, longer);
  }

  lemma CalledStays(ip: IpText, events: seq<Event>, longer: seq<Event>, t: TaskId, call: CaCall, i: nat)
    requires WasCalled(ip, events, t, call, i) && events <= longer
    ensures WasCalled(ip, longer, t, call, i)
  {
    hide After, WasChecked;
    var before :|
      && Happened(ip, before, FinalizeOrder(t, CallCa), events)
      && |After(ip, before).value.history| == i
      && WasChecked(ip, before, t, call);
    HappenedStays(ip, before, FinalizeOrder(t, CallCa), events, longer);
  }

  lemma PastStays(ip: IpText, events: seq<Event>, longer: seq<Event>, t: TaskId, k: Task)
    requires HasPast(ip, events, t, k) && events <= longer
    ensures HasPast(ip, longer, t, k)
  {
    hide After, Began, OrderWasRead, RowsWereListed, WasStored, WasChecked;
    match k {
      case Finalizing(account, order, sans, subject) => BeganStays(ip, events, longer, t, account, order, sans, subject);
      case FinalizeOrderRead(account, order, row, sans, subject) =>
        OrderReadStays(ip, events, longer, t, account, order, row, sans, subject);
      case FinalizeAuthzsRead(account, order, row, sans, subject, rows, _, challenges) =>
        RowsListedStays(ip, events, longer, t, account, order, row, rows, sans, subject);
        forall i | 0 <= i < |challenges|
          ensures WasStored(ip, longer, challenges[i])
        {
          StoredStays(ip, events, longer, challenges[i]);
        }
      case FinalizeChecked(call) => CheckedStays(ip, events, longer, t, call);
      case FinalizeProcessing(call) => CheckedStays(ip, events, longer, t, call);
      case CaAnswered(call) => CheckedStays(ip, events, longer, t, call);
      case _ =>
    }
  }

  // ----- Every step adds its own -----

  lemma LastHappened(ip: IpText, events: seq<Event>, ev: Event)
    requires After(ip, events).Some?
    ensures Happened(ip, events, ev, events + [ev])
  {
  }

  /** The stage a finalize step leads to has the past it should. */
  lemma StepHasPast(ip: IpText, events: seq<Event>, t: TaskId, step: FinalizeStep)
    requires After(ip, events).Some? && FinalizeEnabled(After(ip, events).value, t, step)
    requires var s := After(ip, events).value; t in s.tasks ==> HasPast(ip, events, t, s.tasks[t])
    ensures var ev := FinalizeOrder(t, step);
            HasPast(ip, events + [ev], t, FinalizeTask(ip, After(ip, events).value, t, step))
  {
    hide After, Began, OrderWasRead, RowsWereListed, WasStored, WasChecked, ChecksPass, Lists;
    var s, ev := After(ip, events).value, FinalizeOrder(t, step);
    LastHappened(ip, events, ev);
    if t in s.tasks {
      PastStays(ip, events, events + [ev], t, s.tasks[t]);
    }
    match step {
      case BeginFinalize(account, order, sans, subject) => LastBegan(ip, events, t, account, order, sans, subject);
      case ReadFinalizeOrder => LastRead(ip, events, t);
      case ListFinalizeAuthzs(ids) => LastListed(ip, events, t, ids);
      case ReadChallenges(ids) => LastChallenges(ip, events, t, ids);
      case Check => LastChecked(ip, events, t);
      case _ =>
    }
  }

  lemma LastBegan(ip: IpText, events: seq<Event>, t: TaskId, account: RowId, order: RowId, sans: seq<string>, subject: Subject)
    requires After(ip, events).Some?
    ensures Began(ip, events + [FinalizeOrder(t, BeginFinalize(account, order, sans, subject))], t, account, order, sans, subject)
  {
    LastHappened(ip, events, FinalizeOrder(t, BeginFinalize(account, order, sans, subject)));
  }

  lemma LastRead(ip: IpText, events: seq<Event>, t: TaskId)
    requires After(ip, events).Some? && FinalizeEnabled(After(ip, events).value, t, ReadFinalizeOrder)
    requires HasPast(ip, events, t, After(ip, events).value.tasks[t])
    ensures var ev := FinalizeOrder(t, ReadFinalizeOrder);
            HasPast(ip, events + [ev], t, FinalizeTask(ip, After(ip, events).value, t, ReadFinalizeOrder))
  {
    hide After, Began;
    LastHappened(ip, events, FinalizeOrder(t, ReadFinalizeOrder));
  }

  lemma LastListed(ip: IpText, events: seq<Event>, t: TaskId, ids: seq<RowId>)
    requires After(ip, events).Some? && FinalizeEnabled(After(ip, events).value, t, ListFinalizeAuthzs(ids))
    requires HasPast(ip, events, t, After(ip, events).value.tasks[t])
    ensures var ev := FinalizeOrder(t, ListFinalizeAuthzs(ids));
            HasPast(ip, events + [ev], t, FinalizeTask(ip, After(ip, events).value, t, ListFinalizeAuthzs(ids)))
  {
    hide After, OrderWasRead, AddressIds;
    LastHappened(ip, events, FinalizeOrder(t, ListFinalizeAuthzs(ids)));
  }

  lemma LastChallenges(ip: IpText, events: seq<Event>, t: TaskId, ids: seq<RowId>)
    requires After(ip, events).Some? && FinalizeEnabled(After(ip, events).value, t, ReadChallenges(ids))
    requires HasPast(ip, events, t, After(ip, events).value.tasks[t])
    ensures var ev := FinalizeOrder(t, ReadChallenges(ids));
            HasPast(ip, events + [ev], t, FinalizeTask(ip, After(ip, events).value, t, ReadChallenges(ids)))
  {
    hide After, RowsWereListed, WasStored;
    var s, ev := After(ip, events).value, FinalizeOrder(t, ReadChallenges(ids));
    var k := s.tasks[t];
    PastStays(ip, events, events + [ev], t, k);
    var read := ChallengesOf(s, ids);
    forall i | 0 <= i < |read|
      ensures WasStored(ip, events + [ev], read[i])
    {
      assert ids[i] in ids;
      StoredNow(ip, events, ev, ids[i]);
    }
  }

  lemma StoredNow(ip: IpText, events: seq<Event>, ev: Event, c: RowId)
    requires After(ip, events).Some? && c in After(ip, events).value.challenges
    ensures WasStored(ip, events + [ev], After(ip, events).value.challenges[c])
  {
    LastHappened(ip, events, ev);
    assert Stored(After(ip, events).value, After(ip, events).value.challenges[c]);
  }

  lemma LastChecked(ip: IpText, events: seq<Event>, t: TaskId)
    requires After(ip, events).Some? && FinalizeEnabled(After(ip, events).value, t, Check)
    requires HasPast(ip, events, t, After(ip, events).value.tasks[t])
    ensures var ev := FinalizeOrder(t, Check);
            HasPast(ip, events + [ev], t, FinalizeTask(ip, After(ip, events).value, t, Check))
  {
    hide After, RowsWereListed, WasStored, ChecksPass;
    LastHappened(ip, events, FinalizeOrder(t, Check));
  }

  lemma LastCalled(ip: IpText, events: seq<Event>, t: TaskId)
    requires After(ip, events).Some? && FinalizeEnabled(After(ip, events).value, t, CallCa)
    requires HasPast(ip, events, t, After(ip, events).value.tasks[t])
    ensures var s := After(ip, events).value;
            WasCalled(ip, events + [FinalizeOrder(t, CallCa)], t, s.tasks[t].call, |s.history|)
  {
    hide After, WasChecked;
    LastHappened(ip, events, FinalizeOrder(t, CallCa));
  }

  predicate OfFinalize(k: Task) {
    || k.Finalizing? || k.FinalizeOrderRead? || k.FinalizeAuthzsRead? || k.FinalizeChecked?
    || k.FinalizeProcessing? || k.CaAnswered? || k.CertificateStored?
  }

  lemma NewOrderStage(ip: IpText, s: State, t: TaskId, step: NewOrderStep)
    requires NewOrderEnabled(ip, s, t, step)
    ensures !OfFinalize(NewOrderTask(ip, s, t, step))
  {
    hide Acceptable, ChallengeTypes, ParseIdentifier;
  }

  lemma ValidationStage(s: State, t: TaskId, step: ValidationStep)
    requires ValidationEnabled(s, t, step)
    ensures !OfFinalize(ValidationTask(s, t, step))
  {
    hide CheckPermitted, Lists;
  }

  /** A step of another kind leads to no stage of finalize. */
  lemma OtherStepIsNotFinalize(ip: IpText, s: State, ev: Event)
    requires Enabled(ip, s, ev) && (ev.NewOrder? || ev.Validation?)
    ensures ev.task in Next(ip, s, ev).tasks && !OfFinalize(Next(ip, s, ev).tasks[ev.task])
  {
    hide NewOrderTask, ValidationTask, NewOrderEnabled, ValidationEnabled, OfFinalize;
    match ev {
      case NewOrder(t, step) => NewOrderStage(ip, s, t, step);
      case Validation(t, step) => ValidationStage(s, t, step);
    }
  }

  lemma TasksChange(ip: IpText, s: State, ev: Event)
    requires Enabled(ip, s, ev)
    ensures var s' := Next(ip, s, ev);
            && (ev.Tick? ==> s'.tasks == s.tasks)
            && (!ev.Tick? ==> ev.task in s'.tasks && s'.tasks == s.tasks[ev.task := s'.tasks[ev.task]])
            && (ev.FinalizeOrder? ==> s'.tasks[ev.task] == FinalizeTask(ip, s, ev.task, ev.finalize))
            && s.history <= s'.history
            && (ev.FinalizeOrder? && ev.finalize.CallCa? ==> s'.history == s.history + [Called(s.tasks[ev.task].call)])
            && (!(ev.FinalizeOrder? && ev.finalize.CallCa?) ==>
                  forall i :: |s.history| <= i < |s'.history| ==> s'.history[i].Proved?)
  {
    hide NewOrderTask, ValidationTask, FinalizeTask, Acceptable, Lists;
  }

  lemma OthersHaveNoPast(ip: IpText, events: seq<Event>, t: TaskId, k: Task)
    requires !OfFinalize(k)
    ensures HasPast(ip, events, t, k)
  {
  }

  lemma StepKeepsPasts(ip: IpText, events: seq<Event>, ev: Event)
    requires After(ip, events + [ev]).Some? && After(ip, events).Some?
    requires Enabled(ip, After(ip, events).value, ev)
    requires After(ip, events + [ev]).value == Next(ip, After(ip, events).value, ev)
    requires Pasts(ip, events)
    ensures Pasts(ip, events + [ev])
  {
    hide After, HasPast, WasCalled, Next, Enabled;
    var s, s' := After(ip, events).value, After(ip, events + [ev]).value;
    TasksChange(ip, s, ev);
    forall t | t in s'.tasks
      ensures HasPast(ip, events + [ev], t, s'.tasks[t])
    {
      if ev.Tick? || t != ev.task {
        PastStays(ip, events, events + [ev], t, s.tasks[t]);
      } else if ev.FinalizeOrder? {
        EnabledFinalize(ip, s, ev);
        StepHasPast(ip, events, t, ev.finalize);
      } else {
        OtherStepIsNotFinalize(ip, s, ev);
        OthersHaveNoPast(ip, events + [ev], t, s'.tasks[t]);
      }
    }
    forall i | 0 <= i < |s'.history| && s'.history[i].Called?
      ensures exists t :: WasCalled(ip, events + [ev], t, s'.history[i].call, i)
    {
      if i < |s.history| {
        var t :| WasCalled(ip, events, t, s.history[i].call, i);
        CalledStays(ip, events, events + [ev], t, s.history[i].call, i);
      } else {
        EnabledFinalize(ip, s, ev);
        LastCalled(ip, events, ev.task);
      }
    }
  }

  lemma EnabledFinalize(ip: IpText, s: State, ev: Event)
    requires Enabled(ip, s, ev) && ev.FinalizeOrder?
    ensures FinalizeEnabled(s, ev.task, ev.finalize)
    ensures ev.finalize.CallCa? ==> ev.task in s.tasks
  {
  }

  lemma {:induction false} RunHasPasts(ip: IpText, events: seq<Event>)
    requires After(ip, events).Some?
    ensures Pasts(ip, events)
  {
    hide Next, Enabled, HasPast, WasCalled;
    if events != [] {
      var prefix, ev := events[..|events| - 1], events[|events| - 1];
      RunHasPasts(ip, prefix);
      assert prefix + [ev] == events;
      StepKeepsPasts(ip, prefix, ev);
    }
  }

  /** Over every run, each call to the CA was made by a task that began with the finalize request of
      the calling account for that order, with the same names and subject; that then read the order,
      which was that account's; then listed all its authorizations; then checked what it had read,
      at the time it was checked against; and then called. It forwards what was asked, and `SafeCall`
      says what the check found. */
  lemma EveryCallHasAPast(ip: IpText, events: seq<Event>, i: nat)
    requires After(ip, events).Some?
    requires i < |After(ip, events).value.history| && After(ip, events).value.history[i].Called?
    ensures var history := After(ip, events).value.history;
            && SafeCall(ip, history, i, history[i].call)
            && exists t :: WasCalled(ip, events, t, history[i].call, i)
  {
    hide SafeCall, WasCalled, HasPast;
    RunHasPasts(ip, events);
    IssuanceSafety(ip, events, i);
  }

  lemma ReaderOwns(ip: IpText, events: seq<Event>, t: TaskId, account: RowId, order: RowId, row: OrderRow,
                   sans: seq<string>, subject: Subject)
    requires OrderWasRead(ip, events, t, account, order, row, sans, subject)
    ensures row.account == account && Began(ip, events, t, account, order, sans, subject)
  {
    hide After, Began;
    var before :|
      && Happened(ip, before, FinalizeOrder(t, ReadFinalizeOrder), events)
      && row.account == account && Began(ip, before, t, account, order, sans, subject);
    BeganStays(ip, before, events, t, account, order, sans, subject);
  }

  lemma ListerRead(ip: IpText, events: seq<Event>, t: TaskId, account: RowId, order: RowId, row: OrderRow,
                   rows: seq<AuthzRow>, sans: seq<string>, subject: Subject)
    requires RowsWereListed(ip, events, t, account, order, row, rows, sans, subject)
    ensures OrderWasRead(ip, events, t, account, order, row, sans, subject)
  {
    hide After, OrderWasRead;
    var before, ids :|
      && Happened(ip, before, FinalizeOrder(t, ListFinalizeAuthzs(ids)), events)
      && Lists(After(ip, before).value, order, ids) && rows == RowsOf(After(ip, before).value, ids)
      && OrderWasRead(ip, before, t, account, order, row, sans, subject);
    OrderReadStays(ip, before, events, t, account, order, row, sans, subject);
  }

  lemma CheckerListed(ip: IpText, events: seq<Event>, t: TaskId, call: CaCall)
    requires WasChecked(ip, events, t, call)
    ensures RowsWereListed(ip, events, t, call.account, call.order, call.orderRow, call.rows, call.sans, call.subject)
  {
    hide After, RowsWereListed, WasStored;
    var before :|
      && Happened(ip, before, FinalizeOrder(t, Check), events)
      && RowsWereListed(ip, before, t, call.account, call.order, call.orderRow, call.rows, call.sans, call.subject);
    RowsListedStays(ip, before, events, t, call.account, call.order, call.orderRow, call.rows, call.sans, call.subject);
  }

  /** In short: whoever finalizes is the order's account, as it stood when the order was read. */
  lemma CallerOwnsTheOrder(ip: IpText, events: seq<Event>, t: TaskId, call: CaCall, i: nat)
    requires WasCalled(ip, events, t, call, i)
    ensures call.orderRow.account == call.account
    ensures Began(ip, events, t, call.account, call.order, call.sans, call.subject)
  {
    hide After, Began, WasChecked;
    var before :| Happened(ip, before, FinalizeOrder(t, CallCa), events) && WasChecked(ip, before, t, call);
    CheckedStays(ip, before, events, t, call);
    CheckerListed(ip, events, t, call);
    ListerRead(ip, events, t, call.account, call.order, call.orderRow, call.rows, call.sans, call.subject);
    ReaderOwns(ip, events, t, call.account, call.order, call.orderRow, call.sans, call.subject);
  }

  // ----- The final status -----

  predicate IsIssued(history: seq<History>, order: RowId) {
    exists i :: 0 <= i < |history| && history[i].Called? && history[i].call.order == order
  }

  predicate CallMade(s: State, k: Task) {
    match k
    case CaAnswered(call) => IsIssued(s.history, call.order)
    case CertificateStored(call) => IsIssued(s.history, call.order)
    case _ => true
  }

  ghost predicate ValidIsIssued(s: State) {
    && (forall o :: o in s.orders && s.orders[o].status == Valid ==> IsIssued(s.history, o))
    && (forall t :: t in s.tasks ==> CallMade(s, s.tasks[t]))
  }

  lemma IssuedStays(history: seq<History>, history': seq<History>, o: RowId)
    requires history <= history' && IsIssued(history, o)
    ensures IsIssued(history', o)
  {
    var i :| 0 <= i < |history| && history[i].Called? && history[i].call.order == o;
    assert history'[i] == history[i];
  }

  lemma OnlyFinalizeMakesValid(ip: IpText, s: State, ev: Event, o: RowId)
    requires Enabled(ip, s, ev) && o in Next(ip, s, ev).orders && Next(ip, s, ev).orders[o].status == Valid
    ensures || (o in s.orders && s.orders[o].status == Valid)
            || (ev.FinalizeOrder? && ev.finalize == MarkOrderValid && ev.task in s.tasks
                && s.tasks[ev.task].CertificateStored? && s.tasks[ev.task].call.order == o)
  {
    hide NewOrderTask, ValidationTask, FinalizeTask, Acceptable, Lists, CheckPermitted;
  }

  lemma StepKeepsIssued(ip: IpText, s: State, ev: Event)
    requires Enabled(ip, s, ev) && ValidIsIssued(s)
    ensures ValidIsIssued(Next(ip, s, ev))
  {
    hide IsIssued, Next, Enabled, FinalizeTask, OfFinalize, FinalizeEnabled;
    var s' := Next(ip, s, ev);
    TasksChange(ip, s, ev);
    forall o | IsIssued(s.history, o)
      ensures IsIssued(s'.history, o)
    {
      IssuedStays(s.history, s'.history, o);
    }
    forall t | t in s'.tasks
      ensures CallMade(s', s'.tasks[t])
    {
      if !ev.Tick? && t == ev.task {
        StepMakesCall(ip, s, ev);
      } else {
        assert CallMade(s, s.tasks[t]);
      }
    }
    forall o | o in s'.orders && s'.orders[o].status == Valid
      ensures IsIssued(s'.history, o)
    {
      OnlyFinalizeMakesValid(ip, s, ev, o);
      assert !(o in s.orders && s.orders[o].status == Valid) ==> CallMade(s, s.tasks[ev.task]);
    }
  }

  lemma StepMakesCall(ip: IpText, s: State, ev: Event)
    requires Enabled(ip, s, ev) && !ev.Tick? && ValidIsIssued(s) && ev.task in Next(ip, s, ev).tasks
    ensures CallMade(Next(ip, s, ev), Next(ip, s, ev).tasks[ev.task])
  {
    hide IsIssued, Next, Enabled;
    TasksChange(ip, s, ev);
    if ev.FinalizeOrder? {
      EnabledFinalize(ip, s, ev);
      assert ev.task in s.tasks ==> CallMade(s, s.tasks[ev.task]);
      if ev.finalize.CallCa? {
        CallIssues(s.history, s.tasks[ev.task].call);
      } else if ev.finalize.StoreCertificate? {
        IssuedStays(s.history, Next(ip, s, ev).history, s.tasks[ev.task].call.order);
      }
    } else {
      OtherStepIsNotFinalize(ip, s, ev);
    }
  }

  lemma CallIssues(history: seq<History>, call: CaCall)
    ensures IsIssued(history + [Called(call)], call.order)
  {
    assert (history + [Called(call)])[|history|] == Called(call);
  }

  /** Over every run, an order is valid only if the CA was called for it. */
  lemma {:induction false} ValidMeansIssued(ip: IpText, events: seq<Event>)
    requires After(ip, events).Some?
    ensures ValidIsIssued(After(ip, events).value)
  {
    hide Next, Enabled;
    if events != [] {
      ValidMeansIssued(ip, events[..|events| - 1]);
      StepKeepsIssued(ip, After(ip, events[..|events| - 1]).value, events[|events| - 1]);
    }
  }
}
