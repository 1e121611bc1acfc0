/** The steps of newOrder, challenge validation and finalize, and issuance safety over every
    interleaving of them (sections 7.1.6, 7.4 and 7.5.1 of RFC 8555). */
module AcmeLifecycle {
  import opened Common
  import opened IpAddresses
  import opened Identifiers
  import opened Finalize
  import opened AcmeState

  /** Orders and authorizations expire seven days after they are written. */
  const LIFETIME := 604_800

  datatype NewOrderStep =
    | BeginNewOrder(account: RowId, ids: seq<Identifier>)
    | CreateOrder(order: RowId)
    | CreateAuthz(authz: RowId)
    | CreateChallenge(challenge: RowId)
    | NewOrderStops

  datatype ValidationStep =
    | PostChallenge(challenge: RowId)
    | MarkProcessing
    | ReadAuthz
    | ReadOrder
    | ProbeSucceeds
    | MarkChallengeValid
    | MarkAuthzValid
    | ListForReady(ids: seq<RowId>)
    | MarkReady(replyLost: bool)
    | ValidationFails
    | MarkChallengeInvalid(applied: bool)
    | MarkAuthzInvalid(applied: bool)
    | PostStops

  datatype FinalizeStep =
    | BeginFinalize(account: RowId, order: RowId, sans: seq<string>, subject: Subject)
    | ReadFinalizeOrder
    | ListFinalizeAuthzs(ids: seq<RowId>)
    | ReadChallenges(ids: seq<RowId>)
    | Check
    | MarkOrderProcessing
    | RollBackToReady
    | CallCa
    | StoreCertificate
    | MarkOrderValid
    | FinalizeStops

  datatype Event =
    | Tick(elapsed: nat)
    | NewOrder(task: TaskId, newOrder: NewOrderStep)
    | Validation(task: TaskId, validation: ValidationStep)
    | FinalizeOrder(task: TaskId, finalize: FinalizeStep)

  // ----- newOrder -----

  ghost predicate NewOrderEnabled(ip: IpText, s: State, t: TaskId, step: NewOrderStep) {
    if step.BeginNewOrder? then t !in s.tasks && Acceptable(ip, step.ids)
    else
      && t in s.tasks
      && match step
         case CreateOrder(order) => s.tasks[t].OrderPlanned? && AllParse(ip, s.tasks[t].ids) && order !in s.orders
         case CreateAuthz(authz) =>
           s.tasks[t].OrderWriting? && s.tasks[t].order in s.orders && s.tasks[t].todo != [] && authz !in s.authzs
         case CreateChallenge(challenge) =>
           s.tasks[t].ChallengeWriting? && s.tasks[t].types != [] && challenge !in s.challenges
         case _ => s.tasks[t].OrderPlanned? || s.tasks[t].OrderWriting? || s.tasks[t].ChallengeWriting?
  }

  /** The stage after a challenge row: the next challenge, or the next authorization. */
  function AfterChallenges(order: RowId, todo: seq<AuthzIdentifier>, authz: RowId, types: seq<string>): Task {
    if types == [] then OrderWriting(order, todo) else ChallengeWriting(order, todo, authz, types)
  }

  ghost function NewOrderTask(ip: IpText, s: State, t: TaskId, step: NewOrderStep): Task
    requires NewOrderEnabled(ip, s, t, step)
  {
    match step
    case BeginNewOrder(account, ids) => OrderPlanned(account, ids)
    case CreateOrder(order) => OrderWriting(order, Parsed(ip, s.tasks[t].ids))
    case CreateAuthz(authz) =>
      var k := s.tasks[t];
      AfterChallenges(k.order, k.todo[1..], authz, ChallengeTypes(ip, k.todo[0]))
    case CreateChallenge(_) =>
      var k := s.tasks[t];
      AfterChallenges(k.order, k.todo, k.authz, k.types[1..])
    case NewOrderStops => Ended
  }

  ghost function NewOrderNext(ip: IpText, s: State, t: TaskId, step: NewOrderStep): State
    requires NewOrderEnabled(ip, s, t, step)
  {
    var s1 := s.(tasks := s.tasks[t := NewOrderTask(ip, s, t, step)]);
    match step
    case CreateOrder(order) =>
      var k := s.tasks[t];
      s1.(orders := s.orders[order := OrderRow(k.account, Pending, k.ids, s.now + LIFETIME)])
    case CreateAuthz(authz) =>
      var k := s.tasks[t];
      s1.(authzs := s.authzs[authz := AuthzRow(authz, k.order, k.todo[0], Pending, s.now + LIFETIME)])
    case CreateChallenge(challenge) =>
      var k := s.tasks[t];
      s1.(challenges := s.challenges[challenge := ChallengeRow(k.authz, k.types[0], Pending)])
    case _ => s1
  }

  /** What newOrder writes: a pending order with the request's identifiers, a pending authorization
      of it, a pending challenge of that; orders and authorizations live seven days. */
  lemma NewRowsAreThese(ip: IpText, s: State, t: TaskId, step: NewOrderStep)
    requires NewOrderEnabled(ip, s, t, step)
    ensures var s' := NewOrderNext(ip, s, t, step);
            match step
            case CreateOrder(order) =>
              order !in s.orders && s'.orders == s.orders[order := OrderRow(s.tasks[t].account, Pending, s.tasks[t].ids, s.now + 7 * 24 * 60 * 60)]
            case CreateAuthz(authz) =>
              authz !in s.authzs && s'.authzs == s.authzs[authz := AuthzRow(authz, s.tasks[t].order, s.tasks[t].todo[0], Pending, s.now + 7 * 24 * 60 * 60)]
            case CreateChallenge(challenge) =>
              challenge !in s.challenges
              && s'.challenges == s.challenges[challenge := ChallengeRow(s.tasks[t].authz, s.tasks[t].types[0], Pending)]
            case _ => s'.orders == s.orders && s'.authzs == s.authzs && s'.challenges == s.challenges
  {
    hide Acceptable, Parsed, ChallengeTypes;
  }

  lemma NewOrderKeepsInv(ip: IpText, s: State, t: TaskId, step: NewOrderStep)
    requires Inv(ip, s) && NewOrderEnabled(ip, s, t, step)
    ensures Inv(ip, NewOrderNext(ip, s, t, step))
  {
    hide ProvenIn, Justified, Parsed, ChallengeTypes, Acceptable;
    var s' := NewOrderNext(ip, s, t, step);
    if t in s.tasks {
      assert TaskInv(ip, s, s.tasks[t]);
    }
    RowsStay(s, s');
    StepKeepsInv(ip, s, s', t, NewOrderTask(ip, s, t, step));
  }

  // ----- Challenge POST and validation -----

  /** What `list_authorizations_by_order` returns: every authorization of the order once. */
  ghost predicate Lists(s: State, order: RowId, ids: seq<RowId>) {
    && Distinct(ids)
    && (forall a :: a in ids ==> a in s.authzs && s.authzs[a].order == order)
    && (forall a :: a in s.authzs && s.authzs[a].order == order ==> a in ids)
  }

  function RowsOf(s: State, ids: seq<RowId>): (rows: seq<AuthzRow>)
    requires forall a :: a in ids ==> a in s.authzs
    ensures |rows| == |ids| && forall i :: 0 <= i < |ids| ==> rows[i] == s.authzs[ids[i]]
  {
    seq(|ids|, i requires 0 <= i < |ids| => s.authzs[ids[i]])
  }

  predicate IsValidating(k: Task) {
    || k.Validating? || k.AuthzRead? || k.OrderRead? || k.ControlProven?
    || k.ChallengeMarked? || k.AuthzMarked? || k.AllValidSeen?
  }

  ghost predicate ValidationEnabled(s: State, t: TaskId, step: ValidationStep) {
    if step.PostChallenge? then t !in s.tasks && step.challenge in s.challenges
    else
      && t in s.tasks
      && var k := s.tasks[t];
         match step
         case MarkProcessing => k.Responding? && k.challenge in s.challenges
         case ReadAuthz => k.Validating? && k.row.authz in s.authzs
         case ReadOrder => k.AuthzRead? && k.authzRow.order in s.orders
         case ProbeSucceeds => k.OrderRead? && k.row.challengeType in SUPPORTED_CHALLENGES
         case MarkChallengeValid => k.ControlProven? && k.challenge in s.challenges
         case MarkAuthzValid => k.ChallengeMarked? && k.authzRow.id in s.authzs
         case ListForReady(ids) => k.AuthzMarked? && Lists(s, k.authzRow.order, ids)
         case MarkReady(_) => k.AllValidSeen? && k.order in s.orders
         case ValidationFails => IsValidating(k)
         case MarkChallengeInvalid(_) => k.Failing? && k.challenge in s.challenges
         case MarkAuthzInvalid(_) => k.FailingAuthz? && k.authz in s.authzs
         case _ => k.Responding? || k.Failing? || k.FailingAuthz?
  }

  ghost function ValidationTask(s: State, t: TaskId, step: ValidationStep): Task
    requires ValidationEnabled(s, t, step)
  {
    if step.PostChallenge? then Responding(step.challenge, s.challenges[step.challenge])
    else
      var k := s.tasks[t];
      match step
      case MarkProcessing => Validating(k.challenge, k.row)
      case ReadAuthz =>
        var a := s.authzs[k.row.authz];
        if CheckPermitted(a.identifier, k.row.challengeType).Ok? then AuthzRead(k.challenge, k.row, a)
        else Failing(k.challenge, k.row)
      case ReadOrder => OrderRead(k.challenge, k.row, k.authzRow, s.orders[k.authzRow.order].account)
      case ProbeSucceeds => ControlProven(k.challenge, k.row, k.authzRow)
      case MarkChallengeValid => ChallengeMarked(k.challenge, k.row, k.authzRow)
      case MarkAuthzValid => AuthzMarked(k.challenge, k.row, k.authzRow)
      case ListForReady(ids) =>
        if forall i :: 0 <= i < |ids| ==> RowsOf(s, ids)[i].status == Valid
        then AllValidSeen(k.challenge, k.row, k.authzRow.order) else Ended
      case MarkReady(replyLost) => if replyLost then Failing(k.challenge, k.row) else Ended
      case ValidationFails => Failing(k.challenge, k.row)
      case MarkChallengeInvalid(_) => FailingAuthz(k.row.authz)
      case _ => Ended
  }

  function SetAuthzStatus(s: State, a: RowId, status: Status): map<RowId, AuthzRow>
    requires a in s.authzs
  {
    s.authzs[a := s.authzs[a].(status := status)]
  }

  function SetChallengeStatus(s: State, c: RowId, status: Status): map<RowId, ChallengeRow>
    requires c in s.challenges
  {
    s.challenges[c := s.challenges[c].(status := status)]
  }

  function SetOrderStatus(s: State, o: RowId, status: Status): map<RowId, OrderRow>
    requires o in s.orders
  {
    s.orders[o := s.orders[o].(status := status)]
  }

  ghost function ValidationNext(s: State, t: TaskId, step: ValidationStep): State
    requires ValidationEnabled(s, t, step)
  {
    var s1 := s.(tasks := s.tasks[t := ValidationTask(s, t, step)]);
    match step
    case MarkProcessing => s1.(challenges := SetChallengeStatus(s, s.tasks[t].challenge, Processing))
    case ProbeSucceeds =>
      var k := s.tasks[t];
      s1.(history := s.history + [Proved(Proof(k.authzRow.id, k.authzRow.identifier, k.row.challengeType, k.account))])
    case MarkChallengeValid => s1.(challenges := SetChallengeStatus(s, s.tasks[t].challenge, Valid))
    case MarkAuthzValid => s1.(authzs := SetAuthzStatus(s, s.tasks[t].authzRow.id, Valid))
    // The order's own state is not read before it is set to ready.
    case MarkReady(_) => s1.(orders := SetOrderStatus(s, s.tasks[t].order, Ready))
    case MarkChallengeInvalid(applied) =>
      if applied then s1.(challenges := SetChallengeStatus(s, s.tasks[t].challenge, Invalid)) else s1
    case MarkAuthzInvalid(applied) =>
      if applied then s1.(authzs := SetAuthzStatus(s, s.tasks[t].authz, Invalid)) else s1
    case _ => s1
  }

  lemma ValidationKeepsInv(ip: IpText, s: State, t: TaskId, step: ValidationStep)
    requires Inv(ip, s) && ValidationEnabled(s, t, step)
    ensures Inv(ip, ValidationNext(s, t, step))
  {
    hide Justified, ProvenIn, Lists, CheckPermitted, Extends, TaskInv, RowsInv;
    var s' := ValidationNext(s, t, step);
    if step.ProbeSucceeds? {
      HistoryGrows(ip, s.history, s'.history[|s.history|]);
    }
    ValidationExtends(s, t, step);
    ValidationRows(ip, s, t, step);
    ValidationTaskInv(ip, s, t, step);
    StepKeepsInv(ip, s, s', t, ValidationTask(s, t, step));
  }

  lemma ValidationExtends(s: State, t: TaskId, step: ValidationStep)
    requires ValidationEnabled(s, t, step)
    ensures Extends(s, ValidationNext(s, t, step))
  {
    hide ProvenIn, Lists, CheckPermitted, ValidationTask;
  }

  lemma ProvenForSameAuthz(history: seq<History>, a: AuthzRow, b: AuthzRow, account: RowId)
    requires ProvenIn(history, a, account) && a.id == b.id && a.identifier == b.identifier
    ensures ProvenIn(history, b, account)
  {
    var j :| 0 <= j < |history| && Establishes(history[j], a, account);
    assert Establishes(history[j], b, account);
  }

  /** An authorization is set to valid only by a task that has seen control proven for it. */
  lemma ValidationRows(ip: IpText, s: State, t: TaskId, step: ValidationStep)
    requires Inv(ip, s) && ValidationEnabled(s, t, step)
    ensures RowsInv(ValidationNext(s, t, step))
  {
    hide Justified, ProvenIn, Lists, CheckPermitted, ValidationTask, Extends;
    var s' := ValidationNext(s, t, step);
    ValidationExtends(s, t, step);
    if step.MarkAuthzValid? {
      var a := s.tasks[t].authzRow;
      assert TaskInv(ip, s, s.tasks[t]);
      ProvenForSameAuthz(s.history, a, s'.authzs[a.id], s.orders[a.order].account);
    }
    RowsStay(s, s');
  }

  /** The recorded proof is for the authorization that was read, by a permitted challenge. */
  lemma ProbeProves(ip: IpText, s: State, t: TaskId)
    requires Inv(ip, s) && ValidationEnabled(s, t, ProbeSucceeds)
    ensures var s' := ValidationNext(s, t, ProbeSucceeds);
            var a := s.tasks[t].authzRow;
            Tracks(s, a) && ProvenIn(s'.history, a, s.orders[a.order].account)
  {
    hide Justified;
    var k := s.tasks[t];
    assert TaskInv(ip, s, k);
    var s' := ValidationNext(s, t, ProbeSucceeds);
    assert Establishes(s'.history[|s.history|], k.authzRow, k.account);
  }

  lemma ValidationTaskInv(ip: IpText, s: State, t: TaskId, step: ValidationStep)
    requires Inv(ip, s) && ValidationEnabled(s, t, step)
    ensures TaskInv(ip, ValidationNext(s, t, step), ValidationTask(s, t, step))
  {
    hide Justified, ProvenIn, Lists, CheckPermitted, Extends, Tracks;
    var s' := ValidationNext(s, t, step);
    ValidationExtends(s, t, step);
    if t in s.tasks {
      // What the task already held stays usable ...
      TaskInvStays(ip, s, s', s.tasks[t]);
    }
    // ... and what it adds is what it has just read or proven.
    match step {
      case ReadAuthz => TracksStays(s, s', s.authzs[s.tasks[t].row.authz]);
      case ProbeSucceeds => ProbeProves(ip, s, t);
      case ListForReady(_) => TrackedOrder(s', s.tasks[t].authzRow);
      case _ =>
    }
  }

  // ----- finalize -----

  /** The authorizations whose challenge rows finalize reads. */
  function AddressIds(rows: seq<AuthzRow>): seq<RowId> {
    if rows == [] then []
    else (if rows[0].identifier.idType == "ip" then [rows[0].id] else []) + AddressIds(rows[1..])
  }

  function ChallengesOf(s: State, ids: seq<RowId>): (rows: seq<ChallengeRow>)
    requires forall c :: c in ids ==> c in s.challenges
  {
    seq(|ids|, i requires 0 <= i < |ids| => s.challenges[ids[i]])
  }

  ghost predicate FinalizeEnabled(s: State, t: TaskId, step: FinalizeStep) {
    if step.BeginFinalize? then t !in s.tasks
    else
      && t in s.tasks
      && var k := s.tasks[t];
         match step
         case ReadFinalizeOrder => k.Finalizing? && k.order in s.orders
         case ListFinalizeAuthzs(ids) => k.FinalizeOrderRead? && Lists(s, k.order, ids)
         case ReadChallenges(ids) =>
           && k.FinalizeAuthzsRead? && k.unread != [] && Distinct(ids)
           && forall c :: c in ids <==> c in s.challenges && s.challenges[c].authz == k.unread[0]
         case Check => k.FinalizeAuthzsRead? && k.unread == []
         case MarkOrderProcessing => k.FinalizeChecked? && k.call.order in s.orders
         case RollBackToReady => k.FinalizeProcessing? && k.call.order in s.orders
         case CallCa => k.FinalizeProcessing? || k.CaAnswered?
         case StoreCertificate => k.CaAnswered?
         case MarkOrderValid => k.CertificateStored? && k.call.order in s.orders
         case _ => k.Finalizing? || k.FinalizeOrderRead? || k.FinalizeAuthzsRead? || k.FinalizeChecked?
                   || k.FinalizeProcessing? || k.CaAnswered? || k.CertificateStored?
  }

  /** The request finalize sends once both checks have passed, at the time of the check. */
  ghost function CallOf(s: State, k: Task): CaCall
    requires k.FinalizeAuthzsRead?
  {
    CaCall(k.order, k.account, k.orderRow, k.rows, k.challenges, s.now, k.sans, k.subject)
  }

  ghost predicate ChecksPass(ip: IpText, call: CaCall) {
    && Verdict(ip, call.orderRow, call.orderRow.identifiers, call.rows, call.challenges, call.checkedAt) == Ok(())
    && CsrMatches(call.orderRow.identifiers, call.sans)
  }

  ghost function FinalizeTask(ip: IpText, s: State, t: TaskId, step: FinalizeStep): Task
    requires FinalizeEnabled(s, t, step)
  {
    if step.BeginFinalize? then Finalizing(step.account, step.order, step.sans, step.subject)
    else
      var k := s.tasks[t];
      match step
      case ReadFinalizeOrder =>
        if s.orders[k.order].account == k.account
        then FinalizeOrderRead(k.account, k.order, s.orders[k.order], k.sans, k.subject) else Ended
      case ListFinalizeAuthzs(ids) =>
        FinalizeAuthzsRead(k.account, k.order, k.orderRow, k.sans, k.subject, RowsOf(s, ids),
                           AddressIds(RowsOf(s, ids)), [])
      case ReadChallenges(ids) => k.(unread := k.unread[1..], challenges := k.challenges + ChallengesOf(s, ids))
      case Check => if ChecksPass(ip, CallOf(s, k)) then FinalizeChecked(CallOf(s, k)) else Ended
      case MarkOrderProcessing => FinalizeProcessing(k.call)
      case CallCa => CaAnswered(k.call)
      case StoreCertificate => CertificateStored(k.call)
      case _ => Ended
  }

  ghost function FinalizeNext(ip: IpText, s: State, t: TaskId, step: FinalizeStep): State
    requires FinalizeEnabled(s, t, step)
  {
    var s1 := s.(tasks := s.tasks[t := FinalizeTask(ip, s, t, step)]);
    match step
    case MarkOrderProcessing => s1.(orders := SetOrderStatus(s, s.tasks[t].call.order, Processing))
    case RollBackToReady => s1.(orders := SetOrderStatus(s, s.tasks[t].call.order, Ready))
    // Each attempt of the retry loop is a call of its own.
    case CallCa => s1.(history := s.history + [Called(s.tasks[t].call)])
    case MarkOrderValid => s1.(orders := SetOrderStatus(s, s.tasks[t].call.order, Valid))
    case _ => s1
  }

  /** When both checks pass on rows read earlier, the call is justified by the history so far. */
  lemma CheckJustifies(ip: IpText, s: State, k: Task)
    requires k.FinalizeAuthzsRead? && TaskInv(ip, s, k) && ChecksPass(ip, CallOf(s, k))
    ensures Justified(ip, s.history, CallOf(s, k))
  {
    hide ProvenIn, CsrMatches, Acceptable, AllAddressesProven;
    forall n | 0 <= n < |k.rows|
      ensures k.rows[n].order == k.order && ProvenIn(s.history, k.rows[n], k.orderRow.account)
    {
      assert Tracks(s, k.rows[n]) && UsableRow(k.rows[n], s.now);
    }
  }

  lemma FinalizeTaskInv(ip: IpText, s: State, t: TaskId, step: FinalizeStep)
    requires Inv(ip, s) && FinalizeEnabled(s, t, step)
    ensures Extends(s, FinalizeNext(ip, s, t, step))
    ensures TaskInv(ip, FinalizeNext(ip, s, t, step), FinalizeTask(ip, s, t, step))
  {
    hide Justified, Tracks, ChecksPass;
    var s' := FinalizeNext(ip, s, t, step);
    FinalizeExtends(ip, s, t, step);
    hide Extends;
    if t in s.tasks {
      var k := s.tasks[t];
      TaskInvStays(ip, s, s', k);
      if step.Check? && ChecksPass(ip, CallOf(s, k)) {
        CheckJustifies(ip, s, k);
      } else if step.ListFinalizeAuthzs? {
        ListedRowsTracked(ip, s, s', k.order, step.ids);
      }
    }
  }

  lemma FinalizeExtends(ip: IpText, s: State, t: TaskId, step: FinalizeStep)
    requires FinalizeEnabled(s, t, step)
    ensures Extends(s, FinalizeNext(ip, s, t, step))
  {
    hide FinalizeTask;
  }

  lemma ListedRowsTracked(ip: IpText, s: State, s': State, order: RowId, ids: seq<RowId>)
    requires Inv(ip, s) && Extends(s, s') && Lists(s, order, ids)
    ensures forall n :: 0 <= n < |ids| ==> RowsOf(s, ids)[n].order == order && Tracks(s', RowsOf(s, ids)[n])
  {
    hide ProvenIn;
    forall n | 0 <= n < |ids|
      ensures RowsOf(s, ids)[n].order == order && Tracks(s', RowsOf(s, ids)[n])
    {
      assert ids[n] in ids;
      TracksStays(s, s', RowsOf(s, ids)[n]);
    }
  }

  lemma FinalizeKeepsInv(ip: IpText, s: State, t: TaskId, step: FinalizeStep)
    requires Inv(ip, s) && FinalizeEnabled(s, t, step)
    ensures Inv(ip, FinalizeNext(ip, s, t, step))
  {
    hide Justified, Tracks, Extends, FinalizeTask;
    var s' := FinalizeNext(ip, s, t, step);
    FinalizeTaskInv(ip, s, t, step);
    if step.CallCa? {
      assert TaskInv(ip, s, s.tasks[t]);
      HistoryGrows(ip, s.history, s'.history[|s.history|]);
    }
    FinalizeRows(ip, s, t, step);
    StepKeepsInv(ip, s, s', t, FinalizeTask(ip, s, t, step));
  }

  lemma FinalizeRows(ip: IpText, s: State, t: TaskId, step: FinalizeStep)
    requires Inv(ip, s) && FinalizeEnabled(s, t, step)
    ensures RowsInv(FinalizeNext(ip, s, t, step))
  {
    hide Justified, FinalizeTask, ProvenIn;
    FinalizeExtends(ip, s, t, step);
    RowsStay(s, FinalizeNext(ip, s, t, step));
  }

  // ----- Runs -----

  ghost predicate Enabled(ip: IpText, s: State, ev: Event) {
    match ev
    case Tick(_) => true
    case NewOrder(t, step) => NewOrderEnabled(ip, s, t, step)
    case Validation(t, step) => ValidationEnabled(s, t, step)
    case FinalizeOrder(t, step) => FinalizeEnabled(s, t, step)
  }

  ghost function Next(ip: IpText, s: State, ev: Event): State
    requires Enabled(ip, s, ev)
  {
    match ev
    case Tick(elapsed) => s.(now := s.now + elapsed)
    case NewOrder(t, step) => NewOrderNext(ip, s, t, step)
    case Validation(t, step) => ValidationNext(s, t, step)
    case FinalizeOrder(t, step) => FinalizeNext(ip, s, t, step)
  }

  /** The state after a run of events from the empty store, if every event was possible. */
  ghost function After(ip: IpText, events: seq<Event>): Option<State> {
    if events == [] then Some(INITIAL)
    else
      var before := After(ip, events[..|events| - 1]);
      var ev := events[|events| - 1];
      if before.Some? && Enabled(ip, before.value, ev) then Some(Next(ip, before.value, ev)) else None
  }

  lemma TickKeepsInv(ip: IpText, s: State, elapsed: nat)
    requires Inv(ip, s)
    ensures Inv(ip, Next(ip, s, Tick(elapsed)))
  {
    hide Justified, ProvenIn;
    var s' := Next(ip, s, Tick(elapsed));
    RowsStay(s, s');
    forall u | u in s'.tasks
      ensures TaskInv(ip, s', s'.tasks[u])
    {
      TaskInvStays(ip, s, s', s.tasks[u]);
    }
  }

  lemma {:induction false} RunKeepsInv(ip: IpText, events: seq<Event>)
    requires After(ip, events).Some?
    ensures Inv(ip, After(ip, events).value)
  {
    hide Inv, Next, Enabled;
    if events == [] {
      InitialInv(ip);
    } else {
      var prefix, ev := events[..|events| - 1], events[|events| - 1];
      RunKeepsInv(ip, prefix);
      StepKeeps(ip, After(ip, prefix).value, ev);
    }
  }

  lemma InitialInv(ip: IpText)
    ensures Inv(ip, INITIAL)
  {
  }

  lemma StepKeeps(ip: IpText, s: State, ev: Event)
    requires Inv(ip, s) && Enabled(ip, s, ev)
    ensures Inv(ip, Next(ip, s, ev))
  {
    hide Inv, NewOrderNext, ValidationNext, FinalizeNext;
    match ev {
      case Tick(elapsed) => TickKeepsInv(ip, s, elapsed);
      case NewOrder(t, step) => NewOrderKeepsInv(ip, s, t, step);
      case Validation(t, step) => ValidationKeepsInv(ip, s, t, step);
      case FinalizeOrder(t, step) => FinalizeKeepsInv(ip, s, t, step);
    }
  }

  // ----- Issuance safety -----

  /** Authorization `n` of the call is the one for identifier `m`: type, base value up to letter case
      and wildcard flag agree, it belongs to the order, it was read as valid and unexpired, before
      position `i` of the history control was proven for it, by dns-01 if it is a wildcard and by
      http-01 if it is an address, for the account that finalizes, and for an address a valid http-01
      challenge of its own was read. */
  ghost predicate CoveredBy(ip: IpText, history: seq<History>, i: nat, call: CaCall, m: nat, n: nat)
    requires i <= |history| && AllParse(ip, call.orderRow.identifiers)
  {
    && RowOf(ip, call.orderRow.identifiers, call.rows, m, n)
    && SameIdentifier(Parsed(ip, call.orderRow.identifiers)[m], call.rows[n].identifier)
    && var row := call.rows[n];
    && row.order == call.order && row.status == Valid && row.expires > call.checkedAt
    && (row.identifier.idType == "ip" ==> HasHttp01(row, call.challenges))
    && exists j :: 0 <= j < i && Establishes(history[j], row, call.account)
                   && (row.identifier.wildcard ==> history[j].proof.challengeType == "dns-01")
                   && (row.identifier.idType == "ip" ==> history[j].proof.challengeType == "http-01")
  }

  ghost predicate HasProvenAuthz(ip: IpText, history: seq<History>, i: nat, call: CaCall, m: nat)
    requires i <= |history| && AllParse(ip, call.orderRow.identifiers)
  {
    exists n :: CoveredBy(ip, history, i, call, m, n)
  }

  /** A forwarded SAN names one of the order's identifiers. */
  ghost predicate NamesIdentifier(san: ProtoSan, ids: seq<Identifier>) {
    exists m :: 0 <= m < |ids| && ProtoName(san) == Some(Normalized(ids[m].idType, ids[m].value))
  }

  /** The call at position `i` of the history was checked while its order was ready and unexpired
      and is its account's; it forwards every SAN; what the CA reads of each is an identifier of the
      order, and it reads every one; and every identifier has an authorization of its own that was
      proven before. */
  ghost predicate SafeCall(ip: IpText, history: seq<History>, i: nat, call: CaCall)
    requires i <= |history|
  {
    var ids, forwarded := call.orderRow.identifiers, ProtoSans(call.sans);
    && Acceptable(ip, ids) && |call.rows| == |ids|
    && call.orderRow.status == Ready && call.orderRow.expires > call.checkedAt
    && call.orderRow.account == call.account
    && |forwarded| == |call.sans|
    && (forall f :: 0 <= f < |forwarded| ==> CaReadsSome(ip, forwarded[f], ids) && NamesIdentifier(forwarded[f], ids))
    && (forall m :: 0 <= m < |ids| ==> IsReadByCa(ip, ids[m], forwarded))
    && (forall m :: 0 <= m < |ids| ==> HasProvenAuthz(ip, history, i, call, m))
  }

  /** Over every run from the empty store, whatever is interleaved with whatever, each certificate
      request that reaches the CA is safe. An order with a missing authorization never gets that
      far. */
  lemma IssuanceSafety(ip: IpText, events: seq<Event>, i: nat)
    requires After(ip, events).Some?
    requires i < |After(ip, events).value.history| && After(ip, events).value.history[i].Called?
    ensures SafeCall(ip, After(ip, events).value.history, i, After(ip, events).value.history[i].call)
  {
    hide SafeCall, Justified, RowsInv;
    RunKeepsInv(ip, events);
    var history := After(ip, events).value.history;
    JustifiedIsSafe(ip, history, i, history[i].call);
  }

  lemma JustifiedIsSafe(ip: IpText, history: seq<History>, i: nat, call: CaCall)
    requires i <= |history| && Justified(ip, history[..i], call)
    ensures SafeCall(ip, history, i, call)
  {
    hide ParseIdentifier, Key, Normalized, ProtoName, CaReadsSome, IsReadByCa, CheckPermitted, RowOf, CsrMatches, CoveredBy;
    hide AsksExactly, AddressesByHttp01;
    var ids, forwarded := call.orderRow.identifiers, ProtoSans(call.sans);
    AcceptedCsrForwarded(ip, ids, call.sans);
    AsksExactlyIsMatch(ids, call.sans);
    CaReadsExactly(ip, ids, call.sans);
    forall f | 0 <= f < |forwarded|
      ensures NamesIdentifier(forwarded[f], ids)
    {
      assert ProtoName(forwarded[f]).value in OrderNames(ids);
    }
    BindingIsOneToOne(ip, ids, call.rows, 0);
    forall m | 0 <= m < |ids|
      ensures HasProvenAuthz(ip, history, i, call, m)
    {
      BindingIsOneToOne(ip, ids, call.rows, m);
      var n :| RowOf(ip, ids, call.rows, m, n);
      ProvenCovers(ip, history, i, call, m, n);
    }
  }

  lemma ProvenCovers(ip: IpText, history: seq<History>, i: nat, call: CaCall, m: nat, n: nat)
    requires i <= |history| && Justified(ip, history[..i], call)
    requires Acceptable(ip, call.orderRow.identifiers) && RowOf(ip, call.orderRow.identifiers, call.rows, m, n)
    ensures CoveredBy(ip, history, i, call, m, n)
  {
    hide ParseIdentifier, Key, CsrMatches, SameIdentifier, HasHttp01, OneRowEach;
    var row := call.rows[n];
    assert UsableRow(row, call.checkedAt);
    KeyIsSameIdentifier(Parsed(ip, call.orderRow.identifiers)[m], row.identifier);
    VerdictExactly(ip, call.orderRow, call.orderRow.identifiers, call.rows, call.challenges, call.checkedAt);
    var j :| 0 <= j < |history[..i]| && Establishes(history[..i][j], row, call.account);
    assert history[..i][j] == history[j];
  }
}
