/** The ACME store and the handlers in flight against it. Every repository call is one atomic step;
    handlers are tasks that interleave freely between their calls and may stop at any of them. */
module AcmeState {
  import opened Common
  import opened IpAddresses
  import opened Identifiers
  import opened Finalize

  type TaskId = nat

  /** A validator answered that `account` controls `identifier`, by this challenge. */
  datatype Proof = Proof(authz: RowId, identifier: AuthzIdentifier, challengeType: string, account: RowId)

  /** A certificate request sent to the CA, with everything finalize had read and checked. */
  datatype CaCall = CaCall(order: RowId, account: RowId, orderRow: OrderRow, rows: seq<AuthzRow>,
                           challenges: seq<ChallengeRow>, checkedAt: int, sans: seq<string>, subject: Subject)

  datatype History = Proved(proof: Proof) | Called(call: CaCall)

  /** Where a handler stands, with the rows it has read so far. */
  datatype Task =
    // newOrder
    | OrderPlanned(account: RowId, ids: seq<Identifier>)
    | OrderWriting(order: RowId, todo: seq<AuthzIdentifier>)
    | ChallengeWriting(order: RowId, todo: seq<AuthzIdentifier>, authz: RowId, types: seq<string>)
    // challenge POST and the validation it spawns
    | Responding(challenge: RowId, row: ChallengeRow)
    | Validating(challenge: RowId, row: ChallengeRow)
    | AuthzRead(challenge: RowId, row: ChallengeRow, authzRow: AuthzRow)
    | OrderRead(challenge: RowId, row: ChallengeRow, authzRow: AuthzRow, account: RowId)
    | ControlProven(challenge: RowId, row: ChallengeRow, authzRow: AuthzRow)
    | ChallengeMarked(challenge: RowId, row: ChallengeRow, authzRow: AuthzRow)
    | AuthzMarked(challenge: RowId, row: ChallengeRow, authzRow: AuthzRow)
    | AllValidSeen(challenge: RowId, row: ChallengeRow, order: RowId)
    | Failing(challenge: RowId, row: ChallengeRow)
    | FailingAuthz(authz: RowId)
    // finalize
    | Finalizing(account: RowId, order: RowId, sans: seq<string>, subject: Subject)
    | FinalizeOrderRead(account: RowId, order: RowId, orderRow: OrderRow, sans: seq<string>, subject: Subject)
    | FinalizeAuthzsRead(account: RowId, order: RowId, orderRow: OrderRow, sans: seq<string>, subject: Subject,
                         rows: seq<AuthzRow>, unread: seq<RowId>, challenges: seq<ChallengeRow>)
    | FinalizeChecked(call: CaCall)
    | FinalizeProcessing(call: CaCall)
    | CaAnswered(call: CaCall)
    | CertificateStored(call: CaCall)
    | Ended

  datatype State = State(now: int, orders: map<RowId, OrderRow>, authzs: map<RowId, AuthzRow>,
                         challenges: map<RowId, ChallengeRow>, tasks: map<TaskId, Task>, history: seq<History>)

  const INITIAL := State(0, map[], map[], map[], map[], [])

  const SUPPORTED_CHALLENGES := [HTTP_01, DNS_01, TLS_ALPN_01]

  // ----- What must have been proven -----

  /** This entry of the history proves control for the authorization, by a challenge that is
      permitted for it. */
  predicate Establishes(h: History, row: AuthzRow, account: RowId) {
    && h.Proved? && h.proof.authz == row.id && h.proof.identifier == row.identifier && h.proof.account == account
    && h.proof.challengeType in SUPPORTED_CHALLENGES
    && CheckPermitted(row.identifier, h.proof.challengeType).Ok?
  }

  predicate ProvenIn(history: seq<History>, row: AuthzRow, account: RowId) {
    exists j :: 0 <= j < |history| && Establishes(history[j], row, account)
  }

  /** A CA call is justified by the history before it: the order was ready and unexpired and the
      caller's, its identifiers were bound one-to-one to valid, unexpired authorizations of that
      order, the CSR asked for exactly those identifiers, and control was proven for every one. */
  ghost predicate Justified(ip: IpText, history: seq<History>, call: CaCall) {
    && Verdict(ip, call.orderRow, call.orderRow.identifiers, call.rows, call.challenges, call.checkedAt) == Ok(())
    && CsrMatches(call.orderRow.identifiers, call.sans)
    && call.orderRow.account == call.account
    && forall n :: 0 <= n < |call.rows| ==>
         call.rows[n].order == call.order && ProvenIn(history, call.rows[n], call.account)
  }

  // ----- The invariant -----

  /** A row as read at some time: the stored row still agrees with it on all but the status, and if
      it was read as valid, control had been proven. */
  predicate Tracks(s: State, row: AuthzRow) {
    && row.id in s.authzs && s.authzs[row.id] == row.(status := s.authzs[row.id].status)
    && row.order in s.orders
    && (row.status == Valid ==> ProvenIn(s.history, row, s.orders[row.order].account))
  }

  predicate SameChallenge(s: State, challenge: RowId, row: ChallengeRow) {
    challenge in s.challenges && s.challenges[challenge] == row.(status := s.challenges[challenge].status)
  }

  ghost predicate TaskInv(ip: IpText, s: State, k: Task) {
    match k
    case Responding(c, row) => SameChallenge(s, c, row)
    case Validating(c, row) => SameChallenge(s, c, row)
    case AuthzRead(c, row, a) =>
      SameChallenge(s, c, row) && Tracks(s, a) && CheckPermitted(a.identifier, row.challengeType).Ok?
    case OrderRead(c, row, a, account) =>
      && SameChallenge(s, c, row) && Tracks(s, a) && CheckPermitted(a.identifier, row.challengeType).Ok?
      && s.orders[a.order].account == account
    case ControlProven(c, row, a) =>
      SameChallenge(s, c, row) && Tracks(s, a) && ProvenIn(s.history, a, s.orders[a.order].account)
    case ChallengeMarked(c, row, a) =>
      SameChallenge(s, c, row) && Tracks(s, a) && ProvenIn(s.history, a, s.orders[a.order].account)
    case AuthzMarked(c, row, a) => SameChallenge(s, c, row) && Tracks(s, a)
    case AllValidSeen(c, row, order) => SameChallenge(s, c, row) && order in s.orders
    case Failing(c, row) => SameChallenge(s, c, row)
    case OrderWriting(order, _) => order in s.orders
    case ChallengeWriting(order, _, authz, _) => order in s.orders && authz in s.authzs
    case FinalizeOrderRead(account, order, row, _, _) =>
      order in s.orders && SameOrder(s.orders[order], row) && row.account == account
    case FinalizeAuthzsRead(account, order, row, _, _, rows, _, _) =>
      && order in s.orders && SameOrder(s.orders[order], row) && row.account == account
      && forall n :: 0 <= n < |rows| ==> rows[n].order == order && Tracks(s, rows[n])
    case FinalizeChecked(call) => call.order in s.orders && Justified(ip, s.history, call)
    case FinalizeProcessing(call) => call.order in s.orders && Justified(ip, s.history, call)
    case CaAnswered(call) => call.order in s.orders && Justified(ip, s.history, call)
    case CertificateStored(call) => call.order in s.orders
    case _ => true
  }

  /** The same order up to its status. */
  predicate SameOrder(a: OrderRow, b: OrderRow) {
    a == b.(status := a.status)
  }

  ghost predicate RowsInv(s: State) {
    && (forall a :: a in s.authzs ==> s.authzs[a].id == a && Tracks(s, s.authzs[a]))
    && (forall c :: c in s.challenges ==> s.challenges[c].authz in s.authzs)
  }

  ghost predicate HistoryInv(ip: IpText, history: seq<History>) {
    forall i :: 0 <= i < |history| && history[i].Called? ==> Justified(ip, history[..i], history[i].call)
  }

  ghost predicate Inv(ip: IpText, s: State) {
    && RowsInv(s) && HistoryInv(ip, s.history)
    && forall t :: t in s.tasks ==> TaskInv(ip, s, s.tasks[t])
  }

  // ----- What no step undoes -----

  /** Rows are never removed, only their status changes, and the history only grows. */
  ghost predicate Extends(s: State, s': State) {
    && (forall o :: o in s.orders ==> o in s'.orders && SameOrder(s'.orders[o], s.orders[o]))
    && (forall a :: a in s.authzs ==> a in s'.authzs && s'.authzs[a] == s.authzs[a].(status := s'.authzs[a].status))
    && (forall c :: c in s.challenges ==>
          c in s'.challenges && s'.challenges[c] == s.challenges[c].(status := s'.challenges[c].status))
    && s.history <= s'.history
  }

  lemma ProvenStays(history: seq<History>, history': seq<History>, row: AuthzRow, account: RowId)
    requires history <= history' && ProvenIn(history, row, account)
    ensures ProvenIn(history', row, account)
  {
    var j :| 0 <= j < |history| && Establishes(history[j], row, account);
    assert history'[j] == history[j];
  }

  lemma JustifiedStays(ip: IpText, history: seq<History>, history': seq<History>, call: CaCall)
    requires history <= history' && Justified(ip, history, call)
    ensures Justified(ip, history', call)
  {
    hide Verdict, CsrMatches, ProvenIn;
    forall n | 0 <= n < |call.rows|
      ensures call.rows[n].order == call.order && ProvenIn(history', call.rows[n], call.account)
    {
      ProvenStays(history, history', call.rows[n], call.account);
    }
  }

  lemma TracksStays(s: State, s': State, row: AuthzRow)
    requires Extends(s, s') && Tracks(s, row)
    ensures Tracks(s', row)
  {
    hide ProvenIn;
    if row.status == Valid {
      ProvenStays(s.history, s'.history, row, s.orders[row.order].account);
    }
  }

  lemma ReadAuthzStays(s: State, s': State, a: AuthzRow)
    requires Extends(s, s') && Tracks(s, a)
    ensures a.order in s.orders && Tracks(s', a) && a.order in s'.orders
    ensures s'.orders[a.order].account == s.orders[a.order].account
    ensures ProvenIn(s.history, a, s.orders[a.order].account) ==> ProvenIn(s'.history, a, s.orders[a.order].account)
  {
    TracksStays(s, s', a);
    if ProvenIn(s.history, a, s.orders[a.order].account) {
      ProvenStays(s.history, s'.history, a, s.orders[a.order].account);
    }
  }

  lemma StoreStays(s: State, s': State)
    requires Extends(s, s')
    ensures s.history <= s'.history
    ensures forall o :: o in s.orders ==> o in s'.orders
    ensures forall o, row :: o in s.orders && SameOrder(s.orders[o], row) ==> SameOrder(s'.orders[o], row)
    ensures forall a :: a in s.authzs ==> a in s'.authzs
    ensures forall c, row :: SameChallenge(s, c, row) ==> SameChallenge(s', c, row)
  {
  }

  /** What a task has read stays usable whatever the other tasks do. */
  lemma TaskInvStays(ip: IpText, s: State, s': State, k: Task)
    requires Extends(s, s') && TaskInv(ip, s, k)
    ensures TaskInv(ip, s', k)
  {
    hide Tracks, ProvenIn, Justified, Extends, SameOrder, SameChallenge;
    StoreStays(s, s');
    match k {
      case AuthzRead(_, _, a) => TracksStays(s, s', a);
      case OrderRead(_, _, a, _) => ReadAuthzStays(s, s', a);
      case ControlProven(_, _, a) => ReadAuthzStays(s, s', a);
      case ChallengeMarked(_, _, a) => ReadAuthzStays(s, s', a);
      case AuthzMarked(_, _, a) => TracksStays(s, s', a);
      case FinalizeAuthzsRead(_, _, _, _, _, rows, _, _) =>
        forall n | 0 <= n < |rows|
          ensures rows[n].order == k.order && Tracks(s', rows[n])
        {
          TracksStays(s, s', rows[n]);
        }
      case FinalizeChecked(call) => JustifiedStays(ip, s.history, s'.history, call);
      case FinalizeProcessing(call) => JustifiedStays(ip, s.history, s'.history, call);
      case CaAnswered(call) => JustifiedStays(ip, s.history, s'.history, call);
      case _ =>
    }
  }

  lemma TrackedOrder(s: State, a: AuthzRow)
    requires Tracks(s, a)
    ensures a.order in s.orders && a.id in s.authzs
  {
  }

  /** A step of task `t` keeps the invariant when it only extends the store, its own new stage and
      the authorizations are in order, and the history stays justified. */
  lemma StepKeepsInv(ip: IpText, s: State, s': State, t: TaskId, k: Task)
    requires Inv(ip, s) && Extends(s, s')
    requires s'.tasks == s.tasks[t := k] && TaskInv(ip, s', k)
    requires RowsInv(s') && HistoryInv(ip, s'.history)
    ensures Inv(ip, s')
  {
    hide TaskInv, Extends, RowsInv, HistoryInv;
    forall u | u in s'.tasks
      ensures TaskInv(ip, s', s'.tasks[u])
    {
      if u != t {
        TaskInvStays(ip, s, s', s.tasks[u]);
      }
    }
  }

  /** Status changes of authorizations keep the rows in order as long as only proven ones become
      valid. */
  lemma RowsStay(s: State, s': State)
    requires RowsInv(s) && Extends(s, s')
    requires forall a :: a in s'.authzs && !(a in s.authzs && s'.authzs[a] == s.authzs[a]) ==>
               && s'.authzs[a].id == a && s'.authzs[a].order in s'.orders
               && (s'.authzs[a].status == Valid ==>
                     ProvenIn(s'.history, s'.authzs[a], s'.orders[s'.authzs[a].order].account))
    requires forall c :: c in s'.challenges ==> s'.challenges[c].authz in s'.authzs
    ensures RowsInv(s')
  {
    hide ProvenIn;
    forall a | a in s'.authzs
      ensures s'.authzs[a].id == a && Tracks(s', s'.authzs[a])
    {
      if a in s.authzs && s'.authzs[a] == s.authzs[a] {
        TracksStays(s, s', s.authzs[a]);
      }
    }
  }

  lemma HistoryGrows(ip: IpText, history: seq<History>, h: History)
    requires HistoryInv(ip, history)
    requires h.Called? ==> Justified(ip, history, h.call)
    ensures HistoryInv(ip, history + [h])
  {
    hide Justified;
    var longer := history + [h];
    forall i | 0 <= i < |longer| && longer[i].Called?
      ensures Justified(ip, longer[..i], longer[i].call)
    {
      if i < |history| {
        assert longer[..i] == history[..i];
      } else {
        assert longer[..i] == history;
      }
    }
  }
}
