/** Runs of the ACME machine that exist: every acceptable order can be proven and reaches the CA, so
    the safety theorem is not about an empty set of runs, and the order status alone would not have
    carried it. In these runs authorization `m` has row id `m` and its first challenge `3 * m`. */
module AcmeRuns {
  import opened Common
  import opened IpAddresses
  import opened Identifiers
  import opened Finalize
  import opened AcmeState
  import opened AcmeLifecycle
  import opened AcmeReadiness

  /** An acceptable order whose first offered challenges are permitted, which they are for any
      parser and printer of addresses that fit together. */
  ghost predicate Provable(ip: IpText, ids: seq<Identifier>) {
    && Acceptable(ip, ids)
    && forall m :: 0 <= m < |ids| ==> CheckPermitted(Parsed(ip, ids)[m], FirstChallenge(ip, ids, m)).Ok?
  }

  function FirstChallenge(ip: IpText, ids: seq<Identifier>, m: nat): (t: string)
    requires AllParse(ip, ids) && m < |ids|
    ensures t in SUPPORTED_CHALLENGES
    ensures Parsed(ip, ids)[m].idType == "ip" ==> t == HTTP_01
  {
    ChallengeTypes(ip, Parsed(ip, ids)[m])[0]
  }

  lemma AcceptableIsProvable(ip: IpText, ids: seq<Identifier>)
    requires ip.Valid() && Acceptable(ip, ids)
    ensures Provable(ip, ids)
  {
    hide ChallengeTypes, CheckPermitted, ParseIdentifier;
    forall m | 0 <= m < |ids|
      ensures CheckPermitted(Parsed(ip, ids)[m], FirstChallenge(ip, ids, m)).Ok?
    {
      OffersArePermitted(ip, ids[m], FirstChallenge(ip, ids, m));
    }
  }

  // ----- Stores -----

  function RowAt(ip: IpText, ids: seq<Identifier>, m: nat, status: Status): AuthzRow
    requires AllParse(ip, ids) && m < |ids|
  {
    AuthzRow(m, 0, Parsed(ip, ids)[m], status, LIFETIME)
  }

  function StatusAt(a: nat, proven: nat): Status {
    if a < proven then Valid else Pending
  }

  /** Order 0 with its first `n` authorizations, the first `proven` of them valid. */
  ghost predicate Store(ip: IpText, s: State, account: RowId, ids: seq<Identifier>, order: Status, n: nat, proven: nat)
    requires AllParse(ip, ids)
  {
    && proven <= n <= |ids| && s.now == 0
    && s.orders == map[0 := OrderRow(account, order, ids, LIFETIME)]
    && (forall a :: a in s.authzs <==> 0 <= a < n)
    && (forall a :: 0 <= a < n ==> s.authzs[a] == RowAt(ip, ids, a, StatusAt(a, proven)))
    && (forall a :: 0 <= a < n ==> FirstStored(ip, s, ids, a, StatusAt(a, proven)))
    && (forall c :: c in s.challenges ==> c < 3 * n)
  }

  ghost predicate FirstStored(ip: IpText, s: State, ids: seq<Identifier>, a: nat, status: Status)
    requires AllParse(ip, ids) && a < |ids|
  {
    3 * a in s.challenges && s.challenges[3 * a] == ChallengeRow(a, FirstChallenge(ip, ids, a), status)
  }

  // ----- Writing -----

  /** newOrder writes the challenges of authorization `n`; `done` are written, `types` remain. */
  lemma ChallengesAreWritten(ip: IpText, events: seq<Event>, account: RowId, ids: seq<Identifier>, n: nat,
                             done: nat, types: seq<string>)
    returns (events': seq<Event>, s': State)
    requires After(ip, events).Some? && AllParse(ip, ids) && n < |ids| && 1 <= done && done + |types| <= 3
    requires var s := After(ip, events).value;
             && s.tasks == map[0 := AfterChallenges(0, Parsed(ip, ids)[n + 1..], n, types)] && s.history == []
             && s.now == 0 && s.orders == map[0 := OrderRow(account, Pending, ids, LIFETIME)]
             && (forall a :: a in s.authzs <==> 0 <= a < n + 1)
             && (forall a :: 0 <= a < n + 1 ==> s.authzs[a] == RowAt(ip, ids, a, Pending))
             && (forall a :: 0 <= a < n + 1 ==> FirstStored(ip, s, ids, a, Pending))
             && (forall c :: c in s.challenges ==> c < 3 * n + done)
    ensures After(ip, events') == Some(s') && Store(ip, s', account, ids, Pending, n + 1, 0)
    ensures s'.tasks == map[0 := OrderWriting(0, Parsed(ip, ids)[n + 1..])] && s'.history == []
    decreases |types|
  {
    hide After, Parsed, AllParse, FirstChallenge, ValidationNext, FinalizeNext, ValidationEnabled, FinalizeEnabled;
    events', s' := events, After(ip, events).value;
    if types != [] {
      var s := s';
      events', s' := StepAfter(ip, events', NewOrder(0, CreateChallenge(3 * n + done)));
      forall a | 0 <= a < n + 1
        ensures FirstStored(ip, s', ids, a, Pending)
      {
        assert FirstStored(ip, s, ids, a, Pending);
      }
      events', s' := ChallengesAreWritten(ip, events', account, ids, n, done + 1, types[1..]);
    }
  }

  /** newOrder writes the next authorization with its challenges. */
  lemma AuthzIsWritten(ip: IpText, events: seq<Event>, account: RowId, ids: seq<Identifier>, n: nat)
    returns (events': seq<Event>, s': State)
    requires After(ip, events).Some? && AllParse(ip, ids) && n < |ids|
    requires var s := After(ip, events).value;
             && Store(ip, s, account, ids, Pending, n, 0)
             && s.tasks == map[0 := OrderWriting(0, Parsed(ip, ids)[n..])] && s.history == []
    ensures After(ip, events') == Some(s') && Store(ip, s', account, ids, Pending, n + 1, 0)
    ensures s'.tasks == map[0 := OrderWriting(0, Parsed(ip, ids)[n + 1..])] && s'.history == []
  {
    hide After, ParseIdentifier, FirstStored, Store, ChallengeTypes;
    var parsed := Parsed(ip, ids);
    var types := ChallengeTypes(ip, parsed[n]);
    AtMostThree(ip, parsed[n]);
    ghost var s := After(ip, events).value;
    RoomForNext(ip, s, account, ids, n);
    events', s' := AuthzIsBegun(ip, events, parsed[n..], n, 3 * n);
    assert parsed[n..][1..] == parsed[n + 1..];
    AuthzJoinsStore(ip, s, s', account, ids, n);
    hide RowAt, FirstChallenge;
    events', s' := ChallengesAreWritten(ip, events', account, ids, n, 1, types[1..]);
  }

  lemma AtMostThree(ip: IpText, a: AuthzIdentifier)
    ensures |ChallengeTypes(ip, a)| <= 3
  {
  }

  lemma RoomForNext(ip: IpText, s: State, account: RowId, ids: seq<Identifier>, n: nat)
    requires AllParse(ip, ids) && Store(ip, s, account, ids, Pending, n, 0)
    ensures 0 in s.orders && s.now == 0 && n !in s.authzs && 3 * n !in s.challenges
  {
  }

  lemma AuthzJoinsStore(ip: IpText, s: State, s': State, account: RowId, ids: seq<Identifier>, n: nat)
    requires AllParse(ip, ids) && n < |ids| && Store(ip, s, account, ids, Pending, n, 0)
    requires s'.authzs == s.authzs[n := RowAt(ip, ids, n, Pending)]
    requires s'.challenges == s.challenges[3 * n := ChallengeRow(n, FirstChallenge(ip, ids, n), Pending)]
    ensures s.now == 0 && s.orders == map[0 := OrderRow(account, Pending, ids, LIFETIME)]
    ensures forall a :: a in s'.authzs <==> 0 <= a < n + 1
    ensures forall a :: 0 <= a < n + 1 ==> s'.authzs[a] == RowAt(ip, ids, a, Pending)
    ensures forall a :: 0 <= a < n + 1 ==> FirstStored(ip, s', ids, a, Pending)
    ensures forall c :: c in s'.challenges ==> c < 3 * n + 1
  {
    hide ParseIdentifier, FirstChallenge;
    forall a | 0 <= a < n + 1
      ensures FirstStored(ip, s', ids, a, Pending)
    {
      if a < n {
        assert FirstStored(ip, s, ids, a, StatusAt(a, 0));
      }
    }
  }

  /** newOrder writes the next authorization and its first challenge. */
  lemma AuthzIsBegun(ip: IpText, events: seq<Event>, todo: seq<AuthzIdentifier>, a: RowId, c: RowId)
    returns (events': seq<Event>, s': State)
    requires After(ip, events).Some? && todo != []
    requires var s := After(ip, events).value;
             s.tasks == map[0 := OrderWriting(0, todo)] && 0 in s.orders && a !in s.authzs && c !in s.challenges
    ensures After(ip, events') == Some(s')
    ensures var s, types := After(ip, events).value, ChallengeTypes(ip, todo[0]);
            && s'.now == s.now && s'.orders == s.orders && s'.history == s.history
            && s'.authzs == s.authzs[a := AuthzRow(a, 0, todo[0], Pending, s.now + LIFETIME)]
            && s'.challenges == s.challenges[c := ChallengeRow(a, types[0], Pending)]
            && s'.tasks == map[0 := AfterChallenges(0, todo[1..], a, types[1..])]
  {
    hide After, ValidationNext, FinalizeNext, ValidationEnabled, FinalizeEnabled, ChallengeTypes;
    events', s' := StepAfter(ip, events, NewOrder(0, CreateAuthz(a)));
    events', s' := StepAfter(ip, events', NewOrder(0, CreateChallenge(c)));
  }

  lemma {:induction false} RowsAreWritten(ip: IpText, account: RowId, ids: seq<Identifier>, n: nat)
    returns (events: seq<Event>, s: State)
    requires Acceptable(ip, ids) && n <= |ids|
    ensures After(ip, events) == Some(s) && Store(ip, s, account, ids, Pending, n, 0)
    ensures s.tasks == map[0 := OrderWriting(0, Parsed(ip, ids)[n..])] && s.history == []
  {
    hide ParseIdentifier;
    if n == 0 {
      events := [];
      assert After(ip, events) == Some(INITIAL);
      events, s := StepAfter(ip, events, NewOrder(0, BeginNewOrder(account, ids)));
      events, s := StepAfter(ip, events, NewOrder(0, CreateOrder(0)));
      assert Parsed(ip, ids)[0..] == Parsed(ip, ids);
    } else {
      events, s := RowsAreWritten(ip, account, ids, n - 1);
      events, s := AuthzIsWritten(ip, events, account, ids, n - 1);
    }
  }

  // ----- Proving -----

  /** Handlers in flight once the first `proven` authorizations are valid: newOrder, and one
      validation each. */
  ghost predicate Tasks(ip: IpText, s: State, ids: seq<Identifier>, n: nat, proven: nat)
    requires AllParse(ip, ids)
  {
    && n <= |ids|
    && (forall t :: t in s.tasks <==> 0 <= t <= proven)
    && s.tasks[0] == OrderWriting(0, Parsed(ip, ids)[n..])
    && (forall t :: 1 <= t <= proven ==> s.tasks[t].AuthzMarked? && s.tasks[t].authzRow.order == 0)
  }

  /** A stored challenge that may be validated for its authorization. */
  predicate CanBeAnswered(s: State, c: RowId, t: TaskId) {
    && t !in s.tasks && c in s.challenges && s.challenges[c].challengeType in SUPPORTED_CHALLENGES
    && var a := s.challenges[c].authz;
    && a in s.authzs && s.authzs[a].id == a && s.authzs[a].order in s.orders
    && CheckPermitted(s.authzs[a].identifier, s.challenges[c].challengeType).Ok?
  }

  lemma ChallengeIsPosted(ip: IpText, events: seq<Event>, c: RowId, t: TaskId)
    returns (events': seq<Event>, s': State)
    requires After(ip, events).Some? && CanBeAnswered(After(ip, events).value, c, t)
    ensures After(ip, events') == Some(s')
    ensures var s := After(ip, events).value;
            && s'.(tasks := s.tasks, challenges := s.challenges) == s
            && s'.challenges == SetChallengeStatus(s, c, Processing)
            && s'.tasks == s.tasks[t := AuthzRead(c, s.challenges[c], s.authzs[s.challenges[c].authz])]
  {
    hide After, NewOrderNext, NewOrderEnabled, FinalizeNext, FinalizeEnabled, CheckPermitted, Lists;
    events', s' := StepAfter(ip, events, Validation(t, PostChallenge(c)));
    events', s' := StepAfter(ip, events', Validation(t, MarkProcessing));
    events', s' := StepAfter(ip, events', Validation(t, ReadAuthz));
  }

  /** From every reachable state a POST of a permitted challenge can be answered and make its
      authorization valid, with nothing else changed but the history. */
  lemma ChallengeIsAnswered(ip: IpText, events: seq<Event>, c: RowId, t: TaskId)
    returns (events': seq<Event>, s': State)
    requires After(ip, events).Some? && CanBeAnswered(After(ip, events).value, c, t)
    ensures After(ip, events') == Some(s')
    ensures var s := After(ip, events).value;
            && s'.now == s.now && s'.orders == s.orders && |s'.history| == |s.history| + 1
            && s'.authzs == SetAuthzStatus(s, s.challenges[c].authz, Valid)
            && s'.challenges == SetChallengeStatus(s, c, Valid)
            && s'.tasks == s.tasks[t := AuthzMarked(c, s.challenges[c], s.authzs[s.challenges[c].authz])]
  {
    hide After, NewOrderNext, NewOrderEnabled, FinalizeNext, FinalizeEnabled, CheckPermitted, Lists;
    events', s' := ChallengeIsPosted(ip, events, c, t);
    events', s' := StepAfter(ip, events', Validation(t, ReadOrder));
    events', s' := StepAfter(ip, events', Validation(t, ProbeSucceeds));
    events', s' := StepAfter(ip, events', Validation(t, MarkChallengeValid));
    events', s' := StepAfter(ip, events', Validation(t, MarkAuthzValid));
  }

  lemma StoreAdvances(ip: IpText, s: State, s': State, account: RowId, ids: seq<Identifier>, n: nat, m: nat)
    requires AllParse(ip, ids) && m < n && Store(ip, s, account, ids, Pending, n, m)
    requires s'.now == s.now && s'.orders == s.orders
    requires s'.authzs == SetAuthzStatus(s, m, Valid)
    requires FirstStored(ip, s, ids, m, Pending) && s'.challenges == SetChallengeStatus(s, 3 * m, Valid)
    ensures Store(ip, s', account, ids, Pending, n, m + 1)
  {
    hide ParseIdentifier, FirstChallenge;
    var proven := m + 1;
    forall a | 0 <= a < n
      ensures FirstStored(ip, s', ids, a, StatusAt(a, proven))
    {
      assert FirstStored(ip, s, ids, a, StatusAt(a, m));
    }
  }

  lemma RowIsProven(ip: IpText, events: seq<Event>, account: RowId, ids: seq<Identifier>, n: nat, m: nat)
    returns (events': seq<Event>, s': State)
    requires After(ip, events).Some? && Provable(ip, ids) && m < n
    requires var s := After(ip, events).value;
             Store(ip, s, account, ids, Pending, n, m) && Tasks(ip, s, ids, n, m)
    ensures After(ip, events') == Some(s')
    ensures Store(ip, s', account, ids, Pending, n, m + 1) && Tasks(ip, s', ids, n, m + 1)
    ensures |s'.history| == |After(ip, events).value.history| + 1
  {
    hide After, Store, Tasks, Provable, CanBeAnswered, ParseIdentifier;
    ghost var s := After(ip, events).value;
    FirstCanBeAnswered(ip, s, account, ids, n, m);
    events', s' := ChallengeIsAnswered(ip, events, 3 * m, m + 1);
    StoreAdvances(ip, s, s', account, ids, n, m);
    TasksAdvance(ip, s, s', ids, n, m);
  }

  lemma FirstCanBeAnswered(ip: IpText, s: State, account: RowId, ids: seq<Identifier>, n: nat, m: nat)
    requires Provable(ip, ids) && m < n && Store(ip, s, account, ids, Pending, n, m) && Tasks(ip, s, ids, n, m)
    ensures FirstStored(ip, s, ids, m, Pending) && CanBeAnswered(s, 3 * m, m + 1)
    ensures s.challenges[3 * m].authz == m && s.authzs[m] == RowAt(ip, ids, m, Pending)
  {
    hide CheckPermitted, ParseIdentifier, Acceptable;
    assert FirstStored(ip, s, ids, m, StatusAt(m, m));
    assert CheckPermitted(Parsed(ip, ids)[m], FirstChallenge(ip, ids, m)).Ok?;
  }

  lemma TasksAdvance(ip: IpText, s: State, s': State, ids: seq<Identifier>, n: nat, m: nat)
    requires AllParse(ip, ids) && m < n && Tasks(ip, s, ids, n, m) && m + 1 in s'.tasks
    requires s'.tasks == s.tasks[m + 1 := s'.tasks[m + 1]]
    requires s'.tasks[m + 1].AuthzMarked? && s'.tasks[m + 1].authzRow.order == 0
    ensures Tasks(ip, s', ids, n, m + 1)
  {
  }

  lemma {:induction false} RowsAreProven(ip: IpText, account: RowId, ids: seq<Identifier>, n: nat, proven: nat)
    returns (events: seq<Event>, s: State)
    requires Provable(ip, ids) && proven <= n <= |ids|
    ensures After(ip, events) == Some(s)
    ensures Store(ip, s, account, ids, Pending, n, proven) && Tasks(ip, s, ids, n, proven) && |s.history| == proven
  {
    hide After, ParseIdentifier, CheckPermitted;
    if proven == 0 {
      events, s := RowsAreWritten(ip, account, ids, n);
    } else {
      events, s := RowsAreProven(ip, account, ids, n, proven - 1);
      events, s := RowIsProven(ip, events, account, ids, n, proven - 1);
    }
  }

  function FirstIds(n: nat): (ids: seq<RowId>)
    ensures |ids| == n && forall i :: 0 <= i < n ==> ids[i] == i
  {
    seq(n, i => i)
  }

  lemma FirstIdsList(ip: IpText, s: State, account: RowId, ids: seq<Identifier>, order: Status, n: nat, proven: nat)
    requires AllParse(ip, ids) && Store(ip, s, account, ids, order, n, proven)
    ensures Lists(s, 0, FirstIds(n))
  {
    forall a | a in s.authzs
      ensures a in FirstIds(n)
    {
      assert FirstIds(n)[a] == a;
    }
  }

  /** The first `n` authorizations are written and proven, and the last validation has seen them all
      valid: the next thing it does is to mark the order ready. */
  lemma AllAreSeenValid(ip: IpText, account: RowId, ids: seq<Identifier>, n: nat)
    returns (events: seq<Event>, s: State)
    requires Provable(ip, ids) && 1 <= n <= |ids|
    ensures After(ip, events) == Some(s)
    ensures Store(ip, s, account, ids, Pending, n, n) && |s.history| == n
    ensures (forall t :: t in s.tasks <==> 0 <= t <= n) && s.tasks[0] == OrderWriting(0, Parsed(ip, ids)[n..])
    ensures s.tasks[n].AllValidSeen? && s.tasks[n].order == 0
  {
    hide After, ParseIdentifier, CheckPermitted, NewOrderNext, NewOrderEnabled, FinalizeNext, FinalizeEnabled, Lists;
    events, s := RowsAreProven(ip, account, ids, n, n);
    FirstIdsList(ip, s, account, ids, Pending, n, n);
    assert s.tasks[n].authzRow.order == 0;
    ghost var before := s;
    events, s := StepAfter(ip, events, Validation(n, ListForReady(FirstIds(n))));
    forall i | 0 <= i < n
      ensures RowsOf(before, FirstIds(n))[i].status == Valid
    {
    }
    forall a | 0 <= a < n
      ensures FirstStored(ip, s, ids, a, StatusAt(a, n))
    {
      assert FirstStored(ip, before, ids, a, StatusAt(a, n));
    }
  }

  lemma OrderIsReady(ip: IpText, account: RowId, ids: seq<Identifier>, n: nat)
    returns (events: seq<Event>, s: State)
    requires Provable(ip, ids) && 1 <= n <= |ids|
    ensures After(ip, events) == Some(s)
    ensures Store(ip, s, account, ids, Ready, n, n) && |s.history| == n
    ensures (forall t :: t in s.tasks <==> 0 <= t <= n) && s.tasks[0] == OrderWriting(0, Parsed(ip, ids)[n..])
  {
    hide After, ParseIdentifier, CheckPermitted, NewOrderNext, NewOrderEnabled, FinalizeNext, FinalizeEnabled, Lists;
    events, s := AllAreSeenValid(ip, account, ids, n);
    ghost var before := s;
    StoredOrder(ip, s, account, ids, Pending, n, n);
    hide ValidationTask, Store, Provable;
    events, s := StepAfter(ip, events, Validation(n, MarkReady(false)));
    ReadyStore(ip, before, s, account, ids, n);
  }

  lemma StoredOrder(ip: IpText, s: State, account: RowId, ids: seq<Identifier>, order: Status, n: nat, proven: nat)
    requires AllParse(ip, ids) && Store(ip, s, account, ids, order, n, proven)
    ensures 0 in s.orders
  {
  }

  lemma ReadyStore(ip: IpText, s: State, s': State, account: RowId, ids: seq<Identifier>, n: nat)
    requires AllParse(ip, ids) && Store(ip, s, account, ids, Pending, n, n)
    requires 0 in s.orders && s'.orders == SetOrderStatus(s, 0, Ready)
    requires s'.now == s.now && s'.authzs == s.authzs && s'.challenges == s.challenges
    ensures Store(ip, s', account, ids, Ready, n, n)
  {
    hide ParseIdentifier, FirstChallenge;
    forall a | 0 <= a < n
      ensures FirstStored(ip, s', ids, a, StatusAt(a, n))
    {
      assert FirstStored(ip, s, ids, a, StatusAt(a, n));
    }
  }

  // ----- Ready without being valid -----

  /** The order status is no proof of anything: for every acceptable order and any of its
      authorizations, a second POST of a challenge can fail between the moment a validation has seen
      every authorization valid and the moment it marks the order ready. The order is then ready
      with an invalid authorization, and only the check at finalize, which reads the rows again,
      refuses it. */
  lemma ReadyDoesNotMeanValid(ip: IpText, account: RowId, ids: seq<Identifier>, m: nat)
    returns (events: seq<Event>, s: State)
    requires Provable(ip, ids) && m < |ids|
    ensures After(ip, events) == Some(s) && IsReady(s, 0) && s.orders[0].identifiers == ids
    ensures m in s.authzs && s.authzs[m].order == 0 && s.authzs[m].status == Invalid
    ensures Lists(s, 0, FirstIds(|ids|))
    ensures forall challenges :: Verdict(ip, s.orders[0], ids, RowsOf(s, FirstIds(|ids|)), challenges, s.now) == Err(OrderNotReady)
  {
    hide After, ParseIdentifier, CheckPermitted, NewOrderNext, NewOrderEnabled, FinalizeNext, FinalizeEnabled, Bound;
    hide Lists, Verdict;
    var n := |ids|;
    events, s := AllAreSeenValid(ip, account, ids, n);
    assert FirstStored(ip, s, ids, m, StatusAt(m, n));
    ghost var before := s;
    events, s := FailedPostInvalidates(ip, events, 3 * m, n + 1);
    events, s := StepAfter(ip, events, Validation(n, MarkReady(false)));
    InvalidRowIsListed(ip, before, s, account, ids, m);
    UnusableRowIsRefused(ip, s.orders[0], ids, RowsOf(s, FirstIds(n)), m, s.now);
  }

  lemma InvalidRowIsListed(ip: IpText, s: State, s': State, account: RowId, ids: seq<Identifier>, m: nat)
    requires AllParse(ip, ids) && m < |ids| && Store(ip, s, account, ids, Pending, |ids|, |ids|)
    requires s'.authzs == SetAuthzStatus(s, m, Invalid)
    ensures Lists(s', 0, FirstIds(|ids|))
    ensures var rows := RowsOf(s', FirstIds(|ids|));
            rows[m].status == Invalid && forall i :: 0 <= i < |ids| ==> rows[i].identifier == Parsed(ip, ids)[i]
  {
    hide ParseIdentifier, FirstStored;
    FirstIdsList(ip, s, account, ids, Pending, |ids|, |ids|);
  }

  lemma UnusableRowIsRefused(ip: IpText, order: OrderRow, ids: seq<Identifier>, rows: seq<AuthzRow>, m: nat, now: int)
    requires Acceptable(ip, ids) && |rows| == |ids| && m < |ids| && rows[m].status != Valid
    requires forall i :: 0 <= i < |ids| ==> rows[i].identifier == Parsed(ip, ids)[i]
    ensures forall challenges :: Verdict(ip, order, ids, rows, challenges, now) == Err(OrderNotReady)
  {
    hide Acceptable, ParseIdentifier, Bound, AllAddressesProven;
    RowsInOrderAreBound(ip, ids, rows);
    assert !UsableRow(rows[m], now);
  }

  lemma RowsInOrderAreBound(ip: IpText, ids: seq<Identifier>, rows: seq<AuthzRow>)
    requires AllParse(ip, ids) && |rows| == |ids|
    requires forall i :: 0 <= i < |ids| ==> rows[i].identifier == Parsed(ip, ids)[i]
    ensures Bound(ip, ids, rows)
  {
    assert RowKeys(rows) == Keys(Parsed(ip, ids));
  }

  /** It needs no failed validation either: for every acceptable order of two or more identifiers,
      newOrder can be overtaken after any proper part of its writes. Those authorizations are
      proven, listed and seen all valid, the order becomes ready, and newOrder goes on to write a
      pending one. */
  lemma PartialOrderBecomesReady(ip: IpText, account: RowId, ids: seq<Identifier>, n: nat)
    returns (events: seq<Event>, s: State)
    requires Provable(ip, ids) && 1 <= n < |ids|
    ensures After(ip, events) == Some(s) && IsReady(s, 0) && s.orders[0].identifiers == ids
    ensures n in s.authzs && s.authzs[n].order == 0 && s.authzs[n].status == Pending
    ensures !ReadyMeansValid(s, 0)
    ensures forall a :: a in s.authzs ==> s.authzs[a].status in {Valid, Pending}
  {
    hide After, ParseIdentifier, CheckPermitted, ValidationNext, ValidationEnabled, FinalizeNext, FinalizeEnabled, Lists;
    events, s := OrderIsReady(ip, account, ids, n);
    events, s := StepAfter(ip, events, NewOrder(0, CreateAuthz(n)));
  }

  // ----- Finalize -----

  /** Any finite set of rows can be listed. */
  lemma Enumerate(rows: set<RowId>) returns (ids: seq<RowId>)
    ensures Distinct(ids) && forall a :: a in ids <==> a in rows
  {
    if rows == {} {
      ids := [];
    } else {
      var a :| a in rows;
      var rest := Enumerate(rows - {a});
      ids := [a] + rest;
    }
  }

  lemma {:induction false} AddressIdsExactly(rows: seq<AuthzRow>, a: RowId)
    ensures a in AddressIds(rows) <==> exists i :: 0 <= i < |rows| && rows[i].identifier.idType == "ip" && rows[i].id == a
  {
    if rows != [] {
      AddressIdsExactly(rows[1..], a);
      assert forall i :: 1 <= i < |rows| ==> rows[i] == rows[1..][i - 1];
      if a in AddressIds(rows[1..]) {
        var i :| 0 <= i < |rows[1..]| && rows[1..][i].identifier.idType == "ip" && rows[1..][i].id == a;
        assert rows[i + 1].id == a;
      }
    }
  }

  /** What finalize still has to read, or has read, of the address authorizations. */
  ghost predicate Reading(s: State, k: Task, ids: seq<RowId>) {
    && k.FinalizeAuthzsRead?
    && (forall a :: a in ids ==> a in k.unread || ProvenByHttp01(a, k.challenges))
    && (forall a :: a in k.unread ==> exists c :: c in s.challenges && s.challenges[c] == ChallengeRow(a, HTTP_01, Valid))
  }

  /** finalize reads the challenges of every address authorization. */
  lemma AddressesAreRead(ip: IpText, events: seq<Event>, t: TaskId, ids: seq<RowId>)
    returns (events': seq<Event>, s': State)
    requires After(ip, events).Some? && t in After(ip, events).value.tasks
    requires Reading(After(ip, events).value, After(ip, events).value.tasks[t], ids)
    ensures After(ip, events') == Some(s')
    ensures var s := After(ip, events).value;
            && s'.(tasks := s.tasks) == s && t in s'.tasks && Reading(s', s'.tasks[t], ids)
            && s'.tasks[t] == s.tasks[t].(unread := [], challenges := s'.tasks[t].challenges)
    decreases |After(ip, events).value.tasks[t].unread|
  {
    hide After, NewOrderNext, NewOrderEnabled, ValidationNext, ValidationEnabled, ChecksPass;
    events', s' := events, After(ip, events).value;
    var k := s'.tasks[t];
    if k.unread != [] {
      var u := k.unread[0];
      ghost var s := s';
      var read := Enumerate(set c | c in s.challenges && s.challenges[c].authz == u);
      events', s' := StepAfter(ip, events', FinalizeOrder(t, ReadChallenges(read)));
      ReadingContinues(s, s', k, s'.tasks[t], ids, read);
      events', s' := AddressesAreRead(ip, events', t, ids);
    }
  }

  lemma ReadingContinues(s: State, s': State, k: Task, k': Task, ids: seq<RowId>, read: seq<RowId>)
    requires Reading(s, k, ids) && k.unread != [] && s'.challenges == s.challenges
    requires forall c :: c in read <==> c in s.challenges && s.challenges[c].authz == k.unread[0]
    requires k' == k.(unread := k.unread[1..], challenges := k.challenges + ChallengesOf(s, read))
    ensures Reading(s', k', ids)
  {
    var u := k.unread[0];
    assert u in k.unread;
    var c :| c in s.challenges && s.challenges[c] == ChallengeRow(u, HTTP_01, Valid);
    var i :| 0 <= i < |read| && read[i] == c;
    assert k'.challenges[|k.challenges| + i] == ChallengeRow(u, HTTP_01, Valid);
    forall a | a in ids && a !in k'.unread
      ensures ProvenByHttp01(a, k'.challenges)
    {
      if a != u {
        var j :| 0 <= j < |k.challenges| && k.challenges[j] == ChallengeRow(a, HTTP_01, Valid);
        assert k'.challenges[j] == k.challenges[j];
      }
    }
  }

  /** What finalize finds in a store with every authorization proven passes its checks. */
  lemma ProvenStorePasses(ip: IpText, s: State, account: RowId, ids: seq<Identifier>, k: Task, sans: seq<string>)
    requires Acceptable(ip, ids) && Store(ip, s, account, ids, Ready, |ids|, |ids|) && CsrMatches(ids, sans)
    requires k.FinalizeAuthzsRead? && k.unread == [] && k.orderRow == s.orders[0] && k.sans == sans
    requires k.rows == RowsOf(s, FirstIds(|ids|)) && Reading(s, k, AddressIds(k.rows))
    ensures ChecksPass(ip, CallOf(s, k))
  {
    hide Acceptable, ParseIdentifier, CsrMatches, Bound;
    RowsInOrderAreBound(ip, ids, k.rows);
    forall i | 0 <= i < |k.rows|
      ensures UsableRow(k.rows[i], s.now)
      ensures k.rows[i].identifier.idType == "ip" ==> ProvenByHttp01(k.rows[i].id, k.challenges)
    {
      AddressIdsExactly(k.rows, k.rows[i].id);
    }
  }

  lemma AddressesAreStored(ip: IpText, s: State, account: RowId, ids: seq<Identifier>, order: Status, a: RowId)
    requires AllParse(ip, ids) && Store(ip, s, account, ids, order, |ids|, |ids|)
    requires a in AddressIds(RowsOf(s, FirstIds(|ids|)))
    ensures exists c :: c in s.challenges && s.challenges[c] == ChallengeRow(a, HTTP_01, Valid)
  {
    hide ParseIdentifier;
    var rows := RowsOf(s, FirstIds(|ids|));
    AddressIdsExactly(rows, a);
    assert FirstStored(ip, s, ids, a, StatusAt(a, |ids|));
    assert s.challenges[3 * a] == ChallengeRow(a, HTTP_01, Valid);
  }

  /** finalize has listed the authorizations of a ready order. */
  lemma ReadyOrderIsListed(ip: IpText, account: RowId, ids: seq<Identifier>, sans: seq<string>, subject: Subject)
    returns (events: seq<Event>, s: State, t: TaskId)
    requires Provable(ip, ids)
    ensures After(ip, events) == Some(s) && Store(ip, s, account, ids, Ready, |ids|, |ids|) && |s.history| == |ids|
    ensures var rows := RowsOf(s, FirstIds(|ids|));
            && t in s.tasks
            && s.tasks[t] == FinalizeAuthzsRead(account, 0, s.orders[0], sans, subject, rows, AddressIds(rows), [])
  {
    assert |ids| >= 1;
    hide After, ParseIdentifier, CheckPermitted, NewOrderNext, NewOrderEnabled, ValidationNext, ValidationEnabled, Lists, Provable;
    hide StatusAt, FirstStored, AddressIds, ChecksPass;
    var n := |ids|;
    t := n + 1;
    events, s := OrderIsReady(ip, account, ids, n);
    FirstIdsList(ip, s, account, ids, Ready, n, n);
    ghost var s0 := s;
    events, s := StepAfter(ip, events, FinalizeOrder(t, BeginFinalize(account, 0, sans, subject)));
    events, s := StepAfter(ip, events, FinalizeOrder(t, ReadFinalizeOrder));
    ListsSame(s0, s, 0, FirstIds(n));
    events, s := StepAfter(ip, events, FinalizeOrder(t, ListFinalizeAuthzs(FirstIds(n))));
    SameStore(ip, s0, s, account, ids, Ready, n, n);
  }

  /** finalize has read a ready order and all it needs to check it. */
  lemma ReadyOrderIsRead(ip: IpText, account: RowId, ids: seq<Identifier>, sans: seq<string>, subject: Subject)
    returns (events: seq<Event>, s: State, t: TaskId)
    requires Provable(ip, ids)
    ensures After(ip, events) == Some(s) && Store(ip, s, account, ids, Ready, |ids|, |ids|) && |s.history| == |ids|
    ensures t in s.tasks && s.tasks[t].FinalizeAuthzsRead? && s.tasks[t].unread == []
    ensures var k := s.tasks[t];
            && k.account == account && k.order == 0 && k.orderRow == s.orders[0] && k.sans == sans && k.subject == subject
            && k.rows == RowsOf(s, FirstIds(|ids|)) && Reading(s, k, AddressIds(k.rows))
  {
    assert AllParse(ip, ids);
    hide After, ParseIdentifier, Provable, AddressIds, FirstStored, StatusAt;
    var n := |ids|;
    events, s, t := ReadyOrderIsListed(ip, account, ids, sans, subject);
    var rows := RowsOf(s, FirstIds(n));
    forall a | a in AddressIds(rows)
      ensures exists c :: c in s.challenges && s.challenges[c] == ChallengeRow(a, HTTP_01, Valid)
    {
      AddressesAreStored(ip, s, account, ids, Ready, a);
    }
    ghost var s1 := s;
    assert s1.tasks[t].unread == AddressIds(rows);
    assert Reading(s1, s1.tasks[t], AddressIds(rows));
    assert After(ip, events).value == s1;
    hide Reading, Store;
    events, s := AddressesAreRead(ip, events, t, AddressIds(rows));
    SameStore(ip, s1, s, account, ids, Ready, n, n);
    StoredOrder(ip, s1, account, ids, Ready, n, n);
  }

  lemma ListsSame(s: State, s': State, order: RowId, ids: seq<RowId>)
    requires Lists(s, order, ids) && s'.authzs == s.authzs
    ensures Lists(s', order, ids)
  {
  }

  lemma SameStore(ip: IpText, s: State, s': State, account: RowId, ids: seq<Identifier>, order: Status, n: nat, proven: nat)
    requires AllParse(ip, ids) && Store(ip, s, account, ids, order, n, proven)
    requires s'.(tasks := s.tasks) == s
    ensures Store(ip, s', account, ids, order, n, proven)
  {
    hide StatusAt, ParseIdentifier;
    forall a | 0 <= a < n
      ensures FirstStored(ip, s', ids, a, StatusAt(a, proven))
    {
      assert FirstStored(ip, s, ids, a, StatusAt(a, proven));
    }
  }

  /** Every acceptable order can be issued, wildcards and addresses included: there is a run in which
      all of it is written, every authorization is proven by its first offered challenge, and a
      finalize whose CSR names exactly its identifiers reaches the CA. */
  lemma ProvenOrderReachesCa(ip: IpText, account: RowId, ids: seq<Identifier>, sans: seq<string>, subject: Subject)
    returns (events: seq<Event>, s: State, t: TaskId)
    requires Provable(ip, ids) && CsrMatches(ids, sans)
    ensures After(ip, events) == Some(s) && |s.history| == |ids| + 1
    ensures 0 in s.orders && s.orders[0].status == Processing
    ensures s.history[|ids|].Called? && t in s.tasks && s.tasks[t] == CaAnswered(s.history[|ids|].call)
    ensures var last := s.history[|ids|];
            && last.Called? && last.call.order == 0 && last.call.sans == sans && last.call.subject == subject
            && last.call.account == account && last.call.orderRow.identifiers == ids
            && SafeCall(ip, s.history, |ids|, last.call)
  {
    hide After, SafeCall, ChecksPass, CsrMatches, Provable;
    hide NewOrderNext, NewOrderEnabled, ValidationNext, ValidationEnabled;
    events, s, t := ProvenOrderIsChecked(ip, account, ids, sans, subject);
    events, s := StepAfter(ip, events, FinalizeOrder(t, MarkOrderProcessing));
    events, s := StepAfter(ip, events, FinalizeOrder(t, CallCa));
    IssuanceSafety(ip, events, |ids|);
  }

  lemma ProvenOrderIsChecked(ip: IpText, account: RowId, ids: seq<Identifier>, sans: seq<string>, subject: Subject)
    returns (events: seq<Event>, s: State, t: TaskId)
    requires Provable(ip, ids) && CsrMatches(ids, sans)
    ensures After(ip, events) == Some(s) && |s.history| == |ids| && 0 in s.orders
    ensures t in s.tasks && s.tasks[t].FinalizeChecked?
    ensures var call := s.tasks[t].call;
            && call.order == 0 && call.account == account && call.sans == sans && call.subject == subject
            && call.orderRow.identifiers == ids
  {
    hide After, ParseIdentifier, ChecksPass, CsrMatches, Acceptable, Reading;
    hide NewOrderNext, NewOrderEnabled, ValidationNext, ValidationEnabled;
    events, s, t := ReadyOrderIsRead(ip, account, ids, sans, subject);
    ProvenStorePasses(ip, s, account, ids, s.tasks[t], sans);
    events, s := StepAfter(ip, events, FinalizeOrder(t, Check));
  }

  /** And it is finished: the same run goes on until the order is valid. */
  lemma ProvenOrderIsIssued(ip: IpText, account: RowId, ids: seq<Identifier>, sans: seq<string>, subject: Subject)
    returns (events: seq<Event>, s: State)
    requires Provable(ip, ids) && CsrMatches(ids, sans)
    ensures After(ip, events) == Some(s) && 0 in s.orders && s.orders[0].status == Valid
    ensures |s.history| == |ids| + 1 && s.history[|ids|].Called? && s.history[|ids|].call.order == 0
  {
    hide After, SafeCall, ChecksPass, CsrMatches, Provable;
    hide NewOrderNext, NewOrderEnabled, ValidationNext, ValidationEnabled;
    var t;
    events, s, t := ProvenOrderReachesCa(ip, account, ids, sans, subject);
    events, s := StepAfter(ip, events, FinalizeOrder(t, StoreCertificate));
    events, s := StepAfter(ip, events, FinalizeOrder(t, MarkOrderValid));
  }
}
