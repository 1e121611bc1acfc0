/** `new-account` as a protocol: any number of calls, each a lookup, an insert under the table's
    two UNIQUE constraints and, when the insert fails, a second lookup, interleaved step by step.
    Any database call may fail, and an insert may be applied although its reply is lost. */
module NewAccount {
  import opened Common

  type CallId = nat

  datatype Request = Request(thumbprint: string, onlyReturnExisting: Option<bool>, termsAgreed: bool)

  datatype Account = Account(id: string, thumbprint: string)

  datatype Response =
    | Existing(account: Account)      // 200
    | Created(account: Account)       // 201
    | AccountDoesNotExist
    | UserActionRequired
    | ServerError

  datatype Call =
    | LookingUp(request: Request)
    | Inserting(request: Request)
    | LookingAgain(request: Request)
    | Responded(request: Request, response: Response)

  /** `accounts` is the table in insertion order, `creators` the call behind each row. */
  datatype State = State(accounts: seq<Account>, creators: seq<CallId>, calls: map<CallId, Call>)

  const INITIAL := State([], [], map[])

  datatype Event =
    | Arrive(call: CallId, request: Request)
    | LookUp(call: CallId)
    | Insert(call: CallId, id: string)
    | InsertReplyLost(call: CallId, id: string)
    | InsertFails(call: CallId)
    | LookAgain(call: CallId)
    | QueryFails(call: CallId)

  /** `SELECT ... WHERE jwk_thumbprint = $1` */
  function FindByThumbprint(accounts: seq<Account>, thumbprint: string): (r: Option<Account>)
    ensures r.Some? ==> r.value in accounts && r.value.thumbprint == thumbprint
    ensures r.None? ==> forall a :: a in accounts ==> a.thumbprint != thumbprint
  {
    if accounts == [] then None
    else if accounts[0].thumbprint == thumbprint then Some(accounts[0])
    else FindByThumbprint(accounts[1..], thumbprint)
  }

  /** The table's UNIQUE constraints admit the row. */
  predicate Insertable(accounts: seq<Account>, row: Account) {
    forall a :: a in accounts ==> a.id != row.id && a.thumbprint != row.thumbprint
  }

  predicate Enabled(s: State, ev: Event) {
    var c := ev.call;
    match ev
    case Arrive(_, _) => c !in s.calls
    case LookUp(_) => c in s.calls && s.calls[c].LookingUp?
    case Insert(_, _) => c in s.calls && s.calls[c].Inserting?
    case InsertReplyLost(_, _) => c in s.calls && s.calls[c].Inserting?
    case InsertFails(_) => c in s.calls && s.calls[c].Inserting?
    case LookAgain(_) => c in s.calls && s.calls[c].LookingAgain?
    case QueryFails(_) => c in s.calls && (s.calls[c].LookingUp? || s.calls[c].LookingAgain?)
  }

  /** What the handler does with the first lookup's answer. */
  function AfterLookUp(r: Request, found: Option<Account>): Call {
    if found.Some? then Responded(r, Existing(found.value))
    else if r.onlyReturnExisting == Some(true) then Responded(r, AccountDoesNotExist)
    else if !r.termsAgreed then Responded(r, UserActionRequired)
    else Inserting(r)
  }

  function Next(s: State, ev: Event): State
    requires Enabled(s, ev)
  {
    var c := ev.call;
    match ev
    case Arrive(_, r) => s.(calls := s.calls[c := LookingUp(r)])
    case LookUp(_) =>
      var r := s.calls[c].request;
      s.(calls := s.calls[c := AfterLookUp(r, FindByThumbprint(s.accounts, r.thumbprint))])
    case Insert(_, id) =>
      var r := s.calls[c].request;
      var row := Account(id, r.thumbprint);
      if Insertable(s.accounts, row)
      then State(s.accounts + [row], s.creators + [c], s.calls[c := Responded(r, Created(row))])
      else s.(calls := s.calls[c := LookingAgain(r)])
    case InsertReplyLost(_, id) =>
      var r := s.calls[c].request;
      var row := Account(id, r.thumbprint);
      if Insertable(s.accounts, row)
      then State(s.accounts + [row], s.creators + [c], s.calls[c := LookingAgain(r)])
      else s.(calls := s.calls[c := LookingAgain(r)])
    case InsertFails(_) => s.(calls := s.calls[c := LookingAgain(s.calls[c].request)])
    case LookAgain(_) =>
      var r := s.calls[c].request;
      var found := FindByThumbprint(s.accounts, r.thumbprint);
      s.(calls := s.calls[c := Responded(r, if found.Some? then Existing(found.value) else ServerError)])
    case QueryFails(_) => s.(calls := s.calls[c := Responded(s.calls[c].request, ServerError)])
  }

  /** The state after a run of events from the empty table, if every event was possible. */
  function After(events: seq<Event>): Option<State> {
    if events == [] then Some(INITIAL)
    else
      var before := After(events[..|events| - 1]);
      var ev := events[|events| - 1];
      if before.Some? && Enabled(before.value, ev) then Some(Next(before.value, ev)) else None
  }

  // ----- The invariant -----

  predicate Unique(accounts: seq<Account>) {
    forall i, j :: 0 <= i < j < |accounts| ==>
      accounts[i].id != accounts[j].id && accounts[i].thumbprint != accounts[j].thumbprint
  }

  /** Row `i` was inserted by a call for its key that was allowed to create an account. */
  predicate RowInv(s: State, i: nat)
    requires i < |s.accounts| && i < |s.creators|
  {
    var c := s.creators[i];
    && c in s.calls && !s.calls[c].LookingUp? && !s.calls[c].Inserting?
    && var r := s.calls[c].request;
    && r.thumbprint == s.accounts[i].thumbprint && r.onlyReturnExisting != Some(true) && r.termsAgreed
    && (s.calls[c].Responded? ==> s.calls[c].response in {Created(s.accounts[i]), Existing(s.accounts[i]), ServerError})
  }

  predicate CallInv(s: State, c: CallId)
    requires c in s.calls
  {
    var k := s.calls[c];
    && (k.Inserting? ==> k.request.onlyReturnExisting != Some(true) && k.request.termsAgreed)
    && (k.Responded? && k.response.Existing? ==>
          k.response.account in s.accounts && k.response.account.thumbprint == k.request.thumbprint)
    && (k.Responded? && k.response.Created? ==> CreatedRow(s, c, k.response.account))
    && (k.Responded? && k.response == AccountDoesNotExist ==> k.request.onlyReturnExisting == Some(true))
    && (k.Responded? && k.response == UserActionRequired ==>
          k.request.onlyReturnExisting != Some(true) && !k.request.termsAgreed)
  }

  predicate CreatedRow(s: State, c: CallId, a: Account) {
    exists i :: 0 <= i < |s.accounts| && i < |s.creators| && s.accounts[i] == a && s.creators[i] == c
  }

  predicate Inv(s: State) {
    && Unique(s.accounts) && |s.creators| == |s.accounts|
    && (forall i :: 0 <= i < |s.accounts| ==> RowInv(s, i))
    && (forall c :: c in s.calls ==> CallInv(s, c))
  }

  lemma StepKeepsRow(s: State, ev: Event, i: nat)
    requires Inv(s) && Enabled(s, ev) && i < |s.accounts|
    ensures |s.creators| <= |Next(s, ev).creators| && |s.accounts| <= |Next(s, ev).accounts|
    ensures RowInv(Next(s, ev), i)
  {
    assert RowInv(s, i);
    var c := s.creators[i];
    if ev.LookAgain? && ev.call == c {
      UniqueByThumbprint(s.accounts, s.accounts[i], FindByThumbprint(s.accounts, s.accounts[i].thumbprint).value);
    }
  }

  lemma UniqueByThumbprint(accounts: seq<Account>, a: Account, b: Account)
    requires Unique(accounts) && a in accounts && b in accounts && a.thumbprint == b.thumbprint
    ensures a == b
  {
  }

  lemma StepKeepsCall(s: State, ev: Event, c: CallId)
    requires Inv(s) && Enabled(s, ev) && c in Next(s, ev).calls
    ensures CallInv(Next(s, ev), c)
  {
    var s' := Next(s, ev);
    if c in s.calls {
      assert CallInv(s, c);
    }
    var k := s'.calls[c];
    if k.Responded? && k.response.Created? {
      if c in s.calls && s.calls[c] == k {
        var i :| 0 <= i < |s.accounts| && i < |s.creators| && s.accounts[i] == k.response.account && s.creators[i] == c;
        assert s'.accounts[i] == k.response.account && s'.creators[i] == c;
      } else {
        assert s'.accounts[|s.accounts|] == k.response.account && s'.creators[|s.creators|] == c;
      }
    }
  }

  lemma StepKeepsInv(s: State, ev: Event)
    requires Inv(s) && Enabled(s, ev)
    ensures Inv(Next(s, ev))
  {
    hide RowInv, CallInv;
    var s' := Next(s, ev);
    forall i | 0 <= i < |s'.accounts|
      ensures RowInv(s', i)
    {
      if i < |s.accounts| {
        StepKeepsRow(s, ev, i);
      } else {
        NewRow(s, ev);
      }
    }
    forall c | c in s'.calls
      ensures CallInv(s', c)
    {
      StepKeepsCall(s, ev, c);
    }
  }

  lemma NewRow(s: State, ev: Event)
    requires Inv(s) && Enabled(s, ev) && |Next(s, ev).accounts| > |s.accounts|
    ensures |Next(s, ev).accounts| == |s.accounts| + 1 == |Next(s, ev).creators|
    ensures RowInv(Next(s, ev), |s.accounts|)
  {
    assert CallInv(s, ev.call);
  }

  lemma {:induction false} RunKeepsInv(events: seq<Event>)
    requires After(events).Some?
    ensures Inv(After(events).value)
  {
    if events != [] {
      RunKeepsInv(events[..|events| - 1]);
      StepKeepsInv(After(events[..|events| - 1]).value, events[|events| - 1]);
    }
  }

  // ----- Results -----

  function Answer(s: State, c: CallId): (r: Option<Account>)
    requires c in s.calls
  {
    var k := s.calls[c];
    if k.Responded? && (k.response.Existing? || k.response.Created?) then Some(k.response.account) else None
  }

  /** Over every run, a key has at most one account, and every successful answer for the key names
      that account. */
  lemma OneAccountPerKey(events: seq<Event>, c: CallId, d: CallId)
    requires After(events).Some?
    requires var s := After(events).value;
             && c in s.calls && d in s.calls && s.calls[c].request.thumbprint == s.calls[d].request.thumbprint
             && Answer(s, c).Some? && Answer(s, d).Some?
    ensures var s := After(events).value;
            && Answer(s, c) == Answer(s, d) && Answer(s, c).value in s.accounts
            && Answer(s, c).value.thumbprint == s.calls[c].request.thumbprint
            && forall a :: a in s.accounts && a.thumbprint == s.calls[c].request.thumbprint ==> Answer(s, c) == Some(a)
  {
    RunKeepsInv(events);
    var s := After(events).value;
    AnswerIsRow(s, c);
    AnswerIsRow(s, d);
  }

  lemma AnswerIsRow(s: State, c: CallId)
    requires Inv(s) && c in s.calls && Answer(s, c).Some?
    ensures Answer(s, c).value in s.accounts && Answer(s, c).value.thumbprint == s.calls[c].request.thumbprint
  {
    var k := s.calls[c];
    assert CallInv(s, c);
    if k.response.Created? {
      var i :| 0 <= i < |s.accounts| && i < |s.creators| && s.accounts[i] == k.response.account && s.creators[i] == c;
      assert RowInv(s, i);
    }
  }

  lemma CreatedRowOf(s: State, c: CallId)
    requires Inv(s) && c in s.calls && s.calls[c].Responded? && s.calls[c].response.Created?
    ensures CreatedRow(s, c, s.calls[c].response.account)
  {
    assert CallInv(s, c);
  }

  /** Over every run, at most one call per key is told 201. */
  lemma CreatedOnce(events: seq<Event>, c: CallId, d: CallId)
    requires After(events).Some?
    requires var s := After(events).value;
             && c in s.calls && d in s.calls && s.calls[c].request.thumbprint == s.calls[d].request.thumbprint
             && s.calls[c].Responded? && s.calls[c].response.Created?
             && s.calls[d].Responded? && s.calls[d].response.Created?
    ensures c == d
  {
    hide After, RowInv, Inv;
    OneAccountPerKey(events, c, d);
    RunKeepsInv(events);
    var s := After(events).value;
    CreatedRowOf(s, c);
    CreatedRowOf(s, d);
    KeysStayUnique(events);
    var a := s.calls[c].response.account;
    var i :| 0 <= i < |s.accounts| && i < |s.creators| && s.accounts[i] == a && s.creators[i] == c;
    var j :| 0 <= j < |s.accounts| && j < |s.creators| && s.accounts[j] == a && s.creators[j] == d;
  }

  /** Over every run, each account was created by one call for its key, which had agreed to the
      terms and had not asked only to be told of an existing account. */
  lemma CreatorsWereAllowed(events: seq<Event>, i: nat)
    requires After(events).Some? && i < |After(events).value.accounts|
    ensures var s := After(events).value;
            && |s.creators| == |s.accounts| && s.creators[i] in s.calls
            && var r := s.calls[s.creators[i]].request;
            && r.thumbprint == s.accounts[i].thumbprint && r.onlyReturnExisting != Some(true) && r.termsAgreed
  {
    RunKeepsInv(events);
    assert RowInv(After(events).value, i);
  }

  /** Waiting for its lookup, answered with the account, or met by a failed query of its own. */
  predicate WaitsForOrHas(s: State, events: seq<Event>, c: CallId, a: Account)
    requires c in s.calls
  {
    var k := s.calls[c];
    || k.LookingUp?
    || (k.Responded? && k.response == Existing(a))
    || (k.Responded? && k.response == ServerError && QueryFails(c) in events)
  }

  lemma StepFindsIt(s: State, events: seq<Event>, ev: Event, a: Account, c: CallId)
    requires Enabled(s, ev) && Unique(s.accounts) && a in s.accounts && c in Next(s, ev).calls
    requires Next(s, ev).calls[c].request.thumbprint == a.thumbprint
    requires c in s.calls ==> WaitsForOrHas(s, events, c, a)
    ensures WaitsForOrHas(Next(s, ev), events + [ev], c, a)
  {
    if ev.LookUp? && ev.call == c {
      UniqueByThumbprint(s.accounts, a, FindByThumbprint(s.accounts, a.thumbprint).value);
    }
  }

  /** Idempotence on the key: once a key has an account, the account stays, and every call for the
      key that arrives later is answered with it and 200, unless one of its own queries fails. */
  lemma {:induction false} LaterCallsFindIt(events: seq<Event>, more: seq<Event>, a: Account, c: CallId)
    requires After(events + more).Some?
    requires After(events).Some? && a in After(events).value.accounts
    requires c !in After(events).value.calls && c in After(events + more).value.calls
    requires After(events + more).value.calls[c].request.thumbprint == a.thumbprint
    ensures a in After(events + more).value.accounts && WaitsForOrHas(After(events + more).value, events + more, c, a)
    decreases |more|
  {
    hide Inv, WaitsForOrHas;
    assert more == [] ==> events + more == events;
    if more != [] {
      var prefix, ev := more[..|more| - 1], more[|more| - 1];
      assert (events + more)[..|events + more| - 1] == events + prefix;
      assert events + more == (events + prefix) + [ev];
      var s := After(events + prefix).value;
      RowsStay(events, prefix);
      RowsStay(events, more);
      KeysStayUnique(events + prefix);
      if c in s.calls {
        LaterCallsFindIt(events, prefix, a, c);
      }
      StepFindsIt(s, events + prefix, ev, a, c);
    }
  }

  // ----- Why a call is answered as it is -----

  predicate HasAccount(s: State, thumbprint: string) {
    exists i :: 0 <= i < |s.accounts| && s.accounts[i].thumbprint == thumbprint
  }

  /** The server refused the call's insert: another account had the id or the key. */
  ghost predicate InsertRefused(events: seq<Event>, c: CallId, thumbprint: string) {
    exists before, ev ::
      && before + [ev] <= events && After(before).Some?
      && (ev.Insert? || ev.InsertReplyLost?) && ev.call == c
      && !Insertable(After(before).value.accounts, Account(ev.id, thumbprint))
  }

  ghost predicate CallFailed(events: seq<Event>, c: CallId, thumbprint: string) {
    QueryFails(c) in events || InsertFails(c) in events || InsertRefused(events, c, thumbprint)
  }

  /** The second lookup found no account for the key. */
  ghost predicate LookedInVain(events: seq<Event>, c: CallId, thumbprint: string) {
    exists before ::
      before + [LookAgain(c)] <= events && After(before).Some? && !HasAccount(After(before).value, thumbprint)
  }

  ghost predicate FailureInv(s: State, events: seq<Event>, c: CallId)
    requires c in s.calls
  {
    var k := s.calls[c];
    && (k.LookingAgain? ==> CallFailed(events, c, k.request.thumbprint) || HasAccount(s, k.request.thumbprint))
    && (k.Responded? && k.response == ServerError ==>
          CallFailed(events, c, k.request.thumbprint)
          && (QueryFails(c) in events || LookedInVain(events, c, k.request.thumbprint)))
  }

  lemma FailedStays(events: seq<Event>, ev: Event, c: CallId, thumbprint: string)
    requires CallFailed(events, c, thumbprint)
    ensures CallFailed(events + [ev], c, thumbprint)
    ensures LookedInVain(events, c, thumbprint) ==> LookedInVain(events + [ev], c, thumbprint)
  {
    hide Insertable, After;
    if InsertRefused(events, c, thumbprint) {
      var before, e :|
        && before + [e] <= events && After(before).Some?
        && (e.Insert? || e.InsertReplyLost?) && e.call == c
        && !Insertable(After(before).value.accounts, Account(e.id, thumbprint));
      assert before + [e] <= events + [ev];
    }
    if LookedInVain(events, c, thumbprint) {
      var before :|
        before + [LookAgain(c)] <= events && After(before).Some? && !HasAccount(After(before).value, thumbprint);
      assert before + [LookAgain(c)] <= events + [ev];
    }
  }

  lemma StepKeepsFailure(events: seq<Event>, ev: Event, c: CallId)
    requires After(events).Some? && Enabled(After(events).value, ev)
    requires c in After(events).value.calls ==> FailureInv(After(events).value, events, c)
    requires c in Next(After(events).value, ev).calls
    ensures FailureInv(Next(After(events).value, ev), events + [ev], c)
  {
    hide After, InsertRefused;
    var s := After(events).value;
    var s' := Next(s, ev);
    if c in s.calls {
      var t := s.calls[c].request.thumbprint;
      if CallFailed(events, c, t) {
        FailedStays(events, ev, c, t);
      }
      if HasAccount(s, t) {
        AccountStays(s, ev, t);
      }
      if ev.call == c && (ev.Insert? || ev.InsertReplyLost?) {
        InsertDecides(events, ev, c, t);
      }
      if ev == LookAgain(c) && !HasAccount(s, t) {
        assert events + [LookAgain(c)] <= events + [ev];
      }
    }
  }

  lemma AccountStays(s: State, ev: Event, thumbprint: string)
    requires Enabled(s, ev) && HasAccount(s, thumbprint)
    ensures HasAccount(Next(s, ev), thumbprint)
  {
    var i :| 0 <= i < |s.accounts| && s.accounts[i].thumbprint == thumbprint;
    assert Next(s, ev).accounts[i] == s.accounts[i];
  }

  /** An insert is refused, or the key has an account afterwards. */
  lemma InsertDecides(events: seq<Event>, ev: Event, c: CallId, thumbprint: string)
    requires After(events).Some? && Enabled(After(events).value, ev)
    requires (ev.Insert? || ev.InsertReplyLost?) && ev.call == c
    requires After(events).value.calls[c].request.thumbprint == thumbprint
    ensures InsertRefused(events + [ev], c, thumbprint) || HasAccount(Next(After(events).value, ev), thumbprint)
  {
    hide After;
    var s := After(events).value;
    if Insertable(s.accounts, Account(ev.id, thumbprint)) {
      assert Next(s, ev).accounts[|s.accounts|].thumbprint == thumbprint;
    } else {
      assert events + [ev] <= events + [ev];
    }
  }

  /** Over every run, a call is answered with a server error only if one of its own queries failed, or
      its insert failed or was refused and it then found no account for its key. */
  lemma {:induction false} ErrorsAreFailures(events: seq<Event>, c: CallId)
    requires After(events).Some? && c in After(events).value.calls
    ensures FailureInv(After(events).value, events, c)
  {
    hide Next, Enabled, FailureInv;
    if events != [] {
      var prefix, ev := events[..|events| - 1], events[|events| - 1];
      assert events == prefix + [ev];
      if c in After(prefix).value.calls {
        ErrorsAreFailures(prefix, c);
      }
      StepKeepsFailure(prefix, ev, c);
    }
  }

  /** What the first lookup decides, by whether the key has an account at that moment: the account
      and 200; else a refusal when only an existing account was asked for; else a refusal when the
      terms were not agreed; else an insert, which ends in 201, in 200 or in an error. */
  predicate DecidedBy(s: State, k: Call) {
    var r := k.request;
    if HasAccount(s, r.thumbprint) then
      k.Responded? && k.response.Existing? && k.response.account in s.accounts
      && k.response.account.thumbprint == r.thumbprint
    else if r.onlyReturnExisting == Some(true) then k == Responded(r, AccountDoesNotExist)
    else if !r.termsAgreed then k == Responded(r, UserActionRequired)
    else
      k.Inserting? || k.LookingAgain?
      || (k.Responded? && (k.response.Created? || k.response.Existing? || k.response.ServerError?))
  }

  ghost predicate LookedUp(events: seq<Event>, c: CallId, k: Call) {
    exists before :: before + [LookUp(c)] <= events && After(before).Some? && DecidedBy(After(before).value, k)
  }

  lemma LookUpDecides(s: State, c: CallId)
    requires Enabled(s, LookUp(c))
    ensures DecidedBy(s, Next(s, LookUp(c)).calls[c])
  {
    var t := s.calls[c].request.thumbprint;
    var found := FindByThumbprint(s.accounts, t);
    if found.Some? {
      var i :| 0 <= i < |s.accounts| && s.accounts[i] == found.value;
      assert HasAccount(s, t);
    }
  }

  /** Later steps of the call stay within what the lookup decided. */
  lemma DecisionStands(s: State, ev: Event, past: State)
    requires Enabled(s, ev) && ev.call in s.calls && !s.calls[ev.call].LookingUp? && DecidedBy(past, s.calls[ev.call])
    ensures DecidedBy(past, Next(s, ev).calls[ev.call])
  {
    hide HasAccount;
  }

  /** Over every run, a call that has been looked up stands where that lookup put it. */
  lemma {:induction false} AnswerIsDecided(events: seq<Event>, c: CallId)
    requires After(events).Some? && c in After(events).value.calls && !After(events).value.calls[c].LookingUp?
    ensures LookedUp(events, c, After(events).value.calls[c])
            || (QueryFails(c) in events && After(events).value.calls[c].Responded?
                && After(events).value.calls[c].response == ServerError)
  {
    hide Next, Enabled, DecidedBy;
    if events != [] {
      var prefix, ev := events[..|events| - 1], events[|events| - 1];
      assert events == prefix + [ev];
      if c in After(prefix).value.calls && !After(prefix).value.calls[c].LookingUp? {
        AnswerIsDecided(prefix, c);
      }
      StepIsDecided(prefix, ev, c);
    }
  }

  lemma StepIsDecided(events: seq<Event>, ev: Event, c: CallId)
    requires After(events).Some? && Enabled(After(events).value, ev)
    requires var s' := Next(After(events).value, ev); c in s'.calls && !s'.calls[c].LookingUp?
    requires var s := After(events).value;
             c in s.calls && !s.calls[c].LookingUp? ==>
               || LookedUp(events, c, s.calls[c])
               || (QueryFails(c) in events && s.calls[c].Responded? && s.calls[c].response == ServerError)
    ensures var s' := Next(After(events).value, ev);
            || LookedUp(events + [ev], c, s'.calls[c])
            || (QueryFails(c) in events + [ev] && s'.calls[c].Responded? && s'.calls[c].response == ServerError)
  {
    hide After, DecidedBy;
    var s := After(events).value;
    var s' := Next(s, ev);
    if s.calls[c].LookingUp? {
      if ev.LookUp? {
        LookUpDecides(s, c);
        assert events + [LookUp(c)] <= events + [ev];
      }
    } else if LookedUp(events, c, s.calls[c]) {
      var before :| before + [LookUp(c)] <= events && After(before).Some? && DecidedBy(After(before).value, s.calls[c]);
      assert before + [LookUp(c)] <= events + [ev];
      if ev.call == c {
        DecisionStands(s, ev, After(before).value);
      }
    }
  }

  lemma {:induction false} RowsStay(events: seq<Event>, more: seq<Event>)
    requires After(events + more).Some?
    ensures After(events).Some? && After(events).value.accounts <= After(events + more).value.accounts
    decreases |more|
  {
    if more == [] {
      assert events + more == events;
    } else {
      var prefix := more[..|more| - 1];
      assert (events + more)[..|events + more| - 1] == events + prefix;
      RowsStay(events, prefix);
    }
  }

  lemma KeysStayUnique(events: seq<Event>)
    requires After(events).Some?
    ensures Unique(After(events).value.accounts)
  {
    RunKeepsInv(events);
  }

  /** A call that loses the race for a key's insert is answered with the winner's account. */
  lemma RaceLoserIsAnswered(events: seq<Event>, c: CallId, id: string, winner: Account)
    requires After(events).Some?
    requires var s := After(events).value;
             && c in s.calls && s.calls[c].Inserting?
             && winner in s.accounts && winner.thumbprint == s.calls[c].request.thumbprint
    ensures var s, s' := After(events).value, After(events + [Insert(c, id)] + [LookAgain(c)]);
            && s'.Some? && s'.value.accounts == s.accounts && Answer(s'.value, c) == Some(winner)
            && s'.value.calls[c].response.Existing?
  {
    RunKeepsInv(events);
    var s1 := StepAfter(events, Insert(c, id));
    assert !Insertable(s1.accounts, Account(id, winner.thumbprint));
    var s2 := StepAfter(events + [Insert(c, id)], LookAgain(c));
    UniqueByThumbprint(s1.accounts, winner, FindByThumbprint(s1.accounts, winner.thumbprint).value);
  }

  /** A call for a key without an account, alone, creates it and is told 201. */
  lemma FirstCallCreates(events: seq<Event>, c: CallId, r: Request, id: string)
    requires After(events).Some? && c !in After(events).value.calls
    requires r.onlyReturnExisting != Some(true) && r.termsAgreed
    requires Insertable(After(events).value.accounts, Account(id, r.thumbprint))
    ensures var s := After(events).value;
            var s' := After(events + [Arrive(c, r)] + [LookUp(c)] + [Insert(c, id)]);
            && s'.Some? && s'.value.accounts == s.accounts + [Account(id, r.thumbprint)]
            && s'.value.calls[c] == Responded(r, Created(Account(id, r.thumbprint)))
  {
    var s1 := StepAfter(events, Arrive(c, r));
    var s2 := StepAfter(events + [Arrive(c, r)], LookUp(c));
    var s3 := StepAfter(events + [Arrive(c, r)] + [LookUp(c)], Insert(c, id));
  }

  lemma StepAfter(events: seq<Event>, ev: Event) returns (s: State)
    requires After(events).Some? && Enabled(After(events).value, ev)
    ensures After(events + [ev]) == Some(s) && s == Next(After(events).value, ev)
  {
    assert (events + [ev])[..|events|] == events;
    s := Next(After(events).value, ev);
  }
}
