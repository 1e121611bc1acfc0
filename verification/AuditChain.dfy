/** The database audit sink as a protocol: any number of `record` calls, in any number of
    services, run step by step against one table behind one transaction-scoped lock. Every call
    may fail or time out at every step, the server may end a session and release the lock at any
    moment, and a commit may be applied although its caller has given up waiting or was told that
    it failed. */
module AuditChain {
  import opened Common
  import opened Rfc3339
  import opened AuditEvents
  import opened AuditSink

  type CallId = nat

  datatype Outcome = Committed | BeginFailed | SignFailed | Refused | CommitFailed | CommitUnknown

  /** Where a `record` call stands. */
  datatype Call =
    | Waiting(event: AuditEvent)
    | Locked(event: AuditEvent)
    | HeadRead(event: AuditEvent, headHash: Option<Octets>, headTime: Option<Instant>)
    | Hashed(event: AuditEvent, headHash: Option<Octets>, headTime: Option<Instant>)
    | Sealed(event: AuditEvent, headHash: Option<Octets>, headTime: Option<Instant>)
    | Committing
    | Returned(outcome: Outcome)

  datatype Request = Request(row: DbEvent, headHash: Option<Octets>, headTime: Option<Instant>)

  /** `table` lists the committed rows in commit order, `writers` the call that wrote each row.
      `requests` are commit requests the server has not processed, `replies` its answers. */
  datatype State = State(
    table: seq<DbEvent>, writers: seq<CallId>, lock: Option<CallId>,
    submitted: map<CallId, AuditEvent>, calls: map<CallId, Call>,
    requests: map<CallId, Request>, replies: map<CallId, bool>)

  const INITIAL := State([], [], None, map[], map[], map[], map[])

  datatype Event =
    | Start(call: CallId, event: AuditEvent)
    | TakeLock(call: CallId)
    | BeginFails(call: CallId)
    | ReadHead(call: CallId)
    | LinkAndHash(call: CallId)
    | Sign(call: CallId, sign: SignOutcome)
    | SendCommit(call: CallId)
    | ServerCommits(call: CallId)
    | ServerRejects(call: CallId)
    | ReplyArrives(call: CallId)
    | CommitTimesOut(call: CallId)
    | CommitErrors(call: CallId)
    | LockReleased(call: CallId)

  // ----- SQL: ORDER BY timestamp -----

  /** The row `ORDER BY timestamp DESC LIMIT 1` selects. */
  function Newest(table: seq<DbEvent>): (i: nat)
    requires table != []
    ensures i < |table| && forall j :: 0 <= j < |table| ==> table[j].timestamp <= table[i].timestamp
  {
    var last := |table| - 1;
    if last == 0 then 0
    else
      var i := Newest(table[..last]);
      assert forall j :: 0 <= j < last ==> table[j] == table[..last][j];
      if table[i].timestamp > table[last].timestamp then i else last
  }

  function SelectHeadHash(table: seq<DbEvent>): Option<Octets> {
    if table == [] then None else Some(table[Newest(table)].eventHash)
  }

  function SelectHeadTime(table: seq<DbEvent>): Option<Instant> {
    if table == [] then None else Some(table[Newest(table)].timestamp)
  }

  function InsertByTime(row: DbEvent, sorted: seq<DbEvent>): seq<DbEvent> {
    if sorted == [] || sorted[|sorted| - 1].timestamp <= row.timestamp then sorted + [row]
    else InsertByTime(row, sorted[..|sorted| - 1]) + [sorted[|sorted| - 1]]
  }

  /** `ORDER BY timestamp ASC` */
  function OrderedByTime(table: seq<DbEvent>): seq<DbEvent> {
    if table == [] then [] else InsertByTime(table[|table| - 1], OrderedByTime(table[..|table| - 1]))
  }

  /** In a chain, timestamp order is chain order: the newest row is the last one. */
  lemma NewestIsHead(table: seq<DbEvent>)
    requires StrictlyIncreasing(table)
    ensures SelectHeadHash(table) == HeadHash(table) && SelectHeadTime(table) == HeadTime(table)
  {
    if table != [] {
      assert table[|table| - 1].timestamp <= table[Newest(table)].timestamp;
    }
  }

  lemma PrefixIncreases(table: seq<DbEvent>, k: nat)
    requires StrictlyIncreasing(table) && k <= |table|
    ensures StrictlyIncreasing(table[..k])
  {
  }

  /** In a chain, the verifier's `ORDER BY timestamp` is the commit order. */
  lemma {:induction false} OrderIsCommitOrder(table: seq<DbEvent>)
    requires StrictlyIncreasing(table)
    ensures OrderedByTime(table) == table
  {
    if table != [] {
      var last := |table| - 1;
      var rest := table[..last];
      PrefixIncreases(table, last);
      OrderIsCommitOrder(rest);
      assert rest != [] ==> rest[|rest| - 1].timestamp <= table[last].timestamp;
      hide StrictlyIncreasing;
      assert InsertByTime(table[last], rest) == rest + [table[last]];
      assert table == rest + [table[last]];
    }
  }

  // ----- Steps -----

  function Truncated(e: AuditEvent): AuditEvent {
    e.(timestamp := TruncateToMicros(e.timestamp))
  }

  /** The last check before inserting: the row links to, and is later than, the head that was read. */
  predicate CommitAccepts(row: DbEvent, headHash: Option<Octets>, headTime: Option<Instant>) {
    row.previousHash == headHash && (headTime.Some? ==> row.timestamp > headTime.value)
  }

  predicate At(s: State, c: CallId, stage: Call -> bool) {
    c in s.calls && stage(s.calls[c])
  }

  predicate Enabled(s: State, ev: Event) {
    var c := ev.call;
    match ev
    case Start(_, _) => c !in s.calls
    case TakeLock(_) => s.lock == None && At(s, c, (k: Call) => k.Waiting? || k == Returned(BeginFailed))
    case BeginFails(_) => At(s, c, (k: Call) => k.Waiting? || k.Locked?)
    case ReadHead(_) => s.lock == Some(c) && At(s, c, (k: Call) => k.Locked?)
    case LinkAndHash(_) => At(s, c, (k: Call) => k.HeadRead?)
    case Sign(_, _) => At(s, c, (k: Call) => k.Hashed?)
    case SendCommit(_) => At(s, c, (k: Call) => k.Sealed?)
    case ServerCommits(_) =>
      && c in s.requests && s.lock == Some(c)
      && forall i :: 0 <= i < |s.table| ==> s.table[i].id != s.requests[c].row.id
    case ServerRejects(_) => c in s.requests
    case ReplyArrives(_) => c in s.replies && At(s, c, (k: Call) => k.Committing?)
    case CommitTimesOut(_) => At(s, c, (k: Call) => k.Committing?)
    case CommitErrors(_) => At(s, c, (k: Call) => k.Committing?)
    case LockReleased(_) => s.lock == Some(c)
  }

  function Next(p: Primitives, s: State, ev: Event): State
    requires Enabled(s, ev)
  {
    var c := ev.call;
    match ev
    case Start(_, e) =>
      s.(submitted := s.submitted[c := e], calls := s.calls[c := Waiting(Truncated(e))])
    // A session whose caller gave up may still be granted the lock it was queued for.
    case TakeLock(_) =>
      s.(lock := Some(c),
         calls := if s.calls[c].Waiting? then s.calls[c := Locked(s.calls[c].event)] else s.calls)
    case BeginFails(_) => s.(calls := s.calls[c := Returned(BeginFailed)])
    case ReadHead(_) =>
      s.(calls := s.calls[c := HeadRead(s.calls[c].event, SelectHeadHash(s.table), SelectHeadTime(s.table))])
    case LinkAndHash(_) =>
      var k := s.calls[c];
      s.(calls := s.calls[c := Hashed(Linked(p, k.event, k.headHash, k.headTime), k.headHash, k.headTime)])
    case Sign(_, sign) =>
      var k := s.calls[c];
      s.(calls := s.calls[c := if sign.NoSignature? then Returned(SignFailed)
                               else Sealed(WithSignature(k.event, sign), k.headHash, k.headTime)])
    case SendCommit(_) =>
      var k := s.calls[c];
      if CommitAccepts(ToDb(k.event), k.headHash, k.headTime)
      then s.(calls := s.calls[c := Committing],
              requests := s.requests[c := Request(ToDb(k.event), k.headHash, k.headTime)])
      else s.(calls := s.calls[c := Returned(Refused)])
    case ServerCommits(_) =>
      s.(table := s.table + [InColumns(s.requests[c].row)], writers := s.writers + [c], lock := None,
         requests := s.requests - {c}, replies := s.replies[c := true])
    case ServerRejects(_) =>
      s.(lock := if s.lock == Some(c) then None else s.lock,
         requests := s.requests - {c}, replies := s.replies[c := false])
    case ReplyArrives(_) =>
      s.(calls := s.calls[c := Returned(if s.replies[c] then Committed else CommitFailed)])
    case CommitTimesOut(_) => s.(calls := s.calls[c := Returned(CommitUnknown)])
    // A lost connection is reported like the server's refusal, whatever became of the commit.
    case CommitErrors(_) => s.(calls := s.calls[c := Returned(CommitFailed)])
    case LockReleased(_) => s.(lock := None)
  }

  /** The state after a run of events from the empty log, if every event was possible. */
  function After(p: Primitives, events: seq<Event>): Option<State> {
    if events == [] then Some(INITIAL)
    else
      var before := After(p, events[..|events| - 1]);
      var ev := events[|events| - 1];
      if before.Some? && Enabled(before.value, ev) then Some(Next(p, before.value, ev)) else None
  }

  // ----- The invariant -----

  /** While a call still holds the lock, the head it read is the head. */
  predicate HeadIsCurrent(s: State, c: CallId, headHash: Option<Octets>, headTime: Option<Instant>) {
    s.lock == Some(c) ==> headHash == HeadHash(s.table) && headTime == HeadTime(s.table)
  }

  predicate MicrosecondHead(headTime: Option<Instant>) {
    headTime.Some? ==> headTime.value % NANOS_PER_MICRO == 0
  }

  ghost predicate CallInv(p: Primitives, s: State, c: CallId)
    requires c in s.calls
  {
    && c in s.submitted
    && var e := Truncated(s.submitted[c]);
    match s.calls[c]
    case Waiting(event) => event == e
    case Locked(event) => event == e
    case HeadRead(event, hash, time) => event == e && MicrosecondHead(time) && HeadIsCurrent(s, c, hash, time)
    case Hashed(event, hash, time) =>
      event == Linked(p, e, hash, time) && MicrosecondHead(time) && HeadIsCurrent(s, c, hash, time)
    case Sealed(event, hash, time) =>
      StoredFrom(p, ToDb(event), e, hash, time) && MicrosecondHead(time) && HeadIsCurrent(s, c, hash, time)
    case Committing => c in s.requests || c in s.replies
    case Returned(_) => true
  }

  /** Only a call that sent a commit, and was not answered that it failed, may have one pending or
      applied. */
  predicate OutcomeInv(s: State, c: CallId)
    requires c in s.calls
  {
    var k := s.calls[c];
    && (c in s.requests ==> k in {Committing, Returned(CommitUnknown), Returned(CommitFailed)} && c !in s.replies)
    && (c in s.replies && s.replies[c] ==>
          k in {Committing, Returned(CommitUnknown), Returned(CommitFailed), Returned(Committed)})
    && (c in s.replies && !s.replies[c] ==> k in {Committing, Returned(CommitUnknown), Returned(CommitFailed)})
    && (k == Returned(Committed) ==> c in s.replies && s.replies[c])
    && k != Returned(Refused)
  }

  ghost predicate RequestInv(p: Primitives, s: State, c: CallId)
    requires c in s.requests
  {
    var r := s.requests[c];
    && c in s.submitted && c in s.calls
    && StoredFrom(p, r.row, Truncated(s.submitted[c]), r.headHash, r.headTime)
    && MicrosecondHead(r.headTime) && HeadIsCurrent(s, c, r.headHash, r.headTime)
  }

  /** Row `i` is what its writer submitted, linked after the rows before it. */
  ghost predicate RowInv(p: Primitives, s: State, i: nat)
    requires i < |s.table| && i < |s.writers|
  {
    var c := s.writers[i];
    && c in s.submitted && c in s.calls && c in s.replies && s.replies[c]
    && StoredFrom(p, s.table[i], Truncated(s.submitted[c]), HeadHash(s.table[..i]), HeadTime(s.table[..i]))
  }

  ghost predicate Inv(p: Primitives, s: State) {
    && Chain(p, s.table)
    && |s.writers| == |s.table|
    && (forall i, j :: 0 <= i < j < |s.writers| ==> s.writers[i] != s.writers[j])
    && (forall c :: c in s.calls ==> CallInv(p, s, c) && OutcomeInv(s, c))
    && (forall c :: c in s.requests ==> RequestInv(p, s, c))
    && (forall c :: c in s.replies ==> c in s.calls && (s.replies[c] ==> c in s.writers))
    && (forall i :: 0 <= i < |s.table| ==> RowInv(p, s, i))
  }

  /** The server's commit keeps the invariant: the row links to the head, which the lock has
      kept current since it was read. */
  lemma CommitKeepsInv(p: Primitives, s: State, c: CallId)
    requires Inv(p, s) && Enabled(s, ServerCommits(c))
    ensures Inv(p, Next(p, s, ServerCommits(c)))
  {
    hide Linked, HashOf, StoredFrom, Chain;
    var s' := Next(p, s, ServerCommits(c));
    var r := s.requests[c];
    assert RequestInv(p, s, c) && CallInv(p, s, c) && OutcomeInv(s, c);
    forall i | 0 <= i < |s.writers|
      ensures s.writers[i] != c
    {
      assert RowInv(p, s, i);
    }
    LinkedFits(p, r.row, Truncated(s.submitted[c]), r.headHash, r.headTime);
    ExtendChain(p, s.table, r.row);
    forall i | 0 <= i < |s'.table|
      ensures RowInv(p, s', i)
    {
      CommitKeepsRow(p, s, c, i);
    }
    hide CallInv, OutcomeInv, RequestInv, RowInv;
    forall d | d in s'.calls
      ensures CallInv(p, s', d) && OutcomeInv(s', d)
    {
      CommitKeepsCall(p, s, c, d);
      CommitKeepsOutcome(p, s, c, d);
    }
    forall d | d in s'.requests
      ensures RequestInv(p, s', d)
    {
      CommitKeepsRequest(p, s, c, d);
    }
  }

  lemma CommitKeepsRow(p: Primitives, s: State, c: CallId, i: nat)
    requires Inv(p, s) && Enabled(s, ServerCommits(c)) && i <= |s.table|
    ensures RowInv(p, Next(p, s, ServerCommits(c)), i)
  {
    hide Linked, HashOf, StoredFrom, Chain;
    var s' := Next(p, s, ServerCommits(c));
    assert RequestInv(p, s, c);
    if i < |s.table| {
      assert RowInv(p, s, i);
      assert s'.table[..i] == s.table[..i];
    } else {
      LinkedFits(p, s.requests[c].row, Truncated(s.submitted[c]), s.requests[c].headHash, s.requests[c].headTime);
      assert s'.table[..i] == s.table;
    }
  }

  lemma CommitKeepsCall(p: Primitives, s: State, c: CallId, d: CallId)
    requires Inv(p, s) && Enabled(s, ServerCommits(c)) && d in Next(p, s, ServerCommits(c)).calls
    ensures CallInv(p, Next(p, s, ServerCommits(c)), d)
  {
    hide Linked, HashOf, StoredFrom, Chain, RowInv;
    assert CallInv(p, s, d) && OutcomeInv(s, d) && OutcomeInv(s, c);
    assert RequestInv(p, s, c);
  }

  lemma CommitKeepsOutcome(p: Primitives, s: State, c: CallId, d: CallId)
    requires Inv(p, s) && Enabled(s, ServerCommits(c)) && d in Next(p, s, ServerCommits(c)).calls
    ensures OutcomeInv(Next(p, s, ServerCommits(c)), d)
  {
    hide Linked, HashOf, StoredFrom, Chain, RowInv, CallInv;
    assert OutcomeInv(s, d);
  }

  lemma CommitKeepsRequest(p: Primitives, s: State, c: CallId, d: CallId)
    requires Inv(p, s) && Enabled(s, ServerCommits(c)) && d in Next(p, s, ServerCommits(c)).requests
    ensures RequestInv(p, Next(p, s, ServerCommits(c)), d)
  {
    hide Linked, HashOf, StoredFrom, Chain, RowInv, CallInv, OutcomeInv;
    assert RequestInv(p, s, d);
  }

  /** Every other step keeps each call's part of the invariant: what the stepping call holds ... */
  lemma StepKeepsOwnCall(p: Primitives, s: State, ev: Event)
    requires Inv(p, s) && Enabled(s, ev) && !ev.ServerCommits?
    requires ev.call in Next(p, s, ev).calls
    ensures CallInv(p, Next(p, s, ev), ev.call)
  {
    hide Linked, HashOf, Chain, StoredFrom, SelectHeadHash, SelectHeadTime, CommitAccepts, OutcomeInv;
    if ev.call in s.calls {
      assert CallInv(p, s, ev.call);
    }
    if ev.ReadHead? {
      NewestOfChain(p, s.table);
    } else if ev.Sign? || ev.SendCommit? {
      SealedIsStored(p, s, ev.call);
    }
  }

  /** ... what any other call holds ... */
  lemma StepKeepsOtherCall(p: Primitives, s: State, ev: Event, d: CallId)
    requires Enabled(s, ev) && !ev.ServerCommits?
    requires d != ev.call && d in s.calls && CallInv(p, s, d)
    ensures d in Next(p, s, ev).calls && CallInv(p, Next(p, s, ev), d)
  {
    hide Linked, HashOf, StoredFrom, SelectHeadHash, SelectHeadTime, CommitAccepts;
    var s' := Next(p, s, ev);
    assert s'.calls[d] == s.calls[d] && s'.table == s.table;
    assert s'.lock == Some(d) ==> s.lock == Some(d);
  }

  /** ... what it may report ... */
  lemma StepKeepsOutcome(p: Primitives, s: State, ev: Event, d: CallId)
    requires Inv(p, s) && Enabled(s, ev) && !ev.ServerCommits?
    requires d in Next(p, s, ev).calls
    ensures OutcomeInv(Next(p, s, ev), d)
  {
    hide Linked, HashOf, Chain, StoredFrom, SelectHeadHash, SelectHeadTime, CommitAccepts, CallInv;
    if d in s.calls {
      assert OutcomeInv(s, d);
      if ev.SendCommit? {
        SealedIsStored(p, s, ev.call);
      }
    } else {
      assert d in s.requests ==> RequestInv(p, s, d);
    }
  }

  /** ... the rows ... */
  lemma StepKeepsRow(p: Primitives, s: State, ev: Event, i: nat)
    requires Inv(p, s) && Enabled(s, ev) && !ev.ServerCommits?
    requires i < |s.table|
    ensures RowInv(p, Next(p, s, ev), i)
  {
    hide Linked, HashOf, Chain, StoredFrom, SelectHeadHash, SelectHeadTime, CommitAccepts, CallInv;
    assert RowInv(p, s, i);
    assert OutcomeInv(s, s.writers[i]);
  }

  /** ... and each pending request's part. */
  lemma StepKeepsRequest(p: Primitives, s: State, ev: Event, d: CallId)
    requires Inv(p, s) && Enabled(s, ev) && !ev.ServerCommits?
    requires d in Next(p, s, ev).requests
    ensures RequestInv(p, Next(p, s, ev), d)
  {
    hide Linked, HashOf, Chain, StoredFrom, SelectHeadHash, SelectHeadTime, CommitAccepts;
    if d in s.requests {
      assert RequestInv(p, s, d);
    } else {
      assert CallInv(p, s, d);
    }
  }

  /** Every step but the server's commit leaves the table alone and keeps the invariant. */
  lemma OtherStepKeepsInv(p: Primitives, s: State, ev: Event)
    requires Inv(p, s) && Enabled(s, ev) && !ev.ServerCommits?
    ensures Inv(p, Next(p, s, ev))
  {
    hide Linked, HashOf, Chain, StoredFrom, CallInv, OutcomeInv, SelectHeadHash, SelectHeadTime, CommitAccepts;
    var s' := Next(p, s, ev);
    assert ev.ServerRejects? ==> RequestInv(p, s, ev.call);
    forall d | d in s'.calls
      ensures CallInv(p, s', d) && OutcomeInv(s', d)
    {
      if d == ev.call {
        StepKeepsOwnCall(p, s, ev);
      } else {
        assert CallInv(p, s, d);
        StepKeepsOtherCall(p, s, ev, d);
      }
      StepKeepsOutcome(p, s, ev, d);
    }
    forall d | d in s'.requests
      ensures RequestInv(p, s', d)
    {
      StepKeepsRequest(p, s, ev, d);
    }
    forall i | 0 <= i < |s'.table|
      ensures RowInv(p, s', i)
    {
      StepKeepsRow(p, s, ev, i);
    }
  }

  lemma NewestOfChain(p: Primitives, table: seq<DbEvent>)
    requires Chain(p, table)
    ensures SelectHeadHash(table) == HeadHash(table) && SelectHeadTime(table) == HeadTime(table)
    ensures MicrosecondHead(HeadTime(table))
  {
    NewestIsHead(table);
  }

  /** Signing does not disturb the linked record, and a linked record passes the commit check. */
  lemma SealedIsStored(p: Primitives, s: State, c: CallId)
    requires Inv(p, s) && c in s.calls
    ensures var k := s.calls[c];
            && (k.Hashed? ==> forall sign ::
                  StoredFrom(p, ToDb(WithSignature(k.event, sign)), Truncated(s.submitted[c]), k.headHash, k.headTime))
            && (k.Sealed? ==> CommitAccepts(ToDb(k.event), k.headHash, k.headTime)
                              && InColumns(ToDb(k.event)) == ToDb(k.event))
  {
    hide Linked, HashOf, Chain;
    var k := s.calls[c];
    assert CallInv(p, s, c);
    if k.Sealed? {
      LinkedFits(p, ToDb(k.event), Truncated(s.submitted[c]), k.headHash, k.headTime);
    }
  }

  lemma {:induction false} RunKeepsInv(p: Primitives, events: seq<Event>)
    requires After(p, events).Some?
    ensures Inv(p, After(p, events).value)
  {
    if events != [] {
      var prefix, ev := events[..|events| - 1], events[|events| - 1];
      RunKeepsInv(p, prefix);
      var s := After(p, prefix).value;
      if ev.ServerCommits? {
        CommitKeepsInv(p, s, ev.call);
      } else {
        OtherStepKeepsInv(p, s, ev);
      }
    }
  }

  // ----- Results -----

  /** Over every run, the committed rows form one unforked chain: the first has no link, every
      later one links to its predecessor, every hash recomputes, timestamps strictly increase;
      the verifier, which reads the table by timestamp, reads it in commit order and accepts. */
  lemma ChainSafety(p: Primitives, events: seq<Event>)
    requires After(p, events).Some?
    ensures var table := After(p, events).value.table;
            Chain(p, table) && OrderedByTime(table) == table && Verifies(p, OrderedByTime(table))
  {
    RunKeepsInv(p, events);
    OrderIsCommitOrder(After(p, events).value.table);
  }

  /** Over every run, every row was written by one call and no call wrote two rows; a call that
      reported success wrote one; a call that failed to begin or to sign, or whose commit the server
      answered with a refusal, wrote none; and a call that reported an unknown outcome or a failed
      commit wrote one exactly when the server applied the commit. The check before the insert never
      refuses. */
  lemma ReportsAreTrue(p: Primitives, events: seq<Event>, c: CallId)
    requires After(p, events).Some? && c in After(p, events).value.calls
    ensures var s := After(p, events).value;
            && |s.writers| == |s.table|
            && (forall i, j :: 0 <= i < j < |s.writers| ==> s.writers[i] != s.writers[j])
            && (s.calls[c] == Returned(Committed) ==> c in s.writers)
            && (s.calls[c] in {Returned(BeginFailed), Returned(SignFailed)} ==> c !in s.writers)
            && (c in s.writers <==> c in s.replies && s.replies[c])
            && (c in s.writers ==>
                  s.calls[c] in {Committing, Returned(Committed), Returned(CommitUnknown), Returned(CommitFailed)})
            && s.calls[c] != Returned(Refused)
  {
    RunKeepsInv(p, events);
    var s := After(p, events).value;
    assert OutcomeInv(s, c);
    if c in s.writers {
      var i :| 0 <= i < |s.writers| && s.writers[i] == c;
      assert RowInv(p, s, i);
    }
  }

  predicate Grows(s: State, s': State) {
    && s.table <= s'.table && s.writers <= s'.writers
    && forall c :: c in s.calls && s.calls[c].Returned? ==> c in s'.calls && s'.calls[c] == s.calls[c]
  }

  lemma StepGrows(p: Primitives, s: State, ev: Event)
    requires Enabled(s, ev)
    ensures Grows(s, Next(p, s, ev))
  {
    hide Linked, SelectHeadHash, SelectHeadTime, CommitAccepts, Truncated, ToDb;
  }

  /** What the run says of a call whose commit was reported as failed. */
  predicate CommitRecord(s: State, events: seq<Event>, c: CallId) {
    && (c in s.writers <==> ServerCommits(c) in events)
    && (ReplyArrives(c) in events ==>
          c in s.calls && s.calls[c] == Returned(if c in s.writers then Committed else CommitFailed)
          && c !in s.requests)
    && (c in s.calls && s.calls[c] == Returned(CommitFailed) ==> ReplyArrives(c) in events || CommitErrors(c) in events)
  }

  lemma StepKeepsRecord(p: Primitives, s: State, events: seq<Event>, ev: Event, c: CallId)
    requires Inv(p, s) && Enabled(s, ev) && CommitRecord(s, events, c)
    ensures CommitRecord(Next(p, s, ev), events + [ev], c)
  {
    hide Linked, HashOf, Chain, StoredFrom, SelectHeadHash, SelectHeadTime, CommitAccepts, CallInv, RequestInv, RowInv;
    if c in s.calls {
      assert OutcomeInv(s, c);
    }
    if c in s.requests {
      assert RequestInv(p, s, c);
    }
    if c in s.writers {
      WriterReplied(p, s, c);
    }
  }

  lemma WriterReplied(p: Primitives, s: State, c: CallId)
    requires Inv(p, s) && c in s.writers
    ensures c in s.calls && c in s.replies && s.replies[c]
  {
    var i :| 0 <= i < |s.writers| && s.writers[i] == c;
    assert RowInv(p, s, i);
  }

  lemma {:induction false} RunKeepsRecord(p: Primitives, events: seq<Event>, c: CallId)
    requires After(p, events).Some?
    ensures CommitRecord(After(p, events).value, events, c)
  {
    hide Inv, CommitRecord, Next, Enabled;
    if events == [] {
      EmptyRecord(c);
    } else {
      var prefix, ev := events[..|events| - 1], events[|events| - 1];
      RunKeepsInv(p, prefix);
      RunKeepsRecord(p, prefix, c);
      StepKeepsRecord(p, After(p, prefix).value, prefix, ev, c);
      assert events == prefix + [ev];
    }
  }

  lemma EmptyRecord(c: CallId)
    ensures CommitRecord(INITIAL, [], c)
  {
  }

  /** The report "commit failed" does not say that nothing was written. Over every run, the call
      wrote a row exactly when the server processed its commit, and then the report came from a lost
      connection and not from the server's answer. */
  lemma FailedCommitWroteExactlyIfApplied(p: Primitives, events: seq<Event>, c: CallId)
    requires After(p, events).Some? && c in After(p, events).value.calls
    requires After(p, events).value.calls[c] == Returned(CommitFailed)
    ensures var s := After(p, events).value;
            && (c in s.writers <==> ServerCommits(c) in events)
            && (c in s.writers ==> CommitErrors(c) in events && ReplyArrives(c) !in events)
            && (ReplyArrives(c) in events ==> c !in s.writers && c !in s.requests)
  {
    RunKeepsRecord(p, events, c);
  }

  /** Rows are never changed or removed, and a report, once made, stands. Together with
      `ReportsAreTrue` a call that failed to begin or to sign is never written later. */
  lemma {:induction false} LogOnlyGrows(p: Primitives, events: seq<Event>, more: seq<Event>)
    requires After(p, events + more).Some?
    ensures After(p, events).Some?
    ensures Grows(After(p, events).value, After(p, events + more).value)
    decreases |more|
  {
    hide Next, Enabled;
    if more == [] {
      assert events + more == events;
    } else {
      var prefix, ev := more[..|more| - 1], more[|more| - 1];
      assert (events + more)[..|events + more| - 1] == events + prefix;
      LogOnlyGrows(p, events, prefix);
      StepGrows(p, After(p, events + prefix).value, ev);
    }
  }

  /** Over every run, each row is its writer's event: the original time is read back from the
      row, `occurred_at` marks exactly the rows that were moved past the head, and a row was moved
      only when it was not later than the row before it. */
  lemma EventTimesKept(p: Primitives, events: seq<Event>, i: nat)
    requires After(p, events).Some? && i < |After(p, events).value.table|
    ensures var s := After(p, events).value;
            && |s.writers| == |s.table| && s.writers[i] in s.submitted
            && var submitted := Truncated(s.submitted[s.writers[i]]);
            var stored := FromDb(s.table[i]);
            && EventTime(stored) == Some(submitted.timestamp)
            && (HasOccurredAt(stored) <==> stored.timestamp != submitted.timestamp)
            && (stored.timestamp != submitted.timestamp ==>
                  i > 0 && submitted.timestamp <= s.table[i - 1].timestamp)
            && stored.id == submitted.id && stored.actor == submitted.actor && stored.target == submitted.target
            && stored.action == submitted.action && stored.eventType == submitted.eventType
            && stored.outcome == submitted.outcome
  {
    hide HashOf;
    RunKeepsInv(p, events);
    var s := After(p, events).value;
    assert RowInv(p, s, i);
    var e := Truncated(s.submitted[s.writers[i]]);
    var head := HeadTime(s.table[..i]);
    var linked := Linked(p, e, HeadHash(s.table[..i]), head);
    DbRoundTrip(linked);
    assert FromDb(s.table[i]).details == linked.details;
    var moved := e.(previousHash := HeadHash(s.table[..i]));
    RestampKeepsEventTime(moved, head);
  }

  /** Over every run, each row keeps the details its writer submitted: other keys of an object are
      untouched except `caller_occurred_at`, anything else is kept in place or wrapped, and what
      stands under `occurred_at` is the original time and never the caller's differing value. */
  lemma DetailsKept(p: Primitives, events: seq<Event>, i: nat, key: string)
    requires After(p, events).Some? && key != OCCURRED_AT && i < |After(p, events).value.table|
    ensures var s := After(p, events).value;
            && |s.writers| == |s.table| && s.writers[i] in s.submitted
            && var submitted := Truncated(s.submitted[s.writers[i]]);
            var stored := FromDb(s.table[i]);
            && (submitted.details.Some? && submitted.details.value.JObject? && key != CALLER_OCCURRED_AT ==>
                  CallerDetail(stored, key) == CallerDetail(submitted, key))
            && (submitted.details.Some? && !submitted.details.value.JObject? ==>
                  stored.details == submitted.details || CallerDetail(stored, WRAPPED_DETAILS) == submitted.details)
            && (HasOccurredAt(stored) ==>
                  CallerDetail(stored, OCCURRED_AT) == Some(JString(RenderMicros(submitted.timestamp))))
  {
    hide HashOf, RenderMicros;
    RunKeepsInv(p, events);
    var s := After(p, events).value;
    assert RowInv(p, s, i);
    var e := Truncated(s.submitted[s.writers[i]]);
    var head := HeadTime(s.table[..i]);
    var linked := Linked(p, e, HeadHash(s.table[..i]), head);
    DbRoundTrip(linked);
    assert FromDb(s.table[i]).details == linked.details;
    RestampKeepsDetails(e.(previousHash := HeadHash(s.table[..i])), head, key);
  }

  function SealSteps(c: CallId, e: AuditEvent, sign: SignOutcome): seq<Event> {
    [Start(c, e), TakeLock(c), ReadHead(c), LinkAndHash(c), Sign(c, sign)]
  }

  function ApplySteps(c: CallId): seq<Event> {
    [SendCommit(c), ServerCommits(c)]
  }

  function CommitSteps(c: CallId): seq<Event> {
    ApplySteps(c) + [ReplyArrives(c)]
  }

  /** A call that meets no failure is written: from any reachable state with the lock free, the
      eight steps of `record` append exactly the linked and signed event and report success. */
  lemma UncontendedCallCommits(p: Primitives, events: seq<Event>, c: CallId, e: AuditEvent, sign: SignOutcome)
    requires After(p, events).Some?
    requires var s := After(p, events).value;
             && s.lock == None && c !in s.calls && !sign.NoSignature?
             && forall i :: 0 <= i < |s.table| ==> s.table[i].id != e.id
    ensures var s := After(p, events).value;
            var s' := After(p, events + SealSteps(c, e, sign) + CommitSteps(c));
            var linked := Linked(p, Truncated(e), HeadHash(s.table), HeadTime(s.table));
            && s'.Some? && s'.value.table == s.table + [ToDb(WithSignature(linked, sign))]
            && c in s'.value.calls && s'.value.calls[c] == Returned(Committed) && s'.value.lock == None
  {
    hide HashOf, StoredFrom, SealSteps, CommitSteps, Inv;
    UncontendedCallSeals(p, events, c, e, sign);
    SealedCallCommits(p, events + SealSteps(c, e, sign), c);
  }

  lemma UncontendedCallSeals(p: Primitives, events: seq<Event>, c: CallId, e: AuditEvent, sign: SignOutcome)
    requires After(p, events).Some? && !sign.NoSignature?
    requires After(p, events).value.lock == None && c !in After(p, events).value.calls
    ensures var s := After(p, events).value;
            var s' := After(p, events + SealSteps(c, e, sign));
            var linked := Linked(p, Truncated(e), HeadHash(s.table), HeadTime(s.table));
            && s'.Some? && s'.value.table == s.table && s'.value.lock == Some(c) && c in s'.value.calls
            && s'.value.calls[c] == Sealed(WithSignature(linked, sign), HeadHash(s.table), HeadTime(s.table))
  {
    hide HashOf, StoredFrom, Linked;
    RunKeepsInv(p, events);
    NewestOfChain(p, After(p, events).value.table);
    var s1 := StepAfter(p, events, Start(c, e));
    var e1 := events + [Start(c, e)];
    var s2 := StepAfter(p, e1, TakeLock(c));
    var e2 := e1 + [TakeLock(c)];
    var s3 := StepAfter(p, e2, ReadHead(c));
    var e3 := e2 + [ReadHead(c)];
    var s4 := StepAfter(p, e3, LinkAndHash(c));
    var e4 := e3 + [LinkAndHash(c)];
    var s5 := StepAfter(p, e4, Sign(c, sign));
    assert e4 + [Sign(c, sign)] == events + SealSteps(c, e, sign);
  }

  lemma SealedCallCommits(p: Primitives, events: seq<Event>, c: CallId)
    requires After(p, events).Some?
    requires var s := After(p, events).value;
             && s.lock == Some(c) && c in s.calls && s.calls[c].Sealed?
             && forall i :: 0 <= i < |s.table| ==> s.table[i].id != s.calls[c].event.id
    ensures var s, s' := After(p, events).value, After(p, events + CommitSteps(c));
            && s'.Some? && s'.value.table == s.table + [ToDb(s.calls[c].event)]
            && c in s'.value.calls && s'.value.calls[c] == Returned(Committed) && s'.value.lock == None
  {
    hide HashOf, StoredFrom, Linked, Inv;
    SealedCallIsApplied(p, events, c);
    var applied := events + ApplySteps(c);
    var s8 := StepAfter(p, applied, ReplyArrives(c));
    assert applied + [ReplyArrives(c)] == events + CommitSteps(c);
  }

  lemma SealedCallIsApplied(p: Primitives, events: seq<Event>, c: CallId)
    requires After(p, events).Some?
    requires var s := After(p, events).value;
             && s.lock == Some(c) && c in s.calls && s.calls[c].Sealed?
             && forall i :: 0 <= i < |s.table| ==> s.table[i].id != s.calls[c].event.id
    ensures var s, s' := After(p, events).value, After(p, events + ApplySteps(c));
            && s'.Some? && s'.value.table == s.table + [ToDb(s.calls[c].event)]
            && c in s'.value.calls && s'.value.calls[c] == Committing && s'.value.lock == None
            && c in s'.value.replies && s'.value.replies[c]
  {
    hide HashOf, StoredFrom, Linked, Inv;
    RunKeepsInv(p, events);
    SealedIsStored(p, After(p, events).value, c);
    var s6 := StepAfter(p, events, SendCommit(c));
    var e6 := events + [SendCommit(c)];
    var s7 := StepAfter(p, e6, ServerCommits(c));
    assert e6 + [ServerCommits(c)] == events + ApplySteps(c);
  }

  /** A call whose connection is lost after the server applied its commit reports that the commit
      failed, and its row is in the log: from any reachable state with the lock free. */
  lemma FailedCommitMayBeWritten(p: Primitives, events: seq<Event>, c: CallId, e: AuditEvent, sign: SignOutcome)
    requires After(p, events).Some?
    requires var s := After(p, events).value;
             && s.lock == None && c !in s.calls && !sign.NoSignature?
             && forall i :: 0 <= i < |s.table| ==> s.table[i].id != e.id
    ensures var s := After(p, events).value;
            var s' := After(p, events + SealSteps(c, e, sign) + ApplySteps(c) + [CommitErrors(c)]);
            var linked := Linked(p, Truncated(e), HeadHash(s.table), HeadTime(s.table));
            && s'.Some? && s'.value.table == s.table + [ToDb(WithSignature(linked, sign))]
            && c in s'.value.calls && s'.value.calls[c] == Returned(CommitFailed)
  {
    hide HashOf, StoredFrom, SealSteps, ApplySteps, Inv;
    UncontendedCallSeals(p, events, c, e, sign);
    SealedCallIsApplied(p, events + SealSteps(c, e, sign), c);
    var s8 := StepAfter(p, events + SealSteps(c, e, sign) + ApplySteps(c), CommitErrors(c));
  }

  lemma StepAfter(p: Primitives, events: seq<Event>, ev: Event) returns (s: State)
    requires After(p, events).Some? && Enabled(After(p, events).value, ev)
    ensures After(p, events + [ev]) == Some(s) && s == Next(p, After(p, events).value, ev)
  {
    assert (events + [ev])[..|events|] == events;
    s := Next(p, After(p, events).value, ev);
  }
}
