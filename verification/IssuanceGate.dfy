/** The approval gate of `issue`, with approval required, as a protocol: any number of calls, each
    reading its approval, storing a certificate, marking the approval completed and recording the
    outcome, interleaved with each other and with anyone who changes approval rows. */
module IssuanceGate {
  import opened Common
  import opened Approval

  type ApprovalId = nat
  type CallId = nat

  datatype Refusal = ApprovalIdRequired | NotFound | NotApproved(current: Status) | WrongType(requestType: RequestType) | AlreadyUsed

  /** The checks on the approval row, in order. */
  function Gate(row: Option<Record>): (r: Result<Record, Refusal>)
    ensures r.Ok? <==>
              && row.Some? && row.value.certificate.None?
              && ToLower(row.value.status) == "approved"
              && ToLower(row.value.requestType) !in {"revocation", "renewal"}
    ensures r.Ok? ==> row == Some(r.value)
  {
    if row.None? then Err(NotFound)
    else
      var request := Restored(row.value);
      if request.status != Approved then Err(NotApproved(request.status))
      else if request.requestType != Issuance then Err(WrongType(request.requestType))
      else if request.certificate.Some? then Err(AlreadyUsed)
      else Ok(row.value)
  }

  /** Times are counted in events of the run. */
  datatype Call =
    | Begun(given: Option<ApprovalId>)
    | Passed(approval: ApprovalId, row: Record, readAt: nat)
    | CertificateStored(approval: ApprovalId, row: Record, readAt: nat, certificate: CertificateId)
    | Marked(approval: ApprovalId, row: Record, readAt: nat, certificate: CertificateId, markedAt: nat)
    | Succeeded(approval: ApprovalId, row: Record, readAt: nat, certificate: CertificateId, markedAt: nat)
    | Failed(unmarked: Option<ApprovalId>)

  datatype Issued = Issued(approval: ApprovalId, certificate: CertificateId, call: CallId)

  /** `issued` lists the stored certificates in order. A failed call is `unmarked` for an approval when
      it stored a certificate and ended before marking. */
  datatype State = State(time: nat, approvals: map<ApprovalId, Record>, certificates: set<CertificateId>,
                         issued: seq<Issued>, calls: map<CallId, Call>)

  const INITIAL := State(0, map[], {}, [], map[])

  datatype Event =
    | Create(id: ApprovalId, record: Record)
    | SetStatus(id: ApprovalId, status: string, approvedAt: Option<Instant>)
    | MarkElsewhere(id: ApprovalId, certificate: CertificateId, at: Instant)
    | Begin(call: CallId, given: Option<ApprovalId>)
    | ReadApproval(call: CallId)
    | StoreCertificate(call: CallId, certificate: CertificateId)
    | Mark(call: CallId, at: Instant)
    | MarkReplyLost(call: CallId, at: Instant)
    | Finish(call: CallId)
    | Fail(call: CallId)

  predicate CallAt(s: State, c: CallId, stage: Call -> bool) {
    c in s.calls && stage(s.calls[c])
  }

  predicate Finished(k: Call) {
    k.Succeeded? || k.Failed?
  }

  predicate Enabled(s: State, ev: Event) {
    match ev
    case Create(id, _) => id !in s.approvals
    case SetStatus(id, _, _) => id in s.approvals
    case MarkElsewhere(id, _, _) => id in s.approvals
    case Begin(c, _) => c !in s.calls
    case ReadApproval(c) => CallAt(s, c, (k: Call) => k.Begun?)
    case StoreCertificate(c, certificate) => CallAt(s, c, (k: Call) => k.Passed?) && certificate !in s.certificates
    case Mark(c, _) => CallAt(s, c, (k: Call) => k.CertificateStored? && k.approval in s.approvals)
    case MarkReplyLost(c, _) => CallAt(s, c, (k: Call) => k.CertificateStored? && k.approval in s.approvals)
    case Finish(c) => CallAt(s, c, (k: Call) => k.Marked?)
    case Fail(c) => CallAt(s, c, (k: Call) => !Finished(k))
  }

  /** `UPDATE approval_requests SET status = 'completed', certificate_id = ..., completed_at = ...` */
  function MarkedRow(row: Record, certificate: CertificateId, at: Instant): Record {
    row.(status := "completed", certificate := Some(certificate), completedAt := Some(at))
  }

  /** A marked row is used for good: it reads as completed with its certificate, everything else is as
      it was, and whatever status is written to it later, the gate refuses it. */
  lemma MarkedIsUsed(row: Record, certificate: CertificateId, at: Instant, status: string, approvedAt: Option<Instant>)
    ensures var marked := MarkedRow(row, certificate, at);
            && marked.status == "completed" && marked.certificate == Some(certificate) && marked.completedAt == Some(at)
            && marked.requestType == row.requestType && marked.requestor == row.requestor
            && marked.expiresAt == row.expiresAt && marked.approvedAt == row.approvedAt
            && Restored(marked).status == Completed
            && Gate(Some(marked.(status := status, approvedAt := approvedAt))).Err?
  {
    LowerIsLower("completed");
  }

  /** Which check refuses a row: the first that fails. */
  lemma RefusalsInOrder(row: Record)
    ensures var status := ToLower(row.status);
            if status != "approved" then Gate(Some(row)).Err? && Gate(Some(row)).error.NotApproved?
            else if ToLower(row.requestType) in {"revocation", "renewal"} then
              Gate(Some(row)).Err? && Gate(Some(row)).error.WrongType?
            else if row.certificate.Some? then Gate(Some(row)) == Err(AlreadyUsed)
            else Gate(Some(row)) == Ok(row)
    ensures Gate(None) == Err(NotFound)
  {
  }

  function Lookup(s: State, id: ApprovalId): Option<Record> {
    if id in s.approvals then Some(s.approvals[id]) else None
  }

  function AfterRead(s: State, given: Option<ApprovalId>): Call {
    if given.None? || Gate(Lookup(s, given.value)).Err? then Failed(None)
    else Passed(given.value, s.approvals[given.value], s.time)
  }

  function Next(s: State, ev: Event): State
    requires Enabled(s, ev)
  {
    var s' := s.(time := s.time + 1);
    match ev
    case Create(id, record) => s'.(approvals := s.approvals[id := record])
    case SetStatus(id, status, approvedAt) =>
      s'.(approvals := s.approvals[id := s.approvals[id].(status := status, approvedAt := approvedAt)])
    case MarkElsewhere(id, certificate, at) =>
      s'.(approvals := s.approvals[id := MarkedRow(s.approvals[id], certificate, at)])
    case Begin(c, given) => s'.(calls := s.calls[c := Begun(given)])
    case ReadApproval(c) => s'.(calls := s.calls[c := AfterRead(s, s.calls[c].given)])
    case StoreCertificate(c, certificate) =>
      var k := s.calls[c];
      s'.(certificates := s.certificates + {certificate},
          issued := s.issued + [Issued(k.approval, certificate, c)],
          calls := s.calls[c := CertificateStored(k.approval, k.row, k.readAt, certificate)])
    case Mark(c, at) =>
      var k := s.calls[c];
      s'.(approvals := s.approvals[k.approval := MarkedRow(s.approvals[k.approval], k.certificate, at)],
          calls := s.calls[c := Marked(k.approval, k.row, k.readAt, k.certificate, s.time)])
    case MarkReplyLost(c, at) =>
      var k := s.calls[c];
      s'.(approvals := s.approvals[k.approval := MarkedRow(s.approvals[k.approval], k.certificate, at)],
          calls := s.calls[c := Failed(None)])
    case Finish(c) =>
      var k := s.calls[c];
      s'.(calls := s.calls[c := Succeeded(k.approval, k.row, k.readAt, k.certificate, k.markedAt)])
    case Fail(c) =>
      var k := s.calls[c];
      s'.(calls := s.calls[c := Failed(if k.CertificateStored? then Some(k.approval) else None)])
  }

  /** The state after a run of events from empty tables, if every event was possible. */
  function After(events: seq<Event>): Option<State> {
    if events == [] then Some(INITIAL)
    else
      var before := After(events[..|events| - 1]);
      var ev := events[|events| - 1];
      if before.Some? && Enabled(before.value, ev) then Some(Next(before.value, ev)) else None
  }

  // ----- The invariant -----

  predicate HasRead(k: Call) {
    k.Passed? || k.CertificateStored? || k.Marked? || k.Succeeded?
  }

  predicate HasMarked(k: Call) {
    k.Marked? || k.Succeeded?
  }

  /** A mark is never undone: nothing clears `certificate_id`. */
  predicate CallInv(s: State, c: CallId)
    requires c in s.calls
  {
    var k := s.calls[c];
    && (HasRead(k) ==> k.readAt < s.time && Gate(Some(k.row)).Ok?)
    && (HasMarked(k) ==> k.readAt < k.markedAt < s.time && k.approval in s.approvals && s.approvals[k.approval].certificate.Some?)
    && (k.CertificateStored? || HasMarked(k) ==> k.certificate in s.certificates)
  }

  /** Whoever passed the gate read the row before anyone else's mark on it, and no two calls store
      the same certificate. */
  predicate PairInv(k: Call, l: Call) {
    && (HasRead(k) && HasMarked(l) && k.approval == l.approval ==> k.readAt < l.markedAt)
    && ((k.CertificateStored? || HasMarked(k)) && (l.CertificateStored? || HasMarked(l)) ==> k.certificate != l.certificate)
  }

  predicate Inv(s: State) {
    && (forall c :: c in s.calls ==> CallInv(s, c))
    && (forall c, d :: c in s.calls && d in s.calls && c != d ==> PairInv(s.calls[c], s.calls[d]))
  }

  lemma StepKeepsCall(s: State, ev: Event, c: CallId)
    requires Inv(s) && Enabled(s, ev) && c in Next(s, ev).calls
    ensures CallInv(Next(s, ev), c)
  {
    hide Gate, PairInv;
    if c in s.calls {
      assert CallInv(s, c);
    }
  }

  lemma StepKeepsPair(s: State, ev: Event, c: CallId, d: CallId)
    requires Inv(s) && Enabled(s, ev) && c in Next(s, ev).calls && d in Next(s, ev).calls && c != d
    ensures PairInv(Next(s, ev).calls[c], Next(s, ev).calls[d])
  {
    if c in s.calls && d in s.calls {
      assert CallInv(s, c) && CallInv(s, d);
      assert PairInv(s.calls[c], s.calls[d]);
    }
  }

  lemma {:induction false} RunKeepsInv(events: seq<Event>)
    requires After(events).Some?
    ensures Inv(After(events).value)
  {
    hide CallInv, PairInv, Gate;
    if events != [] {
      var prefix, ev := events[..|events| - 1], events[|events| - 1];
      RunKeepsInv(prefix);
      var s := After(prefix).value;
      var s' := Next(s, ev);
      forall c | c in s'.calls
        ensures CallInv(s', c)
      {
        StepKeepsCall(s, ev, c);
      }
      forall c, d | c in s'.calls && d in s'.calls && c != d
        ensures PairInv(s'.calls[c], s'.calls[d])
      {
        StepKeepsPair(s, ev, c, d);
      }
    }
  }

  // ----- Results -----

  /** Over every run, a successful issue read an approval row that was approved, for issuance and
      not yet used, and marked it after that. */
  lemma IssuesAreApproved(events: seq<Event>, c: CallId)
    requires After(events).Some?
    requires var s := After(events).value; c in s.calls && s.calls[c].Succeeded?
    ensures var s := After(events).value;
            var k := s.calls[c];
            && ToLower(k.row.status) == "approved" && ToLower(k.row.requestType) !in {"revocation", "renewal"}
            && k.row.certificate.None?
            && k.readAt < k.markedAt && k.certificate in s.certificates
            && k.approval in s.approvals && s.approvals[k.approval].certificate.Some?
  {
    RunKeepsInv(events);
    assert CallInv(After(events).value, c);
  }

  /** Over every run, two successful issues on one approval issued different certificates, and each
      read the approval before the other marked it: only calls that overlap can share an approval. */
  lemma SharersOverlap(events: seq<Event>, c: CallId, d: CallId)
    requires After(events).Some? && c != d
    requires var s := After(events).value;
             && c in s.calls && d in s.calls && s.calls[c].Succeeded? && s.calls[d].Succeeded?
             && s.calls[c].approval == s.calls[d].approval
    ensures var k, l := After(events).value.calls[c], After(events).value.calls[d];
            k.readAt < l.markedAt && l.readAt < k.markedAt && k.certificate != l.certificate
  {
    RunKeepsInv(events);
    var s := After(events).value;
    assert PairInv(s.calls[c], s.calls[d]) && PairInv(s.calls[d], s.calls[c]);
  }

  /** An event of one call, while every other call is finished. */
  predicate Alone(s: State, ev: Event) {
    ev.Create? || ev.SetStatus? || ev.MarkElsewhere?
    || forall c :: c in s.calls && c != ev.call ==> Finished(s.calls[c])
  }

  predicate Sequential(events: seq<Event>)
    requires After(events).Some?
  {
    events == [] ||
    (Sequential(events[..|events| - 1]) && Alone(After(events[..|events| - 1]).value, events[|events| - 1]))
  }

  predicate Apart(k: Call, l: Call) {
    HasRead(k) && HasRead(l) ==>
      (k.Succeeded? && k.markedAt < l.readAt) || (l.Succeeded? && l.markedAt < k.readAt)
  }

  lemma StepKeepsApart(s: State, ev: Event, c: CallId, d: CallId)
    requires Inv(s) && Enabled(s, ev) && Alone(s, ev)
    requires c in Next(s, ev).calls && d in Next(s, ev).calls && c != d
    requires c in s.calls && d in s.calls ==> Apart(s.calls[c], s.calls[d])
    ensures Apart(Next(s, ev).calls[c], Next(s, ev).calls[d])
  {
    hide Gate, PairInv;
    if c in s.calls && d in s.calls {
      assert CallInv(s, c) && CallInv(s, d);
    }
  }

  lemma {:induction false} SequentialCallsAreApart(events: seq<Event>)
    requires After(events).Some? && Sequential(events)
    ensures var s := After(events).value;
            forall c, d :: c in s.calls && d in s.calls && c != d ==> Apart(s.calls[c], s.calls[d])
  {
    hide Inv, Apart, Alone, Gate;
    if events != [] {
      var prefix, ev := events[..|events| - 1], events[|events| - 1];
      SequentialCallsAreApart(prefix);
      RunKeepsInv(prefix);
      var s := After(prefix).value;
      var s' := Next(s, ev);
      forall c, d | c in s'.calls && d in s'.calls && c != d
        ensures Apart(s'.calls[c], s'.calls[d])
      {
        StepKeepsApart(s, ev, c, d);
      }
    }
  }

  /** In every sequential run each approval backs at most one successful issue. */
  lemma ApprovalIsUsedOnce(events: seq<Event>, c: CallId, d: CallId)
    requires After(events).Some? && Sequential(events)
    requires var s := After(events).value;
             && c in s.calls && d in s.calls && s.calls[c].Succeeded? && s.calls[d].Succeeded?
             && s.calls[c].approval == s.calls[d].approval
    ensures c == d
  {
    if c != d {
      SharersOverlap(events, c, d);
      SequentialCallsAreApart(events);
    }
  }

  // ----- A mark is final -----

  /** The event marks the approval as used. */
  predicate Marks(s: State, ev: Event, id: ApprovalId) {
    || (ev.MarkElsewhere? && ev.id == id)
    || ((ev.Mark? || ev.MarkReplyLost?) && CallAt(s, ev.call, (k: Call) => k.CertificateStored? && k.approval == id))
  }

  predicate IsUsed(s: State, id: ApprovalId) {
    id in s.approvals && s.approvals[id].certificate.Some?
  }

  ghost predicate WasMarked(events: seq<Event>, id: ApprovalId) {
    exists before, ev :: before + [ev] <= events && After(before).Some? && Marks(After(before).value, ev, id)
  }

  /** Marks and only marks make an existing row used; a write of its status changes that and the approval
      time. */
  lemma StepUsesExactly(s: State, ev: Event, id: ApprovalId)
    requires Enabled(s, ev)
    ensures id in s.approvals ==> (IsUsed(Next(s, ev), id) <==> IsUsed(s, id) || Marks(s, ev, id))
    ensures ev.SetStatus? ==>
              var row, row' := s.approvals[ev.id], Next(s, ev).approvals[ev.id];
              row'.status == ev.status && row'.approvedAt == ev.approvedAt
              && row'.requestType == row.requestType && row'.certificate == row.certificate
    ensures Marks(s, ev, id) ==> id in s.approvals
  {
  }

  lemma {:induction false} MarkedStaysUsed(events: seq<Event>, id: ApprovalId)
    requires After(events).Some? && WasMarked(events, id)
    ensures IsUsed(After(events).value, id)
  {
    hide Marks, IsUsed, Next, Enabled;
    var before, ev :| before + [ev] <= events && After(before).Some? && Marks(After(before).value, ev, id);
    var prefix, last := events[..|events| - 1], events[|events| - 1];
    StepUsesExactly(After(prefix).value, last, id);
    if |before| == |prefix| {
      assert before == prefix && ev == last;
    } else {
      assert before + [ev] <= prefix;
      MarkedStaysUsed(prefix, id);
      UsedExists(After(prefix).value, id);
    }
  }

  lemma UsedExists(s: State, id: ApprovalId)
    requires IsUsed(s, id)
    ensures id in s.approvals
  {
  }

  /** Over every run, once an approval has been marked, by a call whose reply arrived or not or by
      anyone else, no call that reads it afterwards passes the gate, whatever is written to its status
      in between. */
  lemma MarkedIsRefused(events: seq<Event>, c: CallId, id: ApprovalId)
    requires After(events).Some? && WasMarked(events, id)
    requires Enabled(After(events).value, ReadApproval(c)) && After(events).value.calls[c].given == Some(id)
    ensures Next(After(events).value, ReadApproval(c)).calls[c] == Failed(None)
  {
    MarkedStaysUsed(events, id);
  }

  // ----- Stored certificates -----

  /** Where the call behind a stored certificate stands: about to mark, ended before marking, or the
      approval is marked for good. */
  predicate IssuedInv(s: State, i: nat)
    requires i < |s.issued|
  {
    var e := s.issued[i];
    && e.certificate in s.certificates && e.call in s.calls
    && var k := s.calls[e.call];
    && !k.Begun? && !k.Passed?
    && (k.CertificateStored? || HasMarked(k) ==> k.approval == e.approval)
    && (k.Failed? && k.unmarked.Some? ==> k.unmarked.value == e.approval)
    && (k.CertificateStored? || k == Failed(Some(e.approval))
        || (e.approval in s.approvals && s.approvals[e.approval].certificate.Some?))
  }

  lemma StepKeepsIssued(s: State, ev: Event, i: nat)
    requires Inv(s) && Enabled(s, ev) && i < |Next(s, ev).issued|
    requires i < |s.issued| ==> IssuedInv(s, i)
    ensures IssuedInv(Next(s, ev), i)
  {
    hide Gate, PairInv, ToLower;
    if i < |s.issued| {
      var c := s.issued[i].call;
      assert CallInv(s, c);
    }
  }

  lemma {:induction false} RunKeepsIssued(events: seq<Event>)
    requires After(events).Some?
    ensures var s := After(events).value; forall i :: 0 <= i < |s.issued| ==> IssuedInv(s, i)
  {
    hide Inv, IssuedInv, Next, Enabled;
    if events != [] {
      var prefix, ev := events[..|events| - 1], events[|events| - 1];
      RunKeepsIssued(prefix);
      RunKeepsInv(prefix);
      var s := After(prefix).value;
      forall i | 0 <= i < |Next(s, ev).issued|
        ensures IssuedInv(Next(s, ev), i)
      {
        StepKeepsIssued(s, ev, i);
      }
    }
  }

  predicate Unmarked(s: State, i: nat)
    requires i < |s.issued|
  {
    s.issued[i].call in s.calls && s.calls[s.issued[i].call] == Failed(Some(s.issued[i].approval))
  }

  /** Whoever is past the gate, or has stored, comes after unmarked certificates only. */
  predicate OnlyUnmarkedBefore(s: State) {
    && (forall i, j :: 0 <= i < j < |s.issued| && s.issued[i].approval == s.issued[j].approval ==> Unmarked(s, i))
    && (forall i, c ::
          (0 <= i < |s.issued| && c in s.calls && s.calls[c].Passed? && s.calls[c].approval == s.issued[i].approval)
          ==> Unmarked(s, i))
  }

  lemma StepKeepsOnlyUnmarked(s: State, ev: Event)
    requires Inv(s) && Enabled(s, ev) && Alone(s, ev) && OnlyUnmarkedBefore(s)
    requires forall i :: 0 <= i < |s.issued| ==> IssuedInv(s, i)
    ensures OnlyUnmarkedBefore(Next(s, ev))
  {
    hide CallInv, PairInv, ToLower;
    var s' := Next(s, ev);
    forall i | 0 <= i < |s.issued|
      ensures Unmarked(s, i) ==> Unmarked(s', i)
      ensures ev.ReadApproval? && s'.calls[ev.call].Passed? && s'.calls[ev.call].approval == s.issued[i].approval
              ==> Unmarked(s, i)
    {
      assert IssuedInv(s, i);
    }
    forall i, j | 0 <= i < j < |s'.issued| && s'.issued[i].approval == s'.issued[j].approval
      ensures Unmarked(s', i)
    {
      assert Unmarked(s, i);
    }
  }

  lemma {:induction false} SequentialRunsKeepUnmarked(events: seq<Event>)
    requires After(events).Some? && Sequential(events)
    ensures OnlyUnmarkedBefore(After(events).value)
  {
    hide Inv, IssuedInv, Next, Enabled, Alone, OnlyUnmarkedBefore;
    if events == [] {
      NothingIssued();
    } else {
      var prefix := events[..|events| - 1];
      SequentialRunsKeepUnmarked(prefix);
      RunKeepsInv(prefix);
      RunKeepsIssued(prefix);
      StepKeepsOnlyUnmarked(After(prefix).value, events[|events| - 1]);
    }
  }

  lemma NothingIssued()
    ensures OnlyUnmarkedBefore(INITIAL)
  {
  }

  /** In every sequential run, when two certificates are stored on one approval, the call that stored
      the earlier one ended between storing and marking. */
  lemma SecondCertificateMeansLostMark(events: seq<Event>, i: nat, j: nat)
    requires After(events).Some? && Sequential(events) && i < j < |After(events).value.issued|
    ensures var s := After(events).value;
            s.issued[i].approval == s.issued[j].approval ==>
              s.issued[i].call in s.calls && s.calls[s.issued[i].call] == Failed(Some(s.issued[i].approval))
  {
    hide After, Sequential;
    SequentialRunsKeepUnmarked(events);
  }

  /** So in every sequential run in which no call ended there, each approval has at most one stored
      certificate, whether its call succeeded or not. */
  lemma ApprovalHasOneCertificate(events: seq<Event>)
    requires After(events).Some? && Sequential(events)
    requires forall c :: c in After(events).value.calls ==>
               var k := After(events).value.calls[c]; k.Failed? ==> k.unmarked == None
    ensures var s := After(events).value;
            forall i, j :: 0 <= i < j < |s.issued| ==> s.issued[i].approval != s.issued[j].approval
  {
    hide After, Sequential;
    var s := After(events).value;
    forall i, j | 0 <= i < j < |s.issued|
      ensures s.issued[i].approval != s.issued[j].approval
    {
      SecondCertificateMeansLostMark(events, i, j);
    }
  }

  /** And a call that does end there leaves the approval to a second certificate: from every
      reachable state of a sequential run in which a call is about to mark an approval that nobody
      else has changed, the run goes on sequentially and stores another one. */
  lemma LostMarkAllowsSecond(events: seq<Event>, c: CallId, d: CallId, second: CertificateId)
    returns (events': seq<Event>, s: State)
    requires After(events).Some? && Sequential(events)
    requires var s := After(events).value;
             && c in s.calls && s.calls[c].CertificateStored? && Gate(Lookup(s, s.calls[c].approval)).Ok?
             && d !in s.calls && second !in s.certificates
             && forall b :: b in s.calls && b != c ==> Finished(s.calls[b])
    ensures After(events') == Some(s) && Sequential(events') && events <= events'
    ensures var s0 := After(events).value;
            s.issued == s0.issued + [Issued(s0.calls[c].approval, second, d)]
  {
    hide Gate, After;
    var a := After(events).value.calls[c].approval;
    events', s := SequentialStep(events, Fail(c));
    events', s := SequentialStep(events', Begin(d, Some(a)));
    events', s := SequentialStep(events', ReadApproval(d));
    events', s := SequentialStep(events', StoreCertificate(d, second));
  }

  /** From every reachable state of a sequential run at rest, with an approved and unused approval:
      two certificates stored on it while neither call has succeeded. */
  lemma TwoCertificatesWithoutMark(events: seq<Event>, id: ApprovalId, c: CallId, d: CallId,
                                   first: CertificateId, second: CertificateId)
    returns (events': seq<Event>, s: State)
    requires After(events).Some? && Sequential(events) && Gate(Lookup(After(events).value, id)).Ok?
    requires c != d && c !in After(events).value.calls && d !in After(events).value.calls
    requires first != second && {first, second} !! After(events).value.certificates
    requires forall b :: b in After(events).value.calls ==> Finished(After(events).value.calls[b])
    ensures After(events') == Some(s) && Sequential(events') && events <= events'
    ensures s.issued == After(events).value.issued + [Issued(id, first, c)] + [Issued(id, second, d)]
  {
    hide Gate, After;
    events', s := SequentialStep(events, Begin(c, Some(id)));
    events', s := SequentialStep(events', ReadApproval(c));
    events', s := SequentialStep(events', StoreCertificate(c, first));
    events', s := LostMarkAllowsSecond(events', c, d, second);
  }

  lemma SequentialStep(events: seq<Event>, ev: Event) returns (events': seq<Event>, s: State)
    requires After(events).Some? && Sequential(events)
    requires Enabled(After(events).value, ev) && Alone(After(events).value, ev)
    ensures events' == events + [ev] && After(events') == Some(s) && s == Next(After(events).value, ev)
    ensures Sequential(events')
  {
    hide Next, Enabled, Alone;
    events', s := StepAfter(events, ev);
    assert events'[..|events|] == events;
  }

  // ----- Runs that exist -----

  /** An approved, unused approval does back an issue: an undisturbed call succeeds. */
  lemma UndisturbedIssueSucceeds(events: seq<Event>, c: CallId, id: ApprovalId, certificate: CertificateId, at: Instant)
    returns (events': seq<Event>, s: State)
    requires After(events).Some? && c !in After(events).value.calls
    requires Gate(Lookup(After(events).value, id)).Ok? && certificate !in After(events).value.certificates
    ensures After(events') == Some(s) && events <= events'
    ensures c in s.calls && s.calls[c].Succeeded? && s.calls[c].approval == id && s.calls[c].certificate == certificate
    ensures s.approvals == After(events).value.approvals[id := MarkedRow(After(events).value.approvals[id], certificate, at)]
  {
    hide Gate, After;
    events', s := StepAfter(events, Begin(c, Some(id)));
    events', s := StepAfter(events', ReadApproval(c));
    events', s := StepAfter(events', StoreCertificate(c, certificate));
    events', s := StepAfter(events', Mark(c, at));
    events', s := StepAfter(events', Finish(c));
  }

  /** The mark does not check that the approval is still unused: two calls that both read it first
      both succeed. Sequential use is as far as the single-use rule goes. */
  lemma OverlappingIssuesBothSucceed(events: seq<Event>, c: CallId, d: CallId, id: ApprovalId,
                                     first: CertificateId, second: CertificateId)
    returns (events': seq<Event>, s: State)
    requires After(events).Some? && c != d && c !in After(events).value.calls && d !in After(events).value.calls
    requires Gate(Lookup(After(events).value, id)).Ok?
    requires first != second && {first, second} !! After(events).value.certificates
    ensures After(events') == Some(s) && events <= events' && c in s.calls && d in s.calls
    ensures s.calls[c].Succeeded? && s.calls[d].Succeeded? && s.calls[c].approval == id == s.calls[d].approval
  {
    hide Gate, After, MarkedRow;
    events', s := StepAfter(events, Begin(c, Some(id)));
    events', s := StepAfter(events', Begin(d, Some(id)));
    events', s := StepAfter(events', ReadApproval(c));
    events', s := StepAfter(events', ReadApproval(d));
    events', s := StepAfter(events', StoreCertificate(c, first));
    events', s := StepAfter(events', StoreCertificate(d, second));
    events', s := StepAfter(events', Mark(c, 0));
    events', s := StepAfter(events', Mark(d, 0));
    events', s := StepAfter(events', Finish(c));
    events', s := StepAfter(events', Finish(d));
  }

  lemma StepAfter(events: seq<Event>, ev: Event) returns (events': seq<Event>, s: State)
    requires After(events).Some? && Enabled(After(events).value, ev)
    ensures events' == events + [ev]
    ensures After(events') == Some(s) && s == Next(After(events).value, ev)
  {
    events' := events + [ev];
    assert events'[..|events|] == events;
    s := Next(After(events).value, ev);
  }
}
