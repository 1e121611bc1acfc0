/** What the events of a `record` call say of its row and of its report: the signature a row carries
    is the signer's answer, and every report names the step that led to it. */
module AuditReports {
  import opened Common
  import opened Rfc3339
  import opened AuditEvents
  import opened AuditSink
  import opened AuditChain

  predicate SignsAs(sign: SignOutcome, e: AuditEvent, signature: Option<Octets>, key: Option<string>) {
    match sign
    case NoSigner => signature == e.signature && key == e.signingKeyId
    case Signed(s, k) => signature == Some(s) && key == Some(k)
    case NoSignature => false
  }

  /** The signer was asked for this call, and this is its answer. */
  ghost predicate SignedAs(events: seq<Event>, c: CallId, e: AuditEvent, signature: Option<Octets>, key: Option<string>) {
    exists sign :: Sign(c, sign) in events && SignsAs(sign, e, signature, key)
  }

  /** Up to hashing, the signer has not been asked and the event carries what the caller put there. */
  ghost predicate Unsigned(events: seq<Event>, c: CallId, e: AuditEvent, k: AuditEvent) {
    (forall sign :: Sign(c, sign) !in events) && k.signature == e.signature && k.signingKeyId == e.signingKeyId
  }

  ghost predicate CallRecord(s: State, events: seq<Event>, c: CallId)
    requires c in s.calls && c in s.submitted
  {
    var e := s.submitted[c];
    && (Sign(c, NoSignature) in events <==> s.calls[c] == Returned(SignFailed))
    && (CommitTimesOut(c) in events <==> s.calls[c] == Returned(CommitUnknown))
    && (s.calls[c] == Returned(BeginFailed) ==> BeginFails(c) in events)
    && (BeginFails(c) in events ==> s.calls[c] == Returned(BeginFailed))
    && match s.calls[c]
       case Waiting(k) => Unsigned(events, c, e, k)
       case Locked(k) => Unsigned(events, c, e, k)
       case HeadRead(k, _, _) => Unsigned(events, c, e, k)
       case Hashed(k, _, _) => Unsigned(events, c, e, k)
       case Sealed(k, _, _) => SignedAs(events, c, e, k.signature, k.signingKeyId)
       case _ => true
  }

  ghost predicate RowRecord(events: seq<Event>, c: CallId, e: AuditEvent, row: DbEvent) {
    SignedAs(events, c, e, row.signature, row.signingKeyId)
  }

  predicate Untouched(events: seq<Event>, c: CallId) {
    forall ev :: ev in events && ev.call == c ==> !ev.Sign? && !ev.BeginFails? && !ev.CommitTimesOut?
  }

  ghost predicate EventRecord(s: State, events: seq<Event>) {
    && |s.writers| == |s.table|
    && (forall c :: c in s.calls ==> c in s.submitted && CallRecord(s, events, c))
    && (forall c :: c !in s.calls ==> Untouched(events, c))
    && (forall c :: c in s.requests ==>
          c in s.calls && c in s.submitted && RowRecord(events, c, s.submitted[c], s.requests[c].row))
    && (forall i :: 0 <= i < |s.table| ==>
          s.writers[i] in s.calls && s.writers[i] in s.submitted && RowRecord(events, s.writers[i], s.submitted[s.writers[i]], s.table[i]))
  }

  lemma SignedStays(events: seq<Event>, ev: Event, c: CallId, e: AuditEvent, signature: Option<Octets>, key: Option<string>)
    requires SignedAs(events, c, e, signature, key)
    ensures SignedAs(events + [ev], c, e, signature, key)
  {
    var sign :| Sign(c, sign) in events && SignsAs(sign, e, signature, key);
    assert Sign(c, sign) in events + [ev];
  }

  lemma UnsignedStays(events: seq<Event>, ev: Event, c: CallId, e: AuditEvent, k: AuditEvent)
    requires Unsigned(events, c, e, k) && !(ev.Sign? && ev.call == c)
    ensures Unsigned(events + [ev], c, e, k)
  {
  }

  /** Who keeps its stage keeps its record. */
  lemma OtherCallRecord(s: State, s': State, events: seq<Event>, ev: Event, c: CallId)
    requires c in s.calls && c in s.submitted && CallRecord(s, events, c) && ev.call != c
    requires c in s'.calls && c in s'.submitted && s'.calls[c] == s.calls[c] && s'.submitted[c] == s.submitted[c]
    ensures CallRecord(s', events + [ev], c)
  {
    hide SignedAs, Unsigned;
    var e := s.submitted[c];
    match s.calls[c] {
      case Waiting(k) => UnsignedStays(events, ev, c, e, k);
      case Locked(k) => UnsignedStays(events, ev, c, e, k);
      case HeadRead(k, _, _) => UnsignedStays(events, ev, c, e, k);
      case Hashed(k, _, _) => UnsignedStays(events, ev, c, e, k);
      case Sealed(k, _, _) => SignedStays(events, ev, c, e, k.signature, k.signingKeyId);
      case _ =>
    }
  }

  lemma OwnCallRecord(p: Primitives, s: State, events: seq<Event>, ev: Event)
    requires Enabled(s, ev) && !ev.Start?
    requires ev.call in s.calls ==> ev.call in s.submitted && CallRecord(s, events, ev.call)
    ensures ev.call in s.calls ==>
              ev.call in Next(p, s, ev).calls && ev.call in Next(p, s, ev).submitted
              && CallRecord(Next(p, s, ev), events + [ev], ev.call)
  {
    hide Linked, SelectHeadHash, SelectHeadTime, CommitAccepts, SignedAs, Unsigned, ToDb, InColumns;
    var c := ev.call;
    if c in s.calls {
      var k, e := s.calls[c], s.submitted[c];
      if k.Waiting? || k.Locked? || k.HeadRead? || k.Hashed? {
        if ev.Sign? {
          SignAnswers(events, c, e, k.event, ev.sign);
        } else {
          UnsignedStays(events, ev, c, e, k.event);
          if ev.LinkAndHash? {
            LinkedKeepsSeal(p, k.event, k.headHash, k.headTime);
            SameSeal(events + [ev], c, e, k.event, Linked(p, k.event, k.headHash, k.headTime));
          }
        }
      } else if k.Sealed? {
        SignedStays(events, ev, c, e, k.event.signature, k.event.signingKeyId);
      }
    }
  }

  lemma SameSeal(events: seq<Event>, c: CallId, e: AuditEvent, k: AuditEvent, l: AuditEvent)
    requires Unsigned(events, c, e, k) && l.signature == k.signature && l.signingKeyId == k.signingKeyId
    ensures Unsigned(events, c, e, l)
  {
  }

  lemma SignAnswers(events: seq<Event>, c: CallId, e: AuditEvent, k: AuditEvent, sign: SignOutcome)
    requires Unsigned(events, c, e, k)
    ensures !sign.NoSignature? ==>
              var l := WithSignature(k, sign);
              SignedAs(events + [Sign(c, sign)], c, e, l.signature, l.signingKeyId)
  {
    assert (events + [Sign(c, sign)])[|events|] == Sign(c, sign);
    assert Sign(c, sign) in events + [Sign(c, sign)];
    assert !sign.NoSignature? ==> SignsAs(sign, e, WithSignature(k, sign).signature, WithSignature(k, sign).signingKeyId);
  }

  lemma StepKeepsEventRecord(p: Primitives, s: State, events: seq<Event>, ev: Event)
    requires Enabled(s, ev) && EventRecord(s, events)
    ensures EventRecord(Next(p, s, ev), events + [ev])
  {
    hide SignedAs, Unsigned, RowRecord, Untouched, CallRecord, Next, Enabled;
    var s' := Next(p, s, ev);
    WritersMatch(p, s, ev);
    forall c | c in s'.calls
      ensures c in s'.submitted && CallRecord(s', events + [ev], c)
    {
      CallRecordStays(p, s, events, ev, c);
    }
    forall c | c !in s'.calls
      ensures Untouched(events + [ev], c)
    {
      CallsStay(p, s, ev, c);
      UntouchedStays(events, ev, c);
    }
    forall c | c in s'.requests
      ensures c in s'.calls && c in s'.submitted && RowRecord(events + [ev], c, s'.submitted[c], s'.requests[c].row)
    {
      RequestRecordStays(p, s, events, ev, c);
    }
    forall i | 0 <= i < |s'.table|
      ensures s'.writers[i] in s'.calls && s'.writers[i] in s'.submitted
      ensures RowRecord(events + [ev], s'.writers[i], s'.submitted[s'.writers[i]], s'.table[i])
    {
      RowRecordStays(p, s, events, ev, i);
    }
  }

  lemma WritersMatch(p: Primitives, s: State, ev: Event)
    requires Enabled(s, ev) && |s.writers| == |s.table|
    ensures |Next(p, s, ev).writers| == |Next(p, s, ev).table|
  {
    hide Linked, SelectHeadHash, SelectHeadTime, CommitAccepts;
  }

  lemma CallsStay(p: Primitives, s: State, ev: Event, c: CallId)
    requires Enabled(s, ev) && c !in Next(p, s, ev).calls
    ensures c !in s.calls && (ev.call == c ==> !ev.Sign? && !ev.BeginFails? && !ev.CommitTimesOut?)
  {
    hide Linked, SelectHeadHash, SelectHeadTime, CommitAccepts;
  }

  lemma RowRecordStays(p: Primitives, s: State, events: seq<Event>, ev: Event, i: nat)
    requires Enabled(s, ev) && EventRecord(s, events) && i < |Next(p, s, ev).table|
    ensures |Next(p, s, ev).writers| == |Next(p, s, ev).table|
    ensures var s' := Next(p, s, ev);
            && s'.writers[i] in s'.calls && s'.writers[i] in s'.submitted
            && RowRecord(events + [ev], s'.writers[i], s'.submitted[s'.writers[i]], s'.table[i])
  {
    hide Linked, SelectHeadHash, SelectHeadTime, CommitAccepts, SignedAs, Unsigned, CallRecord;
    var c := Next(p, s, ev).writers[i];
    if i < |s.table| {
      SignedStays(events, ev, c, s.submitted[c], s.table[i].signature, s.table[i].signingKeyId);
    } else {
      SignedStays(events, ev, c, s.submitted[c], s.requests[c].row.signature, s.requests[c].row.signingKeyId);
    }
  }

  lemma CallRecordStays(p: Primitives, s: State, events: seq<Event>, ev: Event, c: CallId)
    requires Enabled(s, ev) && c in Next(p, s, ev).calls
    requires c in s.calls ==> c in s.submitted && CallRecord(s, events, c)
    requires c !in s.calls ==> Untouched(events, c)
    ensures c in Next(p, s, ev).submitted && CallRecord(Next(p, s, ev), events + [ev], c)
  {
    hide Linked, SelectHeadHash, SelectHeadTime, CommitAccepts, SignedAs, Unsigned;
    var s' := Next(p, s, ev);
    if c == ev.call && ev.Start? {
      StartRecord(events, ev);
    } else if c == ev.call {
      hide CallRecord;
      OwnCallRecord(p, s, events, ev);
    } else {
      hide CallRecord;
      OtherCallRecord(s, s', events, ev, c);
    }
  }

  lemma UntouchedStays(events: seq<Event>, ev: Event, c: CallId)
    requires Untouched(events, c) && (ev.call != c || (!ev.Sign? && !ev.BeginFails? && !ev.CommitTimesOut?))
    ensures Untouched(events + [ev], c)
  {
  }

  lemma StartRecord(events: seq<Event>, ev: Event)
    requires ev.Start? && Untouched(events, ev.call)
    ensures Unsigned(events + [ev], ev.call, ev.event, Truncated(ev.event))
    ensures Sign(ev.call, NoSignature) !in events + [ev] && CommitTimesOut(ev.call) !in events + [ev]
    ensures BeginFails(ev.call) !in events + [ev]
  {
  }

  lemma RequestRecordStays(p: Primitives, s: State, events: seq<Event>, ev: Event, c: CallId)
    requires Enabled(s, ev) && EventRecord(s, events) && c in Next(p, s, ev).requests
    ensures c in Next(p, s, ev).submitted && c in Next(p, s, ev).calls
    ensures RowRecord(events + [ev], c, Next(p, s, ev).submitted[c], Next(p, s, ev).requests[c].row)
  {
    hide Linked, SelectHeadHash, SelectHeadTime, CommitAccepts, SignedAs, Unsigned;
    var s' := Next(p, s, ev);
    if ev.SendCommit? && c == ev.call {
      assert CallRecord(s, events, c);
      SignedStays(events, ev, c, s.submitted[c], s.calls[c].event.signature, s.calls[c].event.signingKeyId);
    }
    if c in s.requests {
      SignedStays(events, ev, c, s.submitted[c], s.requests[c].row.signature, s.requests[c].row.signingKeyId);
    }
  }

  lemma {:induction false} RunKeepsEventRecord(p: Primitives, events: seq<Event>)
    requires After(p, events).Some?
    ensures EventRecord(After(p, events).value, events)
  {
    hide Inv, EventRecord, Next, Enabled;
    if events == [] {
      NoEventRecord();
    } else {
      var prefix, ev := events[..|events| - 1], events[|events| - 1];
      assert events == prefix + [ev];
      RunKeepsEventRecord(p, prefix);
      StepKeepsEventRecord(p, After(p, prefix).value, prefix, ev);
    }
  }

  lemma NoEventRecord()
    ensures EventRecord(INITIAL, [])
  {
  }

  /** Over every run, each row carries the signature and key label its signer answered, or, without
      a signer, what its caller had put there; a record whose signing failed is never written, and
      its call reports that. */
  lemma RowsAreSigned(p: Primitives, events: seq<Event>, c: CallId)
    requires After(p, events).Some? && c in After(p, events).value.calls
    ensures var s := After(p, events).value;
            && |s.writers| == |s.table| && c in s.submitted
            && (forall i :: 0 <= i < |s.table| && s.writers[i] == c ==>
                  SignedAs(events, c, s.submitted[c], s.table[i].signature, s.table[i].signingKeyId))
            && (Sign(c, NoSignature) in events <==> s.calls[c] == Returned(SignFailed))
            && (Sign(c, NoSignature) in events ==> c !in s.writers)
  {
    hide SignedAs, Unsigned;
    RunKeepsEventRecord(p, events);
    ReportsAreTrue(p, events, c);
  }

  /** Over every run, the other reports say what happened: a failure to begin, a commit that timed
      out, and success exactly when the server applied the commit and its answer arrived. */
  lemma ReportsFollowEvents(p: Primitives, events: seq<Event>, c: CallId)
    requires After(p, events).Some? && c in After(p, events).value.calls
    ensures var k := After(p, events).value.calls[c];
            && (k == Returned(BeginFailed) <==> BeginFails(c) in events)
            && (k == Returned(CommitUnknown) <==> CommitTimesOut(c) in events)
            && (ServerCommits(c) in events && ReplyArrives(c) in events ==> k == Returned(Committed))
  {
    hide SignedAs, Unsigned;
    RunKeepsEventRecord(p, events);
    RunKeepsRecord(p, events, c);
    assert CallRecord(After(p, events).value, events, c);
  }

  /** Over every run, the server's answer to a commit, applied or refused, ends the transaction: a call
      it has answered no longer holds the lock, so nobody waits for it. */
  lemma {:induction false} AnswerFreesTheLock(p: Primitives, events: seq<Event>, c: CallId)
    requires After(p, events).Some?
    ensures var s := After(p, events).value; c in s.replies ==> s.lock != Some(c)
  {
    hide Inv;
    if events != [] {
      var prefix, ev := events[..|events| - 1], events[|events| - 1];
      AnswerFreesTheLock(p, prefix, c);
      RunKeepsInv(p, prefix);
      if c in After(p, prefix).value.replies {
        AnsweredHasSent(p, After(p, prefix).value, c);
      }
    }
  }

  lemma AnsweredHasSent(p: Primitives, s: State, c: CallId)
    requires Inv(p, s) && c in s.replies
    ensures c in s.calls && !s.calls[c].Waiting? && s.calls[c] != Returned(BeginFailed)
  {
    hide Chain, CallInv, RequestInv, RowInv;
    assert OutcomeInv(s, c);
  }
}
