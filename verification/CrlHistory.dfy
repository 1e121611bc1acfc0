/** How the CRL tables follow from the events of a run: which revocations are in force, and which
    generations report that they stored. */
module CrlHistory {
  import opened Common
  import opened Crl

  // ----- Revocations -----

  predicate Ends(ev: Event, x: TxnId) {
    ev == RevokeCommit(x) || ev == RevokeFails(x)
  }

  /** Event `b` began the revocation, and nothing has ended it since. */
  predicate RunsSince(events: seq<Event>, x: TxnId, r: Revocation, b: nat) {
    && b < |events| && events[b] == RevokeBegin(x, r.serial, r.reason, r.time)
    && forall k :: b < k < |events| ==> !Ends(events[k], x)
  }

  ghost predicate IsRunning(events: seq<Event>, x: TxnId, r: Revocation) {
    exists b: nat :: RunsSince(events, x, r, b)
  }

  /** Event `c` committed the revocation while it was running. */
  ghost predicate CommittedAt(events: seq<Event>, r: Revocation, c: nat) {
    c < |events| && events[c].RevokeCommit? && IsRunning(events[..c], events[c].txn, r)
  }

  ghost predicate WasCommitted(events: seq<Event>, r: Revocation) {
    exists c: nat :: CommittedAt(events, r, c)
  }

  lemma RunningStays(events: seq<Event>, ev: Event, x: TxnId, r: Revocation)
    requires IsRunning(events, x, r) && !Ends(ev, x)
    ensures IsRunning(events + [ev], x, r)
  {
    var b: nat :| RunsSince(events, x, r, b);
    assert RunsSince(events + [ev], x, r, b);
  }

  lemma CommittedStays(events: seq<Event>, ev: Event, r: Revocation)
    requires WasCommitted(events, r)
    ensures WasCommitted(events + [ev], r)
  {
    hide IsRunning;
    var c: nat :| CommittedAt(events, r, c);
    assert (events + [ev])[..c] == events[..c];
    assert CommittedAt(events + [ev], r, c);
  }

  ghost predicate PastInv(s: State, events: seq<Event>) {
    && (forall x :: x in s.pending ==> IsRunning(events, x, s.pending[x]))
    && (forall i :: 0 <= i < |s.log| ==> WasCommitted(events, s.log[i]))
  }

  lemma StepKeepsPast(s: State, events: seq<Event>, ev: Event)
    requires PastInv(s, events) && Enabled(s, ev)
    ensures PastInv(Next(s, ev), events + [ev])
  {
    hide IsRunning, WasCommitted, SelectEntries, LatestFull, MaxNumber;
    var s' := Next(s, ev);
    forall x | x in s'.pending
      ensures IsRunning(events + [ev], x, s'.pending[x])
    {
      if x in s.pending && !Ends(ev, x) {
        RunningStays(events, ev, x, s.pending[x]);
      } else {
        Begins(events, ev, x);
      }
    }
    forall i | 0 <= i < |s'.log|
      ensures WasCommitted(events + [ev], s'.log[i])
    {
      if i < |s.log| {
        CommittedStays(events, ev, s.log[i]);
      } else {
        Commits(events, ev, s.pending[ev.txn]);
      }
    }
  }

  lemma Begins(events: seq<Event>, ev: Event, x: TxnId)
    requires ev.RevokeBegin? && ev.txn == x
    ensures IsRunning(events + [ev], x, Revocation(ev.serial, ev.at, ev.reason))
  {
    assert RunsSince(events + [ev], x, Revocation(ev.serial, ev.at, ev.reason), |events|);
  }

  lemma Commits(events: seq<Event>, ev: Event, r: Revocation)
    requires ev.RevokeCommit? && IsRunning(events, ev.txn, r)
    ensures WasCommitted(events + [ev], r)
  {
    hide IsRunning;
    assert (events + [ev])[..|events|] == events;
    assert CommittedAt(events + [ev], r, |events|);
  }

  /** Over every run, each revocation in force was begun, with its time and reason, and then committed
      with nothing ending it in between: one that failed is not in force, and none commits twice. */
  lemma {:induction false} RevocationsWereCommitted(events: seq<Event>)
    requires After(events).Some?
    ensures PastInv(After(events).value, events)
  {
    hide PastInv, Next, Enabled;
    if events == [] {
      NothingYet();
    } else {
      var prefix, ev := events[..|events| - 1], events[|events| - 1];
      RevocationsWereCommitted(prefix);
      StepKeepsPast(After(prefix).value, prefix, ev);
      assert prefix + [ev] == events;
    }
  }

  lemma NothingYet()
    ensures PastInv(INITIAL, [])
  {
  }

  /** And each committed one is in force: when a revocation of an issued certificate commits, the
      certificate is revoked from then on, by it or by one that committed before. */
  lemma CommitRevokes(events: seq<Event>, x: TxnId)
    requires After(events).Some? && x in After(events).value.pending
    ensures var s := After(events).value;
            var r, s' := s.pending[x], Next(s, RevokeCommit(x));
            r.serial in s.certs ==>
              && s'.certs[r.serial].revoked
              && (exists i :: 0 <= i < |s'.log| && s'.log[i].serial == r.serial)
              && (s'.log == s.log || s'.log == s.log + [r])
              && ((exists i :: 0 <= i < |s.log| && s.log[i].serial == r.serial) <==> s'.log == s.log)
  {
    hide JobInv, CrlInv;
    RunKeepsInv(events);
    var s := After(events).value;
    var r := s.pending[x];
    hide Inv, After;
    if r.serial in s.certs {
      ListedExactly(s.log, None);
      assert CertMatches(s, r.serial);
      var s' := Next(s, RevokeCommit(x));
      if !s.certs[r.serial].revoked {
        assert s'.log[|s.log|] == r;
      }
    }
  }

  // ----- What a generation reports -----

  /** The insert of generation `j`, as the next event, is applied. */
  ghost predicate StoresNext(events: seq<Event>, j: JobId) {
    && After(events).Some? && Enabled(After(events).value, Store(j, false))
    && |Next(After(events).value, Store(j, false)).crls| == |After(events).value.crls| + 1
  }

  /** The store of generation `j` was applied and its reply arrived. */
  ghost predicate StoreReported(events: seq<Event>, j: JobId) {
    exists before :: before + [Store(j, false)] <= events && StoresNext(before, j)
  }

  lemma StepReports(s: State, ev: Event, j: JobId)
    requires Enabled(s, ev)
    ensures var s' := Next(s, ev);
            j in s'.jobs && s'.jobs[j] == Done(true) <==>
              || (j in s.jobs && s.jobs[j] == Done(true))
              || (ev == Store(j, false) && |s'.crls| == |s.crls| + 1)
    ensures ev == JobFails(j) ==> Next(s, ev) == s.(jobs := s.jobs[j := Done(false)])
    ensures j in s.jobs && s.jobs[j].Done? ==> Next(s, ev).jobs[j] == s.jobs[j]
  {
    hide SelectEntries, LatestFull, MaxNumber;
  }

  /** Over every run, a generation reports a stored CRL exactly when its store was applied and the reply
      arrived; a generation that has failed stays failed and stores nothing. */
  lemma {:induction false} ReportedIsStored(events: seq<Event>, j: JobId)
    requires After(events).Some?
    ensures var s := After(events).value; j in s.jobs && s.jobs[j] == Done(true) <==> StoreReported(events, j)
  {
    hide Next, Enabled;
    if events != [] {
      var prefix, ev := events[..|events| - 1], events[|events| - 1];
      assert events == prefix + [ev];
      ReportedIsStored(prefix, j);
      StepReports(After(prefix).value, ev, j);
      ReportedOnce(prefix, ev, j);
    }
  }

  lemma LastOrBefore(before: seq<Event>, e: Event, prefix: seq<Event>, ev: Event)
    requires before + [e] <= prefix + [ev]
    ensures if |before| == |prefix| then before == prefix && e == ev else before + [e] <= prefix
  {
    var part, whole := before + [e], prefix + [ev];
    assert part == whole[..|part|];
    assert before == part[..|before|] == whole[..|before|];
    assert e == part[|before|];
  }

  /** A store is reported in a longer run when it was before, or the last event is it. */
  lemma ReportedOnce(prefix: seq<Event>, ev: Event, j: JobId)
    ensures StoreReported(prefix + [ev], j) <==> StoreReported(prefix, j) || (ev == Store(j, false) && StoresNext(prefix, j))
  {
    hide StoresNext;
    var store := Store(j, false);
    if StoreReported(prefix + [ev], j) {
      var before :| before + [store] <= prefix + [ev] && StoresNext(before, j);
      LastOrBefore(before, store, prefix, ev);
    }
    if StoreReported(prefix, j) {
      var before :| before + [store] <= prefix && StoresNext(before, j);
      assert before + [store] <= prefix + [ev];
    }
    assert prefix + [ev] <= prefix + [ev];
  }
}
