/** What every run of revocations and CRL generations guarantees, and what it guarantees only when
    they do not overlap: that a base and its delta are complete together, and that a later full CRL
    lists all that an earlier one lists. */
module CrlRuns {
  import opened Common
  import opened Crl

  /** Over every run, the stored CRL numbers are 1, 2, 3, ... in store order, and `this_update`
      strictly increases with the number, although numbers and times are read before the insert and
      generations overlap. */
  lemma NumbersAreContiguous(events: seq<Event>)
    requires After(events).Some?
    ensures var crls := After(events).value.crls;
            && (forall i :: 0 <= i < |crls| ==> crls[i].number == i + 1)
            && (forall i, j :: 0 <= i < j < |crls| ==> crls[i].thisUpdate < crls[j].thisUpdate)
  {
    hide Listed, ContentInv, JobInv, TablesInv;
    RunKeepsInv(events);
    var s := After(events).value;
    forall i | 0 <= i < |s.crls|
      ensures s.crls[i].number == i + 1
    {
      NumberAt(s, i);
    }
    forall i, j | 0 <= i < j < |s.crls|
      ensures s.crls[i].thisUpdate < s.crls[j].thisUpdate
    {
      assert CrlInv(s, j);
    }
  }

  /** A store succeeds exactly when its number is still the maximum plus one; otherwise the UNIQUE
      constraint refuses it and nothing is stored. */
  lemma StoreTakesNextNumber(events: seq<Event>, j: JobId, replyLost: bool)
    requires After(events).Some? && Enabled(After(events).value, Store(j, replyLost))
    ensures var s := After(events).value;
            var s' := Next(s, Store(j, replyLost));
            if s.jobs[j].number == MaxNumber(s.crls) + 1
            then |s'.crls| == |s.crls| + 1 && s'.crls[|s.crls|].number == MaxNumber(s.crls) + 1
            else s'.crls == s.crls && s'.jobs[j] == Done(false)
  {
    hide Listed, ContentInv, StampInv, TablesInv, Inv;
    RunKeepsInv(events);
    var s := After(events).value;
    InsertAppendsIffNext(s, j, replyLost);
  }

  lemma InsertAppendsIffNext(s: State, j: JobId, replyLost: bool)
    requires Inv(s) && Enabled(s, Store(j, replyLost))
    ensures MaxNumber(s.crls) == |s.crls|
    ensures var s' := Insert(s, j, replyLost);
            if s.jobs[j].number == |s.crls| + 1
            then |s'.crls| == |s.crls| + 1 && s'.crls[|s.crls|].number == |s.crls| + 1
            else s'.crls == s.crls && s'.jobs[j] == Done(false)
  {
    hide Listed, ContentInv, StampInv, TablesInv;
    MaxIsCount(s);
    InsertAppends(s, j, replyLost);
    assert JobInv(s, j);
    if s.jobs[j].number <= |s.crls| {
      NumberAt(s, s.jobs[j].number - 1);
    }
  }

  // ----- Contents -----

  /** What the lists say of the revocation at position `k` of the log. */
  lemma ListedWhere(log: seq<Revocation>, cut: nat, since: Option<Instant>, k: nat)
    requires Once(log) && cut <= |log| && k < |log|
    ensures log[k].serial in Listed(log[..cut], since) <==> k < cut && Later(log[k], since)
    ensures k < cut && Later(log[k], since) ==>
              Listed(log[..cut], since)[log[k].serial] == Entry(log[k].time, Some(log[k].reason))
  {
    ListedExactly(log[..cut], since);
    if k < cut {
      assert log[..cut][k] == log[k];
    }
  }

  /** Whatever is listed stands somewhere in the log. */
  lemma ListedSomewhere(log: seq<Revocation>, cut: nat, since: Option<Instant>, t: Serial) returns (k: nat)
    requires Once(log) && cut <= |log| && t in Listed(log[..cut], since)
    ensures k < cut && log[k].serial == t
  {
    ListedExactly(log[..cut], since);
    k :| 0 <= k < |log[..cut]| && log[..cut][k].serial == t;
  }

  predicate AllLater(log: seq<Revocation>, n: nat, cut: nat, since: Instant)
    requires cut <= |log|
  {
    forall k :: n <= k < cut ==> log[k].time > since
  }

  lemma DeltaEntries(log: seq<Revocation>, n: nat, cut: nat, since: Instant, t: Serial)
    requires Once(log) && n <= cut <= |log|
    requires forall i :: 0 <= i < n ==> log[i].time <= since
    ensures var base, delta, all := Listed(log[..n], None), Listed(log[..cut], Some(since)), Listed(log[..cut], None);
            && !(t in base && t in delta)
            && (t in base ==> t in all && all[t] == base[t])
            && (t in delta ==> t in all && all[t] == delta[t])
            && (AllLater(log, n, cut, since) && t in all ==> t in base || t in delta)
  {
    hide Listed;
    var base, delta, all := Listed(log[..n], None), Listed(log[..cut], Some(since)), Listed(log[..cut], None);
    if t in base || t in delta || t in all {
      var k: nat;
      if t in base {
        k := ListedSomewhere(log, n, None, t);
      } else if t in delta {
        k := ListedSomewhere(log, cut, Some(since), t);
      } else {
        k := ListedSomewhere(log, cut, None, t);
      }
      ListedWhere(log, n, None, k);
      ListedWhere(log, cut, Some(since), k);
      ListedWhere(log, cut, None, k);
    }
  }

  /** A base that lists the first `n` revocations and a delta that lists the later-dated ones of the
      first `cut`: disjoint, and complete if and only if everything in between is later-dated. */
  lemma LaterEntriesSplit(log: seq<Revocation>, n: nat, cut: nat, since: Instant)
    requires Once(log) && n <= cut <= |log|
    requires forall i :: 0 <= i < n ==> log[i].time <= since
    ensures var base, delta, all := Listed(log[..n], None), Listed(log[..cut], Some(since)), Listed(log[..cut], None);
            && base.Keys !! delta.Keys
            && (forall k :: 0 <= k < cut ==>
                  (log[k].serial in base + delta <==> k < n || log[k].time > since))
            && (base + delta == all <==> AllLater(log, n, cut, since))
  {
    hide Listed, AllLater, Once;
    var base, delta, all := Listed(log[..n], None), Listed(log[..cut], Some(since)), Listed(log[..cut], None);
    forall t
      ensures !(t in base && t in delta)
      ensures t in base ==> t in all && all[t] == base[t]
      ensures t in delta ==> t in all && all[t] == delta[t]
      ensures AllLater(log, n, cut, since) && t in all ==> t in base || t in delta
    {
      DeltaEntries(log, n, cut, since, t);
    }
    forall k | 0 <= k < cut
      ensures log[k].serial in base + delta <==> k < n || log[k].time > since
      ensures log[k].serial in all
    {
      ListedWhere(log, n, None, k);
      ListedWhere(log, cut, Some(since), k);
      ListedWhere(log, cut, None, k);
    }
    UnionIsAll(base, delta, all, AllLater(log, n, cut, since));
    CompleteMeansLater(log, n, cut, since, base + delta, all);
  }

  lemma UnionIsAll(base: map<Serial, Entry>, delta: map<Serial, Entry>, all: map<Serial, Entry>, later: bool)
    requires forall t ::
               && !(t in base && t in delta)
               && (t in base ==> t in all && all[t] == base[t])
               && (t in delta ==> t in all && all[t] == delta[t])
               && (later && t in all ==> t in base || t in delta)
    ensures later ==> base + delta == all
  {
  }

  lemma CompleteMeansLater(
    log: seq<Revocation>, n: nat, cut: nat, since: Instant, both: map<Serial, Entry>, all: map<Serial, Entry>)
    requires cut <= |log|
    requires forall k :: 0 <= k < cut ==>
               (log[k].serial in both <==> k < n || log[k].time > since) && log[k].serial in all
    ensures both == all ==> AllLater(log, n, cut, since)
  {
  }

  /** Over every run, every full CRL lists exactly the certificates whose revocation had committed
      when it read the table, each with the time and reason of its revocation, and every such time
      is before its `this_update`. */
  lemma FullCrlIsExact(events: seq<Event>, i: nat)
    requires After(events).Some? && i < |After(events).value.crls| && After(events).value.crls[i].base.None?
    ensures var s := After(events).value;
            var c := s.crls[i];
            && c.seen <= |s.log| && c.entries == Listed(s.log[..c.seen], None)
            && (forall k :: 0 <= k < |s.log| ==> (s.log[k].serial in c.entries <==> k < c.seen))
            && forall k :: 0 <= k < c.seen ==> s.log[k].time < c.thisUpdate
  {
    hide Listed, Once, JobInv;
    RunKeepsInv(events);
    var s := After(events).value;
    assert CrlInv(s, i);
    forall k | 0 <= k < |s.log|
      ensures s.log[k].serial in s.crls[i].entries <==> k < s.crls[i].seen
    {
      ListedWhere(s.log, s.crls[i].seen, None, k);
    }
  }

  lemma PrefixListed(log: seq<Revocation>, m: nat, n: nat)
    requires Once(log) && m <= |log| && n <= |log|
    ensures m <= n ==> Listed(log[..m], None).Keys <= Listed(log[..n], None).Keys
    ensures m <= n ==> forall t :: t in Listed(log[..m], None) ==> Listed(log[..m], None)[t] == Listed(log[..n], None)[t]
    ensures m > n ==> log[n].serial in Listed(log[..m], None) && log[n].serial !in Listed(log[..n], None)
  {
    hide Listed, Once;
    if m > n {
      ListedWhere(log, m, None, n);
      ListedWhere(log, n, None, n);
    } else {
      forall t | t in Listed(log[..m], None)
        ensures t in Listed(log[..n], None) && Listed(log[..m], None)[t] == Listed(log[..n], None)[t]
      {
        var k := ListedSomewhere(log, m, None, t);
        ListedWhere(log, m, None, k);
        ListedWhere(log, n, None, k);
      }
    }
  }

  /** Over every run, of two full CRLs the later one, by number and by `this_update`, lists all that
      the earlier one lists if and only if it did not read the table earlier; then with the same
      times and reasons. Otherwise it takes a certificate off the list that is still revoked. */
  lemma LaterFullCrlSupersedes(events: seq<Event>, i: nat, j: nat)
    requires After(events).Some? && i < j < |After(events).value.crls|
    requires After(events).value.crls[i].base.None? && After(events).value.crls[j].base.None?
    ensures var a, b := After(events).value.crls[i], After(events).value.crls[j];
            && a.number < b.number && a.thisUpdate < b.thisUpdate
            && (a.entries.Keys <= b.entries.Keys <==> a.seen <= b.seen)
            && (a.seen <= b.seen ==> forall t :: t in a.entries ==> t in b.entries && b.entries[t] == a.entries[t])
  {
    hide Listed, Once, Inv;
    NumbersAreContiguous(events);
    FullCrlIsExact(events, i);
    FullCrlIsExact(events, j);
    var s := After(events).value;
    RevokedOnce(events);
    PrefixListed(s.log, s.crls[i].seen, s.crls[j].seen);
  }

  lemma RevokedOnce(events: seq<Event>)
    requires After(events).Some?
    ensures Once(After(events).value.log)
  {
    RunKeepsInv(events);
  }

  lemma BaseOfDelta(s: State, i: nat)
    requires Inv(s) && i < |s.crls| && s.crls[i].base.Some?
    ensures var d := s.crls[i];
            && Once(s.log) && d.seen <= |s.log|
            && 1 <= d.base.value < d.number && d.base.value <= |s.crls|
            && var b := s.crls[d.base.value - 1];
            && b.base.None? && b.number == d.base.value && b.seen <= d.seen
            && b.entries == Listed(s.log[..b.seen], None)
            && d.entries == Listed(s.log[..d.seen], Some(b.thisUpdate))
            && forall k :: 0 <= k < b.seen ==> s.log[k].time <= b.thisUpdate
  {
    hide Listed, JobInv;
    assert CrlInv(s, i);
    assert CrlInv(s, s.crls[i].base.value - 1);
  }

  /** Over every run, a delta CRL refers to a stored full CRL with a smaller number; no certificate
      is in both; each lists the revocation's own time and reason; and the two together are exactly
      the certificates revoked when the delta read the table if and only if no revocation that
      committed after the base read the table carries a time up to the base's `this_update`. What is
      missing otherwise is exactly those revocations. */
  lemma DeltaCompletesBase(events: seq<Event>, i: nat)
    requires After(events).Some? && i < |After(events).value.crls| && After(events).value.crls[i].base.Some?
    ensures var s := After(events).value;
            var d := s.crls[i];
            && 1 <= d.base.value < d.number && d.base.value <= |s.crls|
            && var b := s.crls[d.base.value - 1];
            && b.base.None? && b.number == d.base.value
            && b.seen <= d.seen <= |s.log|
            && b.entries.Keys !! d.entries.Keys
            && (forall k :: 0 <= k < d.seen ==>
                  (s.log[k].serial in b.entries + d.entries <==> k < b.seen || s.log[k].time > b.thisUpdate))
            && (b.entries + d.entries == Listed(s.log[..d.seen], None)
                <==> AllLater(s.log, b.seen, d.seen, b.thisUpdate))
  {
    hide Listed, Inv, AllLater, Once, After;
    RunKeepsInv(events);
    var s := After(events).value;
    BaseOfDelta(s, i);
    LaterEntriesSplit(s.log, s.crls[s.crls[i].base.value - 1].seen, s.crls[i].seen,
                      s.crls[s.crls[i].base.value - 1].thisUpdate);
  }

  // ----- One operation at a time -----

  predicate Resting(k: Job) {
    k.Done?
  }

  predicate OthersRest(s: State, j: JobId) {
    s.pending == map[] && forall i :: i in s.jobs && i != j ==> Resting(s.jobs[i])
  }

  /** The event belongs to the only operation in progress. */
  predicate Alone(s: State, ev: Event) {
    match ev
    case Issue(_) => true
    case RevokeBegin(_, _, _, _) => s.pending == map[] && forall i :: i in s.jobs ==> Resting(s.jobs[i])
    case RevokeCommit(_) => true
    case RevokeFails(_) => true
    case Start(j, _) => OthersRest(s, j)
    case FindBase(j) => OthersRest(s, j)
    case Select(j) => OthersRest(s, j)
    case ReadNumber(j) => OthersRest(s, j)
    case Stamp(j, _) => OthersRest(s, j)
    case Store(j, _) => OthersRest(s, j)
    case JobFails(j) => OthersRest(s, j)
  }

  /** A run in which revocations and generations do not overlap. */
  predicate OneAtATime(events: seq<Event>)
    requires After(events).Some?
  {
    events == [] ||
    (OneAtATime(events[..|events| - 1]) && Alone(After(events[..|events| - 1]).value, events[|events| - 1]))
  }

  predicate JobSawAll(s: State, j: JobId)
    requires j in s.jobs
  {
    var k := s.jobs[j];
    (k.Selected? || k.Numbered? || k.Stamped? ==> k.seen == |s.log|) && (!Resting(k) ==> s.pending == map[])
  }

  predicate LaterThanCrls(crls: seq<StoredCrl>, time: Instant) {
    forall i :: 0 <= i < |crls| ==> crls[i].thisUpdate < time
  }

  predicate NothingMissed(s: State, i: nat)
    requires i < |s.crls|
  {
    forall k :: s.crls[i].seen <= k < |s.log| ==> s.log[k].time > s.crls[i].thisUpdate
  }

  predicate QuietInv(s: State) {
    && (forall j :: j in s.jobs ==> JobSawAll(s, j))
    && (forall x :: x in s.pending ==> LaterThanCrls(s.crls, s.pending[x].time))
    && (forall i :: 0 <= i < |s.crls| ==> NothingMissed(s, i))
  }

  lemma StepKeepsQuiet(s: State, ev: Event)
    requires Inv(s) && QuietInv(s) && Enabled(s, ev) && Alone(s, ev)
    ensures QuietInv(Next(s, ev))
  {
    hide SelectEntries, LatestFull, MaxNumber, Listed, CrlInv, TablesInv, JobInv;
    var s' := Next(s, ev);
    TimesBeforeClock(s);
    forall j | j in s'.jobs
      ensures JobSawAll(s', j)
    {
      if j in s.jobs {
        assert JobSawAll(s, j);
      }
    }
    forall x | x in s'.pending
      ensures LaterThanCrls(s'.crls, s'.pending[x].time)
    {
      assert x in s.pending ==> LaterThanCrls(s.crls, s.pending[x].time);
    }
    forall i | 0 <= i < |s'.crls|
      ensures NothingMissed(s', i)
    {
      if i < |s.crls| {
        assert NothingMissed(s, i);
      } else {
        assert JobSawAll(s, ev.job);
      }
    }
  }

  lemma {:induction false} QuietRunKeepsInv(events: seq<Event>)
    requires After(events).Some? && OneAtATime(events)
    ensures QuietInv(After(events).value)
  {
    hide Inv, QuietInv;
    if events == [] {
      InitialQuiet();
    } else {
      var prefix := events[..|events| - 1];
      QuietRunKeepsInv(prefix);
      RunKeepsInv(prefix);
      StepKeepsQuiet(After(prefix).value, events[|events| - 1]);
    }
  }

  lemma InitialQuiet()
    ensures QuietInv(INITIAL)
  {
  }

  /** When operations do not overlap, over every run, every delta and its base are disjoint and
      together are exactly the certificates revoked when the delta was made, times and reasons
      unchanged. */
  lemma QuietDeltasAreComplete(events: seq<Event>, i: nat)
    requires After(events).Some? && OneAtATime(events)
    requires i < |After(events).value.crls| && After(events).value.crls[i].base.Some?
    ensures var s := After(events).value;
            var d := s.crls[i];
            && 1 <= d.base.value <= |s.crls| && d.seen <= |s.log|
            && var b := s.crls[d.base.value - 1];
            && b.entries.Keys !! d.entries.Keys
            && b.entries + d.entries == Listed(s.log[..d.seen], None)
  {
    hide Listed, Inv, CrlInv;
    DeltaCompletesBase(events, i);
    QuietRunKeepsInv(events);
    var s := After(events).value;
    assert NothingMissed(s, s.crls[i].base.value - 1);
  }

  predicate SeenInOrder(s: State) {
    forall i, j :: 0 <= i < j < |s.crls| ==> s.crls[i].seen <= s.crls[j].seen
  }

  lemma StepKeepsSeenInOrder(s: State, ev: Event)
    requires Inv(s) && QuietInv(s) && SeenInOrder(s) && Enabled(s, ev)
    ensures SeenInOrder(Next(s, ev))
  {
    hide SelectEntries, LatestFull, MaxNumber, Listed, TablesInv, JobInv, NothingMissed, LaterThanCrls;
    if ev.Store? {
      assert JobSawAll(s, ev.job);
      forall i | 0 <= i < |s.crls|
        ensures s.crls[i].seen <= |s.log|
      {
        assert CrlInv(s, i);
      }
    }
  }

  lemma {:induction false} QuietRunReadsInOrder(events: seq<Event>)
    requires After(events).Some? && OneAtATime(events)
    ensures SeenInOrder(After(events).value)
  {
    hide Inv, QuietInv, SeenInOrder;
    if events == [] {
      InitialInOrder();
    } else {
      var prefix := events[..|events| - 1];
      QuietRunReadsInOrder(prefix);
      QuietRunKeepsInv(prefix);
      RunKeepsInv(prefix);
      StepKeepsSeenInOrder(After(prefix).value, events[|events| - 1]);
    }
  }

  lemma InitialInOrder()
    ensures SeenInOrder(INITIAL)
  {
  }

  /** When operations do not overlap, over every run, a later full CRL lists all that an earlier one
      lists, times and reasons unchanged. */
  lemma QuietFullCrlsSupersede(events: seq<Event>, i: nat, j: nat)
    requires After(events).Some? && OneAtATime(events) && i < j < |After(events).value.crls|
    requires After(events).value.crls[i].base.None? && After(events).value.crls[j].base.None?
    ensures var a, b := After(events).value.crls[i], After(events).value.crls[j];
            && a.entries.Keys <= b.entries.Keys
            && forall t :: t in a.entries ==> t in b.entries && b.entries[t] == a.entries[t]
  {
    LaterFullCrlSupersedes(events, i, j);
    QuietRunReadsInOrder(events);
  }

  // ----- The overtaking -----

  lemma NoneListed(certs: map<Serial, Certificate>, since: Option<Instant>)
    requires forall t :: t in certs ==> !Listable(certs[t], since)
    ensures SelectEntries(certs, since) == map[]
  {
  }

  lemma OneListed(serial: Serial, reason: Reason)
    ensures SelectEntries(map[serial := Certificate(true, Some(1), Some(AsI32(reason)))], None)
            == map[serial := Entry(1, Some(reason))]
  {
    ReasonSurvives(reason);
    hide FromI32, AsI32;
    var certs := map[serial := Certificate(true, Some(1), Some(AsI32(reason)))];
    assert SelectEntries(certs, None).Keys == {serial};
  }

  lemma SecondReadsFirst(serial: Serial, reason: Reason) returns (events: seq<Event>, s: State)
    ensures After(events) == Some(s) && s.log == [Revocation(serial, 1, reason)] && s.clock == 1 && s.crls == []
    ensures s.jobs == map[0 := Selected(None, map[], 0), 1 := Selected(None, map[serial := Entry(1, Some(reason))], 1)]
  {
    events := [];
    assert After(events) == Some(INITIAL);
    hide After, MaxNumber, SelectEntries, FromI32, AsI32;
    events, s := StepAfter(events, Issue(serial));
    events, s := StepAfter(events, Start(0, false));
    events, s := StepAfter(events, Start(1, false));
    NoneListed(s.certs, None);
    events, s := StepAfter(events, Select(0));
    events, s := StepAfter(events, RevokeBegin(0, serial, reason, 1));
    events, s := StepAfter(events, RevokeCommit(0));
    OneListed(serial, reason);
    assert s.certs == map[serial := Certificate(true, Some(1), Some(AsI32(reason)))];
    events, s := StepAfter(events, Select(1));
  }

  lemma SecondStoresFirst(serial: Serial, reason: Reason) returns (events: seq<Event>, s: State)
    ensures After(events) == Some(s) && s.log == [Revocation(serial, 1, reason)] && s.clock == 2
    ensures s.crls == [StoredCrl(1, 2, None, map[serial := Entry(1, Some(reason))], 1)]
    ensures s.jobs == map[0 := Selected(None, map[], 0), 1 := Done(true)]
  {
    hide After, MaxNumber, SelectEntries, LatestFull, FromI32, AsI32;
    events, s := SecondReadsFirst(serial, reason);
    assert MaxNumber([]) == 0;
    events, s := StepAfter(events, ReadNumber(1));
    events, s := StepAfter(events, Stamp(1, 2));
    events, s := StepAfter(events, Store(1, false));
  }

  /** The overtaking is real, for every certificate and reason: a generation that read the table
      before a revocation is stored after one that read it afterwards, and the full CRL that
      supersedes no longer lists the certificate. */
  lemma OvertakenFullCrlUnlists(serial: Serial, reason: Reason) returns (events: seq<Event>, s: State)
    ensures After(events) == Some(s) && s.log == [Revocation(serial, 1, reason)]
    ensures s.crls == [StoredCrl(1, 2, None, map[serial := Entry(1, Some(reason))], 1), StoredCrl(2, 3, None, map[], 0)]
  {
    hide After, MaxNumber, SelectEntries, LatestFull, FromI32, AsI32;
    events, s := SecondStoresFirst(serial, reason);
    OnlyFull(s.crls);
    events, s := StepAfter(events, ReadNumber(0));
    events, s := StepAfter(events, Stamp(0, 3));
    events, s := StepAfter(events, Store(0, false));
  }

  // ----- The window -----

  /** The window is real: a certificate revoked after the full CRL has read the table and before it
      takes its time is in neither that CRL nor a later delta on it. */
  lemma WindowHidesRevocation(serial: Serial, reason: Reason) returns (events: seq<Event>, s: State)
    ensures After(events) == Some(s) && s.log == [Revocation(serial, 1, reason)]
    ensures s.crls == [StoredCrl(1, 2, None, map[], 0), StoredCrl(2, 3, Some(1), map[], 1)]
  {
    hide After, MaxNumber, SelectEntries, LatestFull, FromI32, AsI32;
    events, s := AfterDeltaSelect(serial, reason);
    OnlyFull(s.crls);
    events, s := StepAfter(events, ReadNumber(1));
    events, s := StepAfter(events, Stamp(1, 3));
    events, s := StepAfter(events, Store(1, false));
  }

  lemma AfterDeltaSelect(serial: Serial, reason: Reason) returns (events: seq<Event>, s: State)
    ensures After(events) == Some(s) && s.log == [Revocation(serial, 1, reason)] && s.clock == 2
    ensures s.crls == [StoredCrl(1, 2, None, map[], 0)]
    ensures s.jobs == map[0 := Done(true), 1 := Selected(Some(BaseRef(1, 2)), map[], 1)]
  {
    hide After, MaxNumber, SelectEntries, LatestFull, FromI32, AsI32;
    events, s := AfterWindow(serial, reason);
    events, s := StepAfter(events, Start(1, true));
    OnlyFull(s.crls);
    events, s := StepAfter(events, FindBase(1));
    NoneListed(s.certs, Some(2));
    events, s := StepAfter(events, Select(1));
  }

  lemma AfterWindow(serial: Serial, reason: Reason) returns (events: seq<Event>, s: State)
    ensures After(events) == Some(s) && s.log == [Revocation(serial, 1, reason)] && s.clock == 2
    ensures s.certs == map[serial := Certificate(true, Some(1), Some(AsI32(reason)))]
    ensures s.crls == [StoredCrl(1, 2, None, map[], 0)] && s.jobs == map[0 := Done(true)]
  {
    events := [];
    assert After(events) == Some(INITIAL);
    hide After, MaxNumber, SelectEntries, FromI32, AsI32;
    events, s := StepAfter(events, Issue(serial));
    events, s := StepAfter(events, Start(0, false));
    NoneListed(s.certs, None);
    events, s := StepAfter(events, Select(0));
    events, s := StepAfter(events, RevokeBegin(0, serial, reason, 1));
    events, s := StepAfter(events, RevokeCommit(0));
    assert MaxNumber([]) == 0;
    events, s := StepAfter(events, ReadNumber(0));
    events, s := StepAfter(events, Stamp(0, 2));
    events, s := StepAfter(events, Store(0, false));
  }

  lemma OnlyFull(crls: seq<StoredCrl>)
    requires |crls| == 1 && crls[0].base.None?
    ensures LatestFull(crls) == Some(crls[0]) && MaxNumber(crls) == crls[0].number
  {
    assert LatestFull(crls[1..]) == None;
  }

  lemma StepAfter(events: seq<Event>, ev: Event) returns (events': seq<Event>, s: State)
    requires After(events).Some? && Enabled(After(events).value, ev)
    ensures events' == events + [ev]
    ensures After(events') == Some(s) && s == Next(After(events).value, ev)
  {
    events' := events + [ev];
    assert events'[..|events|] == events;
    s := Next(After(events).value, ev);
  }
}
