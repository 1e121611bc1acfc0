/** Revocation and CRL generation as a protocol: revocations, full CRLs and delta CRLs run step by
    step against the certificate and CRL tables, any number at once, any of them failing anywhere.
    A revocation's time is read when its statement starts, which is before it becomes visible. A
    generation reads its entries, then its number (`MAX + 1`), then `this_update`, then stores. */
module Crl {
  import opened Common

  type Serial = string
  type Instant = nat
  type JobId = nat
  type TxnId = nat

  datatype Reason =
    | Unspecified | KeyCompromise | CaCompromise | AffiliationChanged | Superseded
    | CessationOfOperation | CertificateHold | RemoveFromCrl | PrivilegeWithdrawn | AaCompromise

  function AsI32(r: Reason): int {
    match r
    case Unspecified => 0
    case KeyCompromise => 1
    case CaCompromise => 2
    case AffiliationChanged => 3
    case Superseded => 4
    case CessationOfOperation => 5
    case CertificateHold => 6
    case RemoveFromCrl => 8
    case PrivilegeWithdrawn => 9
    case AaCompromise => 10
  }

  function FromI32(code: int): (r: Option<Reason>)
    ensures r.Some? <==> 0 <= code <= 10 && code != 7
    ensures r.Some? ==> AsI32(r.value) == code
  {
    match code
    case 0 => Some(Unspecified)
    case 1 => Some(KeyCompromise)
    case 2 => Some(CaCompromise)
    case 3 => Some(AffiliationChanged)
    case 4 => Some(Superseded)
    case 5 => Some(CessationOfOperation)
    case 6 => Some(CertificateHold)
    case 8 => Some(RemoveFromCrl)
    case 9 => Some(PrivilegeWithdrawn)
    case 10 => Some(AaCompromise)
    case _ => None
  }

  /** A row of the certificate table: nullable columns as options. */
  datatype Certificate = Certificate(revoked: bool, revocationTime: Option<Instant>, revocationReason: Option<int>)

  datatype Entry = Entry(time: Instant, reason: Option<Reason>)

  /** A committed revocation. */
  datatype Revocation = Revocation(serial: Serial, time: Instant, reason: Reason)

  datatype BaseRef = BaseRef(number: nat, thisUpdate: Instant)

  /** `seen` is how many revocations had committed when the entries were read. */
  datatype Job =
    | Started(delta: bool)
    | BaseFound(ref: BaseRef)
    | Selected(base: Option<BaseRef>, entries: map<Serial, Entry>, seen: nat)
    | Numbered(base: Option<BaseRef>, entries: map<Serial, Entry>, seen: nat, number: nat)
    | Stamped(base: Option<BaseRef>, entries: map<Serial, Entry>, seen: nat, number: nat, thisUpdate: Instant)
    | Done(stored: bool)

  /** A stored CRL; `base` is the base CRL number of a delta. */
  datatype StoredCrl = StoredCrl(
    number: nat, thisUpdate: Instant, base: Option<nat>, entries: map<Serial, Entry>, seen: nat)

  /** `log` lists the committed revocations in commit order, `crls` the stored CRLs in store order. */
  datatype State = State(
    clock: Instant, certs: map<Serial, Certificate>, log: seq<Revocation>,
    pending: map<TxnId, Revocation>, jobs: map<JobId, Job>, crls: seq<StoredCrl>)

  const INITIAL := State(0, map[], [], map[], map[], [])

  datatype Event =
    | Issue(serial: Serial)
    | RevokeBegin(txn: TxnId, serial: Serial, reason: Reason, at: Instant)
    | RevokeCommit(txn: TxnId)
    | RevokeFails(txn: TxnId)
    | Start(job: JobId, delta: bool)
    | FindBase(job: JobId)
    | Select(job: JobId)
    | ReadNumber(job: JobId)
    | Stamp(job: JobId, at: Instant)
    | Store(job: JobId, replyLost: bool)
    | JobFails(job: JobId)

  // ----- Queries -----

  /** `MAX(crl_number)`, 0 for an empty table. */
  function MaxNumber(crls: seq<StoredCrl>): (m: nat)
    ensures forall i :: 0 <= i < |crls| ==> crls[i].number <= m
    ensures crls != [] ==> exists i :: 0 <= i < |crls| && crls[i].number == m
    ensures crls == [] ==> m == 0
  {
    if crls == [] then 0
    else
      var rest := MaxNumber(crls[..|crls| - 1]);
      var last := crls[|crls| - 1].number;
      assert crls == crls[..|crls| - 1] + [crls[|crls| - 1]];
      assert rest > last ==> exists i :: 0 <= i < |crls| - 1 && crls[..|crls| - 1][i].number == rest && crls[i].number == rest;
      if rest > last then rest else last
  }

  /** `WHERE is_delta = false ORDER BY crl_number DESC LIMIT 1` */
  function LatestFull(crls: seq<StoredCrl>): (r: Option<StoredCrl>)
    ensures r.Some? ==> r.value in crls && r.value.base.None?
    ensures r.None? ==> forall c :: c in crls ==> c.base.Some?
    ensures r.Some? ==> forall c :: c in crls && c.base.None? ==> c.number <= r.value.number
  {
    if crls == [] then None
    else
      var rest := LatestFull(crls[1..]);
      if crls[0].base.Some? || (rest.Some? && rest.value.number > crls[0].number) then rest else Some(crls[0])
  }

  /** The generator's filter over the revoked certificates: rows without a time are skipped, and a
      delta also skips those not later than its base. */
  predicate Listable(cert: Certificate, since: Option<Instant>) {
    && cert.revoked && cert.revocationTime.Some?
    && (since.Some? ==> cert.revocationTime.value > since.value)
  }

  function EntryOf(cert: Certificate): Entry
    requires cert.revocationTime.Some?
  {
    Entry(cert.revocationTime.value,
          if cert.revocationReason.Some? then FromI32(cert.revocationReason.value) else None)
  }

  function SelectEntries(certs: map<Serial, Certificate>, since: Option<Instant>): map<Serial, Entry> {
    map s | s in certs && Listable(certs[s], since) :: EntryOf(certs[s])
  }

  // ----- Steps -----

  predicate JobAt(s: State, j: JobId, stage: Job -> bool) {
    j in s.jobs && stage(s.jobs[j])
  }

  predicate Enabled(s: State, ev: Event) {
    match ev
    case Issue(serial) => serial !in s.certs
    case RevokeBegin(x, _, _, at) => x !in s.pending && at > s.clock
    case RevokeCommit(x) => x in s.pending
    case RevokeFails(x) => x in s.pending
    case Start(j, _) => j !in s.jobs
    case FindBase(j) => JobAt(s, j, (k: Job) => k == Started(true))
    case Select(j) => JobAt(s, j, (k: Job) => k == Started(false) || k.BaseFound?)
    case ReadNumber(j) => JobAt(s, j, (k: Job) => k.Selected?)
    case Stamp(j, at) => JobAt(s, j, (k: Job) => k.Numbered?) && at > s.clock
    case Store(j, _) => JobAt(s, j, (k: Job) => k.Stamped?)
    case JobFails(j) => JobAt(s, j, (k: Job) => !k.Done?)
  }

  function SinceOf(base: Option<BaseRef>): Option<Instant> {
    if base.Some? then Some(base.value.thisUpdate) else None
  }

  function NumberOf(base: Option<BaseRef>): Option<nat> {
    if base.Some? then Some(base.value.number) else None
  }

  function Commit(s: State, x: TxnId): State
    requires x in s.pending
  {
    var r := s.pending[x];
    if r.serial in s.certs && !s.certs[r.serial].revoked
    then s.(certs := s.certs[r.serial := Certificate(true, Some(r.time), Some(AsI32(r.reason)))],
            log := s.log + [r], pending := s.pending - {x})
    else s.(pending := s.pending - {x})
  }

  /** The insert, under `UNIQUE (ca_id, crl_number)`. */
  function Insert(s: State, j: JobId, replyLost: bool): State
    requires j in s.jobs && s.jobs[j].Stamped?
  {
    var k := s.jobs[j];
    if forall i :: 0 <= i < |s.crls| ==> s.crls[i].number != k.number
    then s.(crls := s.crls + [StoredCrl(k.number, k.thisUpdate, NumberOf(k.base), k.entries, k.seen)],
            jobs := s.jobs[j := Done(!replyLost)])
    else s.(jobs := s.jobs[j := Done(false)])
  }

  function Next(s: State, ev: Event): State
    requires Enabled(s, ev)
  {
    match ev
    case Issue(serial) => s.(certs := s.certs[serial := Certificate(false, None, None)])
    case RevokeBegin(x, serial, reason, at) =>
      s.(clock := at, pending := s.pending[x := Revocation(serial, at, reason)])
    case RevokeCommit(x) => Commit(s, x)
    case RevokeFails(x) => s.(pending := s.pending - {x})
    case Start(j, delta) => s.(jobs := s.jobs[j := Started(delta)])
    case FindBase(j) =>
      var base := LatestFull(s.crls);
      s.(jobs := s.jobs[j := if base.None? then Done(false)
                             else BaseFound(BaseRef(base.value.number, base.value.thisUpdate))])
    case Select(j) =>
      var base := if s.jobs[j].BaseFound? then Some(s.jobs[j].ref) else None;
      s.(jobs := s.jobs[j := Selected(base, SelectEntries(s.certs, SinceOf(base)), |s.log|)])
    case ReadNumber(j) =>
      var k := s.jobs[j];
      s.(jobs := s.jobs[j := Numbered(k.base, k.entries, k.seen, MaxNumber(s.crls) + 1)])
    case Stamp(j, at) =>
      var k := s.jobs[j];
      s.(clock := at, jobs := s.jobs[j := Stamped(k.base, k.entries, k.seen, k.number, at)])
    case Store(j, replyLost) => Insert(s, j, replyLost)
    case JobFails(j) => s.(jobs := s.jobs[j := Done(false)])
  }

  /** The state after a run of events from empty tables, if every event was possible. */
  function After(events: seq<Event>): Option<State> {
    if events == [] then Some(INITIAL)
    else
      var before := After(events[..|events| - 1]);
      var ev := events[|events| - 1];
      if before.Some? && Enabled(before.value, ev) then Some(Next(before.value, ev)) else None
  }

  // ----- What a CRL should list -----

  /** The entries for the revocations of `log` that are later than `since`. */
  function Listed(log: seq<Revocation>, since: Option<Instant>): map<Serial, Entry> {
    if log == [] then map[]
    else
      var r := log[|log| - 1];
      var rest := Listed(log[..|log| - 1], since);
      if since.Some? && r.time <= since.value then rest else rest[r.serial := Entry(r.time, Some(r.reason))]
  }

  /** No certificate is revoked twice. */
  predicate Once(log: seq<Revocation>) {
    forall i, j :: 0 <= i < j < |log| ==> log[i].serial != log[j].serial
  }

  predicate Later(r: Revocation, since: Option<Instant>) {
    since.Some? ==> r.time > since.value
  }

  lemma {:induction false} ListedExactly(log: seq<Revocation>, since: Option<Instant>)
    requires Once(log)
    ensures forall i :: 0 <= i < |log| ==>
              (log[i].serial in Listed(log, since) <==> Later(log[i], since))
              && (Later(log[i], since) ==> Listed(log, since)[log[i].serial] == Entry(log[i].time, Some(log[i].reason)))
    ensures forall s :: s in Listed(log, since) ==> exists i :: 0 <= i < |log| && log[i].serial == s
  {
    if log != [] {
      var n := |log| - 1;
      ListedExactly(log[..n], since);
      assert forall i :: 0 <= i < n ==> log[..n][i] == log[i];
      forall s | s in Listed(log, since)
        ensures exists i :: 0 <= i < |log| && log[i].serial == s
      {
        if s == log[n].serial {
          assert log[n].serial == s;
        } else {
          assert s in Listed(log[..n], since);
          var i :| 0 <= i < n && log[..n][i].serial == s;
          assert log[i].serial == s;
        }
      }
      assert log[n].serial !in Listed(log[..n], since);
    }
  }

  // ----- The invariant -----

  /** The certificate table says what the log says. */
  predicate CertMatches(s: State, serial: Serial)
    requires serial in s.certs
  {
    var cert := s.certs[serial];
    var all := Listed(s.log, None);
    && (cert.revoked <==> serial in all)
    && (cert.revoked ==> cert.revocationTime == Some(all[serial].time) && cert.revocationReason.Some?
                         && FromI32(cert.revocationReason.value) == all[serial].reason)
  }

  predicate TablesInv(s: State) {
    && Once(s.log)
    && (forall i :: 0 <= i < |s.log| ==> s.log[i].time <= s.clock && s.log[i].serial in s.certs)
    && (forall x :: x in s.pending ==> s.pending[x].time <= s.clock)
    && (forall serial :: serial in s.certs ==> CertMatches(s, serial))
  }

  /** A base reference names a stored full CRL, whose entries were read no later than `seen`. */
  predicate BaseInv(s: State, base: Option<BaseRef>, seen: nat) {
    base.Some? ==>
      && 1 <= base.value.number <= |s.crls|
      && var b := s.crls[base.value.number - 1];
      && b.base.None? && b.thisUpdate == base.value.thisUpdate && b.seen <= seen
  }

  predicate ContentInv(s: State, base: Option<BaseRef>, entries: map<Serial, Entry>, seen: nat) {
    && BaseInv(s, base, seen) && seen <= |s.log|
    && entries == Listed(s.log[..seen], SinceOf(base))
  }

  predicate StampInv(s: State, number: nat, seen: nat, thisUpdate: Instant) {
    && thisUpdate <= s.clock
    && (forall i :: 0 <= i < number - 1 && i < |s.crls| ==> s.crls[i].thisUpdate < thisUpdate)
    && (forall i :: 0 <= i < seen && i < |s.log| ==> s.log[i].time < thisUpdate)
  }

  predicate NumberInv(s: State, base: Option<BaseRef>, number: nat) {
    1 <= number <= |s.crls| + 1 && (base.Some? ==> base.value.number < number)
  }

  predicate JobInv(s: State, j: JobId)
    requires j in s.jobs
  {
    match s.jobs[j]
    case Started(_) => true
    case BaseFound(ref) => BaseInv(s, Some(ref), |s.log|)
    case Selected(base, entries, seen) => ContentInv(s, base, entries, seen)
    case Numbered(base, entries, seen, number) =>
      ContentInv(s, base, entries, seen) && NumberInv(s, base, number)
    case Stamped(base, entries, seen, number, thisUpdate) =>
      && ContentInv(s, base, entries, seen) && NumberInv(s, base, number)
      && StampInv(s, number, seen, thisUpdate)
    case Done(_) => true
  }

  /** The base reference behind a stored CRL. */
  function RefOf(s: State, c: StoredCrl): Option<BaseRef> {
    if c.base.Some? && 1 <= c.base.value <= |s.crls|
    then Some(BaseRef(c.base.value, s.crls[c.base.value - 1].thisUpdate)) else None
  }

  predicate CrlInv(s: State, i: nat)
    requires i < |s.crls|
  {
    var c := s.crls[i];
    && c.number == i + 1
    && (c.base.Some? ==> 1 <= c.base.value < c.number)
    && ContentInv(s, RefOf(s, c), c.entries, c.seen)
    && StampInv(s, c.number, c.seen, c.thisUpdate)
  }

  predicate Inv(s: State) {
    && TablesInv(s)
    && (forall j :: j in s.jobs ==> JobInv(s, j))
    && (forall i :: 0 <= i < |s.crls| ==> CrlInv(s, i))
  }

  // ----- Every step keeps it -----

  lemma SelectionIsListed(s: State, since: Option<Instant>)
    requires TablesInv(s)
    ensures SelectEntries(s.certs, since) == Listed(s.log, since)
  {
    hide FromI32, AsI32;
    ListedExactly(s.log, None);
    ListedExactly(s.log, since);
    var chosen, listed := SelectEntries(s.certs, since), Listed(s.log, since);
    forall t
      ensures t in chosen <==> t in listed
      ensures t in chosen ==> chosen[t] == listed[t]
    {
      if t in s.certs {
        assert CertMatches(s, t);
      }
      if t in Listed(s.log, None) {
        var i :| 0 <= i < |s.log| && s.log[i].serial == t;
      }
    }
  }

  lemma CommitKeepsTables(s: State, x: TxnId)
    requires TablesInv(s) && x in s.pending
    ensures TablesInv(Commit(s, x))
  {
    var s' := Commit(s, x);
    var r := s.pending[x];
    hide FromI32;
    ListedExactly(s.log, None);
    if s'.log != s.log {
      assert s'.log[..|s.log|] == s.log;
      assert CertMatches(s, r.serial);
      ReasonSurvives(r.reason);
      forall t | t in s'.certs
        ensures CertMatches(s', t)
      {
        assert CertMatches(s, t);
      }
    } else {
      forall t | t in s'.certs
        ensures CertMatches(s', t)
      {
        assert CertMatches(s, t);
      }
    }
  }

  /** A reason written to the table is the reason read back. */
  lemma ReasonSurvives(r: Reason)
    ensures FromI32(AsI32(r)) == Some(r)
  {
  }

  lemma StepKeepsTables(s: State, ev: Event)
    requires TablesInv(s) && Enabled(s, ev)
    ensures TablesInv(Next(s, ev))
  {
    hide FromI32, SelectEntries, LatestFull, MaxNumber;
    if ev.RevokeCommit? {
      CommitKeepsTables(s, ev.txn);
    } else {
      var s' := Next(s, ev);
      ListedExactly(s.log, None);
      assert s'.log == s.log;
      forall t | t in s'.certs
        ensures CertMatches(s', t)
      {
        if t in s.certs {
          assert CertMatches(s, t);
        }
      }
    }
  }

  /** What later steps may change: logs and CRLs are appended to and the clock advances. */
  predicate Grows(s: State, s': State) {
    s.log <= s'.log && s.crls <= s'.crls && s.clock <= s'.clock
  }

  lemma StepGrows(s: State, ev: Event)
    requires Enabled(s, ev)
    ensures Grows(s, Next(s, ev))
  {
  }

  lemma ContentStays(s: State, s': State, base: Option<BaseRef>, entries: map<Serial, Entry>, seen: nat)
    requires Grows(s, s') && ContentInv(s, base, entries, seen)
    ensures ContentInv(s', base, entries, seen)
  {
    assert s'.log[..seen] == s.log[..seen];
  }

  lemma StampStays(s: State, s': State, number: nat, seen: nat, thisUpdate: Instant)
    requires Grows(s, s') && StampInv(s, number, seen, thisUpdate)
    requires number <= |s.crls| + 1 && seen <= |s.log|
    ensures StampInv(s', number, seen, thisUpdate)
  {
  }

  lemma OtherJobStays(s: State, s': State, j: JobId)
    requires Grows(s, s') && j in s.jobs && j in s'.jobs && s'.jobs[j] == s.jobs[j] && JobInv(s, j)
    ensures JobInv(s', j)
  {
    hide ContentInv, StampInv, Listed;
    var k := s.jobs[j];
    if k.Selected? || k.Numbered? || k.Stamped? {
      ContentStays(s, s', k.base, k.entries, k.seen);
      SeenIsLogged(s, k.base, k.entries, k.seen);
    }
    if k.Stamped? {
      StampStays(s, s', k.number, k.seen, k.thisUpdate);
    }
  }

  lemma SeenIsLogged(s: State, base: Option<BaseRef>, entries: map<Serial, Entry>, seen: nat)
    requires ContentInv(s, base, entries, seen)
    ensures seen <= |s.log|
  {
  }

  /** Stored numbers are 1, 2, ...: the maximum is the number of CRLs. */
  lemma MaxIsCount(s: State)
    requires forall i :: 0 <= i < |s.crls| ==> CrlInv(s, i)
    ensures MaxNumber(s.crls) == |s.crls|
  {
    hide ContentInv, StampInv;
    if s.crls != [] {
      assert CrlInv(s, |s.crls| - 1);
      var i :| 0 <= i < |s.crls| && s.crls[i].number == MaxNumber(s.crls);
      assert CrlInv(s, i);
    }
  }

  lemma FoundBaseIsStored(s: State)
    requires Inv(s) && LatestFull(s.crls).Some?
    ensures var b := LatestFull(s.crls).value;
            BaseInv(s, Some(BaseRef(b.number, b.thisUpdate)), |s.log|)
  {
    hide Listed, TablesInv, JobInv, StampInv;
    var b := LatestFull(s.crls).value;
    var i :| 0 <= i < |s.crls| && s.crls[i] == b;
    assert CrlInv(s, i);
  }

  lemma OwnJobStep(s: State, ev: Event)
    requires Inv(s) && Enabled(s, ev)
    requires ev.FindBase? || ev.Select? || ev.ReadNumber? || ev.Stamp?
    ensures JobInv(Next(s, ev), ev.job)
  {
    hide Listed, TablesInv, MaxNumber, SelectEntries, CrlInv;
    assert JobInv(s, ev.job);
    if ev.FindBase? {
      if LatestFull(s.crls).Some? {
        FoundBaseIsStored(s);
      }
    } else if ev.Select? {
      var base := if s.jobs[ev.job].BaseFound? then Some(s.jobs[ev.job].ref) else None;
      SelectionIsListed(s, SinceOf(base));
      assert s.log[..|s.log|] == s.log;
    } else if ev.ReadNumber? {
      MaxIsCount(s);
    } else {
      TimesBeforeClock(s);
    }
  }

  lemma TimesBeforeClock(s: State)
    requires Inv(s)
    ensures forall i :: 0 <= i < |s.log| ==> s.log[i].time <= s.clock
    ensures forall i :: 0 <= i < |s.crls| ==> s.crls[i].thisUpdate <= s.clock
  {
    hide Listed, JobInv, ContentInv;
    forall i | 0 <= i < |s.crls|
      ensures s.crls[i].thisUpdate <= s.clock
    {
      assert CrlInv(s, i);
    }
  }

  /** A delta starts from the full CRL with the largest number stored at that moment, and without one
      it is not generated. */
  lemma DeltaFindsLatestFull(s: State, j: JobId)
    requires Inv(s) && Enabled(s, FindBase(j))
    ensures var k := Next(s, FindBase(j)).jobs[j];
            if exists i :: 0 <= i < |s.crls| && s.crls[i].base.None? then
              k.BaseFound?
              && (exists i :: 0 <= i < |s.crls| && s.crls[i].base.None? && s.crls[i].number == k.ref.number
                              && s.crls[i].thisUpdate == k.ref.thisUpdate)
              && (forall i :: 0 <= i < |s.crls| && s.crls[i].base.None? ==> s.crls[i].number <= k.ref.number)
            else k == Done(false)
  {
    hide CrlInv, TablesInv, JobInv;
    var found := LatestFull(s.crls);
    if found.Some? {
      var i :| 0 <= i < |s.crls| && s.crls[i] == found.value;
      assert s.crls[i].base.None?;
    }
  }

  /** From there to the store a generation keeps what it has read. */
  lemma GenerationKeepsItsReads(s: State, ev: Event)
    requires Enabled(s, ev)
    ensures match ev
            case Select(j) =>
              var k := Next(s, ev).jobs[j];
              k.base == (if s.jobs[j].BaseFound? then Some(s.jobs[j].ref) else None) && k.seen == |s.log|
            case ReadNumber(j) =>
              var k, k' := s.jobs[j], Next(s, ev).jobs[j];
              k'.base == k.base && k'.entries == k.entries && k'.seen == k.seen && k'.number == MaxNumber(s.crls) + 1
            case Stamp(j, at) =>
              var k, k' := s.jobs[j], Next(s, ev).jobs[j];
              k'.base == k.base && k'.entries == k.entries && k'.seen == k.seen && k'.number == k.number
              && k'.thisUpdate == at
            case _ => true
  {
    hide MaxNumber, SelectEntries;
  }

  /** The insert appends the number after the largest, or is refused. */
  lemma InsertAppends(s: State, j: JobId, replyLost: bool)
    requires Inv(s) && j in s.jobs && s.jobs[j].Stamped?
    ensures var s' := Insert(s, j, replyLost);
            if s.jobs[j].number == |s.crls| + 1
            then |s'.crls| == |s.crls| + 1 && CrlInv(s', |s.crls|)
            else s'.crls == s.crls
  {
    hide Listed, TablesInv;
    var k := s.jobs[j];
    assert JobInv(s, j);
    forall i | 0 <= i < |s.crls|
      ensures s.crls[i].number == i + 1
    {
      NumberAt(s, i);
    }
    if k.number <= |s.crls| {
      assert s.crls[k.number - 1].number == k.number;
    } else {
      var s' := Insert(s, j, replyLost);
      ContentStays(s, s', k.base, k.entries, k.seen);
      StampStays(s, s', k.number, k.seen, k.thisUpdate);
    }
  }

  lemma NumberAt(s: State, i: nat)
    requires i < |s.crls| && CrlInv(s, i)
    ensures s.crls[i].number == i + 1
  {
  }

  lemma OldCrlStays(s: State, s': State, i: nat)
    requires Grows(s, s') && i < |s.crls| && CrlInv(s, i)
    ensures CrlInv(s', i)
  {
    hide Listed;
    var c := s.crls[i];
    ContentStays(s, s', RefOf(s, c), c.entries, c.seen);
    StampStays(s, s', c.number, c.seen, c.thisUpdate);
  }

  lemma StepKeepsInv(s: State, ev: Event)
    requires Inv(s) && Enabled(s, ev)
    ensures Inv(Next(s, ev))
  {
    hide TablesInv, JobInv, CrlInv, Listed, SelectEntries, LatestFull, MaxNumber;
    var s' := Next(s, ev);
    StepGrows(s, ev);
    StepKeepsTables(s, ev);
    forall j | j in s'.jobs
      ensures JobInv(s', j)
    {
      if j in s.jobs && s'.jobs[j] == s.jobs[j] {
        OtherJobStays(s, s', j);
      } else if ev.FindBase? || ev.Select? || ev.ReadNumber? || ev.Stamp? {
        OwnJobStep(s, ev);
      } else {
        RestingJob(s', j);
      }
    }
    forall i | 0 <= i < |s'.crls|
      ensures CrlInv(s', i)
    {
      if i < |s.crls| {
        OldCrlStays(s, s', i);
      } else {
        InsertAppends(s, ev.job, ev.replyLost);
      }
    }
  }

  lemma RestingJob(s: State, j: JobId)
    requires j in s.jobs && (s.jobs[j].Started? || s.jobs[j].Done?)
    ensures JobInv(s, j)
  {
  }

  lemma {:induction false} RunKeepsInv(events: seq<Event>)
    requires After(events).Some?
    ensures Inv(After(events).value)
  {
    hide Inv;
    if events == [] {
      InitialInv();
    } else {
      RunKeepsInv(events[..|events| - 1]);
      StepKeepsInv(After(events[..|events| - 1]).value, events[|events| - 1]);
    }
  }

  lemma InitialInv()
    ensures Inv(INITIAL)
  {
  }
}
