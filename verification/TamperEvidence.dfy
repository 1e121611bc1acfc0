/** Tamper evidence of the hash chain. The hash covers the fields without separators, so equal
    hashes cannot pin every field; they do pin the hashed octets, the id, the time and the link,
    and through the link every earlier record, unless two different octet strings with the same
    digest have been found or a year beyond 9999 is read as an earlier one. */
module TamperEvidence {
  import opened Common
  import opened Rfc3339
  import opened AuditEvents
  import opened AuditSink

  /** Two records whose hashed octets differ although their digests agree. */
  predicate Collision(p: Primitives, a: DbEvent, b: DbEvent) {
    Preimage(p, a) != Preimage(p, b) && HashOf(p, a) == HashOf(p, b)
  }

  /** Two records that agree on everything the hash pins down. */
  predicate SameRecord(p: Primitives, a: DbEvent, b: DbEvent) {
    && Preimage(p, a) == Preimage(p, b)
    && a.id == b.id && a.timestamp == b.timestamp && a.eventHash == b.eventHash
  }

  /** Two records with the same hashed octets of which one is dated before year 10000 and the other
      whole ten thousands of years away: the sign and first digits of the longer year stand in the
      text of the other record's content. */
  predicate Confused(p: Primitives, a: DbEvent, b: DbEvent) {
    && Preimage(p, a) == Preimage(p, b) && a.id == b.id
    && FourDigitYear(a.timestamp) != FourDigitYear(b.timestamp) && MyriadsApart(a.timestamp, b.timestamp)
    && Content(p, a) + OrEmpty(a.previousHash) + Myriads(CivilOf(a.timestamp).year)
       == Content(p, b) + OrEmpty(b.previousHash) + Myriads(CivilOf(b.timestamp).year)
  }

  /** The record `k` places before the end. */
  function FromEnd(rows: seq<DbEvent>, k: nat): DbEvent
    requires k < |rows|
  {
    rows[|rows| - 1 - k]
  }

  lemma ContentStartsWithId(p: Primitives, r: DbEvent)
    ensures |Content(p, r)| >= 16 && Content(p, r)[..16] == r.id
  {
    var a := r.id + r.eventType + r.actor + r.target + r.action;
    assert r.id <= r.id + r.eventType <= r.id + r.eventType + r.actor;
    assert r.id + r.eventType + r.actor <= r.id + r.eventType + r.actor + r.target <= a;
    assert a <= a + r.outcome <= a + r.outcome + DetailsText(p, r.details);
    var b := a + r.outcome + DetailsText(p, r.details);
    assert b <= b + OrEmpty(r.ipAddress) <= b + OrEmpty(r.ipAddress) + OrEmpty(r.userAgent) <= Content(p, r);
  }

  /** Equal hashed octets mean equal ids and times, and equal content up to the chain link, unless
      a year beyond 9999 is confused with one before 10000. */
  lemma PreimageDecodes(p: Primitives, a: DbEvent, b: DbEvent)
    requires Preimage(p, a) == Preimage(p, b)
    ensures a.id == b.id
    ensures || Confused(p, a, b)
            || (a.timestamp == b.timestamp
                && Content(p, a) + OrEmpty(a.previousHash) == Content(p, b) + OrEmpty(b.previousHash))
  {
    hide CivilOf, Content, Render, Myriads;
    var x, y := Content(p, a) + OrEmpty(a.previousHash), Content(p, b) + OrEmpty(b.previousHash);
    RenderSuffixDecodable(x, a.timestamp, y, b.timestamp);
    ContentStartsWithId(p, a);
    ContentStartsWithId(p, b);
    var m, n := Myriads(CivilOf(a.timestamp).year), Myriads(CivilOf(b.timestamp).year);
    assert (x + m)[..16] == a.id && (y + n)[..16] == b.id;
  }

  /** Equal hashed octets of two records that both have a predecessor mean equal links as well. */
  lemma PreimageDecodesLink(p: Primitives, a: DbEvent, b: DbEvent)
    requires Preimage(p, a) == Preimage(p, b)
    requires a.previousHash.Some? && b.previousHash.Some? && |a.previousHash.value| == |b.previousHash.value|
    ensures Confused(p, a, b) || a.previousHash == b.previousHash
  {
    hide Preimage, Content, Confused;
    PreimageDecodes(p, a, b);
    if !Confused(p, a, b) {
      PeelBack(Content(p, a), a.previousHash.value, Content(p, b), b.previousHash.value);
    }
  }

  /** The confusion is real: without a predecessor, a record beyond year 9999 has the hashed octets
      of one dated whole ten thousands of years earlier whose session id ends in the difference. */
  lemma LongYearsAreConfused(p: Primitives, r: DbEvent, t: Instant)
    requires r.previousHash == None && !FourDigitYear(r.timestamp)
    requires FourDigitYear(t) && MyriadsApart(t, r.timestamp)
    ensures var early := r.(timestamp := t, sessionId := Some(OrEmpty(r.sessionId) + Myriads(CivilOf(r.timestamp).year)));
            Confused(p, early, r) && (Verifies(p, [r]) ==> Verifies(p, [early]))
  {
    hide CivilOf, Render, Myriads;
    var m := Myriads(CivilOf(r.timestamp).year);
    var early := r.(timestamp := t, sessionId := Some(OrEmpty(r.sessionId) + m));
    MyriadsAreAmbiguous(t, r.timestamp);
    ContentWithSession(p, r, early, m);
    Assoc(Content(p, r), m, Render(t));
    assert Preimage(p, early) == Content(p, early) + Render(t);
    assert Preimage(p, r) == Content(p, r) + (m + Render(t));
    FourDigitHasNoMyriads(t);
    if Verifies(p, [r]) {
      assert RecordVerifies(p, [r], 0);
      assert RecordVerifies(p, [early], 0);
    }
  }

  lemma FourDigitHasNoMyriads(t: Instant)
    requires FourDigitYear(t)
    ensures Myriads(CivilOf(t).year) == ""
  {
  }

  lemma ContentWithSession(p: Primitives, r: DbEvent, longer: DbEvent, m: Octets)
    requires longer == r.(timestamp := longer.timestamp, sessionId := Some(OrEmpty(r.sessionId) + m))
    ensures Content(p, longer) == Content(p, r) + m
  {
    var before := r.id + r.eventType + r.actor + r.target + r.action + r.outcome + DetailsText(p, r.details)
                  + OrEmpty(r.ipAddress) + OrEmpty(r.userAgent);
    Assoc(before, OrEmpty(r.sessionId), m);
  }

  // ----- What one field does -----

  /** The hashed octets of a row, field by field. */
  function Fields(p: Primitives, r: DbEvent): (fields: seq<Octets>)
    ensures |fields| == 12
  {
    [r.id, r.eventType, r.actor, r.target, r.action, r.outcome, DetailsText(p, r.details), OrEmpty(r.ipAddress),
     OrEmpty(r.userAgent), OrEmpty(r.sessionId), OrEmpty(r.previousHash), Render(r.timestamp)]
  }

  lemma PreimageIsFields(p: Primitives, r: DbEvent)
    ensures Preimage(p, r) == Concat(Fields(p, r))
  {
    hide Render, DetailsText, OrEmpty;
    var f := Fields(p, r);
    ConcatSnocs(f);
    assert f[..10] + [f[10]] + [f[11]] == f;
  }

  /** A run of fields, added one by one. */
  lemma ConcatSnocs(f: seq<Octets>)
    requires |f| == 12
    ensures Concat(f) == f[0] + f[1] + f[2] + f[3] + f[4] + f[5] + f[6] + f[7] + f[8] + f[9] + f[10] + f[11]
  {
    hide Concat;
    ConcatOne(f[0]);
    Snoc(f, 1);
    Snoc(f, 2);
    Snoc(f, 3);
    Snoc(f, 4);
    Snoc(f, 5);
    Snoc(f, 6);
    Snoc(f, 7);
    Snoc(f, 8);
    Snoc(f, 9);
    Snoc(f, 10);
    Snoc(f, 11);
    assert f[..1] == [f[0]] && f[..12] == f;
  }

  lemma Snoc(f: seq<Octets>, k: nat)
    requires k < |f|
    ensures Concat(f[..k + 1]) == Concat(f[..k]) + f[k]
  {
    ConcatAppend(f[..k], [f[k]]);
    ConcatOne(f[k]);
    assert f[..k + 1] == f[..k] + [f[k]];
  }

  /** Two lists of octet strings that differ at one place only concatenate to different strings. */
  lemma OnePlaceDiffers(f: seq<Octets>, g: seq<Octets>, k: nat)
    requires k < |f| && |f| == |g| && f[k] != g[k]
    requires forall i :: 0 <= i < |f| && i != k ==> f[i] == g[i]
    ensures Concat(f) != Concat(g)
  {
    SplitAt(f, k);
    SplitAt(g, k);
    assert f[..k] == g[..k] && f[k + 1..] == g[k + 1..];
    hide Concat;
    var x, z := Concat(f[..k]), Concat(f[k + 1..]);
    if x + f[k] + z == x + g[k] + z {
      PeelBack(x + f[k], z, x + g[k], z);
      Peel(x, f[k], x, g[k]);
    }
  }

  lemma SplitAt(f: seq<Octets>, k: nat)
    requires k < |f|
    ensures Concat(f) == Concat(f[..k]) + f[k] + Concat(f[k + 1..])
  {
    hide Concat;
    Snoc(f, k);
    ConcatAppend(f[..k + 1], f[k + 1..]);
    assert f == f[..k + 1] + f[k + 1..];
  }

  predicate OnlyDiffersAt(f: seq<Octets>, g: seq<Octets>, k: nat) {
    k < |f| == |g| && f[k] != g[k] && forall i :: 0 <= i < |f| && i != k ==> f[i] == g[i]
  }

  lemma FieldIsHashed(p: Primitives, a: DbEvent, b: DbEvent, k: nat)
    ensures OnlyDiffersAt(Fields(p, a), Fields(p, b), k) ==> Preimage(p, a) != Preimage(p, b)
  {
    hide Fields, Preimage, Concat;
    if OnlyDiffersAt(Fields(p, a), Fields(p, b), k) {
      PreimageIsFields(p, a);
      PreimageIsFields(p, b);
      OnePlaceDiffers(Fields(p, a), Fields(p, b), k);
    }
  }

  /** Every hashed field counts: change any one of them in a row, in a way that changes its octets,
      and the row's preimage is another one, so equal digests are a collision. */
  lemma EveryFieldIsHashed(p: Primitives, a: DbEvent, b: DbEvent)
    ensures b == a.(id := b.id) && a.id != b.id ==> Preimage(p, a) != Preimage(p, b)
    ensures b == a.(eventType := b.eventType) && a.eventType != b.eventType ==> Preimage(p, a) != Preimage(p, b)
    ensures b == a.(actor := b.actor) && a.actor != b.actor ==> Preimage(p, a) != Preimage(p, b)
    ensures b == a.(target := b.target) && a.target != b.target ==> Preimage(p, a) != Preimage(p, b)
    ensures b == a.(action := b.action) && a.action != b.action ==> Preimage(p, a) != Preimage(p, b)
    ensures b == a.(outcome := b.outcome) && a.outcome != b.outcome ==> Preimage(p, a) != Preimage(p, b)
    ensures b == a.(details := b.details) && DetailsDiffer(p, a.details, b.details) ==> Preimage(p, a) != Preimage(p, b)
    ensures b == a.(ipAddress := b.ipAddress) && Differ(a.ipAddress, b.ipAddress) ==> Preimage(p, a) != Preimage(p, b)
    ensures b == a.(userAgent := b.userAgent) && Differ(a.userAgent, b.userAgent) ==> Preimage(p, a) != Preimage(p, b)
    ensures b == a.(sessionId := b.sessionId) && Differ(a.sessionId, b.sessionId) ==> Preimage(p, a) != Preimage(p, b)
    ensures b == a.(previousHash := b.previousHash) && Differ(a.previousHash, b.previousHash) ==>
              Preimage(p, a) != Preimage(p, b)
    ensures b == a.(timestamp := b.timestamp) && a.timestamp != b.timestamp ==> Preimage(p, a) != Preimage(p, b)
    ensures Preimage(p, a) != Preimage(p, b) && HashOf(p, a) == HashOf(p, b) ==> Collision(p, a, b)
  {
    hide Preimage, Render, HashOf, OnlyDiffersAt, Fields;
    if a.timestamp != b.timestamp && Render(a.timestamp) == Render(b.timestamp) {
      RenderInjective(a.timestamp, b.timestamp);
    }
    forall k: nat | k < 12
      ensures OnlyDiffersAt(Fields(p, a), Fields(p, b), k) ==> Preimage(p, a) != Preimage(p, b)
    {
      FieldIsHashed(p, a, b, k);
    }
    TextFieldChanges(p, a, b);
    OptionalFieldChanges(p, a, b);
    DetailsChange(p, a, b);
  }

  lemma TextFieldChanges(p: Primitives, a: DbEvent, b: DbEvent)
    ensures b == a.(id := b.id) && a.id != b.id ==> OnlyDiffersAt(Fields(p, a), Fields(p, b), 0)
    ensures b == a.(eventType := b.eventType) && a.eventType != b.eventType ==> OnlyDiffersAt(Fields(p, a), Fields(p, b), 1)
    ensures b == a.(actor := b.actor) && a.actor != b.actor ==> OnlyDiffersAt(Fields(p, a), Fields(p, b), 2)
    ensures b == a.(target := b.target) && a.target != b.target ==> OnlyDiffersAt(Fields(p, a), Fields(p, b), 3)
    ensures b == a.(action := b.action) && a.action != b.action ==> OnlyDiffersAt(Fields(p, a), Fields(p, b), 4)
    ensures b == a.(outcome := b.outcome) && a.outcome != b.outcome ==> OnlyDiffersAt(Fields(p, a), Fields(p, b), 5)
    ensures b == a.(timestamp := b.timestamp) && Render(a.timestamp) != Render(b.timestamp) ==>
              OnlyDiffersAt(Fields(p, a), Fields(p, b), 11)
  {
    hide Render;
  }

  lemma OptionalFieldChanges(p: Primitives, a: DbEvent, b: DbEvent)
    ensures b == a.(ipAddress := b.ipAddress) && Differ(a.ipAddress, b.ipAddress) ==>
              OnlyDiffersAt(Fields(p, a), Fields(p, b), 7)
    ensures b == a.(userAgent := b.userAgent) && Differ(a.userAgent, b.userAgent) ==>
              OnlyDiffersAt(Fields(p, a), Fields(p, b), 8)
    ensures b == a.(sessionId := b.sessionId) && Differ(a.sessionId, b.sessionId) ==>
              OnlyDiffersAt(Fields(p, a), Fields(p, b), 9)
    ensures b == a.(previousHash := b.previousHash) && Differ(a.previousHash, b.previousHash) ==>
              OnlyDiffersAt(Fields(p, a), Fields(p, b), 10)
  {
    hide Render;
  }

  lemma DetailsChange(p: Primitives, a: DbEvent, b: DbEvent)
    ensures b == a.(details := b.details) && DetailsDiffer(p, a.details, b.details) ==>
              OnlyDiffersAt(Fields(p, a), Fields(p, b), 6)
  {
    hide Render;
  }

  /** Details whose serialised texts differ, an absent one counting as empty. */
  predicate DetailsDiffer(p: Primitives, a: Option<Json>, b: Option<Json>) {
    match (a, b)
    case (Some(x), Some(y)) => p.json(x) != p.json(y)
    case (Some(x), None) => p.json(x) != ""
    case (None, Some(y)) => p.json(y) != ""
    case (None, None) => false
  }

  /** Optional texts that are not both empty or absent, and differ. */
  predicate Differ(a: Option<Octets>, b: Option<Octets>) {
    match (a, b)
    case (Some(x), Some(y)) => x != y
    case (Some(x), None) => x != ""
    case (None, Some(y)) => y != ""
    case (None, None) => false
  }

  lemma TruncatedYear(t: Instant)
    ensures CivilOf(TruncateToMicros(t)).year == CivilOf(t).year
  {
    var u := TruncateToMicros(t);
    assert t == t / NANOS_PER_SECOND * NANOS_PER_SECOND + t % NANOS_PER_SECOND;
    assert t % NANOS_PER_MICRO == t % NANOS_PER_SECOND % NANOS_PER_MICRO;
    assert u == t / NANOS_PER_SECOND * NANOS_PER_SECOND + (t % NANOS_PER_SECOND - t % NANOS_PER_MICRO);
    assert u / NANOS_PER_SECOND == t / NANOS_PER_SECOND;
  }

  /** Why the time is truncated before hashing: a row whose time the column changes is not the row
      that was hashed, so its hash no longer recomputes unless the two rows collide. */
  lemma ColumnChangesHash(p: Primitives, r: DbEvent)
    requires InColumns(r) != r
    ensures Preimage(p, InColumns(r)) != Preimage(p, r)
    ensures r.eventHash == HashOf(p, r) && InColumns(r).eventHash == HashOf(p, InColumns(r)) ==>
              Collision(p, InColumns(r), r)
  {
    hide Preimage;
    TruncatedYear(r.timestamp);
    if Preimage(p, InColumns(r)) == Preimage(p, r) {
      PreimageDecodes(p, InColumns(r), r);
    }
  }

  /** Two different records with one digest, or the years confused. */
  predicate Lookalikes(p: Primitives, a: DbEvent, b: DbEvent) {
    Collision(p, a, b) || Confused(p, a, b)
  }

  /** Two verified logs that end in the same hash agree record by record, counted from the end,
      as far as both reach; the only way out is a pair of lookalikes at the same distance from the
      end, and then the lemma returns that distance. */
  lemma {:induction false} AgreeFromEnd(p: Primitives, a: seq<DbEvent>, b: seq<DbEvent>, n: nat) returns (k: nat)
    requires p.Valid() && Verifies(p, a) && Verifies(p, b)
    requires n <= |a| && n <= |b|
    requires n > 0 ==> FromEnd(a, 0).eventHash == FromEnd(b, 0).eventHash
    ensures k <= n
    ensures forall i :: 0 <= i < k ==> SameRecord(p, FromEnd(a, i), FromEnd(b, i))
    ensures forall i :: 0 <= i < k && i < |a| - 1 && i < |b| - 1 ==>
              FromEnd(a, i).previousHash == FromEnd(b, i).previousHash
    ensures k < n ==> Lookalikes(p, FromEnd(a, k), FromEnd(b, k))
    decreases n
  {
    hide HashOf, Preimage, SameRecord, Lookalikes, Verifies;
    if n == 0 {
      return 0;
    }
    k := AgreeFromEnd(p, a, b, n - 1);
    if k == n - 1 {
      assert FromEnd(a, k).eventHash == FromEnd(b, k).eventHash by {
        if k > 0 {
          LinkFromEnd(p, a, k - 1);
          LinkFromEnd(p, b, k - 1);
        }
      }
      k := AgreeAt(p, a, b, k);
    }
  }

  /** The chain link of a record that has a predecessor is the predecessor's hash. */
  lemma LinkFromEnd(p: Primitives, a: seq<DbEvent>, k: nat)
    requires p.Valid() && Verifies(p, a) && k + 1 < |a|
    ensures FromEnd(a, k).previousHash == Some(FromEnd(a, k + 1).eventHash)
    ensures |FromEnd(a, k + 1).eventHash| == DIGEST_LENGTH
  {
    hide Preimage;
    assert RecordVerifies(p, a, |a| - 1 - k);
    assert RecordVerifies(p, a, |a| - 2 - k);
  }

  /** One step: equal hashes at distance `k` mean lookalikes there or the same record. */
  lemma AgreeAt(p: Primitives, a: seq<DbEvent>, b: seq<DbEvent>, k: nat) returns (next: nat)
    requires p.Valid() && Verifies(p, a) && Verifies(p, b)
    requires k < |a| && k < |b| && FromEnd(a, k).eventHash == FromEnd(b, k).eventHash
    ensures next in {k, k + 1}
    ensures next == k ==> Lookalikes(p, FromEnd(a, k), FromEnd(b, k))
    ensures next == k + 1 ==> SameRecord(p, FromEnd(a, k), FromEnd(b, k))
    ensures next == k + 1 && k < |a| - 1 && k < |b| - 1 ==>
              FromEnd(a, k).previousHash == FromEnd(b, k).previousHash
  {
    hide Preimage, Confused;
    var x, y := FromEnd(a, k), FromEnd(b, k);
    assert RecordVerifies(p, a, |a| - 1 - k);
    assert RecordVerifies(p, b, |b| - 1 - k);
    if Preimage(p, x) != Preimage(p, y) {
      return k;
    }
    PreimageDecodes(p, x, y);
    if Confused(p, x, y) {
      return k;
    }
    if k < |a| - 1 && k < |b| - 1 {
      LinkFromEnd(p, a, k);
      LinkFromEnd(p, b, k);
      PreimageDecodesLink(p, x, y);
    }
    return k + 1;
  }

  lemma FirstHasNoLink(p: Primitives, a: seq<DbEvent>)
    requires Verifies(p, a) && a != []
    ensures a[0].previousHash == None
  {
    assert RecordVerifies(p, a, 0);
  }

  /** Tamper evidence: two logs of equal length that both verify and end in the same hash hold
      the same hashed octets, ids, links and times at every index, or some index holds two
      different octet strings with the same digest, or a record beyond year 9999 where the other log
      holds one before year 10000. The last cannot happen when the logs agree on which records are
      beyond year 9999. */
  lemma TamperEvident(p: Primitives, a: seq<DbEvent>, b: seq<DbEvent>)
    requires p.Valid() && Verifies(p, a) && Verifies(p, b)
    requires |a| == |b| && HeadHash(a) == HeadHash(b)
    ensures || (exists i :: 0 <= i < |a| && Collision(p, a[i], b[i]))
            || (exists i :: 0 <= i < |a| && Confused(p, a[i], b[i])
                            && FourDigitYear(a[i].timestamp) != FourDigitYear(b[i].timestamp))
            || (forall i :: 0 <= i < |a| ==>
                  SameRecord(p, a[i], b[i]) && a[i].previousHash == b[i].previousHash)
  {
    hide HashOf, Preimage, Collision, SameRecord, Verifies;
    var n := |a|;
    var k := AgreeFromEnd(p, a, b, n);
    if k < n {
      assert Lookalikes(p, a[n - 1 - k], b[n - 1 - k]);
    } else {
      forall i | 0 <= i < n
        ensures SameRecord(p, a[i], b[i]) && a[i].previousHash == b[i].previousHash
      {
        assert a[i] == FromEnd(a, n - 1 - i) && b[i] == FromEnd(b, n - 1 - i);
        if i == 0 {
          FirstHasNoLink(p, a);
          FirstHasNoLink(p, b);
        }
      }
    }
  }
}
