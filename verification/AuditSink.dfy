/** Linking rules of the audit sinks: chain timestamps, chain links, the in-memory sink and
    the verifier that walks a log. */
module AuditSink {
  import opened Common
  import opened Rfc3339
  import opened AuditEvents

  const OCCURRED_AT := "occurred_at"
  const CALLER_OCCURRED_AT := "caller_occurred_at"
  const WRAPPED_DETAILS := "details"

  // ----- Timestamps -----

  /** Whether `t` may follow a head written at `head`: a microsecond time strictly later. */
  predicate MayFollow(t: Instant, head: Option<Instant>) {
    t % NANOS_PER_MICRO == 0 && (head.Some? ==> t > head.value)
  }

  /** `chain_timestamp`: the least time not before the event that may follow the head. */
  function ChainTimestamp(timestamp: Instant, head: Option<Instant>): (r: Instant)
    ensures r >= timestamp && (head.Some? ==> r > head.value)
    ensures r != timestamp ==> head.Some? && timestamp <= head.value
  {
    if head.Some? && timestamp <= head.value then head.value + NANOS_PER_MICRO else timestamp
  }

  lemma ChainTimestampIsLeast(timestamp: Instant, head: Option<Instant>, other: Instant)
    requires timestamp % NANOS_PER_MICRO == 0 && (head.Some? ==> head.value % NANOS_PER_MICRO == 0)
    ensures MayFollow(ChainTimestamp(timestamp, head), head)
    ensures MayFollow(other, head) && other >= timestamp ==> ChainTimestamp(timestamp, head) <= other
  {
    if head.Some? && other > head.value && other % NANOS_PER_MICRO == 0 {
      assert other - head.value >= NANOS_PER_MICRO by {
        assert other / NANOS_PER_MICRO > head.value / NANOS_PER_MICRO;
      }
    }
  }

  /** The `occurred_at` value the sink writes, when the event had to be moved. */
  function OccurredAt(timestamp: Instant, head: Option<Instant>): Option<Json> {
    if ChainTimestamp(timestamp, head) != timestamp then Some(JString(RenderMicros(timestamp))) else None
  }

  /** Take a caller's `occurred_at` out of the way unless it is what the sink writes anyway. */
  function WithoutReservedKey(fields: map<string, Json>, occurredAt: Option<Json>): map<string, Json> {
    if OCCURRED_AT in fields && Some(fields[OCCURRED_AT]) != occurredAt
    then (fields - {OCCURRED_AT})[CALLER_OCCURRED_AT := fields[OCCURRED_AT]]
    else fields - {OCCURRED_AT}
  }

  function StampedDetails(details: Option<Json>, occurredAt: Option<Json>): Option<Json> {
    match (details, occurredAt)
    case (Some(JObject(fields)), None) => Some(JObject(WithoutReservedKey(fields, None)))
    case (Some(JObject(fields)), Some(t)) =>
      Some(JObject(WithoutReservedKey(fields, occurredAt)[OCCURRED_AT := t]))
    case (_, None) => details
    case (None, Some(t)) => Some(JObject(map[OCCURRED_AT := t]))
    case (Some(other), Some(t)) => Some(JObject(map[OCCURRED_AT := t, WRAPPED_DETAILS := other]))
  }

  /** The event after `apply_chain_timestamp`. */
  function Restamped(e: AuditEvent, head: Option<Instant>): AuditEvent {
    e.(timestamp := ChainTimestamp(e.timestamp, head),
       details := StampedDetails(e.details, OccurredAt(e.timestamp, head)))
  }

  /** An event the caller handed over by mutable reference. */
  class AuditEventRef {
    var event: AuditEvent

    constructor (e: AuditEvent)
      ensures event == e
    {
      event := e;
    }

    /** `apply_chain_timestamp` */
    method ApplyChainTimestamp(head: Option<Instant>)
      modifies this
      ensures event == Restamped(old(event), head)
    {
      var original := event.timestamp;
      event := event.(timestamp := ChainTimestamp(original, head));
      var occurredAt: Option<Json> := None;
      if event.timestamp != original {
        occurredAt := Some(JString(RenderMicros(original)));
      }
      if event.details.Some? && event.details.value.JObject? {
        var fields := event.details.value.fields;
        if OCCURRED_AT in fields {
          var caller := fields[OCCURRED_AT];
          fields := fields - {OCCURRED_AT};
          if Some(caller) != occurredAt {
            fields := fields[CALLER_OCCURRED_AT := caller];
          }
        }
        assert fields == WithoutReservedKey(event.details.value.fields, occurredAt);
        event := event.(details := Some(JObject(fields)));
      }
      if occurredAt.None? {
        return;
      }
      match event.details {
        case Some(JObject(fields)) =>
          event := event.(details := Some(JObject(fields[OCCURRED_AT := occurredAt.value])));
        case None =>
          event := event.(details := Some(JObject(map[OCCURRED_AT := occurredAt.value])));
        case Some(other) =>
          event := event.(details := Some(JObject(map[OCCURRED_AT := occurredAt.value, WRAPPED_DETAILS := other])));
      }
    }
  }

  // ----- What re-stamping keeps -----

  predicate HasOccurredAt(e: AuditEvent) {
    e.details.Some? && e.details.value.JObject? && OCCURRED_AT in e.details.value.fields
  }

  /** The time an event happened, as a reader of the log recovers it. */
  function EventTime(e: AuditEvent): Option<Instant> {
    if !HasOccurredAt(e) then Some(e.timestamp)
    else
      match e.details.value.fields[OCCURRED_AT]
      case JString(text) => ParseMicros(text)
      case _ => None
  }

  /** `occurred_at` marks exactly the moved records, and the original time can be read back
      from every record, whatever the caller put under that key. */
  lemma RestampKeepsEventTime(e: AuditEvent, head: Option<Instant>)
    requires e.timestamp % NANOS_PER_MICRO == 0
    ensures HasOccurredAt(Restamped(e, head)) <==> Restamped(e, head).timestamp != e.timestamp
    ensures EventTime(Restamped(e, head)) == Some(e.timestamp)
  {
    ParseMicrosOfRendered(e.timestamp);
  }

  /** Where the caller's detail under `key` is found after re-stamping. */
  function CallerDetail(e: AuditEvent, key: string): Option<Json> {
    if e.details.Some? && e.details.value.JObject? && key in e.details.value.fields
    then Some(e.details.value.fields[key]) else None
  }

  /** All other details of the caller are kept: under their key for an object, under
      `details` (or in place, when the record was not moved) for anything else. A caller's
      `occurred_at` survives only as `caller_occurred_at`. */
  lemma RestampKeepsDetails(e: AuditEvent, head: Option<Instant>, key: string)
    requires key != OCCURRED_AT
    ensures var r := Restamped(e, head);
            var displaced := CallerDetail(e, OCCURRED_AT).Some?
                             && CallerDetail(e, OCCURRED_AT) != OccurredAt(e.timestamp, head);
            && (e.details.Some? && e.details.value.JObject? ==>
                 CallerDetail(r, key) == (if key == CALLER_OCCURRED_AT && displaced
                                          then CallerDetail(e, OCCURRED_AT)
                                          else CallerDetail(e, key)))
            && (e.details.Some? && !e.details.value.JObject? ==>
                 if HasOccurredAt(r) then CallerDetail(r, WRAPPED_DETAILS) == e.details
                 else r.details == e.details)
            && (e.details.None? ==> CallerDetail(r, key).None?)
            && (HasOccurredAt(r) ==> CallerDetail(r, OCCURRED_AT) == Some(JString(RenderMicros(e.timestamp))))
  {
  }

  // ----- Links -----

  /** The event as it is stored after a head with the given hash and time: linked first, then
      re-stamped, then hashed. */
  function Linked(p: Primitives, e: AuditEvent, headHash: Option<Octets>, headTime: Option<Instant>): AuditEvent {
    WithHash(p, Restamped(e.(previousHash := headHash), headTime))
  }

  /** Linking leaves the signature to the signer. */
  lemma LinkedKeepsSeal(p: Primitives, e: AuditEvent, hash: Option<Octets>, time: Option<Instant>)
    ensures var k := Linked(p, e, hash, time); k.signature == e.signature && k.signingKeyId == e.signingKeyId
  {
    hide HashOf;
  }

  function HeadHash(rows: seq<DbEvent>): Option<Octets> {
    LinkAt(rows, |rows|)
  }

  function HeadTime(rows: seq<DbEvent>): Option<Instant> {
    if rows == [] then None else Some(rows[|rows| - 1].timestamp)
  }

  /** The chain link record `i` must carry: the hash of its predecessor. */
  function LinkAt(rows: seq<DbEvent>, i: nat): Option<Octets>
    requires i <= |rows|
  {
    if i == 0 then None else Some(rows[i - 1].eventHash)
  }

  /** Record `i` links to its predecessor and its hash recomputes. */
  ghost predicate RecordVerifies(p: Primitives, rows: seq<DbEvent>, i: nat)
    requires i < |rows|
  {
    rows[i].previousHash == LinkAt(rows, i) && rows[i].eventHash == HashOf(p, rows[i])
  }

  /** What the verifier checks. */
  ghost predicate Verifies(p: Primitives, rows: seq<DbEvent>) {
    forall i :: 0 <= i < |rows| ==> RecordVerifies(p, rows, i)
  }

  ghost predicate StrictlyIncreasing(rows: seq<DbEvent>) {
    forall i, j :: 0 <= i < j < |rows| ==> rows[i].timestamp < rows[j].timestamp
  }

  ghost predicate MicrosecondTimes(rows: seq<DbEvent>) {
    forall i :: 0 <= i < |rows| ==> rows[i].timestamp % NANOS_PER_MICRO == 0
  }

  /** One unforked chain in timestamp order. */
  ghost predicate Chain(p: Primitives, rows: seq<DbEvent>) {
    Verifies(p, rows) && StrictlyIncreasing(rows) && MicrosecondTimes(rows)
  }

  /** A record comes back from the database as the same record exactly when its time is in whole
      microseconds; then its hash recomputes. */
  lemma StoreKeepsHash(p: Primitives, e: AuditEvent)
    ensures FromDb(InColumns(ToDb(e))) == e <==> e.timestamp % NANOS_PER_MICRO == 0
    ensures e.timestamp % NANOS_PER_MICRO == 0 ==>
              HashOf(p, ToDb(FromDb(InColumns(ToDb(e))))) == HashOf(p, ToDb(e))
  {
    hide HashOf, EventTypeText, ParseEventType;
    DbRoundTrip(e);
    assert FromDb(InColumns(ToDb(e))).timestamp == TruncateToMicros(e.timestamp);
  }

  /** A record that links to the head, recomputes and follows the head extends the chain. */
  lemma ExtendChain(p: Primitives, rows: seq<DbEvent>, row: DbEvent)
    requires Chain(p, rows)
    requires row.previousHash == HeadHash(rows) && MayFollow(row.timestamp, HeadTime(rows))
    requires row.eventHash == HashOf(p, row)
    ensures Chain(p, rows + [row])
  {
    var longer := rows + [row];
    forall i | 0 <= i < |longer|
      ensures RecordVerifies(p, longer, i)
    {
      if i < |rows| {
        assert RecordVerifies(p, rows, i);
      }
    }
  }

  /** The stored form of a linked event, to which a signature may have been added after hashing. */
  predicate StoredFrom(p: Primitives, row: DbEvent, e: AuditEvent, headHash: Option<Octets>, headTime: Option<Instant>) {
    row == ToDb(Linked(p, e, headHash, headTime)).(signature := row.signature, signingKeyId := row.signingKeyId)
  }

  /** A linked event fits after the head it was linked to. */
  lemma LinkedFits(p: Primitives, row: DbEvent, e: AuditEvent, headHash: Option<Octets>, headTime: Option<Instant>)
    requires StoredFrom(p, row, e, headHash, headTime)
    requires e.timestamp % NANOS_PER_MICRO == 0 && (headTime.Some? ==> headTime.value % NANOS_PER_MICRO == 0)
    ensures row.previousHash == headHash && MayFollow(row.timestamp, headTime)
    ensures row.eventHash == HashOf(p, row)
  {
    var stamped := Restamped(e.(previousHash := headHash), headTime);
    SealedRecomputes(p, stamped, row);
    ChainTimestampIsLeast(e.timestamp, headTime, 0);
  }

  function WithHash(p: Primitives, stamped: AuditEvent): AuditEvent {
    stamped.(eventHash := HashOf(p, ToDb(stamped)))
  }

  lemma SealedRecomputes(p: Primitives, stamped: AuditEvent, row: DbEvent)
    requires row == ToDb(WithHash(p, stamped)).(signature := row.signature, signingKeyId := row.signingKeyId)
    ensures row.eventHash == HashOf(p, row)
  {
    SealNotHashed(p, ToDb(stamped), row);
  }

  /** The hash and the signature are not part of what is hashed. */
  lemma SealNotHashed(p: Primitives, a: DbEvent, b: DbEvent)
    requires b == a.(eventHash := b.eventHash, signature := b.signature, signingKeyId := b.signingKeyId)
    ensures HashOf(p, a) == HashOf(p, b)
  {
    assert Content(p, a) == Content(p, b);
  }

  // ----- The in-memory sink -----

  datatype SinkError = SigningFailed

  /** What the signer does while the append lock is held: absent, answers, or fails or times out. */
  datatype SignOutcome = NoSigner | Signed(signature: Octets, keyLabel: string) | NoSignature

  function WithSignature(e: AuditEvent, sign: SignOutcome): AuditEvent {
    if sign.Signed? then e.(signature := Some(sign.signature), signingKeyId := Some(sign.keyLabel)) else e
  }

  function Rows(events: seq<AuditEvent>): (rows: seq<DbEvent>)
    ensures |rows| == |events| && forall i :: 0 <= i < |events| ==> rows[i] == ToDb(events[i])
  {
    seq(|events|, i requires 0 <= i < |events| => ToDb(events[i]))
  }

  lemma MicrosecondHeadTime(p: Primitives, rows: seq<DbEvent>)
    requires Chain(p, rows)
    ensures HeadTime(rows).Some? ==> HeadTime(rows).value % NANOS_PER_MICRO == 0
  {
  }

  /** The in-memory sink links after re-stamping, the database sink before: it makes no difference. */
  lemma LinkCommutes(e: AuditEvent, hash: Option<Octets>, head: Option<Instant>)
    ensures Restamped(e, head).(previousHash := hash) == Restamped(e.(previousHash := hash), head)
  {
  }

  class MemoryAuditSink {
    const p: Primitives
    var events: seq<AuditEvent>

    ghost predicate Valid() reads this { Chain(p, Rows(events)) }

    constructor (p: Primitives)
      ensures Valid() && events == [] && this.p == p
    {
      this.p := p;
      events := [];
    }

    /** Append one event. The caller's event becomes the stored record; when the signer fails
        nothing is stored. */
    method Record(e: AuditEventRef, sign: SignOutcome) returns (r: Result<(), SinkError>)
      requires Valid()
      modifies this, e
      ensures Valid()
      ensures var rows := Rows(old(events));
              var truncated := old(e.event).(timestamp := TruncateToMicros(old(e.event).timestamp));
              e.event == WithSignature(Linked(p, truncated, HeadHash(rows), HeadTime(rows)), sign)
      ensures sign.Signed? ==> e.event.signature == Some(sign.signature) && e.event.signingKeyId == Some(sign.keyLabel)
      ensures sign.NoSigner? ==>
                e.event.signature == old(e.event).signature && e.event.signingKeyId == old(e.event).signingKeyId
      ensures r == if sign.NoSignature? then Err(SigningFailed) else Ok(())
      ensures events == if r.Ok? then old(events) + [e.event] else old(events)
    {
      hide Restamped, HashOf, Chain;
      ghost var rows := Rows(events);
      e.event := e.event.(timestamp := TruncateToMicros(e.event.timestamp));
      ghost var truncated := e.event;
      var head: Option<Instant> := if events == [] then None else Some(events[|events| - 1].timestamp);
      e.ApplyChainTimestamp(head);
      var previous: Option<Octets> := if events == [] then None else Some(events[|events| - 1].eventHash);
      e.event := e.event.(previousHash := previous);
      LinkCommutes(truncated, previous, head);
      var digest := ComputeHash(p, e.event);
      ghost var stamped := e.event;
      e.event := e.event.(eventHash := digest);
      assert e.event == Linked(p, truncated, HeadHash(rows), HeadTime(rows));
      LinkedKeepsSeal(p, truncated, HeadHash(rows), HeadTime(rows));
      match sign {
        case NoSigner =>
        case Signed(signature, keyLabel) =>
          e.event := e.event.(signature := Some(signature), signingKeyId := Some(keyLabel));
        case NoSignature =>
          return Err(SigningFailed);
      }
      assert StoredFrom(p, ToDb(e.event), truncated, HeadHash(rows), HeadTime(rows));
      MicrosecondHeadTime(p, rows);
      LinkedFits(p, ToDb(e.event), truncated, HeadHash(rows), HeadTime(rows));
      ExtendChain(p, rows, ToDb(e.event));
      assert Rows(events + [e.event]) == rows + [ToDb(e.event)];
      events := events + [e.event];
      r := Ok(());
    }

    /** The verifier accepts exactly the logs whose every record links to its predecessor and
        recomputes. */
    method VerifyIntegrity() returns (ok: bool)
      ensures ok <==> Verifies(p, Rows(events))
    {
      ghost var rows := Rows(events);
      hide HashOf;
      if events == [] {
        return true;
      }
      var prevHash: Option<Octets> := None;
      for i := 0 to |events|
        invariant prevHash == LinkAt(rows, i)
        invariant forall k :: 0 <= k < i ==> RecordVerifies(p, rows, k)
      {
        var event := events[i];
        if event.previousHash != prevHash {
          assert !RecordVerifies(p, rows, i);
          return false;
        }
        var computed := ComputeHash(p, event);
        assert RecordVerifies(p, rows, i) <==> computed == event.eventHash;
        if computed != event.eventHash {
          return false;
        }
        prevHash := Some(event.eventHash);
      }
      return true;
    }
  }
}
