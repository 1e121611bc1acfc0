/** Audit events, their database rows and the octets their hash covers. */
module AuditEvents {
  import opened Common
  import opened Rfc3339

  /** A JSON value, seen only as far as the audit log looks into it. */
  datatype Json = JObject(fields: map<string, Json>) | JString(text: string) | JOther(token: string)

  type Uuid = s: Octets | |s| == 16 witness seq(16, _ => '0')

  const DIGEST_LENGTH := 32

  /** The functions the log uses but does not define: SHA-256 and JSON serialisation.
      Every result below holds for any choice of them. */
  datatype Primitives = Primitives(sha256: Octets -> Octets, json: Json -> Octets) {
    ghost predicate Valid() {
      forall x :: |sha256(x)| == DIGEST_LENGTH
    }
  }

  datatype EventType =
    | Authentication | Authorization | CertificateIssuance | CertificateRevocation | CrlGeneration
    | KeyGeneration | KeyEscrow | KeyRecovery | KeyDestruction | ConfigurationChange | AccessViolation
    | TokenLifecycle | AcmeProtocol | EstProtocol | OcspProtocol | TampProtocol | System | Database | Other

  datatype EventOutcome = Success | Failure | Error

  datatype AuditEvent = AuditEvent(
    id: Uuid, eventType: EventType, actor: string, target: string, action: string,
    outcome: EventOutcome, details: Option<Json>, ipAddress: Option<string>,
    userAgent: Option<string>, sessionId: Option<string>, previousHash: Option<Octets>,
    eventHash: Octets, timestamp: Instant, signature: Option<Octets>, signingKeyId: Option<string>)

  /** `trunc_subsecs(6)`, and what the database's timestamp column can hold. */
  function TruncateToMicros(t: Instant): (r: Instant)
    ensures r % NANOS_PER_MICRO == 0 && r <= t < r + NANOS_PER_MICRO
  {
    t - t % NANOS_PER_MICRO
  }

  /** A row of the audit table: type and outcome are text there. */
  datatype DbEvent = DbEvent(
    id: Uuid, eventType: string, actor: string, target: string, action: string,
    outcome: string, details: Option<Json>, ipAddress: Option<string>,
    userAgent: Option<string>, sessionId: Option<string>, previousHash: Option<Octets>,
    eventHash: Octets, timestamp: Instant, signature: Option<Octets>, signingKeyId: Option<string>)

  function EventTypeText(t: EventType): string {
    match t
    case Authentication => "authentication"
    case Authorization => "authorization"
    case CertificateIssuance => "certificate_issuance"
    case CertificateRevocation => "certificate_revocation"
    case CrlGeneration => "crl_generation"
    case KeyGeneration => "key_generation"
    case KeyEscrow => "key_escrow"
    case KeyRecovery => "key_recovery"
    case KeyDestruction => "key_destruction"
    case ConfigurationChange => "configuration_change"
    case AccessViolation => "access_violation"
    case TokenLifecycle => "token_lifecycle"
    case AcmeProtocol => "acme_protocol"
    case EstProtocol => "est_protocol"
    case OcspProtocol => "ocsp_protocol"
    case TampProtocol => "tamp_protocol"
    case System => "system"
    case Database => "database"
    case Other => "other"
  }

  function ParseEventType(s: string): EventType {
    if s == "authentication" then Authentication
    else if s == "authorization" then Authorization
    else if s == "certificate_issuance" then CertificateIssuance
    else if s == "certificate_revocation" then CertificateRevocation
    else if s == "crl_generation" then CrlGeneration
    else if s == "key_generation" then KeyGeneration
    else if s == "key_escrow" then KeyEscrow
    else if s == "key_recovery" then KeyRecovery
    else if s == "key_destruction" then KeyDestruction
    else if s == "configuration_change" then ConfigurationChange
    else if s == "access_violation" then AccessViolation
    else if s == "token_lifecycle" then TokenLifecycle
    else if s == "acme_protocol" then AcmeProtocol
    else if s == "est_protocol" then EstProtocol
    else if s == "ocsp_protocol" then OcspProtocol
    else if s == "tamp_protocol" then TampProtocol
    else if s == "system" then System
    else if s == "database" then Database
    else Other
  }

  function OutcomeText(o: EventOutcome): string {
    match o
    case Success => "success"
    case Failure => "failure"
    case Error => "error"
  }

  function ParseOutcome(s: string): EventOutcome {
    if s == "success" then Success else if s == "failure" then Failure else Error
  }

  /** `to_db_model` */
  function ToDb(e: AuditEvent): DbEvent {
    DbEvent(e.id, EventTypeText(e.eventType), e.actor, e.target, e.action, OutcomeText(e.outcome),
            e.details, e.ipAddress, e.userAgent, e.sessionId, e.previousHash, e.eventHash,
            e.timestamp, e.signature, e.signingKeyId)
  }

  /** `from_db_model` */
  function FromDb(r: DbEvent): AuditEvent {
    AuditEvent(r.id, ParseEventType(r.eventType), r.actor, r.target, r.action, ParseOutcome(r.outcome),
               r.details, r.ipAddress, r.userAgent, r.sessionId, r.previousHash, r.eventHash,
               r.timestamp, r.signature, r.signingKeyId)
  }

  /** The row the table holds after an insert: its timestamp column keeps microseconds. */
  function InColumns(r: DbEvent): (stored: DbEvent)
    ensures stored == r <==> r.timestamp % NANOS_PER_MICRO == 0
  {
    r.(timestamp := TruncateToMicros(r.timestamp))
  }

  /** Every event type and outcome survives storage as text, and so does every event. */
  lemma DbRoundTrip(e: AuditEvent)
    ensures FromDb(ToDb(e)) == e
  {
  }

  // ----- What the hash covers -----

  function OrEmpty(o: Option<Octets>): Octets {
    if o.Some? then o.value else ""
  }

  function DetailsText(p: Primitives, details: Option<Json>): Octets {
    if details.Some? then p.json(details.value) else ""
  }

  /** The id and the other fields before the chain link, concatenated without separators. */
  function Content(p: Primitives, r: DbEvent): Octets {
    r.id + r.eventType + r.actor + r.target + r.action + r.outcome + DetailsText(p, r.details)
    + OrEmpty(r.ipAddress) + OrEmpty(r.userAgent) + OrEmpty(r.sessionId)
  }

  /** The octets hashed for a row: content, chain link and rendered time, in this order. */
  function Preimage(p: Primitives, r: DbEvent): Octets {
    Content(p, r) + OrEmpty(r.previousHash) + Render(r.timestamp)
  }

  function HashOf(p: Primitives, r: DbEvent): Octets {
    p.sha256(Preimage(p, r))
  }

  /** The incremental hasher: it digests everything fed to it. */
  class Sha256 {
    const p: Primitives
    var fed: Octets

    constructor (p: Primitives)
      ensures fed == "" && this.p == p
    {
      this.p := p;
      fed := "";
    }

    method Update(data: Octets)
      modifies this
      ensures fed == old(fed) + data
    {
      fed := fed + data;
    }

    method UpdateIfSome(data: Option<Octets>)
      modifies this
      ensures fed == old(fed) + OrEmpty(data)
    {
      if data.Some? {
        Update(data.value);
      } else {
        assert fed == fed + "";
      }
    }

    method Finalize() returns (digest: Octets)
      ensures digest == p.sha256(fed)
    {
      digest := p.sha256(fed);
    }
  }

  /** `compute_hash` feeds the hasher field by field; the digest is that of the whole preimage
      of the row the event is stored as. */
  method ComputeHash(p: Primitives, e: AuditEvent) returns (digest: Octets)
    ensures digest == HashOf(p, ToDb(e))
  {
    var hasher := new Sha256(p);
    hasher.Update(e.id);
    assert hasher.fed == e.id;
    hasher.Update(EventTypeText(e.eventType));
    hasher.Update(e.actor);
    hasher.Update(e.target);
    hasher.Update(e.action);
    hasher.Update(OutcomeText(e.outcome));
    hasher.UpdateIfSome(if e.details.Some? then Some(p.json(e.details.value)) else None);
    hasher.UpdateIfSome(e.ipAddress);
    hasher.UpdateIfSome(e.userAgent);
    hasher.UpdateIfSome(e.sessionId);
    hasher.UpdateIfSome(e.previousHash);
    hasher.Update(Render(e.timestamp));
    digest := hasher.Finalize();
  }
}
