/** The approval workflow: who may decide on a request, and how a request moves through decisions,
    expiry, completion and reloads from the database. */
module Approval {
  import opened Common

  type Instant = nat
  type UserId = nat
  type CertificateId = nat

  datatype Role =
    | Administrator | Auditor | OperationsStaff | RaStaff | Aor | EstEnrollee | EstDevice
    | PkiSponsor | PkiSponsorAdmin | RegistrationAuthority | CaaAdmin | NpeAuditor

  datatype Permission = ApproveRequest | RejectRequest

  /** The part of the role table that concerns requests. */
  predicate RoleHasPermission(role: Role, permission: Permission) {
    match permission
    case ApproveRequest => role in {RaStaff, Aor, RegistrationAuthority}
    case RejectRequest => role in {RaStaff, Aor, RegistrationAuthority}
  }

  predicate AnyRoleHasPermission(roles: seq<Role>, permission: Permission) {
    exists role :: role in roles && RoleHasPermission(role, permission)
  }

  datatype User = User(id: UserId, roles: seq<Role>)

  datatype RequestType = Issuance | Revocation | Renewal

  datatype Status = Pending | Approved | Rejected | Expired | Completed

  datatype Decision = Approve | Reject | NeedsInfo | Deferred

  datatype DecisionRecord = DecisionRecord(
    approver: User, decision: Decision, reason: Option<string>, justification: Option<string>, decidedAt: Instant)

  datatype Error =
    | SelfApprovalProhibited
    | InsufficientRole
    | InvalidApprovalState(current: Status, expected: Status)
    | ApprovalRequestExpired(expiredAt: Instant)

  /** The value of a request object. */
  datatype Request = Request(
    requestType: RequestType, requestor: UserId, expiresAt: Instant, status: Status,
    decisions: seq<DecisionRecord>, approvedAt: Option<Instant>, completedAt: Option<Instant>,
    certificate: Option<CertificateId>)

  predicate Expirable(r: Request, now: Instant) {
    now > r.expiresAt
  }

  /** A user may decide exactly when they are not the requestor, hold the permission, and the
      request is pending and not expired; the first check that fails names the error. */
  function Permitted(r: Request, user: User, permission: Permission, now: Instant): (result: Result<(), Error>)
    ensures result.Ok? <==>
              && user.id != r.requestor && AnyRoleHasPermission(user.roles, permission)
              && r.status == Pending && now <= r.expiresAt
    ensures result == Err(SelfApprovalProhibited) <==> user.id == r.requestor
    ensures result == Err(InsufficientRole) <==> user.id != r.requestor && !AnyRoleHasPermission(user.roles, permission)
    ensures result.Err? && result.error.InvalidApprovalState? ==>
              r.status != Pending && result.error.current == r.status && result.error.expected == Pending
    ensures result.Err? && result.error.ApprovalRequestExpired? ==>
              r.status == Pending && now > r.expiresAt && result.error.expiredAt == r.expiresAt
  {
    if r.requestor == user.id then Err(SelfApprovalProhibited)
    else if !AnyRoleHasPermission(user.roles, permission) then Err(InsufficientRole)
    else if r.status != Pending then Err(InvalidApprovalState(r.status, Pending))
    else if Expirable(r, now) then Err(ApprovalRequestExpired(r.expiresAt))
    else Ok(())
  }

  // ----- Steps -----

  /** Clock readings are arguments: `now` for the expiry check, then one per stamp. */
  datatype Step =
    | AddDecision(user: User, decision: Decision, reason: Option<string>, justification: Option<string>,
                  now: Instant, decidedAt: Instant, approvedAt: Instant)
    | ApproveStep(user: User, justification: Option<string>, now: Instant, decidedAt: Instant)
    | RejectStep(user: User, reason: Option<string>, justification: Option<string>, now: Instant, decidedAt: Instant)
    | MarkCompleted(certificate: CertificateId, now: Instant)
    | ExpireIfNeeded(now: Instant)
    | LinkCertificate(certificate: CertificateId)
    | Reload

  /** The decision a step records, if it is permitted. */
  function Decided(r: Request, step: Step): Option<DecisionRecord> {
    match step
    case AddDecision(user, decision, reason, justification, now, decidedAt, _) =>
      if Permitted(r, user, ApproveRequest, now).Ok?
      then Some(DecisionRecord(user, decision, reason, justification, decidedAt)) else None
    case ApproveStep(user, justification, now, decidedAt) =>
      if Permitted(r, user, ApproveRequest, now).Ok?
      then Some(DecisionRecord(user, Approve, Some("Approved"), justification, decidedAt)) else None
    case RejectStep(user, reason, justification, now, decidedAt) =>
      if Permitted(r, user, RejectRequest, now).Ok?
      then Some(DecisionRecord(user, Reject, reason, justification, decidedAt)) else None
    case _ => None
  }

  function WithDecision(r: Request, d: DecisionRecord, approvedAt: Instant): Request {
    var r' := r.(decisions := r.decisions + [d]);
    match d.decision
    case Approve => r'.(status := Approved, approvedAt := Some(approvedAt))
    case Reject => r'.(status := Rejected)
    case _ => r'
  }

  function Apply(r: Request, step: Step): Request {
    var d := Decided(r, step);
    if d.Some? then WithDecision(r, d.value, if step.AddDecision? then step.approvedAt else d.value.decidedAt)
    else
      match step
      case MarkCompleted(certificate, now) =>
        if r.status == Approved
        then r.(status := Completed, completedAt := Some(now), certificate := Some(certificate)) else r
      case ExpireIfNeeded(now) =>
        if r.status == Pending && Expirable(r, now) then r.(status := Expired) else r
      case LinkCertificate(certificate) => r.(certificate := Some(certificate))
      case Reload => Restored(ToRecord(r))
      case _ => r
  }

  // ----- The database record -----

  datatype Record = Record(
    requestType: string, requestor: UserId, expiresAt: Instant, status: string,
    approvedAt: Option<Instant>, completedAt: Option<Instant>, certificate: Option<CertificateId>)

  function StatusText(s: Status): string {
    match s
    case Pending => "pending"
    case Approved => "approved"
    case Rejected => "rejected"
    case Expired => "expired"
    case Completed => "completed"
  }

  function ParseStatus(text: string): Option<Status> {
    match ToLower(text)
    case "pending" => Some(Pending)
    case "approved" => Some(Approved)
    case "rejected" => Some(Rejected)
    case "expired" => Some(Expired)
    case "completed" => Some(Completed)
    case _ => None
  }

  function TypeText(t: RequestType): string {
    match t
    case Issuance => "issuance"
    case Revocation => "revocation"
    case Renewal => "renewal"
  }

  function ParseType(text: string): Option<RequestType> {
    match ToLower(text)
    case "issuance" => Some(Issuance)
    case "revocation" => Some(Revocation)
    case "renewal" => Some(Renewal)
    case _ => None
  }

  function ToRecord(r: Request): Record {
    Record(TypeText(r.requestType), r.requestor, r.expiresAt, StatusText(r.status),
           r.approvedAt, r.completedAt, r.certificate)
  }

  /** Decisions are stored elsewhere; unknown texts read as `Pending` and `Issuance`. */
  function Restored(d: Record): Request {
    Request(
      match ParseType(d.requestType) { case Some(t) => t case None => Issuance },
      d.requestor, d.expiresAt,
      match ParseStatus(d.status) { case Some(s) => s case None => Pending },
      [], d.approvedAt, d.completedAt, d.certificate)
  }

  lemma LowerIsLower(text: string)
    requires forall i :: 0 <= i < |text| ==> !('A' <= text[i] <= 'Z')
    ensures ToLower(text) == text
  {
  }

  /** A reload loses the decision list and nothing else. */
  lemma ReloadKeepsAllButDecisions(r: Request)
    ensures Restored(ToRecord(r)) == r.(decisions := [])
  {
    LowerIsLower(StatusText(r.status));
    LowerIsLower(TypeText(r.requestType));
  }

  // ----- Runs -----

  function NewRequest(requestType: RequestType, requestor: UserId, expiresAt: Instant): Request {
    Request(requestType, requestor, expiresAt, Pending, [], None, None, None)
  }

  function Run(r: Request, steps: seq<Step>): Request {
    if steps == [] then r else Apply(Run(r, steps[..|steps| - 1]), steps[|steps| - 1])
  }

  /** Every decision recorded during a run, reloads notwithstanding. */
  function History(r: Request, steps: seq<Step>): seq<DecisionRecord> {
    if steps == [] then []
    else
      var prefix := steps[..|steps| - 1];
      History(r, prefix) + Recorded(Run(r, prefix), steps[|steps| - 1])
  }

  predicate Conclusive(d: DecisionRecord) {
    d.decision == Approve || d.decision == Reject
  }

  /** Only the last decision may be conclusive. */
  predicate OneConclusion(h: seq<DecisionRecord>) {
    forall i :: 0 <= i < |h| - 1 ==> !Conclusive(h[i])
  }

  predicate StatusAgrees(status: Status, h: seq<DecisionRecord>) {
    match status
    case Pending => h == [] || !Conclusive(h[|h| - 1])
    case Expired => h == [] || !Conclusive(h[|h| - 1])
    case Rejected => h != [] && h[|h| - 1].decision == Reject
    case Approved => h != [] && h[|h| - 1].decision == Approve
    case Completed => h != [] && h[|h| - 1].decision == Approve
  }

  /** No decision is the requestor's, and each decider held the permission. */
  predicate Separated(requestor: UserId, h: seq<DecisionRecord>) {
    forall i :: 0 <= i < |h| ==>
      && h[i].approver.id != requestor
      && AnyRoleHasPermission(h[i].approver.roles, if h[i].decision == Reject then RejectRequest else ApproveRequest)
  }

  predicate StampsAgree(r: Request) {
    && (r.approvedAt.Some? <==> r.status == Approved || r.status == Completed)
    && (r.completedAt.Some? <==> r.status == Completed)
    && (r.status == Completed ==> r.certificate.Some?)
  }

  lemma ApproversMayReject(roles: seq<Role>)
    ensures AnyRoleHasPermission(roles, ApproveRequest) <==> AnyRoleHasPermission(roles, RejectRequest)
  {
    forall role: Role
      ensures RoleHasPermission(role, ApproveRequest) == RoleHasPermission(role, RejectRequest)
    {
    }
  }

  predicate Sound(r: Request, h: seq<DecisionRecord>) {
    OneConclusion(h) && StatusAgrees(r.status, h) && Separated(r.requestor, h) && StampsAgree(r)
  }

  function Recorded(r: Request, step: Step): seq<DecisionRecord> {
    if Decided(r, step).Some? then [Decided(r, step).value] else []
  }

  lemma StepIsSound(r: Request, h: seq<DecisionRecord>, step: Step)
    requires Sound(r, h)
    ensures Sound(Apply(r, step), h + Recorded(r, step))
  {
    hide AnyRoleHasPermission, Restored, ToRecord;
    ReloadKeepsAllButDecisions(r);
    if step.AddDecision? {
      ApproversMayReject(step.user.roles);
    }
  }

  /** Over every run of a new request, through any decisions, completions, expiry checks and
      reloads at any times: the decisions are inconclusive ones followed by at most one approval or
      rejection; the status agrees with the last; none is the requestor's; every decider held the
      permission for it; and the stamps agree with the status. */
  lemma {:induction false} RunIsSound(t: RequestType, requestor: UserId, expiresAt: Instant, steps: seq<Step>)
    ensures var r := NewRequest(t, requestor, expiresAt);
            var h, now := History(r, steps), Run(r, steps);
            && OneConclusion(h) && StatusAgrees(now.status, h) && Separated(requestor, h) && StampsAgree(now)
            && now.requestor == requestor && now.requestType == t && now.expiresAt == expiresAt
  {
    hide AnyRoleHasPermission, Restored, ToRecord, OneConclusion, StatusAgrees, Separated;
    var r := NewRequest(t, requestor, expiresAt);
    if steps == [] {
      NewIsSound(t, requestor, expiresAt);
    } else {
      var prefix, step := steps[..|steps| - 1], steps[|steps| - 1];
      RunIsSound(t, requestor, expiresAt, prefix);
      ReloadKeepsAllButDecisions(Run(r, prefix));
      StepIsSound(Run(r, prefix), History(r, prefix), step);
    }
  }

  lemma NewIsSound(t: RequestType, requestor: UserId, expiresAt: Instant)
    ensures Sound(NewRequest(t, requestor, expiresAt), [])
  {
  }

  lemma StepAppends(r: Request, step: Step)
    requires step != Reload
    ensures Apply(r, step).decisions == r.decisions + Recorded(r, step)
  {
  }

  /** How a step moves the status: to approved or rejected by a permitted decision to that effect, to
      expired by the check on a pending request past its deadline, to completed from approved, and
      not otherwise; and what it stamps. */
  lemma StatusMovesExactly(r: Request, step: Step)
    ensures var r' := Apply(r, step);
            var decided := Decided(r, step);
            && (r.status != r'.status ==>
                  || (r'.status == Approved && decided.Some? && decided.value.decision == Approve)
                  || (r'.status == Rejected && decided.Some? && decided.value.decision == Reject)
                  || (r'.status == Expired && step.ExpireIfNeeded? && r.status == Pending && step.now > r.expiresAt)
                  || (r'.status == Completed && step.MarkCompleted? && r.status == Approved))
            && (decided.Some? && decided.value.decision == Approve ==> r'.status == Approved && r'.approvedAt.Some?)
            && (decided.Some? && decided.value.decision == Reject ==> r'.status == Rejected && r'.approvedAt == r.approvedAt)
            && (step.ExpireIfNeeded? && r.status == Pending && step.now > r.expiresAt ==> r'.status == Expired)
            && (step.MarkCompleted? && r.status == Approved ==>
                  r'.status == Completed && r'.certificate == Some(step.certificate) && r'.completedAt == Some(step.now))
            && (step.LinkCertificate? ==> r' == r.(certificate := Some(step.certificate)))
            && (step.Reload? ==> r' == r.(decisions := []))
  {
    ReloadKeepsAllButDecisions(r);
  }

  /** A decision is recorded as it was made: who, what, why and when; and an approval is stamped. */
  lemma DecisionsAreRecorded(r: Request, step: Step)
    requires Decided(r, step).Some?
    ensures var d, r' := Decided(r, step).value, Apply(r, step);
            && r'.decisions == r.decisions + [d]
            && d.approver == step.user && d.decidedAt == step.decidedAt && d.justification == step.justification
            && (step.AddDecision? ==> d.decision == step.decision && d.reason == step.reason)
            && (step.ApproveStep? ==> d.decision == Approve && r'.approvedAt == Some(step.decidedAt))
            && (step.RejectStep? ==> d.decision == Reject && d.reason == step.reason)
            && (step.AddDecision? && step.decision == Approve ==> r'.approvedAt == Some(step.approvedAt))
            && r'.requestor == r.requestor && r'.requestType == r.requestType && r'.expiresAt == r.expiresAt
            && r'.completedAt == r.completedAt && r'.certificate == r.certificate
  {
  }

  /** Between reloads the object's own decision list is the history. */
  lemma {:induction false} DecisionsAreTheHistory(t: RequestType, requestor: UserId, expiresAt: Instant, steps: seq<Step>)
    requires Reload !in steps
    ensures var r := NewRequest(t, requestor, expiresAt);
            Run(r, steps).decisions == History(r, steps)
  {
    hide Apply, Recorded;
    if steps != [] {
      var prefix := steps[..|steps| - 1];
      DecisionsAreTheHistory(t, requestor, expiresAt, prefix);
      StepAppends(Run(NewRequest(t, requestor, expiresAt), prefix), steps[|steps| - 1]);
    }
  }

  /** A request that is no longer pending records no further decision; its status stands, except
      that an approved request may be completed. */
  lemma {:induction false} ConclusionsStand(r: Request, steps: seq<Step>)
    requires r.status != Pending
    ensures History(r, steps) == []
    ensures Run(r, steps).status == r.status || (r.status == Approved && Run(r, steps).status == Completed)
  {
    hide Restored, ToRecord;
    if steps != [] {
      ConclusionsStand(r, steps[..|steps| - 1]);
      ReloadKeepsAllButDecisions(Run(r, steps[..|steps| - 1]));
    }
  }

  predicate AfterDeadline(r: Request, step: Step) {
    match step
    case LinkCertificate(_) => true
    case Reload => true
    case _ => step.now > r.expiresAt
  }

  /** Once the deadline has passed nothing is decided, whether or not anyone ran the expiry check. */
  lemma {:induction false} NothingDecidedAfterDeadline(r: Request, steps: seq<Step>)
    requires r.status == Pending && forall i :: 0 <= i < |steps| ==> AfterDeadline(r, steps[i])
    ensures History(r, steps) == [] && Run(r, steps).status in {Pending, Expired}
    ensures Run(r, steps).expiresAt == r.expiresAt
  {
    hide Restored, ToRecord;
    if steps != [] {
      var n := |steps| - 1;
      NothingDecidedAfterDeadline(r, steps[..n]);
      ReloadKeepsAllButDecisions(Run(r, steps[..n]));
      assert AfterDeadline(r, steps[n]);
    }
  }

  /** Whoever completes a request, it was approved by someone else. */
  lemma CompletedWasApproved(t: RequestType, requestor: UserId, expiresAt: Instant, steps: seq<Step>)
    requires Run(NewRequest(t, requestor, expiresAt), steps).status == Completed
    ensures exists d ::
              && d in History(NewRequest(t, requestor, expiresAt), steps) && d.decision == Approve
              && d.approver.id != requestor && AnyRoleHasPermission(d.approver.roles, ApproveRequest)
  {
    hide AnyRoleHasPermission;
    RunIsSound(t, requestor, expiresAt, steps);
    var h := History(NewRequest(t, requestor, expiresAt), steps);
    assert h[|h| - 1] in h;
  }

  // ----- The objects -----

  class ApprovalRequest {
    const requestType: RequestType
    const requestor: UserId
    const expiresAt: Instant
    var status: Status
    var decisions: seq<DecisionRecord>
    var approvedAt: Option<Instant>
    var completedAt: Option<Instant>
    var certificate: Option<CertificateId>

    function Value(): Request
      reads this
    {
      Request(requestType, requestor, expiresAt, status, decisions, approvedAt, completedAt, certificate)
    }

    constructor (requestType: RequestType, requestor: UserId, now: Instant, lifetime: nat)
      ensures Value() == NewRequest(requestType, requestor, now + lifetime)
    {
      this.requestType, this.requestor, this.expiresAt := requestType, requestor, now + lifetime;
      status, decisions, approvedAt, completedAt, certificate := Pending, [], None, None, None;
    }

    constructor FromRecord(record: Record)
      ensures Value() == Restored(record)
    {
      var parsedType, parsedStatus := ParseType(record.requestType), ParseStatus(record.status);
      requestType := if parsedType.Some? then parsedType.value else Issuance;
      requestor, expiresAt := record.requestor, record.expiresAt;
      status := if parsedStatus.Some? then parsedStatus.value else Pending;
      decisions, approvedAt, completedAt, certificate := [], record.approvedAt, record.completedAt, record.certificate;
    }

    method CanApprove(user: User, now: Instant) returns (result: Result<(), Error>)
      ensures result == Permitted(Value(), user, ApproveRequest, now)
    {
      if requestor == user.id {
        return Err(SelfApprovalProhibited);
      }
      if !AnyRoleHasPermission(user.roles, ApproveRequest) {
        return Err(InsufficientRole);
      }
      if status != Pending {
        return Err(InvalidApprovalState(status, Pending));
      }
      if now > expiresAt {
        return Err(ApprovalRequestExpired(expiresAt));
      }
      result := Ok(());
    }

    method CanReject(user: User, now: Instant) returns (result: Result<(), Error>)
      ensures result == Permitted(Value(), user, RejectRequest, now)
    {
      if requestor == user.id {
        return Err(SelfApprovalProhibited);
      }
      if !AnyRoleHasPermission(user.roles, RejectRequest) {
        return Err(InsufficientRole);
      }
      if status != Pending {
        return Err(InvalidApprovalState(status, Pending));
      }
      if now > expiresAt {
        return Err(ApprovalRequestExpired(expiresAt));
      }
      result := Ok(());
    }

    method AddDecision(user: User, decision: Decision, reason: Option<string>, justification: Option<string>,
                       now: Instant, decidedTime: Instant, approvedTime: Instant)
      returns (result: Result<(), Error>)
      modifies this
      ensures Value() ==
              Apply(old(Value()), Step.AddDecision(user, decision, reason, justification, now, decidedTime, approvedTime))
      ensures result == Permitted(old(Value()), user, ApproveRequest, now)
    {
      result := CanApprove(user, now);
      if result.Err? {
        return;
      }
      decisions := decisions + [DecisionRecord(user, decision, reason, justification, decidedTime)];
      match decision {
        case Approve =>
          status := Approved;
          approvedAt := Some(approvedTime);
        case Reject =>
          status := Rejected;
        case NeedsInfo =>
        case Deferred =>
      }
    }

    method MarkCompleted(id: CertificateId, now: Instant) returns (result: Result<(), Error>)
      modifies this
      ensures Value() == Apply(old(Value()), Step.MarkCompleted(id, now))
      ensures result == if old(status) == Approved then Ok(()) else Err(InvalidApprovalState(old(status), Approved))
    {
      if status != Approved {
        return Err(InvalidApprovalState(status, Approved));
      }
      certificate := Some(id);
      status := Completed;
      completedAt := Some(now);
      result := Ok(());
    }

    method ExpireIfNeeded(now: Instant)
      modifies this
      ensures Value() == Apply(old(Value()), Step.ExpireIfNeeded(now))
    {
      if status == Pending && now > expiresAt {
        status := Expired;
      }
    }

    method LinkCertificate(id: CertificateId)
      modifies this
      ensures Value() == Apply(old(Value()), Step.LinkCertificate(id))
    {
      certificate := Some(id);
    }
  }

  class ApprovalEngine {
    const lifetime: nat

    constructor (lifetime: nat)
      ensures this.lifetime == lifetime
    {
      this.lifetime := lifetime;
    }

    method CreateRequest(requestType: RequestType, requestor: UserId, now: Instant) returns (request: ApprovalRequest)
      ensures fresh(request) && request.Value() == NewRequest(requestType, requestor, now + lifetime)
    {
      request := new ApprovalRequest(requestType, requestor, now, lifetime);
    }

    method Approve(request: ApprovalRequest, user: User, justification: string, now: Instant, decidedTime: Instant)
      returns (result: Result<DecisionRecord, Error>)
      modifies request
      ensures var step := ApproveStep(user, Some(justification), now, decidedTime);
              && request.Value() == Apply(old(request.Value()), step)
              && (result.Ok? <==> Decided(old(request.Value()), step).Some?)
              && (result.Ok? ==> request.status == Approved && request.decisions == old(request.decisions) + [result.value])
              && (result.Err? ==> Permitted(old(request.Value()), user, ApproveRequest, now) == Err(result.error))
    {
      var permitted := request.CanApprove(user, now);
      if permitted.Err? {
        return Err(permitted.error);
      }
      var decision := DecisionRecord(user, Decision.Approve, Some("Approved"), Some(justification), decidedTime);
      request.decisions := request.decisions + [decision];
      request.status := Approved;
      request.approvedAt := Some(decision.decidedAt);
      result := Ok(decision);
    }

    method Reject(request: ApprovalRequest, user: User, reason: string, justification: string, now: Instant, decidedTime: Instant)
      returns (result: Result<DecisionRecord, Error>)
      modifies request
      ensures var step := RejectStep(user, Some(reason), Some(justification), now, decidedTime);
              && request.Value() == Apply(old(request.Value()), step)
              && (result.Ok? <==> Decided(old(request.Value()), step).Some?)
              && (result.Ok? ==> request.status == Rejected && request.decisions == old(request.decisions) + [result.value])
              && (result.Err? ==> Permitted(old(request.Value()), user, RejectRequest, now) == Err(result.error))
    {
      var permitted := request.CanReject(user, now);
      if permitted.Err? {
        return Err(permitted.error);
      }
      var decision := DecisionRecord(user, Decision.Reject, Some(reason), Some(justification), decidedTime);
      request.decisions := request.decisions + [decision];
      request.status := Rejected;
      result := Ok(decision);
    }
  }
}
