/** Requests, evidence, events and the lease policy (domain.py, evidence.py and policy.py of the Execution Lease
    component). */
module ExecutionLeaseDomain {
  import opened Foundations
  import opened RetainedEvidence

  datatype Operation = Grant | Renew | Revoke | Supersede

  datatype EventType = Granted | Renewed | Revoked | Superseded

  datatype Permission = OfferWorkItem | InitiateWorkItemExecution

  datatype LineageKey = LineageKey(organization: string, workload: string, plan: string, workItem: string,
                                   permissionFamily: string)

  const PERMISSION_FAMILY := "work-item-execution.v1"

  datatype Provenance = Provenance(clockSourceId: string, clockSourceVersion: string, configurationVersion: string)

  /** A namespaced digest is the document it was computed from; `OtherDigest` is text that is no such digest. */
  datatype Digest =
    | AuthorizationDigest(authorization: AuthorizationDocument)
    | RevocationDigest(revocation: RevocationDocument)
    | PolicyDigest(policyId: string, policyVersion: string)
    | InputDigest(input: InputDocument)
    | EventDigest(event: EventDocument)
    | EventIdentity(eventDigest: Digest, lineage: Digest, version: nat)
    | LineageIdentity(key: LineageKey)
    | LeaseIdentity(leaseLineage: Digest, generation: int)
    | IdempotencyIdentity(operation: Operation, scope: LineageKey, submittedKey: string)
    | OtherDigest(text: string)

  datatype EvidenceReference = EvidenceReference(artifactId: string, digest: Digest)

  /** Permissions arrive without repetition and are kept in canonical order, so a set carries the same information. */
  datatype Request = Request(
    operation: Operation,
    key: LineageKey,
    permissions: set<Permission>,
    authorizationId: Option<string>,
    authorizationDigest: Option<Digest>,
    authorizationBoundary: Option<string>,
    priorEventId: Option<Digest>,
    revocationId: Option<string>,
    revocationDigest: Option<Digest>,
    effectiveAt: int,
    expiresAt: Option<int>,
    evaluationAt: int,
    provenance: Provenance,
    policyId: string,
    policyVersion: string,
    policyDigest: Digest,
    expectedVersion: nat,
    idempotencyKey: string)

  predicate Named(p: Provenance) {
    p.clockSourceId != "" && p.clockSourceVersion != "" && p.configurationVersion != ""
  }

  /** What the request constructor accepts; schema, component and serialization versions are the supported ones. */
  predicate ValidRequest(r: Request) {
    && r.key.organization != "" && r.key.workload != "" && r.key.plan != "" && r.key.workItem != ""
    && r.key.permissionFamily == PERMISSION_FAMILY && r.idempotencyKey != ""
    && r.policyId != "" && r.policyVersion != "" && Named(r.provenance)
    && r.authorizationId != Some("") && r.authorizationBoundary != Some("") && r.revocationId != Some("")
    && if r.operation.Revoke? then
         && r.authorizationId.None? && r.authorizationDigest.None? && r.authorizationBoundary.None?
         && r.permissions == {} && r.expiresAt.None?
         && r.priorEventId.Some? && r.revocationId.Some? && r.revocationDigest.Some?
       else
         && r.authorizationId.Some? && r.authorizationDigest.Some? && r.authorizationBoundary.Some?
         && r.permissions != {} && r.expiresAt.Some?
         && r.revocationId.None? && r.revocationDigest.None?
         && r.expiresAt.value > r.effectiveAt
         && (r.operation.Grant? <==> r.priorEventId.None?)
  }

  datatype AuthorizationDocument = AuthorizationDocument(
    authorizationId: string,
    organization: string,
    workload: string,
    principalId: string,
    plan: string,
    workItem: string,
    permissionCeiling: set<Permission>,
    approved: bool,
    evaluatedAt: int,
    effectiveAt: int,
    expiresAt: int,
    historyBoundary: string,
    policyId: string,
    policyVersion: string,
    policyDigest: string,
    decisionVersion: int,
    provenance: Provenance,
    correlationId: string,
    causationId: string,
    schemaVersion: string,
    componentVersion: string,
    serializationVersion: string)

  datatype AuthorizationEvidence = AuthorizationEvidence(document: AuthorizationDocument, digest: Digest,
                                                         content: AuthorizationDocument)

  datatype RevocationDocument = RevocationDocument(
    evidenceId: string,
    organization: string,
    workload: string,
    plan: string,
    workItem: string,
    permissionFamily: string,
    targetLeaseId: Digest,
    targetEventId: Digest,
    effectiveAt: int,
    schemaVersion: string,
    componentVersion: string,
    serializationVersion: string)

  datatype RevocationEvidence = RevocationEvidence(document: RevocationDocument, digest: Digest,
                                                   content: RevocationDocument)

  const AUTHORIZATION_SCHEMA := "authorization-checkpoint-evidence.v1"
  const AUTHORIZATION_COMPONENT := "authorization-checkpoint.service.v1"
  const REVOCATION_SCHEMA := "opaque-retained-revocation-evidence.v1"
  const REVOCATION_COMPONENT := "retained-evidence-port.v1"
  const SERIALIZATION := "canonical-json.v1"

  function ValidateAuthorization(a: AuthorizationEvidence): Outcome<RuntimeError> {
    var d := a.document;
    if d.schemaVersion != AUTHORIZATION_SCHEMA || d.componentVersion != AUTHORIZATION_COMPONENT
       || d.serializationVersion != SERIALIZATION
    then Fail(VersionUnsupported)
    else if || d.permissionCeiling == {} || d.expiresAt <= d.effectiveAt || d.decisionVersion < 1
            || d.authorizationId == "" || d.organization == "" || d.workload == "" || d.principalId == ""
            || d.plan == ""
            || d.workItem == "" || d.historyBoundary == "" || d.policyId == "" || d.policyVersion == ""
            || d.correlationId == "" || d.causationId == "" || !Named(d.provenance)
    then Fail(Invalid)
    else Need(a.digest == AuthorizationDigest(d) && a.content == d, DigestMismatch)
  }

  function ValidateRevocation(r: RevocationEvidence): Outcome<RuntimeError> {
    var d := r.document;
    if d.schemaVersion != REVOCATION_SCHEMA || d.componentVersion != REVOCATION_COMPONENT
       || d.serializationVersion != SERIALIZATION
    then Fail(VersionUnsupported)
    else if || d.evidenceId == "" || d.organization == "" || d.workload == "" || d.plan == "" || d.workItem == ""
            || d.permissionFamily == ""
    then Fail(Invalid)
    else Need(r.digest == RevocationDigest(d) && r.content == d, DigestMismatch)
  }

  function AuthorizationSource(): SourceKind<AuthorizationEvidence> {
    SourceKind((a: AuthorizationEvidence) => a.document.authorizationId, ValidateAuthorization,
               (a: AuthorizationEvidence) => a.document.organization, (a: AuthorizationEvidence) => a.document.workload)
  }

  function RevocationSource(): SourceKind<RevocationEvidence> {
    SourceKind((r: RevocationEvidence) => r.document.evidenceId, ValidateRevocation,
               (r: RevocationEvidence) => r.document.organization, (r: RevocationEvidence) => r.document.workload)
  }

  datatype Policy = Policy(policyId: string, version: string, digest: Digest)

  const POLICY_ID := "execution-lease-policy"
  const POLICY_VERSION := "execution-lease-policy.v1"

  function ExecutionLeasePolicyV1(): Policy {
    Policy(POLICY_ID, POLICY_VERSION, PolicyDigest(POLICY_ID, POLICY_VERSION))
  }

  function PolicyFor(policyId: string, version: string, digest: Digest): Result<Policy, RuntimeError> {
    var _ :- Need(policyId == POLICY_ID && version == POLICY_VERSION, VersionUnsupported);
    var _ :- Need(digest == ExecutionLeasePolicyV1().digest, DigestMismatch);
    Ok(ExecutionLeasePolicyV1())
  }

  datatype InputDocument = InputDocument(
    authorization: Option<AuthorizationInput>,
    provenance: Provenance,
    effectiveAt: int,
    evaluationAt: int,
    expectedVersion: nat,
    expiresAt: Option<int>,
    idempotencyKey: string,
    policy: Policy,
    operation: Operation,
    generation: int,
    key: LineageKey,
    priorEventId: Option<Digest>,
    permissions: set<Permission>,
    revocation: Option<RevocationInput>)

  datatype AuthorizationInput = AuthorizationInput(digest: Digest, document: AuthorizationDocument)

  datatype RevocationInput = RevocationInput(digest: Digest, evidenceId: string, effectiveAt: int,
                                             targetEventId: Digest, targetLeaseId: Digest)

  /** The payload whose canonical form is the event content; the event repeats these fields. */
  datatype EventDocument = EventDocument(
    authorizationReference: Option<EvidenceReference>,
    inputDigest: Digest,
    effectiveAt: int,
    eventType: EventType,
    expiresAt: Option<int>,
    generation: int,
    idempotencyIdentity: Digest,
    leaseId: Digest,
    lineageId: Digest,
    lineageVersion: nat,
    key: LineageKey,
    permissions: set<Permission>,
    policyReference: EvidenceReference,
    policyVersion: string,
    priorEventId: Option<Digest>,
    provenance: Provenance,
    authorizationBoundary: Option<string>,
    evaluationAt: int,
    revocationReference: Option<EvidenceReference>,
    supersededLeaseId: Option<Digest>)

  datatype Event = Event(eventId: Digest, document: EventDocument, eventDigest: Digest, recordedAt: int)

  /** What the event constructor accepts. */
  predicate WellFormedEvent(e: Event) {
    var d := e.document;
    && d.key.organization != "" && d.key.workload != "" && d.key.plan != "" && d.key.workItem != ""
    && d.key.permissionFamily == PERMISSION_FAMILY
    && d.generation >= 1 && d.lineageVersion >= 1
    && (if d.eventType.Revoked? then
          d.permissions == {} && d.authorizationReference.None? && d.revocationReference.Some? && d.expiresAt.None?
        else
          && d.permissions != {} && d.authorizationReference.Some? && d.revocationReference.None?
          && d.expiresAt.Some? && d.expiresAt.value > d.effectiveAt)
    && (d.eventType.Granted? <==> d.priorEventId.None?)
    && (d.eventType.Superseded? <==> d.supersededLeaseId.Some?)
  }

  /** Half-open applicability of one event. */
  predicate ApplicableAt(e: Event, at: int) {
    && !e.document.eventType.Revoked?
    && e.document.expiresAt.Some?
    && e.document.effectiveAt <= at < e.document.expiresAt.value
  }

  datatype Record = Record(
    request: Request,
    event: Event,
    idempotencyIdentity: Digest,
    inputContent: InputDocument,
    eventContent: EventDocument)

  datatype DerivedState = DerivedState(
    lineageVersion: nat,
    generation: int,
    authorityEvent: Option<Event>,
    terminalEvent: Option<Event>,
    lastEvent: Option<Event>)

  const INITIAL_STATE := DerivedState(0, 0, None, None, None)

  datatype Decision = Decision(eventType: EventType, generation: int, supersededLeaseId: Option<Digest>)

  predicate FreshAuthorization(request: Request, authority: Event) {
    && authority.document.authorizationReference.Some?
    && request.authorizationId != Some(authority.document.authorizationReference.value.artifactId)
  }

  /** What may happen next, given the replayed state. */
  function Decide(request: Request, state: DerivedState): Result<Decision, RuntimeError> {
    var _ :- Need(state.lastEvent.Some? ==>
                    request.evaluationAt >= state.lastEvent.value.document.evaluationAt, IllegalTransition);
    if request.operation.Grant? then
      var _ :- Need(state.lineageVersion == 0, IllegalTransition);
      Ok(Decision(Granted, 1, None))
    else if state.authorityEvent.None? || state.lastEvent.None?
            || request.priorEventId != Some(state.lastEvent.value.eventId) then
      Err(IllegalTransition)
    else if state.terminalEvent.Some? then
      Err(IllegalTransition)
    else
      var authority := state.authorityEvent.value;
      if request.operation.Renew? then
        var _ :- Need(FreshAuthorization(request, authority), Invalid);
        var _ :- Need(request.permissions <= authority.document.permissions, Invalid);
        var _ :- Need(request.effectiveAt >= authority.document.effectiveAt, Invalid);
        Ok(Decision(Renewed, state.generation, None))
      else if request.operation.Revoke? then
        var _ :- Need(request.effectiveAt >= authority.document.effectiveAt, Invalid);
        Ok(Decision(Revoked, state.generation, None))
      else
        var _ :- Need(FreshAuthorization(request, authority), Invalid);
        var _ :- Need(request.effectiveAt >= authority.document.effectiveAt, Invalid);
        Ok(Decision(Superseded, state.generation + 1, Some(authority.document.leaseId)))
  }
}
