/** Requests, evidence, events and the claim policy (domain.py, evidence.py and policy.py of the Work Claim
    component). */
module WorkClaimDomain {
  import opened Foundations
  import opened RetainedEvidence

  datatype Operation = CreateGeneration | Claim | Expire | Release

  datatype EventType = GenerationCreated | ClaimAccepted | ClaimRejected | ClaimExpired | ClaimReleased

  datatype ReasonCode =
    | GENERATION_CREATED
    | ACTIVE_CLAIM_EXISTS
    | CLAIMANT_NOT_SELECTED_CANDIDATE
    | CLAIM_ACCEPTED
    | CLAIM_EXPIRED
    | CLAIM_RELEASED

  datatype LineageKey = LineageKey(organization: string, workload: string, plan: string, workItem: string)

  datatype Provenance = Provenance(clockSourceId: string, clockSourceVersion: string, configurationVersion: string)

  /** A namespaced digest is the document it was computed from: equal digests mean equal documents,
      and no two namespaces share a digest. `OtherDigest` is any well-formed text that is no such digest. */
  datatype Digest =
    | DispatchInputDigest(content: string)
    | DispatchDecisionDigest(decisionContent: string)
    | ClaimantDigest(claimant: ClaimantDocument)
    | PolicyDigest(policyId: string, policyVersion: string, claimTtl: int)
    | InputDigest(input: InputDocument)
    | EventDigest(event: EventDocument)
    | EventIdentity(eventDigest: Digest, lineage: Digest, version: nat)
    | LineageIdentity(key: LineageKey)
    | IdempotencyIdentity(operation: Operation, scope: LineageKey, submittedKey: string)
    | OtherDigest(text: string)

  datatype EvidenceReference = EvidenceReference(artifactId: string, digest: Digest)

  datatype Request = Request(
    operation: Operation,
    key: LineageKey,
    dispatchDecisionId: string,
    dispatchDecisionDigest: Digest,
    claimantEvidenceId: string,
    claimantEvidenceDigest: Digest,
    selectedCandidateId: string,
    policyId: string,
    policyVersion: string,
    policyDigest: Digest,
    evidenceBoundary: string,
    semanticAt: int,
    provenance: Provenance,
    expectedVersion: nat,
    idempotencyKey: string,
    releaseReason: Option<string>)

  predicate Named(p: Provenance) {
    p.clockSourceId != "" && p.clockSourceVersion != "" && p.configurationVersion != ""
  }

  /** What the request constructor accepts; schema, component and serialization versions are the supported ones. */
  predicate ValidRequest(r: Request) {
    && r.key.organization != "" && r.key.workload != "" && r.key.plan != "" && r.key.workItem != ""
    && r.dispatchDecisionId != "" && r.claimantEvidenceId != "" && r.selectedCandidateId != ""
    && r.policyId != "" && r.policyVersion != "" && r.evidenceBoundary != "" && Named(r.provenance)
    && r.idempotencyKey != ""
    && (r.operation.Release? <==> r.releaseReason.Some?)
    && (r.releaseReason.Some? ==> r.releaseReason.value != "")
  }

  datatype DispatchRecord = DispatchRecord(
    decisionId: string,
    organization: string,
    workload: string,
    planId: string,
    workItemId: string,
    selectedCandidateId: string,
    approved: bool,
    historyBoundary: string,
    policyVersion: string,
    streamVersion: nat,
    inputDigest: Digest,
    decisionDigest: Digest,
    inputContent: string,
    decisionContent: string)

  function ValidateDispatch(d: DispatchRecord): Outcome<RuntimeError> {
    if d.inputDigest != DispatchInputDigest(d.inputContent)
       || d.decisionDigest != DispatchDecisionDigest(d.decisionContent)
    then Fail(DigestMismatch)
    else Need(d.approved, Invalid)
  }

  datatype ClaimantDocument = ClaimantDocument(
    evidenceId: string,
    claimantId: string,
    selectedCandidateId: string,
    organization: string,
    workload: string,
    authenticationBoundary: string,
    effectiveAt: int,
    expiresAt: int,
    schemaVersion: string,
    producerVersion: string)

  datatype ClaimantEvidence = ClaimantEvidence(document: ClaimantDocument, digest: Digest, content: ClaimantDocument)

  const SUPPORTED_CLAIMANT_SCHEMA := "claimant-evidence.v1"
  const SUPPORTED_CLAIMANT_PRODUCER := "claimant-evidence.producer.v1"

  function ValidateClaimant(c: ClaimantEvidence): Outcome<RuntimeError> {
    var d := c.document;
    if d.schemaVersion != SUPPORTED_CLAIMANT_SCHEMA || d.producerVersion != SUPPORTED_CLAIMANT_PRODUCER
    then Fail(VersionUnsupported)
    else if || d.expiresAt < d.effectiveAt || d.authenticationBoundary == "" || d.claimantId == "" || d.evidenceId == ""
            || d.organization == "" || d.selectedCandidateId == "" || d.workload == ""
    then Fail(Invalid)
    else Need(c.digest == ClaimantDigest(d) && c.content == d, DigestMismatch)
  }

  function DispatchSource(): SourceKind<DispatchRecord> {
    SourceKind((d: DispatchRecord) => d.decisionId, ValidateDispatch,
               (d: DispatchRecord) => d.organization, (d: DispatchRecord) => d.workload)
  }

  function ClaimantSource(): SourceKind<ClaimantEvidence> {
    SourceKind((c: ClaimantEvidence) => c.document.evidenceId, ValidateClaimant,
               (c: ClaimantEvidence) => c.document.organization, (c: ClaimantEvidence) => c.document.workload)
  }

  datatype Policy = Policy(policyId: string, version: string, claimTtl: int, digest: Digest)

  const POLICY_ID := "work-claim-policy"
  const POLICY_VERSION := "work-claim-policy.v1"
  const CLAIM_TTL := 300

  function WorkClaimPolicyV1(): Policy {
    Policy(POLICY_ID, POLICY_VERSION, CLAIM_TTL, PolicyDigest(POLICY_ID, POLICY_VERSION, CLAIM_TTL))
  }

  function PolicyFor(policyId: string, version: string, digest: Digest): Result<Policy, RuntimeError> {
    var _ :- Need(policyId == POLICY_ID && version == POLICY_VERSION, VersionUnsupported);
    var _ :- Need(digest == WorkClaimPolicyV1().digest, DigestMismatch);
    Ok(WorkClaimPolicyV1())
  }

  datatype DispatchInput = DispatchInput(
    decisionDigest: Digest,
    inputDigest: Digest,
    decisionId: string,
    policyVersion: string,
    historyBoundary: string,
    approved: bool,
    streamVersion: nat)

  datatype ClaimantInput = ClaimantInput(
    authenticationBoundary: string,
    digest: Digest,
    claimantId: string,
    effectiveAt: int,
    evidenceId: string,
    expiresAt: int,
    producerVersion: string,
    schemaVersion: string,
    selectedCandidateId: string)

  datatype InputDocument = InputDocument(
    policy: Policy,
    claimant: ClaimantInput,
    dispatch: DispatchInput,
    provenance: Provenance,
    evidenceBoundary: string,
    expectedVersion: nat,
    operation: Operation,
    key: LineageKey,
    releaseReason: Option<string>,
    selectedCandidateId: string,
    semanticAt: int)

  /** The payload whose canonical form is the event content; the event repeats these fields. */
  datatype EventDocument = EventDocument(
    inputDigest: Digest,
    causalEventId: Option<Digest>,
    policyReference: EvidenceReference,
    policyVersion: string,
    claimantReference: EvidenceReference,
    claimantId: string,
    dispatchReference: EvidenceReference,
    eventType: EventType,
    expiresAt: Option<int>,
    fence: Option<int>,
    generation: int,
    idempotencyIdentity: Digest,
    lineageId: Digest,
    lineageVersion: nat,
    key: LineageKey,
    reason: ReasonCode,
    provenance: Provenance,
    evidenceBoundary: string,
    releaseReason: Option<string>,
    selectedCandidateId: string,
    semanticAt: int)

  datatype Event = Event(eventId: Digest, document: EventDocument, eventDigest: Digest, recordedAt: int)

  /** What the event constructor accepts. */
  predicate WellFormedEvent(e: Event) {
    && e.document.lineageVersion >= 1
    && e.document.generation >= 1
    && (e.document.fence.Some? ==> e.document.fence.value >= 1)
    && (e.document.eventType.ClaimAccepted? <==> e.document.fence.Some?)
    && e.document.claimantId != ""
    && e.document.selectedCandidateId != ""
    && e.document.key.organization != "" && e.document.key.workload != ""
    && e.document.key.plan != "" && e.document.key.workItem != ""
    && (e.document.releaseReason.Some? ==> e.document.releaseReason.value != "")
  }

  datatype Record = Record(
    request: Request,
    event: Event,
    idempotencyIdentity: Digest,
    inputContent: InputDocument,
    eventContent: EventDocument)

  datatype DerivedState = DerivedState(
    lineageVersion: nat,
    currentGeneration: int,
    generationEvent: Option<Event>,
    acceptedEvent: Option<Event>,
    endedEvent: Option<Event>,
    latestFence: int,
    lastEvent: Option<Event>)

  const INITIAL_STATE := DerivedState(0, 0, None, None, None, 0, None)

  datatype Decision = Decision(
    eventType: EventType,
    reason: ReasonCode,
    generation: int,
    fence: Option<int>,
    expiresAfter: Option<int>,
    causalEventId: Option<Digest>)

  predicate ClaimantMatchesCandidate(claimant: ClaimantEvidence, dispatch: DispatchRecord) {
    claimant.document.selectedCandidateId == dispatch.selectedCandidateId
  }

  /** What may happen next: the registered policy applied to a request and the replayed state. */
  function Decide(policy: Policy, request: Request, dispatch: DispatchRecord, claimant: ClaimantEvidence,
                  state: DerivedState)
    : Result<Decision, RuntimeError>
  {
    var _ :- Need(state.lastEvent.Some? ==>
                    request.semanticAt >= state.lastEvent.value.document.semanticAt, IllegalTransition);
    if request.operation.CreateGeneration? then
      if state.lineageVersion == 0 then
        Ok(Decision(GenerationCreated, GENERATION_CREATED, 1, None, None, None))
      else if state.generationEvent.None? || state.endedEvent.None? then
        Err(IllegalTransition)
      else
        Ok(Decision(GenerationCreated, GENERATION_CREATED, state.currentGeneration + 1, None, None,
                    Some(state.endedEvent.value.eventId)))
    else if state.generationEvent.None? || state.endedEvent.Some? then
      Err(IllegalTransition)
    else if request.operation.Claim? then
      if state.acceptedEvent.Some? then
        Ok(Decision(ClaimRejected, ACTIVE_CLAIM_EXISTS, state.currentGeneration, None, None,
                    Some(state.acceptedEvent.value.eventId)))
      else if !ClaimantMatchesCandidate(claimant, dispatch) then
        Ok(Decision(ClaimRejected, CLAIMANT_NOT_SELECTED_CANDIDATE, state.currentGeneration, None, None,
                    Some(state.generationEvent.value.eventId)))
      else
        Ok(Decision(ClaimAccepted, CLAIM_ACCEPTED, state.currentGeneration, Some(state.latestFence + 1),
                    Some(policy.claimTtl), Some(state.generationEvent.value.eventId)))
    else if state.acceptedEvent.None? then
      Err(IllegalTransition)
    else
      var accepted := state.acceptedEvent.value;
      var _ :- Need(request.dispatchDecisionId == accepted.document.dispatchReference.artifactId, IllegalTransition);
      if request.operation.Expire? then
        var _ :- Need(accepted.document.expiresAt.Some?
                      && request.semanticAt >= accepted.document.expiresAt.value, IllegalTransition);
        Ok(Decision(ClaimExpired, CLAIM_EXPIRED, state.currentGeneration, None, None, Some(accepted.eventId)))
      else
        var _ :- Need(claimant.document.claimantId == accepted.document.claimantId, IllegalTransition);
        var _ :- Need(ClaimantMatchesCandidate(claimant, dispatch)
                && claimant.document.selectedCandidateId == accepted.document.selectedCandidateId, IllegalTransition);
        Ok(Decision(ClaimReleased, CLAIM_RELEASED, state.currentGeneration, None, None, Some(accepted.eventId)))
  }
}
