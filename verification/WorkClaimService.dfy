/** serialization.py and service.py of the Work Claim component. */
module WorkClaimService {
  import opened Foundations
  import opened RetainedEvidence
  import opened WorkClaimDomain

  // ---- serialization -------------------------------------------------------

  function IdempotencyOf(request: Request): Digest {
    IdempotencyIdentity(request.operation, request.key, request.idempotencyKey)
  }

  function CanonicalInput(request: Request, dispatch: DispatchRecord, claimant: ClaimantEvidence, policy: Policy)
    : InputDocument
  {
    var c := claimant.document;
    InputDocument(
      policy,
      ClaimantInput(c.authenticationBoundary, claimant.digest, c.claimantId, c.effectiveAt, c.evidenceId, c.expiresAt,
                    c.producerVersion, c.schemaVersion, c.selectedCandidateId),
      DispatchInput(dispatch.decisionDigest, dispatch.inputDigest, dispatch.decisionId, dispatch.policyVersion,
                    dispatch.historyBoundary, dispatch.approved, dispatch.streamVersion),
      request.provenance, request.evidenceBoundary, request.expectedVersion, request.operation, request.key,
      request.releaseReason, request.selectedCandidateId, request.semanticAt)
  }

  function EventPayload(request: Request, dispatch: DispatchRecord, claimant: ClaimantEvidence, policy: Policy,
                        decision: Decision, lineageVersion: nat, identity: Digest): EventDocument
  {
    EventDocument(
      InputDigest(CanonicalInput(request, dispatch, claimant, policy)),
      decision.causalEventId,
      EvidenceReference(policy.policyId, policy.digest), policy.version,
      EvidenceReference(claimant.document.evidenceId, claimant.digest), claimant.document.claimantId,
      EvidenceReference(dispatch.decisionId, dispatch.decisionDigest),
      decision.eventType,
      if decision.expiresAfter.None? then None else Some(request.semanticAt + decision.expiresAfter.value),
      decision.fence, decision.generation, identity,
      LineageIdentity(request.key), lineageVersion, request.key, decision.reason, request.provenance,
      request.evidenceBoundary, request.releaseReason, request.selectedCandidateId, request.semanticAt)
  }

  function EventFor(document: EventDocument, recordedAt: int): Event {
    Event(EventIdentity(EventDigest(document), document.lineageId, document.lineageVersion),
          document, EventDigest(document), recordedAt)
  }

  /** Builds the record of a decision; the event constructor may refuse it. */
  function BuildRecord(request: Request, dispatch: DispatchRecord, claimant: ClaimantEvidence, policy: Policy,
                       decision: Decision, lineageVersion: nat, identity: Digest, recordedAt: int)
    : Result<Record, RuntimeError>
  {
    var document := EventPayload(request, dispatch, claimant, policy, decision, lineageVersion, identity);
    var event := EventFor(document, recordedAt);
    var _ :- Need(WellFormedEvent(event), Invalid);
    Ok(Record(request, event, identity, CanonicalInput(request, dispatch, claimant, policy), document))
  }

  predicate VerifiesRecordedContent(r: Record) {
    InputDigest(r.inputContent) == r.event.document.inputDigest && EventDigest(r.eventContent) == r.event.eventDigest
  }

  // ---- replay --------------------------------------------------------------

  /** What replay accepts, written independently of `Decide`. */
  function AdvanceState(state: DerivedState, event: Event): Result<DerivedState, RuntimeError> {
    var d := event.document;
    var _ :- Need(d.lineageVersion == state.lineageVersion + 1, ReconstructionFailed);
    if d.eventType.GenerationCreated? then
      var _ :- Need(d.generation == (if state.currentGeneration == 0 then 1 else state.currentGeneration + 1),
                    ReconstructionFailed);
      var _ :- Need(!(state.currentGeneration != 0 && state.endedEvent.None?), ReconstructionFailed);
      Ok(DerivedState(d.lineageVersion, d.generation, Some(event), None, None, state.latestFence, Some(event)))
    else
      var _ :- Need(state.generationEvent.Some? && d.generation == state.currentGeneration, ReconstructionFailed);
      var _ :- Need(state.endedEvent.None?, ReconstructionFailed);
      if d.eventType.ClaimAccepted? then
        var _ :- Need(state.acceptedEvent.None?, ReconstructionFailed);
        var _ :- Need(d.fence == Some(state.latestFence + 1), ReconstructionFailed);
        Ok(DerivedState(d.lineageVersion, state.currentGeneration, state.generationEvent, Some(event), None,
                        d.fence.value, Some(event)))
      else
        var _ :- Need(d.fence.None?, ReconstructionFailed);
        if d.eventType.ClaimRejected? then
          Ok(DerivedState(d.lineageVersion, state.currentGeneration, state.generationEvent, state.acceptedEvent, None,
                          state.latestFence, Some(event)))
        else
          var _ :- Need(state.acceptedEvent.Some?
                        && d.causalEventId == Some(state.acceptedEvent.value.eventId), ReconstructionFailed);
          Ok(DerivedState(d.lineageVersion, state.currentGeneration, state.generationEvent, state.acceptedEvent,
                          Some(event),
                          state.latestFence, Some(event)))
  }

  datatype Evidence = Evidence(dispatches: map<string, DispatchRecord>, claimants: map<string, ClaimantEvidence>)

  const NO_EVIDENCE := Evidence(map[], map[])

  ghost predicate ValidEvidence(e: Evidence) {
    ValidItems(DispatchSource(), e.dispatches) && ValidItems(ClaimantSource(), e.claimants)
  }

  ghost predicate EvidenceGrows(e: Evidence, later: Evidence) {
    Extends(e.dispatches, later.dispatches) && Extends(e.claimants, later.claimants)
  }

  datatype Resolved = Resolved(dispatch: DispatchRecord, claimant: ClaimantEvidence, policy: Policy)

  function FindDispatch(e: Evidence, request: Request): Result<DispatchRecord, RuntimeError> {
    Require(DispatchSource(), e.dispatches, request.dispatchDecisionId, request.key.organization, request.key.workload)
  }

  function FindClaimant(e: Evidence, request: Request): Result<ClaimantEvidence, RuntimeError> {
    Require(ClaimantSource(), e.claimants, request.claimantEvidenceId, request.key.organization, request.key.workload)
  }

  /** The checks of `_resolve` once both artifacts are in hand. */
  function CheckEvidence(request: Request, dispatch: DispatchRecord, claimant: ClaimantEvidence)
    : Result<Resolved, RuntimeError>
  {
    var _ :- Need(dispatch.decisionDigest == request.dispatchDecisionDigest, DigestMismatch);
    var _ :- Need(claimant.digest == request.claimantEvidenceDigest, DigestMismatch);
    var _ :- Need(dispatch.approved, Invalid);
    var _ :- Need(dispatch.planId == request.key.plan && dispatch.workItemId == request.key.workItem, Invalid);
    var _ :- Need(dispatch.selectedCandidateId == request.selectedCandidateId, Invalid);
    var _ :- Need(dispatch.historyBoundary == request.evidenceBoundary, Invalid);
    var _ :- Need(claimant.document.effectiveAt <= request.semanticAt <= claimant.document.expiresAt, Invalid);
    var policy :- PolicyFor(request.policyId, request.policyVersion, request.policyDigest);
    Ok(Resolved(dispatch, claimant, policy))
  }

  function Resolve(e: Evidence, request: Request): Result<Resolved, RuntimeError> {
    var dispatch :- FindDispatch(e, request);
    var claimant :- FindClaimant(e, request);
    CheckEvidence(request, dispatch, claimant)
  }

  /** One turn of the replay loop: `key` is the lineage key of the history's first record. */
  function ReplayRecord(e: Evidence, key: LineageKey, state: DerivedState, r: Record)
    : Result<DerivedState, RuntimeError>
  {
    var _ :- Need(r.request.key == key, ReconstructionFailed);
    var _ :- Need(r.event.document.lineageId == LineageIdentity(r.request.key), ReconstructionFailed);
    var _ :- Need(r.request.expectedVersion == state.lineageVersion, ReconstructionFailed);
    var _ :- Need(VerifiesRecordedContent(r), DigestMismatch);
    var found :- Resolve(e, r.request);
    var _ :- Need(CanonicalInput(r.request, found.dispatch, found.claimant, found.policy) == r.inputContent,
                  DigestMismatch);
    var decision :- Decide(found.policy, r.request, found.dispatch, found.claimant, state);
    var rebuilt :- BuildRecord(r.request, found.dispatch, found.claimant, found.policy, decision,
                               state.lineageVersion + 1,
                               r.idempotencyIdentity, r.event.recordedAt);
    var _ :- Need(rebuilt == r, ReplayDiverged);
    AdvanceState(state, rebuilt.event)
  }

  function Replay(e: Evidence, history: seq<Record>): Result<DerivedState, RuntimeError> {
    if history == [] then Ok(INITIAL_STATE)
    else
      var state :- Replay(e, history[..|history| - 1]);
      ReplayRecord(e, history[0].request.key, state, history[|history| - 1])
  }

  // ---- repository ----------------------------------------------------------

  type IdempotencyKey = (LineageKey, Digest)

  datatype Repository = Repository(
    streams: map<LineageKey, seq<Record>>,
    byId: map<Digest, Record>,
    idempotency: map<IdempotencyKey, Record>,
    current: map<LineageKey, Event>)

  const EMPTY_REPOSITORY := Repository(map[], map[], map[], map[])

  function IdempotencyKeyOf(r: Record): IdempotencyKey {
    (r.request.key, r.idempotencyIdentity)
  }

  function History(repo: Repository, key: LineageKey): seq<Record> {
    if key in repo.streams then repo.streams[key] else []
  }

  function Idempotent(repo: Repository, key: LineageKey, identity: Digest, input: InputDocument)
    : Result<Option<Event>, RuntimeError>
  {
    if (key, identity) !in repo.idempotency then Ok(None)
    else
      var prior := repo.idempotency[(key, identity)];
      var _ :- Need(prior.inputContent == input, IdempotencyConflict);
      Ok(Some(prior.event))
  }

  function Publish(repo: Repository, r: Record): Repository {
    Repository(
      repo.streams[r.request.key := History(repo, r.request.key) + [r]],
      repo.byId[r.event.eventId := r],
      repo.idempotency[IdempotencyKeyOf(r) := r],
      repo.current[r.request.key := r.event])
  }

  datatype EvaluationResult = EvaluationResult(outcome: EvaluationOutcome, event: Event)

  /** `append`: the compare-and-swap that publishes one record, and what it answers. */
  function Append(repo: Repository, r: Record, expectedVersion: nat, commit: CommitOutcome)
    : (Repository, Result<EvaluationResult, RuntimeError>)
  {
    if IdempotencyKeyOf(r) in repo.idempotency then
      var prior := repo.idempotency[IdempotencyKeyOf(r)];
      (repo, if prior.inputContent != r.inputContent then Err(IdempotencyConflict)
             else Ok(EvaluationResult(ExistingEquivalent, prior.event)))
    else if expectedVersion != |History(repo, r.request.key)| then (repo, Err(VersionConflict))
    else if r.request.expectedVersion != expectedVersion then (repo, Err(VersionConflict))
    else if r.event.document.lineageVersion != expectedVersion + 1 then (repo, Err(VersionConflict))
    else if r.event.eventId in repo.byId then (repo, Err(IdempotencyConflict))
    else if commit.CommitFailed? then (repo, Err(PersistenceFailure))
    else (Publish(repo, r), Ok(EvaluationResult(Created, r.event)))
  }

  // ---- evaluate, run without interruption ----------------------------------

  function ProposedRecord(found: Resolved, request: Request, state: DerivedState, clock: int)
    : Result<Record, RuntimeError>
  {
    var decision :- Decide(found.policy, request, found.dispatch, found.claimant, state);
    BuildRecord(request, found.dispatch, found.claimant, found.policy, decision, request.expectedVersion + 1,
                IdempotencyOf(request), clock)
  }

  function Evaluate(e: Evidence, repo: Repository, request: Request, clock: int, commit: CommitOutcome)
    : (Repository, Result<EvaluationResult, RuntimeError>)
  {
    var resolution := Resolve(e, request);
    if resolution.Err? then (repo, Err(resolution.error)) else
    var found := resolution.value;
    var input := CanonicalInput(request, found.dispatch, found.claimant, found.policy);
    var prior := Idempotent(repo, request.key, IdempotencyOf(request), input);
    if prior.Err? then (repo, Err(prior.error)) else
    if prior.value.Some? then (repo, Ok(EvaluationResult(ExistingEquivalent, prior.value.value))) else
    var history := History(repo, request.key);
    if request.expectedVersion != |history| then (repo, Err(VersionConflict)) else
    var replayed := Replay(e, history);
    if replayed.Err? then (repo, Err(replayed.error)) else
    var proposal := ProposedRecord(found, request, replayed.value, clock);
    if proposal.Err? then (repo, Err(proposal.error)) else
    Append(repo, proposal.value, request.expectedVersion, commit)
  }
}
