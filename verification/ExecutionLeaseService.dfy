/** serialization.py and service.py of the Execution Lease component. */
module ExecutionLeaseService {
  import opened Foundations
  import opened RetainedEvidence
  import opened ExecutionLeaseDomain

  // ---- serialization -------------------------------------------------------

  function IdempotencyOf(request: Request): Digest {
    IdempotencyIdentity(request.operation, request.key, request.idempotencyKey)
  }

  function CanonicalInput(request: Request, found: Resolved, generation: int): InputDocument {
    InputDocument(
      if found.authorization.None? then None
      else Some(AuthorizationInput(found.authorization.value.digest, found.authorization.value.document)),
      request.provenance, request.effectiveAt, request.evaluationAt, request.expectedVersion, request.expiresAt,
      request.idempotencyKey, found.policy, request.operation, generation, request.key, request.priorEventId,
      request.permissions,
      if found.revocation.None? then None
      else var r := found.revocation.value;
           Some(RevocationInput(r.digest, r.document.evidenceId, r.document.effectiveAt, r.document.targetEventId,
                                r.document.targetLeaseId)))
  }

  function EventPayload(request: Request, found: Resolved, decision: Decision, lineageVersion: nat, identity: Digest)
    : EventDocument
  {
    EventDocument(
      if found.authorization.None? then None
      else Some(EvidenceReference(found.authorization.value.document.authorizationId,
                                  found.authorization.value.digest)),
      InputDigest(CanonicalInput(request, found, decision.generation)),
      if found.revocation.Some? then found.revocation.value.document.effectiveAt else request.effectiveAt,
      decision.eventType,
      if found.authorization.Some? then request.expiresAt else None,
      decision.generation, identity,
      LeaseIdentity(LineageIdentity(request.key),
                    decision.generation), LineageIdentity(request.key), lineageVersion, request.key,
      if found.authorization.Some? then request.permissions else {},
      EvidenceReference(found.policy.policyId, found.policy.digest), found.policy.version,
      request.priorEventId, request.provenance, request.authorizationBoundary, request.evaluationAt,
      if found.revocation.None? then None
      else Some(EvidenceReference(found.revocation.value.document.evidenceId, found.revocation.value.digest)),
      decision.supersededLeaseId)
  }

  function EventFor(document: EventDocument, recordedAt: int): Event {
    Event(EventIdentity(EventDigest(document), document.lineageId, document.lineageVersion),
          document, EventDigest(document), recordedAt)
  }

  function BuildRecord(request: Request, found: Resolved, decision: Decision, lineageVersion: nat, identity: Digest,
                       recordedAt: int)
    : Result<Record, RuntimeError>
  {
    var document := EventPayload(request, found, decision, lineageVersion, identity);
    var event := EventFor(document, recordedAt);
    var _ :- Need(WellFormedEvent(event), Invalid);
    Ok(Record(request, event, identity, CanonicalInput(request, found, decision.generation), document))
  }

  predicate VerifiesRecordedContent(r: Record) {
    InputDigest(r.inputContent) == r.event.document.inputDigest && EventDigest(r.eventContent) == r.event.eventDigest
  }

  // ---- evidence ------------------------------------------------------------

  datatype Evidence = Evidence(authorizations: map<string, AuthorizationEvidence>,
                               revocations: map<string, RevocationEvidence>)

  const NO_EVIDENCE := Evidence(map[], map[])

  ghost predicate ValidEvidence(e: Evidence) {
    ValidItems(AuthorizationSource(), e.authorizations) && ValidItems(RevocationSource(), e.revocations)
  }

  ghost predicate EvidenceGrows(e: Evidence, later: Evidence) {
    Extends(e.authorizations, later.authorizations) && Extends(e.revocations, later.revocations)
  }

  datatype Resolved = Resolved(authorization: Option<AuthorizationEvidence>, revocation: Option<RevocationEvidence>,
                               policy: Policy)

  function FindAuthorization(e: Evidence, request: Request, id: string): Result<AuthorizationEvidence, RuntimeError> {
    Require(AuthorizationSource(), e.authorizations, id, request.key.organization, request.key.workload)
  }

  function CheckAuthorization(request: Request, authorization: AuthorizationEvidence): Outcome<RuntimeError> {
    var a := authorization.document;
    if Some(authorization.digest) != request.authorizationDigest then Fail(DigestMismatch)
    else if !a.approved then Fail(Invalid)
    else if a.plan != request.key.plan || a.workItem != request.key.workItem then Fail(Invalid)
    else if Some(a.historyBoundary) != request.authorizationBoundary then Fail(Invalid)
    else if !(request.permissions <= a.permissionCeiling) then Fail(Invalid)
    else if !(a.effectiveAt <= request.evaluationAt < a.expiresAt) then Fail(Invalid)
    else Need(!(request.effectiveAt < a.effectiveAt || request.expiresAt.None?
                || request.expiresAt.value > a.expiresAt), Invalid)
  }

  /** Why a revocation fails; issuer authority is unresolved, so even consistent evidence fails closed. */
  function RevocationFailure(e: Evidence, repo: Repository, request: Request, id: string): RuntimeError {
    var revocation := Require(RevocationSource(), e.revocations, id, request.key.organization, request.key.workload);
    if revocation.Err? then revocation.error
    else
      var r := revocation.value.document;
      if Some(revocation.value.digest) != request.revocationDigest then DigestMismatch
      else if r.plan != request.key.plan || r.workItem != request.key.workItem
              || r.permissionFamily != request.key.permissionFamily
      then Invalid
      else if r.effectiveAt != request.effectiveAt then Invalid
      else if request.priorEventId != Some(r.targetEventId) then Invalid
      else if r.targetEventId !in repo.byId
              || repo.byId[r.targetEventId].event.document.leaseId != r.targetLeaseId then Invalid
      else IllegalTransition
  }

  function Resolve(e: Evidence, repo: Repository, request: Request): Result<Resolved, RuntimeError> {
    var authorization :-
      if request.authorizationId.None? then Ok(None)
      else
        var found :- FindAuthorization(e, request, request.authorizationId.value);
        var _ :- CheckAuthorization(request, found);
        Ok(Some(found));
    var _ :- if request.revocationId.None? then Pass
             else Fail(RevocationFailure(e, repo, request, request.revocationId.value));
    var policy :- PolicyFor(request.policyId, request.policyVersion, request.policyDigest);
    Ok(Resolved(authorization, None, policy))
  }

  // ---- replay --------------------------------------------------------------

  /** What replay accepts, written independently of `Decide`. */
  function AdvanceState(state: DerivedState, event: Event): Result<DerivedState, RuntimeError> {
    var d := event.document;
    var _ :- Need(d.lineageVersion == state.lineageVersion + 1, ReconstructionFailed);
    if d.eventType.Granted? then
      var _ :- Need(state.lineageVersion == 0 && d.generation == 1 && d.priorEventId.None?, ReconstructionFailed);
      Ok(DerivedState(d.lineageVersion, 1, Some(event), None, Some(event)))
    else
      var _ :- Need(state.authorityEvent.Some? && state.lastEvent.Some?
                    && d.priorEventId == Some(state.lastEvent.value.eventId),
                    ReconstructionFailed);
      var _ :- Need(state.terminalEvent.None?, ReconstructionFailed);
      var leaseId := state.authorityEvent.value.document.leaseId;
      if d.eventType.Renewed? then
        var _ :- Need(d.generation == state.generation && d.leaseId == leaseId, ReconstructionFailed);
        Ok(DerivedState(d.lineageVersion, state.generation, Some(event), None, Some(event)))
      else if d.eventType.Revoked? then
        var _ :- Need(d.generation == state.generation && d.leaseId == leaseId, ReconstructionFailed);
        Ok(DerivedState(d.lineageVersion, state.generation, state.authorityEvent, Some(event), Some(event)))
      else
        var _ :- Need(d.generation == state.generation + 1
                      && d.supersededLeaseId == Some(leaseId), ReconstructionFailed);
        Ok(DerivedState(d.lineageVersion, d.generation, Some(event), None, Some(event)))
  }

  /** One turn of the replay loop: `key` is the lineage key of the history's first record. */
  function ReplayRecord(e: Evidence, repo: Repository, key: LineageKey, state: DerivedState, r: Record)
    : Result<DerivedState, RuntimeError>
  {
    var _ :- Need(r.request.key == key
                  && r.event.document.lineageId == LineageIdentity(r.request.key), ReconstructionFailed);
    var _ :- Need(r.request.expectedVersion == state.lineageVersion, ReconstructionFailed);
    var _ :- Need(VerifiesRecordedContent(r), DigestMismatch);
    var found :- Resolve(e, repo, r.request);
    var decision :- Decide(r.request, state);
    var _ :- Need(CanonicalInput(r.request, found, decision.generation) == r.inputContent, DigestMismatch);
    var rebuilt :- BuildRecord(r.request, found, decision, state.lineageVersion + 1, r.idempotencyIdentity,
                               r.event.recordedAt);
    var _ :- Need(rebuilt == r, ReplayDiverged);
    AdvanceState(state, rebuilt.event)
  }

  function Replay(e: Evidence, repo: Repository, history: seq<Record>): Result<DerivedState, RuntimeError> {
    if history == [] then Ok(INITIAL_STATE)
    else
      var state :- Replay(e, repo, history[..|history| - 1]);
      ReplayRecord(e, repo, history[0].request.key, state, history[|history| - 1])
  }

  // ---- repository ----------------------------------------------------------

  type IdempotencyKey = (LineageKey, Digest)

  datatype Repository = Repository(
    streams: map<LineageKey, seq<Record>>,
    byId: map<Digest, Record>,
    idempotency: map<IdempotencyKey, Record>,
    current: map<LineageKey, Event>)

  const EMPTY_REPOSITORY := Repository(map[], map[], map[], map[])

  function IdempotencyKeyOf(r: Record): IdempotencyKey {
    (r.request.key, r.idempotencyIdentity)
  }

  function History(repo: Repository, key: LineageKey): seq<Record> {
    if key in repo.streams then repo.streams[key] else []
  }

  function IdempotencyRecord(repo: Repository, request: Request): Option<Record> {
    var key := (request.key, IdempotencyOf(request));
    if key in repo.idempotency then Some(repo.idempotency[key]) else None
  }

  function Idempotent(repo: Repository, key: LineageKey, identity: Digest, input: InputDocument)
    : Result<Option<Event>, RuntimeError>
  {
    if (key, identity) !in repo.idempotency then Ok(None)
    else
      var prior := repo.idempotency[(key, identity)];
      var _ :- Need(prior.inputContent == input, IdempotencyConflict);
      Ok(Some(prior.event))
  }

  function Publish(repo: Repository, r: Record): Repository {
    Repository(
      repo.streams[r.request.key := History(repo, r.request.key) + [r]],
      repo.byId[r.event.eventId := r],
      repo.idempotency[IdempotencyKeyOf(r) := r],
      repo.current[r.request.key := r.event])
  }

  datatype EvaluationResult = EvaluationResult(outcome: EvaluationOutcome, event: Event)

  /** `append`: the compare-and-swap that publishes one record, and what it answers. */
  function Append(repo: Repository, r: Record, expectedVersion: nat, commit: CommitOutcome)
    : (Repository, Result<EvaluationResult, RuntimeError>)
  {
    if IdempotencyKeyOf(r) in repo.idempotency then
      var prior := repo.idempotency[IdempotencyKeyOf(r)];
      (repo, if prior.inputContent != r.inputContent then Err(IdempotencyConflict)
             else Ok(EvaluationResult(ExistingEquivalent, prior.event)))
    else if || expectedVersion != |History(repo, r.request.key)|
            || r.request.expectedVersion != expectedVersion
            || r.event.document.lineageVersion != expectedVersion + 1
    then (repo, Err(VersionConflict))
    else if r.event.eventId in repo.byId then (repo, Err(IdempotencyConflict))
    else if commit.CommitFailed? then (repo, Err(PersistenceFailure))
    else (Publish(repo, r), Ok(EvaluationResult(Created, r.event)))
  }

  // ---- evaluate and applicable, run without interruption -------------------

  /** What `evaluate` does once evidence is resolved and the idempotency record is known. */
  function RetryAnswer(prior: Record, request: Request, found: Resolved): Result<EvaluationResult, RuntimeError> {
    var _ :- Need(CanonicalInput(request, found, prior.event.document.generation) == prior.inputContent,
                  IdempotencyConflict);
    Ok(EvaluationResult(ExistingEquivalent, prior.event))
  }

  function Proposed(found: Resolved, request: Request, decision: Decision, clock: int): Result<Record, RuntimeError> {
    BuildRecord(request, found, decision, request.expectedVersion + 1, IdempotencyOf(request), clock)
  }

  function Evaluate(e: Evidence, repo: Repository, request: Request, clock: int, commit: CommitOutcome)
    : (Repository, Result<EvaluationResult, RuntimeError>)
  {
    var prior := IdempotencyRecord(repo, request);
    if prior.Some? && prior.value.request != request then (repo, Err(IdempotencyConflict)) else
    var resolution := Resolve(e, repo, request);
    if resolution.Err? then (repo, Err(resolution.error)) else
    var found := resolution.value;
    if prior.Some? then (repo, RetryAnswer(prior.value, request, found)) else
    var history := History(repo, request.key);
    if request.expectedVersion != |history| then (repo, Err(VersionConflict)) else
    var replayed := Replay(e, repo, history);
    if replayed.Err? then (repo, Err(replayed.error)) else
    var decision := Decide(request, replayed.value);
    if decision.Err? then (repo, Err(decision.error)) else
    var again := Idempotent(repo, request.key, IdempotencyOf(request),
                            CanonicalInput(request, found, decision.value.generation));
    if again.Err? then (repo, Err(again.error)) else
    if again.value.Some? then (repo, Ok(EvaluationResult(ExistingEquivalent, again.value.value))) else
    var proposal := Proposed(found, request, decision.value, clock);
    if proposal.Err? then (repo, Err(proposal.error)) else
    Append(repo, proposal.value, request.expectedVersion, commit)
  }

  /** Whether authority applies at a time, optionally as of an earlier lineage version. */
  function Applicable(e: Evidence, repo: Repository, key: LineageKey, organization: string, workload: string, at: int,
                      through: Option<int>): Result<bool, RuntimeError>
  {
    var _ :- Need(key.organization == organization && key.workload == workload, NotFound);
    var all := History(repo, key);
    var _ :- Need(through.Some? ==> 1 <= through.value <= |all|, ReconstructionFailed);
    var history := if through.Some? then all[..through.value] else all;
    var state :- Replay(e, repo, history);
    Ok(state.terminalEvent.None? && state.authorityEvent.Some? && ApplicableAt(state.authorityEvent.value, at))
  }
}
