/** The Execution Lease objects: a repository that replaces its state on append, and the service over it. */
module ExecutionLeaseRuntime {
  import opened Foundations
  import opened RetainedEvidence
  import opened ExecutionLeaseDomain
  import S = ExecutionLeaseService
  import Safety = ExecutionLeaseSafety

  class InMemoryExecutionLeaseRepository {
    var state: S.Repository

    constructor ()
      ensures state == S.EMPTY_REPOSITORY
    {
      state := S.EMPTY_REPOSITORY;
    }

    /** The only assignment that publishes; a failing commit leaves the old state in place. */
    method CommitState(replacement: S.Repository, commit: CommitOutcome) returns (outcome: Outcome<RuntimeError>)
      modifies this
      ensures commit.Committed? ==> outcome.Pass? && state == replacement
      ensures commit.CommitFailed? ==> outcome == Fail(PersistenceFailure) && state == old(state)
    {
      if commit.CommitFailed? {
        return Fail(PersistenceFailure);
      }
      state := replacement;
      return Pass;
    }

    method Append(record: Record, expectedVersion: nat, commit: CommitOutcome)
      returns (result: Result<S.EvaluationResult, RuntimeError>)
      modifies this
      ensures (state, result) == S.Append(old(state), record, expectedVersion, commit)
    {
      var lineage := record.request.key;
      var idempotencyKey := S.IdempotencyKeyOf(record);
      if idempotencyKey in state.idempotency {
        var prior := state.idempotency[idempotencyKey];
        if prior.inputContent != record.inputContent {
          return Err(IdempotencyConflict);
        }
        return Ok(S.EvaluationResult(ExistingEquivalent, prior.event));
      }
      var history := if lineage in state.streams then state.streams[lineage] else [];
      if expectedVersion != |history| || record.request.expectedVersion != expectedVersion
         || record.event.document.lineageVersion != expectedVersion + 1
      {
        return Err(VersionConflict);
      }
      if record.event.eventId in state.byId {
        return Err(IdempotencyConflict);
      }
      var streams := state.streams[lineage := history + [record]];
      var byId := state.byId[record.event.eventId := record];
      var idempotency := state.idempotency[idempotencyKey := record];
      var current := state.current[lineage := record.event];
      var committed := CommitState(S.Repository(streams, byId, idempotency, current), commit);
      if committed.Fail? {
        return Err(committed.error);
      }
      return Ok(S.EvaluationResult(Created, record.event));
    }
  }

  class ExecutionLeaseService {
    const authorizations: InMemoryScopedEvidenceSource<AuthorizationEvidence>
    const revocations: InMemoryScopedEvidenceSource<RevocationEvidence>
    const repository: InMemoryExecutionLeaseRepository

    ghost predicate Valid() {
      authorizations.kind == AuthorizationSource() && revocations.kind == RevocationSource()
    }

    ghost function Evidence(): S.Evidence
      reads authorizations, revocations
    {
      S.Evidence(authorizations.items, revocations.items)
    }

    constructor ()
      ensures Valid() && Evidence() == S.NO_EVIDENCE && repository.state == S.EMPTY_REPOSITORY
      ensures fresh(authorizations) && fresh(revocations) && fresh(repository)
    {
      authorizations := new InMemoryScopedEvidenceSource(AuthorizationSource());
      revocations := new InMemoryScopedEvidenceSource(RevocationSource());
      repository := new InMemoryExecutionLeaseRepository();
    }

    method Resolve(request: Request) returns (r: Result<S.Resolved, RuntimeError>)
      requires Valid()
      ensures r == S.Resolve(Evidence(), repository.state, request)
    {
      hide S.CheckAuthorization, ValidateAuthorization, ValidateRevocation;
      var authorization: Option<AuthorizationEvidence> := None;
      if request.authorizationId.Some? {
        var found := authorizations.GetScopedItem(request.authorizationId.value, request.key.organization,
                                                  request.key.workload);
        if found.Err? {
          return Err(found.error);
        }
        if found.value.None? {
          return Err(EvidenceUnavailable);
        }
        var checked := S.CheckAuthorization(request, found.value.value);
        if checked.Fail? {
          return Err(checked.error);
        }
        authorization := found.value;
      }
      if request.revocationId.Some? {
        var failure := FailRevocation(request, request.revocationId.value);
        return Err(failure);
      }
      var policy := PolicyFor(request.policyId, request.policyVersion, request.policyDigest);
      if policy.Err? {
        return Err(policy.error);
      }
      return Ok(S.Resolved(authorization, None, policy.value));
    }

    method FailRevocation(request: Request, id: string) returns (failure: RuntimeError)
      requires Valid()
      ensures failure == S.RevocationFailure(Evidence(), repository.state, request, id)
    {
      var found := revocations.GetScopedItem(id, request.key.organization, request.key.workload);
      if found.Err? {
        return found.error;
      }
      if found.value.None? {
        return EvidenceUnavailable;
      }
      var revocation := found.value.value;
      var r := revocation.document;
      if Some(revocation.digest) != request.revocationDigest {
        return DigestMismatch;
      }
      if || r.plan != request.key.plan || r.workItem != request.key.workItem
         || r.permissionFamily != request.key.permissionFamily
         || r.effectiveAt != request.effectiveAt
         || request.priorEventId != Some(r.targetEventId)
      {
        return Invalid;
      }
      if r.targetEventId !in repository.state.byId
         || repository.state.byId[r.targetEventId].event.document.leaseId != r.targetLeaseId
      {
        return Invalid;
      }
      return IllegalTransition;
    }

    /** The replay loop: the derived state, or the first failure. */
    method Replay(history: seq<Record>) returns (r: Result<DerivedState, RuntimeError>)
      requires Valid()
      ensures r == S.Replay(Evidence(), repository.state, history)
    {
      hide S.ReplayRecord;
      var state := INITIAL_STATE;
      for i := 0 to |history|
        invariant S.Replay(Evidence(), repository.state, history[..i]) == Ok(state)
      {
        assert history[..i + 1][..i] == history[..i];
        var advanced := ReplayOne(history[0].request.key, state, history[i]);
        if advanced.Err? {
          Safety.FailedReplayFails(Evidence(), repository.state, history, i + 1);
          return Err(advanced.error);
        }
        state := advanced.value;
      }
      assert history[..|history|] == history;
      return Ok(state);
    }

    method ReplayOne(key: LineageKey, state: DerivedState, r: Record)
      returns (advanced: Result<DerivedState, RuntimeError>)
      requires Valid()
      ensures advanced == S.ReplayRecord(Evidence(), repository.state, key, state, r)
    {
      hide Decide, S.AdvanceState, S.Resolve, S.BuildRecord, S.CanonicalInput;
      if r.request.key != key || r.event.document.lineageId != LineageIdentity(r.request.key)
         || r.request.expectedVersion != state.lineageVersion
      {
        return Err(ReconstructionFailed);
      }
      if !S.VerifiesRecordedContent(r) {
        return Err(DigestMismatch);
      }
      var found := Resolve(r.request);
      if found.Err? {
        return Err(found.error);
      }
      var decision := Decide(r.request, state);
      if decision.Err? {
        return Err(decision.error);
      }
      if S.CanonicalInput(r.request, found.value, decision.value.generation) != r.inputContent {
        return Err(DigestMismatch);
      }
      var rebuilt := S.BuildRecord(r.request, found.value, decision.value, state.lineageVersion + 1,
                                   r.idempotencyIdentity,
                                   r.event.recordedAt);
      if rebuilt.Err? {
        return Err(rebuilt.error);
      }
      if rebuilt.value != r {
        return Err(ReplayDiverged);
      }
      return S.AdvanceState(state, rebuilt.value.event);
    }

    method Evaluate(request: Request, clock: int, commit: CommitOutcome)
      returns (result: Result<S.EvaluationResult, RuntimeError>)
      requires Valid()
      modifies repository
      ensures Evidence() == old(Evidence())
      ensures (repository.state, result) == S.Evaluate(Evidence(), old(repository.state), request, clock, commit)
    {
      hide S.Replay, S.Append, S.Proposed, S.Resolve, S.CanonicalInput, Decide, S.RetryAnswer;
      var prior := S.IdempotencyRecord(repository.state, request);
      if prior.Some? && prior.value.request != request {
        return Err(IdempotencyConflict);
      }
      var found := Resolve(request);
      if found.Err? {
        return Err(found.error);
      }
      if prior.Some? {
        return S.RetryAnswer(prior.value, request, found.value);
      }
      var history := S.History(repository.state, request.key);
      if request.expectedVersion != |history| {
        return Err(VersionConflict);
      }
      var replayed := Replay(history);
      if replayed.Err? {
        return Err(replayed.error);
      }
      var decision := Decide(request, replayed.value);
      if decision.Err? {
        return Err(decision.error);
      }
      var input := S.CanonicalInput(request, found.value, decision.value.generation);
      var again := S.Idempotent(repository.state, request.key, S.IdempotencyOf(request), input);
      if again.Err? {
        return Err(again.error);
      }
      if again.value.Some? {
        return Ok(S.EvaluationResult(ExistingEquivalent, again.value.value));
      }
      var proposal := S.Proposed(found.value, request, decision.value, clock);
      if proposal.Err? {
        return Err(proposal.error);
      }
      result := repository.Append(proposal.value, request.expectedVersion, commit);
    }

    method Applicable(key: LineageKey, organization: string, workload: string, at: int, through: Option<int>)
      returns (r: Result<bool, RuntimeError>)
      requires Valid()
      ensures r == S.Applicable(Evidence(), repository.state, key, organization, workload, at, through)
    {
      hide S.Replay;
      if key.organization != organization || key.workload != workload {
        return Err(NotFound);
      }
      var history := S.History(repository.state, key);
      if through.Some? {
        if through.value < 1 || through.value > |history| {
          return Err(ReconstructionFailed);
        }
        history := history[..through.value];
      }
      var replayed := Replay(history);
      if replayed.Err? {
        return Err(replayed.error);
      }
      var state := replayed.value;
      return Ok(state.terminalEvent.None? && state.authorityEvent.Some?
                && ApplicableAt(state.authorityEvent.value, at));
    }
  }
}
