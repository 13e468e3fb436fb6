/** The Work Claim objects: a repository that replaces its state on append, and the service over it. */
module WorkClaimRuntime {
  import opened Foundations
  import opened RetainedEvidence
  import opened WorkClaimDomain
  import S = WorkClaimService
  import opened WorkClaimSafety
  import C = WorkClaimConcurrency

  class InMemoryWorkClaimRepository {
    var state: S.Repository

    constructor ()
      ensures state == S.EMPTY_REPOSITORY
    {
      state := S.EMPTY_REPOSITORY;
    }

    /** The only assignment that publishes; a failing commit leaves the old state in place. */
    method CommitState(replacement: S.Repository, commit: CommitOutcome) returns (outcome: Outcome<RuntimeError>)
      modifies this
      ensures commit.Committed? ==> outcome.Pass? && state == replacement
      ensures commit.CommitFailed? ==> outcome == Fail(PersistenceFailure) && state == old(state)
    {
      if commit.CommitFailed? {
        return Fail(PersistenceFailure);
      }
      state := replacement;
      return Pass;
    }

    method Append(record: Record, expectedVersion: nat, commit: CommitOutcome)
      returns (result: Result<S.EvaluationResult, RuntimeError>)
      modifies this
      ensures (state, result) == S.Append(old(state), record, expectedVersion, commit)
    {
      var lineage := record.request.key;
      var idempotencyKey := S.IdempotencyKeyOf(record);
      if idempotencyKey in state.idempotency {
        var prior := state.idempotency[idempotencyKey];
        if prior.inputContent != record.inputContent {
          return Err(IdempotencyConflict);
        }
        return Ok(S.EvaluationResult(ExistingEquivalent, prior.event));
      }
      var history := if lineage in state.streams then state.streams[lineage] else [];
      if expectedVersion != |history| || record.request.expectedVersion != expectedVersion
         || record.event.document.lineageVersion != expectedVersion + 1
      {
        return Err(VersionConflict);
      }
      if record.event.eventId in state.byId {
        return Err(IdempotencyConflict);
      }
      var streams := state.streams[lineage := history + [record]];
      var byId := state.byId[record.event.eventId := record];
      var idempotency := state.idempotency[idempotencyKey := record];
      var current := state.current[lineage := record.event];
      var committed := CommitState(S.Repository(streams, byId, idempotency, current), commit);
      if committed.Fail? {
        return Err(committed.error);
      }
      return Ok(S.EvaluationResult(Created, record.event));
    }
  }

  /** Every event identity of a replayed history, with the event replay rebuilt for it. */
  function RebuiltEvents(h: seq<Record>): map<Digest, Event> {
    if h == [] then map[]
    else RebuiltEvents(h[..|h| - 1])[h[|h| - 1].event.eventId := h[|h| - 1].event]
  }

  lemma {:induction false} RebuiltHasEvery(h: seq<Record>, i: nat)
    requires i < |h|
    requires forall a, b :: 0 <= a < |h| && 0 <= b < |h| && h[a].event.eventId == h[b].event.eventId ==> a == b
    ensures h[i].event.eventId in RebuiltEvents(h) && RebuiltEvents(h)[h[i].event.eventId] == h[i].event
  {
    if i < |h| - 1 {
      RebuiltHasEvery(h[..|h| - 1], i);
    }
  }

  /** The event answered by `reconstruct`, given that the record's lineage was replayed. */
  function Reconstruct(e: S.Evidence, repo: S.Repository, eventId: Digest, organization: string, workload: string)
    : Result<Event, RuntimeError>
  {
    if eventId !in repo.byId then Err(NotFound)
    else
      var r := repo.byId[eventId];
      if r.event.document.key.organization != organization
         || r.event.document.key.workload != workload then Err(NotFound)
      else
        var history := S.History(repo, r.request.key);
        var _ :- S.Replay(e, history);
        if eventId in RebuiltEvents(history) then Ok(RebuiltEvents(history)[eventId]) else Err(ReconstructionFailed)
  }

  /** Whenever an event is visible, in any reachable state, `reconstruct` rebuilds that very event from the evidence. */
  lemma ReconstructionSucceeds(schedule: seq<C.Action>, eventId: Digest, organization: string, workload: string)
    ensures var w := C.Run(schedule);
            Reconstruct(w.evidence, w.repo, eventId, organization, workload)
              == if || eventId !in w.repo.byId
                    || w.repo.byId[eventId].event.document.key.organization != organization
                    || w.repo.byId[eventId].event.document.key.workload != workload
                 then Err(NotFound)
                 else Ok(w.repo.byId[eventId].event)
  {
    hide S.Replay, Lineage, C.IndexesAgree;
    C.RunKeepsInvariant(schedule);
    var w := C.Run(schedule);
    if eventId in w.repo.byId {
      assert C.IdentityAgrees(w.repo, eventId) by { C.IndexesGive(w.repo, eventId); }
      var r := w.repo.byId[eventId];
      var h := S.History(w.repo, r.request.key);
      assert C.StreamReplays(w.evidence, w.repo, r.request.key);
      ReplayedLineageIsSafe(w.evidence, h);
      RebuiltHasEvery(h, r.event.document.lineageVersion - 1);
    }
  }

  class WorkClaimService {
    const dispatches: InMemoryScopedEvidenceSource<DispatchRecord>
    const claimants: InMemoryScopedEvidenceSource<ClaimantEvidence>
    const repository: InMemoryWorkClaimRepository

    ghost predicate Valid() {
      dispatches.kind == DispatchSource() && claimants.kind == ClaimantSource()
    }

    ghost function Evidence(): S.Evidence
      reads dispatches, claimants
    {
      S.Evidence(dispatches.items, claimants.items)
    }

    constructor ()
      ensures Valid() && Evidence() == S.NO_EVIDENCE && repository.state == S.EMPTY_REPOSITORY
      ensures fresh(dispatches) && fresh(claimants) && fresh(repository)
    {
      dispatches := new InMemoryScopedEvidenceSource(DispatchSource());
      claimants := new InMemoryScopedEvidenceSource(ClaimantSource());
      repository := new InMemoryWorkClaimRepository();
    }

    method Resolve(request: Request) returns (r: Result<S.Resolved, RuntimeError>)
      requires Valid()
      ensures r == S.Resolve(Evidence(), request)
    {
      var dispatch := dispatches.GetScopedItem(request.dispatchDecisionId, request.key.organization,
                                               request.key.workload);
      if dispatch.Err? {
        return Err(dispatch.error);
      }
      if dispatch.value.None? {
        return Err(EvidenceUnavailable);
      }
      var claimant := claimants.GetScopedItem(request.claimantEvidenceId, request.key.organization,
                                              request.key.workload);
      if claimant.Err? {
        return Err(claimant.error);
      }
      if claimant.value.None? {
        return Err(EvidenceUnavailable);
      }
      return S.CheckEvidence(request, dispatch.value.value, claimant.value.value);
    }

    /** The replay loop: the derived state and the rebuilt events, or the first failure. */
    method Replay(history: seq<Record>) returns (r: Result<(DerivedState, map<Digest, Event>), RuntimeError>)
      requires Valid()
      ensures S.Replay(Evidence(), history).Ok? ==>
                r == Ok((S.Replay(Evidence(), history).value, RebuiltEvents(history)))
      ensures S.Replay(Evidence(), history).Err? ==> r == Err(S.Replay(Evidence(), history).error)
    {
      hide S.ReplayRecord;
      var state := INITIAL_STATE;
      var rebuilt: map<Digest, Event> := map[];
      for i := 0 to |history|
        invariant S.Replay(Evidence(), history[..i]) == Ok(state)
        invariant rebuilt == RebuiltEvents(history[..i])
      {
        assert history[..i + 1][..i] == history[..i];
        var advanced := ReplayOne(history[0].request.key, state, history[i]);
        if advanced.Err? {
          FailedReplayFails(Evidence(), history, i + 1);
          return Err(advanced.error);
        }
        state := advanced.value;
        rebuilt := rebuilt[history[i].event.eventId := history[i].event];
      }
      assert history[..|history|] == history;
      return Ok((state, rebuilt));
    }

    method ReplayOne(key: LineageKey, state: DerivedState, r: Record)
      returns (advanced: Result<DerivedState, RuntimeError>)
      requires Valid()
      ensures advanced == S.ReplayRecord(Evidence(), key, state, r)
    {
      hide Decide, S.AdvanceState, S.Resolve, S.BuildRecord, S.CanonicalInput;
      if r.request.key != key || r.event.document.lineageId != LineageIdentity(r.request.key)
         || r.request.expectedVersion != state.lineageVersion
      {
        return Err(ReconstructionFailed);
      }
      if !S.VerifiesRecordedContent(r) {
        return Err(DigestMismatch);
      }
      var found := Resolve(r.request);
      if found.Err? {
        return Err(found.error);
      }
      var dispatch, claimant, policy := found.value.dispatch, found.value.claimant, found.value.policy;
      if S.CanonicalInput(r.request, dispatch, claimant, policy) != r.inputContent {
        return Err(DigestMismatch);
      }
      var decision := Decide(policy, r.request, dispatch, claimant, state);
      if decision.Err? {
        return Err(decision.error);
      }
      var rebuilt := S.BuildRecord(r.request, dispatch, claimant, policy, decision.value, state.lineageVersion + 1,
                                   r.idempotencyIdentity, r.event.recordedAt);
      if rebuilt.Err? {
        return Err(rebuilt.error);
      }
      if rebuilt.value != r {
        return Err(ReplayDiverged);
      }
      return S.AdvanceState(state, rebuilt.value.event);
    }

    method Evaluate(request: Request, clock: int, commit: CommitOutcome)
      returns (result: Result<S.EvaluationResult, RuntimeError>)
      requires Valid()
      modifies repository
      ensures Evidence() == old(Evidence())
      ensures (repository.state, result) == S.Evaluate(Evidence(), old(repository.state), request, clock, commit)
    {
      hide S.Replay, S.Append, S.ProposedRecord, S.Resolve, S.CanonicalInput;
      var found := Resolve(request);
      if found.Err? {
        return Err(found.error);
      }
      var input := S.CanonicalInput(request, found.value.dispatch, found.value.claimant, found.value.policy);
      var prior := S.Idempotent(repository.state, request.key, S.IdempotencyOf(request), input);
      if prior.Err? {
        return Err(prior.error);
      }
      if prior.value.Some? {
        return Ok(S.EvaluationResult(ExistingEquivalent, prior.value.value));
      }
      var history := S.History(repository.state, request.key);
      if request.expectedVersion != |history| {
        return Err(VersionConflict);
      }
      var replayed := Replay(history);
      if replayed.Err? {
        return Err(replayed.error);
      }
      var proposal := S.ProposedRecord(found.value, request, replayed.value.0, clock);
      if proposal.Err? {
        return Err(proposal.error);
      }
      result := repository.Append(proposal.value, request.expectedVersion, commit);
    }
  }
}
