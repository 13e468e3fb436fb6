/** What a Work Claim evaluation does, said of the retained evidence and the events before it rather than of the policy
    and the derived state that compute it. */
module WorkClaimMeaning {
  import opened Foundations
  import opened RetainedEvidence
  import opened WorkClaimDomain
  import opened WorkClaimService
  import opened WorkClaimSafety
  import opened WorkClaimConcurrency
  import opened WorkClaimTheorems

  // ---- the evidence a request rests on -------------------------------------

  /** Both artifacts are retained in the request's organization and workload. */
  predicate Found(e: Evidence, q: Request) {
    && q.dispatchDecisionId in e.dispatches
    && e.dispatches[q.dispatchDecisionId].organization == q.key.organization
    && e.dispatches[q.dispatchDecisionId].workload == q.key.workload
    && q.claimantEvidenceId in e.claimants
    && e.claimants[q.claimantEvidenceId].document.organization == q.key.organization
    && e.claimants[q.claimantEvidenceId].document.workload == q.key.workload
  }

  function DispatchOf(e: Evidence, q: Request): DispatchRecord
    requires Found(e, q)
  {
    e.dispatches[q.dispatchDecisionId]
  }

  function ClaimantOf(e: Evidence, q: Request): ClaimantDocument
    requires Found(e, q)
  {
    e.claimants[q.claimantEvidenceId].document
  }

  /** The digests the request names are those of the retained artifacts. */
  predicate DigestsAgree(e: Evidence, q: Request)
    requires Found(e, q)
  {
    && q.dispatchDecisionDigest == DispatchDecisionDigest(DispatchOf(e, q).decisionContent)
    && q.claimantEvidenceDigest == ClaimantDigest(ClaimantOf(e, q))
  }

  /** The dispatch decision is approved and is for this plan, work item, candidate and boundary; the claimant evidence
      is effective at the semantic time. */
  predicate Applies(e: Evidence, q: Request)
    requires Found(e, q)
  {
    && DispatchOf(e, q).approved
    && DispatchOf(e, q).planId == q.key.plan && DispatchOf(e, q).workItemId == q.key.workItem
    && DispatchOf(e, q).selectedCandidateId == q.selectedCandidateId
    && DispatchOf(e, q).historyBoundary == q.evidenceBoundary
    && ClaimantOf(e, q).effectiveAt <= q.semanticAt <= ClaimantOf(e, q).expiresAt
  }

  /** The one registered policy, by identity and version. */
  predicate NamesPolicy(q: Request) {
    q.policyId == "work-claim-policy" && q.policyVersion == "work-claim-policy.v1"
  }

  function RegisteredDigest(): Digest {
    PolicyDigest("work-claim-policy", "work-claim-policy.v1", 300)
  }

  predicate Supported(e: Evidence, q: Request) {
    Found(e, q) && DigestsAgree(e, q) && Applies(e, q) && NamesPolicy(q) && q.policyDigest == RegisteredDigest()
  }

  /** The artifacts under a request's identities are intact: the checks made when they were retained still hold. */
  lemma RetainedIsIntact(e: Evidence, q: Request)
    requires ValidEvidence(e) && Found(e, q)
    ensures var d, c := DispatchOf(e, q), e.claimants[q.claimantEvidenceId];
            && d.decisionId == q.dispatchDecisionId && d.approved
            && d.inputDigest == DispatchInputDigest(d.inputContent)
            && d.decisionDigest == DispatchDecisionDigest(d.decisionContent)
            && c.document.evidenceId == q.claimantEvidenceId
            && c.content == c.document && c.digest == ClaimantDigest(c.document)
            && c.document.claimantId != "" && c.document.selectedCandidateId != ""
            && c.document.effectiveAt <= c.document.expiresAt
            && c.document.schemaVersion == "claimant-evidence.v1"
            && c.document.producerVersion == "claimant-evidence.producer.v1"
  {
    var d, c := DispatchOf(e, q), e.claimants[q.claimantEvidenceId];
    assert DispatchSource().validator(d).Pass? && ClaimantSource().validator(c).Pass?;
    assert DispatchSource().identity(d) == d.decisionId && ClaimantSource().identity(c) == c.document.evidenceId;
  }

  /** The artifacts are the ones the request names. */
  predicate NamedBy(q: Request, d: DispatchRecord, c: ClaimantEvidence) {
    d.decisionDigest == q.dispatchDecisionDigest && c.digest == q.claimantEvidenceDigest
  }

  predicate AppliesTo(q: Request, d: DispatchRecord, c: ClaimantDocument) {
    && d.approved && [d.planId, d.workItemId] == [q.key.plan, q.key.workItem]
    && [d.selectedCandidateId, d.historyBoundary] == [q.selectedCandidateId, q.evidenceBoundary]
    && c.effectiveAt <= q.semanticAt <= c.expiresAt
  }

  /** The checks on any two artifacts, retained or not. */
  lemma CheckMeaning(q: Request, d: DispatchRecord, c: ClaimantEvidence)
    ensures var checked, applies := CheckEvidence(q, d, c), AppliesTo(q, d, c.document);
            && (checked == Err(DigestMismatch) <==>
                  !NamedBy(q, d, c) || (applies && NamesPolicy(q) && q.policyDigest != RegisteredDigest()))
            && (checked == Err(Invalid) <==> NamedBy(q, d, c) && !applies)
            && (checked == Err(VersionUnsupported) <==> NamedBy(q, d, c) && applies && !NamesPolicy(q))
            && (checked.Ok? <==> NamedBy(q, d, c) && applies && NamesPolicy(q) && q.policyDigest == RegisteredDigest())
  {
  }

  /** When the evidence supports a request, and which error tells what is wrong with it. */
  lemma ResolutionMeaning(e: Evidence, q: Request)
    requires ValidEvidence(e)
    ensures Resolve(e, q) == Err(EvidenceUnavailable) <==> !Found(e, q)
    ensures Resolve(e, q) == Err(DigestMismatch) <==>
              (&& Found(e, q)
               && (!DigestsAgree(e, q) || (Applies(e, q) && NamesPolicy(q) && q.policyDigest != RegisteredDigest())))
    ensures Resolve(e, q) == Err(Invalid) <==> Found(e, q) && DigestsAgree(e, q) && !Applies(e, q)
    ensures Resolve(e, q) == Err(VersionUnsupported) <==>
              Found(e, q) && DigestsAgree(e, q) && Applies(e, q) && !NamesPolicy(q)
    ensures Resolve(e, q).Ok? <==> Supported(e, q)
    ensures Resolve(e, q).Ok? ==>
              var found := Resolve(e, q).value;
              && found.dispatch == e.dispatches[q.dispatchDecisionId]
              && found.claimant == e.claimants[q.claimantEvidenceId]
              && found.policy == Policy("work-claim-policy", "work-claim-policy.v1", 300, RegisteredDigest())
  {
    ScopedLookup(DispatchSource(), e.dispatches, q.dispatchDecisionId, q.key.organization, q.key.workload);
    ScopedLookup(ClaimantSource(), e.claimants, q.claimantEvidenceId, q.key.organization, q.key.workload);
    if Found(e, q) {
      RetainedIsIntact(e, q);
    }
  }

  // ---- the event that decides what may come next ---------------------------

  /** The latest event that is not a rejection. */
  function LastChange(h: seq<Record>): Option<Event> {
    if h == [] then None
    else if h[|h| - 1].event.document.eventType.ClaimRejected? then LastChange(h[..|h| - 1])
    else Some(h[|h| - 1].event)
  }

  predicate Ended(event: Event) {
    event.document.eventType.ClaimExpired? || event.document.eventType.ClaimReleased?
  }

  /** A claim is held: it was accepted and nothing but rejections came after. */
  predicate Held(h: seq<Record>) {
    LastChange(h).Some? && LastChange(h).value.document.eventType.ClaimAccepted?
  }

  /** The history allows the request. */
  predicate Legal(h: seq<Record>, q: Request, dispatch: DispatchRecord, claimant: ClaimantDocument) {
    var last := LastChange(h);
    && (h != [] ==> h[|h| - 1].event.document.semanticAt <= q.semanticAt)
    && match q.operation
       case CreateGeneration => h == [] || (last.Some? && Ended(last.value))
       case Claim => last.Some? && !Ended(last.value)
       case Expire =>
         && Held(h)
         && q.dispatchDecisionId == last.value.document.dispatchReference.artifactId
         && last.value.document.semanticAt + 300 <= q.semanticAt
       case Release =>
         && Held(h)
         && q.dispatchDecisionId == last.value.document.dispatchReference.artifactId
         && claimant.claimantId == last.value.document.claimantId
         && claimant.selectedCandidateId == dispatch.selectedCandidateId
         && claimant.selectedCandidateId == last.value.document.selectedCandidateId
  }

  /** The derived state against the latest change of the history. */
  ghost predicate Tracks(h: seq<Record>, s: DerivedState) {
    && Cause(s) == LastChange(h) && Coherent(s)
    && (h == [] <==> s.generationEvent.None?) && (h == [] <==> s.lineageVersion == 0)
    && s.lastEvent == (if h == [] then None else Some(h[|h| - 1].event))
    && (s.generationEvent.Some? ==> s.generationEvent.value.document.eventType.GenerationCreated?)
    && (s.acceptedEvent.Some? ==>
          && s.acceptedEvent.value.document.eventType.ClaimAccepted?
          && s.acceptedEvent.value.document.expiresAt == Some(s.acceptedEvent.value.document.semanticAt + CLAIM_TTL))
    && (s.endedEvent.Some? ==> Ended(s.endedEvent.value))
  }

  lemma TracksStep(h: seq<Record>, r: Record, s: DerivedState, s': DerivedState)
    requires Tracks(h, s) && AdvanceState(s, r.event) == Ok(s') && Step(s, r.event, s')
    ensures Tracks(h + [r], s')
  {
    assert (h + [r])[..|h|] == h;
  }

  lemma {:induction false} ReplayTracks(e: Evidence, h: seq<Record>)
    requires Replay(e, h).Ok?
    ensures Tracks(h, Replay(e, h).value)
  {
    hide ReplayRecord, Tracks, Decided, AdvanceState, Step;
    if h == [] {
      NothingTracked(h);
    } else {
      var n := |h| - 1;
      ReplayTracks(e, h[..n]);
      var found, decision := AdmittedRecord(e, h[0].request.key, Replay(e, h[..n]).value, h[n]);
      LastStep(e, h, n);
      assert h[..n] + [h[n]] == h;
      TracksStep(h[..n], h[n], Replay(e, h[..n]).value, Replay(e, h).value);
    }
  }

  lemma NothingTracked(h: seq<Record>)
    requires h == []
    ensures Tracks(h, INITIAL_STATE)
  {
  }

  /** What replay lets an event do to any state whatever. */
  predicate Advances(s: DerivedState, d: EventDocument) {
    && d.lineageVersion == s.lineageVersion + 1
    && (d.eventType.GenerationCreated? ==>
          d.generation == s.currentGeneration + 1 && (s.currentGeneration == 0 || s.endedEvent.Some?))
    && (!d.eventType.GenerationCreated? ==>
          d.generation == s.currentGeneration && s.generationEvent.Some? && s.endedEvent.None?)
    && (d.eventType.ClaimAccepted? ==> s.acceptedEvent.None? && d.fence == Some(s.latestFence + 1))
    && (d.eventType.ClaimRejected? || d.eventType.ClaimExpired? || d.eventType.ClaimReleased? ==> d.fence.None?)
    && (d.eventType.ClaimExpired? || d.eventType.ClaimReleased? ==>
          s.acceptedEvent.Some? && d.causalEventId == Some(s.acceptedEvent.value.eventId))
  }

  /** An event advances a state exactly when it may; the new state remembers it in the place of its type. */
  lemma AdvanceMeaning(s: DerivedState, event: Event)
    ensures AdvanceState(s, event).Ok? <==> Advances(s, event.document)
    ensures AdvanceState(s, event).Err? ==> AdvanceState(s, event) == Err(ReconstructionFailed)
    ensures AdvanceState(s, event).Ok? ==>
              var d, s' := event.document, AdvanceState(s, event).value;
              var created, accepted := d.eventType.GenerationCreated?, d.eventType.ClaimAccepted?;
              && s'.lineageVersion == s.lineageVersion + 1 && s'.lastEvent == Some(event)
              && s'.currentGeneration == s.currentGeneration + (if created then 1 else 0)
              && s'.latestFence == s.latestFence + (if accepted then 1 else 0)
              && s'.generationEvent == (if created then Some(event) else s.generationEvent)
              && s'.acceptedEvent == (if created then None else if accepted then Some(event) else s.acceptedEvent)
              && s'.endedEvent == (if Ended(event) then Some(event) else None)
  {
  }

  // ---- the decision --------------------------------------------------------

  predicate Matches(dispatch: DispatchRecord, claimant: ClaimantDocument) {
    claimant.selectedCandidateId == dispatch.selectedCandidateId
  }

  /** What each operation leads to. A claim is accepted exactly when none is held and the claimant is the selected
      candidate; a rejection says which of the two failed. */
  predicate Fitting(h: seq<Record>, q: Request, dispatch: DispatchRecord, claimant: ClaimantDocument, t: EventType,
                    reason: ReasonCode)
  {
    && (t.GenerationCreated? <==> q.operation.CreateGeneration?)
    && (t.ClaimAccepted? <==> q.operation.Claim? && !Held(h) && Matches(dispatch, claimant))
    && (t.ClaimRejected? <==> q.operation.Claim? && (Held(h) || !Matches(dispatch, claimant)))
    && (t.ClaimExpired? <==> q.operation.Expire?)
    && (t.ClaimReleased? <==> q.operation.Release?)
    && (reason.ACTIVE_CLAIM_EXISTS? <==> q.operation.Claim? && Held(h))
    && (reason.CLAIMANT_NOT_SELECTED_CANDIDATE? <==> q.operation.Claim? && !Held(h) && !Matches(dispatch, claimant))
    && (reason.GENERATION_CREATED? <==> t.GenerationCreated?)
    && (reason.CLAIM_ACCEPTED? <==> t.ClaimAccepted?)
    && (reason.CLAIM_EXPIRED? <==> t.ClaimExpired?)
    && (reason.CLAIM_RELEASED? <==> t.ClaimReleased?)
  }

  /** The policy decides a request exactly when the history allows it, and decides what fits. */
  lemma DecisionMeaning(h: seq<Record>, s: DerivedState, policy: Policy, q: Request, dispatch: DispatchRecord,
                        claimant: ClaimantEvidence)
    requires Tracks(h, s) && Describes(h, s) && dispatch.selectedCandidateId == q.selectedCandidateId
    ensures Decide(policy, q, dispatch, claimant, s).Ok? <==> Legal(h, q, dispatch, claimant.document)
    ensures Decide(policy, q, dispatch, claimant, s).Err? ==>
              Decide(policy, q, dispatch, claimant, s) == Err(IllegalTransition)
    ensures Decide(policy, q, dispatch, claimant, s).Ok? ==>
              var d := Decide(policy, q, dispatch, claimant, s).value;
              && Fitting(h, q, dispatch, claimant.document, d.eventType, d.reason)
              && d.generation == Generations(h) + (if q.operation.CreateGeneration? then 1 else 0)
              && d.fence == (if d.eventType.ClaimAccepted? then Some(Acceptances(h) + 1) else None)
              && d.expiresAfter == (if d.eventType.ClaimAccepted? then Some(policy.claimTtl) else None)
              && d.causalEventId == (if LastChange(h).None? then None else Some(LastChange(h).value.eventId))
  {
    hide LastChange, CountIn, CountOf;
  }

  // ---- the record of an event ----------------------------------------------

  /** Every field of the record that extends `h`, told from the retained evidence, the request and the earlier
      events. */
  ghost predicate RecordFits(e: Evidence, h: seq<Record>, r: Record) {
    var q, d := r.request, r.event.document;
    && Supported(e, q)
    && var dispatch, claimant := DispatchOf(e, q), ClaimantOf(e, q);
    && q.expectedVersion == |h| && Legal(h, q, dispatch, claimant)
    && Fitting(h, q, dispatch, claimant, d.eventType, d.reason)
    && d.generation == Generations(h) + (if q.operation.CreateGeneration? then 1 else 0)
    && d.fence == (if d.eventType.ClaimAccepted? then Some(Acceptances(h) + 1) else None)
    && d.expiresAt == (if d.eventType.ClaimAccepted? then Some(q.semanticAt + 300) else None)
    && d.causalEventId == (if LastChange(h).None? then None else Some(LastChange(h).value.eventId))
    && d.lineageVersion == |h| + 1 && d.key == q.key && d.lineageId == LineageIdentity(q.key)
    && d.semanticAt == q.semanticAt && d.selectedCandidateId == q.selectedCandidateId
    && d.releaseReason == q.releaseReason && d.evidenceBoundary == q.evidenceBoundary && d.provenance == q.provenance
    && d.dispatchReference == EvidenceReference(q.dispatchDecisionId, q.dispatchDecisionDigest)
    && d.claimantReference == EvidenceReference(q.claimantEvidenceId, q.claimantEvidenceDigest)
    && d.claimantId == claimant.claimantId
    && d.policyReference == EvidenceReference(q.policyId, q.policyDigest) && d.policyVersion == q.policyVersion
    && d.idempotencyIdentity == r.idempotencyIdentity && d.inputDigest == InputDigest(r.inputContent)
    && r.eventContent == d && r.event.eventDigest == EventDigest(d)
    && r.event.eventId == EventIdentity(EventDigest(d), LineageIdentity(q.key), |h| + 1)
    && InputFits(e, q, r.inputContent)
  }

  /** The canonical input holds the request's fields and what identifies its evidence. */
  ghost predicate InputFits(e: Evidence, q: Request, input: InputDocument)
    requires Found(e, q)
  {
    var dispatch, claimant := DispatchOf(e, q), ClaimantOf(e, q);
    && input.policy == Policy(q.policyId, q.policyVersion, 300, q.policyDigest)
    && input.operation == q.operation && input.key == q.key && input.expectedVersion == q.expectedVersion
    && input.semanticAt == q.semanticAt && input.selectedCandidateId == q.selectedCandidateId
    && input.releaseReason == q.releaseReason && input.evidenceBoundary == q.evidenceBoundary
    && input.provenance == q.provenance
    && input.dispatch == DispatchInput(q.dispatchDecisionDigest, DispatchInputDigest(dispatch.inputContent),
                                       q.dispatchDecisionId, dispatch.policyVersion, dispatch.historyBoundary, true,
                                       dispatch.streamVersion)
    && input.claimant == ClaimantInput(claimant.authenticationBoundary, q.claimantEvidenceDigest, claimant.claimantId,
                                       claimant.effectiveAt, q.claimantEvidenceId, claimant.expiresAt,
                                       "claimant-evidence.producer.v1", "claimant-evidence.v1",
                                       claimant.selectedCandidateId)
  }

  lemma BuiltFits(e: Evidence, h: seq<Record>, q: Request, found: Resolved, decision: Decision, identity: Digest,
                  clock: int, r: Record)
    requires ValidEvidence(e) && Supported(e, q) && q.expectedVersion == |h|
    requires found == Resolved(e.dispatches[q.dispatchDecisionId], e.claimants[q.claimantEvidenceId],
                               Policy("work-claim-policy", "work-claim-policy.v1", 300, RegisteredDigest()))
    requires Legal(h, q, found.dispatch, found.claimant.document)
    requires Fitting(h, q, found.dispatch, found.claimant.document, decision.eventType, decision.reason)
    requires decision.generation == Generations(h) + (if q.operation.CreateGeneration? then 1 else 0)
    requires decision.fence == (if decision.eventType.ClaimAccepted? then Some(Acceptances(h) + 1) else None)
    requires decision.expiresAfter == (if decision.eventType.ClaimAccepted? then Some(300) else None)
    requires decision.causalEventId == (if LastChange(h).None? then None else Some(LastChange(h).value.eventId))
    requires BuildRecord(q, found.dispatch, found.claimant, found.policy, decision, |h| + 1, identity, clock) == Ok(r)
    ensures RecordFits(e, h, r) && r.request == q && r.event.recordedAt == clock && r.idempotencyIdentity == identity
  {
    hide Legal, Fitting, LastChange, ValidEvidence, WellFormedEvent, CountOf;
    RetainedIsIntact(e, q);
  }

  /** On a replayed history the proposal exists exactly when the history allows the request, and it fits. */
  lemma ProposalMeaning(e: Evidence, h: seq<Record>, q: Request, clock: int)
    requires ValidEvidence(e) && Replay(e, h).Ok? && ValidRequest(q) && Supported(e, q) && q.expectedVersion == |h|
    ensures Resolve(e, q).Ok?
    ensures var proposal := ProposedRecord(Resolve(e, q).value, q, Replay(e, h).value, clock);
            && (proposal.Ok? <==> Legal(h, q, DispatchOf(e, q), ClaimantOf(e, q)))
            && (proposal.Err? ==> proposal == Err(IllegalTransition))
            && (proposal.Ok? ==>
                  && RecordFits(e, h, proposal.value) && proposal.value.request == q
                  && proposal.value.event.recordedAt == clock
                  && proposal.value.idempotencyIdentity == IdempotencyIdentity(q.operation, q.key, q.idempotencyKey))
  {
    hide Replay, Decide, Legal, Fitting, Describes, Tracks, GenerationLaw, Resolve, AdvanceState, Coherent, RecordFits,
         ValidEvidence, ValidRequest, BuildRecord;
    var s := Replay(e, h).value;
    ResolutionMeaning(e, q);
    ReplayTracks(e, h);
    ReplayDescribes(e, h);
    ReplayedIsCoherent(e, h);
    var found := Resolve(e, q).value;
    DecisionMeaning(h, s, found.policy, q, found.dispatch, found.claimant);
    var decision := Decide(found.policy, q, found.dispatch, found.claimant, s);
    if decision.Ok? {
      DecisionIsAccepted(e, q, found, s, decision.value, IdempotencyOf(q), clock);
      var built := BuildRecord(q, found.dispatch, found.claimant, found.policy, decision.value, |h| + 1,
                               IdempotencyOf(q), clock);
      BuiltFits(e, h, q, found, decision.value, IdempotencyOf(q), clock, built.value);
    }
  }

  /** Request, identity and recording time leave one record that fits a history. */
  lemma OneRecordFits(e: Evidence, h: seq<Record>, r: Record, r': Record)
    requires RecordFits(e, h, r) && RecordFits(e, h, r') && r.request == r'.request
    requires r.idempotencyIdentity == r'.idempotencyIdentity && r.event.recordedAt == r'.event.recordedAt
    ensures r == r'
  {
    hide Supported, Legal, LastChange, Held, CountOf;
    assert r.inputContent == r'.inputContent;
    assert r.event.document == r'.event.document by {
      assert r.event.document.eventType == r'.event.document.eventType;
      assert r.event.document.reason == r'.event.document.reason;
    }
  }

  // ---- what replay accepts -------------------------------------------------

  /** Replay admits a record after a replayed history exactly when it fits the history. */
  lemma AdmissionMeaning(e: Evidence, h: seq<Record>, key: LineageKey, r: Record)
    requires ValidEvidence(e) && Replay(e, h).Ok? && ValidRequest(r.request)
    ensures ReplayRecord(e, key, Replay(e, h).value, r).Ok? <==> r.request.key == key && RecordFits(e, h, r)
  {
    hide Replay, Decide, Legal, Fitting, Describes, Tracks, GenerationLaw, Resolve, AdvanceState, Coherent, RecordFits,
         ValidEvidence, ValidRequest, BuildRecord, CanonicalInput;
    var s, q := Replay(e, h).value, r.request;
    ResolutionMeaning(e, q);
    ReplayTracks(e, h);
    ReplayDescribes(e, h);
    ReplayedIsCoherent(e, h);
    if Resolve(e, q).Ok? && q.expectedVersion == |h| {
      var found := Resolve(e, q).value;
      DecisionMeaning(h, s, found.policy, q, found.dispatch, found.claimant);
      var decision := Decide(found.policy, q, found.dispatch, found.claimant, s);
      if decision.Ok? {
        DecisionIsAccepted(e, q, found, s, decision.value, r.idempotencyIdentity, r.event.recordedAt);
        var built := BuildRecord(q, found.dispatch, found.claimant, found.policy, decision.value, |h| + 1,
                                 r.idempotencyIdentity, r.event.recordedAt).value;
        BuiltFits(e, h, q, found, decision.value, r.idempotencyIdentity, r.event.recordedAt, built);
        RecordChecks(e, h, built, found);
        if RecordFits(e, h, r) {
          OneRecordFits(e, h, r, built);
        }
      }
    }
    if RecordFits(e, h, r) {
      FittingIsAllowed(e, h, r);
    }
  }

  lemma FittingIsAllowed(e: Evidence, h: seq<Record>, r: Record)
    requires RecordFits(e, h, r)
    ensures Supported(e, r.request) && r.request.expectedVersion == |h|
    ensures Legal(h, r.request, DispatchOf(e, r.request), ClaimantOf(e, r.request))
  {
    hide Legal, Fitting, InputFits;
  }

  lemma RecordChecks(e: Evidence, h: seq<Record>, r: Record, found: Resolved)
    requires ValidEvidence(e) && RecordFits(e, h, r) && Resolve(e, r.request) == Ok(found)
    ensures r.event.document.lineageId == LineageIdentity(r.request.key) && VerifiesRecordedContent(r)
    ensures CanonicalInput(r.request, found.dispatch, found.claimant, found.policy) == r.inputContent
  {
    hide Legal, Fitting, Resolve, ValidEvidence, LastChange, CountOf;
    ResolutionMeaning(e, r.request);
    RetainedIsIntact(e, r.request);
  }

  ghost predicate EachFits(e: Evidence, h: seq<Record>) {
    forall i {:trigger h[i]} :: 0 <= i < |h| ==> h[i].request.key == h[0].request.key && RecordFits(e, h[..i], h[i])
  }

  /** Replay accepts a history exactly when every record fits the records before it: a record with any field altered,
      in its event, its content or its input, is refused. */
  lemma {:induction false} ReplayMeaning(e: Evidence, h: seq<Record>)
    requires ValidEvidence(e) && forall i :: 0 <= i < |h| ==> ValidRequest(h[i].request)
    ensures Replay(e, h).Ok? <==> EachFits(e, h)
  {
    hide ReplayRecord, RecordFits, ValidRequest, ValidEvidence;
    if h != [] {
      var n := |h| - 1;
      ReplayMeaning(e, h[..n]);
      if EachFits(e, h) {
        forall i | 0 <= i < n ensures h[..n][i].request.key == h[..n][0].request.key
                                      && RecordFits(e, h[..n][..i], h[..n][i]) {
          assert h[..n][i] == h[i] && h[..n][0] == h[0] && h[..n][..i] == h[..i];
        }
      }
      if Replay(e, h[..n]).Ok? {
        AdmissionMeaning(e, h[..n], h[0].request.key, h[n]);
        if Replay(e, h).Ok? {
          forall i | 0 <= i < |h| ensures h[i].request.key == h[0].request.key && RecordFits(e, h[..i], h[i]) {
            if i < n {
              assert h[..n][i] == h[i] && h[..n][0] == h[0] && h[..n][..i] == h[..i];
            }
          }
        }
      }
    }
  }

  // ---- every reachable lineage, every evaluation ---------------------------

  /** Every event of every reachable lineage is the lawful successor of the events before it, field by field, on the
      evidence that is retained. */
  lemma EveryEventIsLawful(schedule: seq<Action>, k: LineageKey, i: nat)
    requires i < |History(Run(schedule).repo, k)|
    ensures var w := Run(schedule); var h := History(w.repo, k);
            && h[i].request.key == k && ValidRequest(h[i].request) && RecordFits(w.evidence, h[..i], h[i])
            && h[i].idempotencyIdentity == IdempotencyIdentity(h[i].request.operation, k, h[i].request.idempotencyKey)
  {
    hide Replay, Run, RecordFits, GenerationLaw, FencingLaw, ExclusionLaw, CausationLaw, Describes, ProposedRecord,
         Resolve, Legal, Supported;
    RunKeepsInvariant(schedule);
    EveryLineageIsSafe(schedule, k);
    var w := Run(schedule);
    var h := History(w.repo, k);
    assert StreamReplays(w.evidence, w.repo, k) && IndexedAt(w.repo, k, i);
    assert DecidedOnItsHistory(w.evidence, h, i);
    ResolutionMeaning(w.evidence, h[i].request);
    ProposalMeaning(w.evidence, h[..i], h[i].request, h[i].event.recordedAt);
  }

  /** Which requests and which evidence are taken in: a request that names everything and gives a reason exactly for a
      release; intact evidence that does not contradict what is retained under its identity. */
  lemma IntakeMeaning(w: World, q: Request, d: DispatchRecord, c: ClaimantEvidence)
    ensures Next(w, Submit(q)).evidence == w.evidence && Next(w, Submit(q)).repo == w.repo
    ensures Next(w, Submit(q)).callers
              == if "" in {q.key.organization, q.key.workload, q.key.plan, q.key.workItem, q.dispatchDecisionId,
                           q.claimantEvidenceId, q.selectedCandidateId, q.policyId, q.policyVersion,
                           q.evidenceBoundary, q.provenance.clockSourceId, q.provenance.clockSourceVersion,
                           q.provenance.configurationVersion, q.idempotencyKey}
                    || (q.operation.Release? && q.releaseReason in {None, Some("")})
                    || (!q.operation.Release? && q.releaseReason.Some?)
                 then w.callers
                 else w.callers + [Caller(q, Submitted)]
    ensures Next(w, RetainDispatch(d))
              == if && d.approved
                    && d.inputDigest == DispatchInputDigest(d.inputContent)
                    && d.decisionDigest == DispatchDecisionDigest(d.decisionContent)
                    && (d.decisionId in w.evidence.dispatches ==> w.evidence.dispatches[d.decisionId] == d)
                 then w.(evidence := Evidence(w.evidence.dispatches[d.decisionId := d], w.evidence.claimants))
                 else w
    ensures Next(w, RetainClaimant(c))
              == if && c.content == c.document && c.digest == ClaimantDigest(c.document)
                    && c.document.schemaVersion == "claimant-evidence.v1"
                    && c.document.producerVersion == "claimant-evidence.producer.v1"
                    && c.document.effectiveAt <= c.document.expiresAt
                    && "" !in {c.document.evidenceId, c.document.claimantId, c.document.selectedCandidateId,
                               c.document.organization, c.document.workload, c.document.authenticationBoundary}
                    && (c.document.evidenceId in w.evidence.claimants ==>
                          w.evidence.claimants[c.document.evidenceId] == c)
                 then w.(evidence := Evidence(w.evidence.dispatches,
                                              w.evidence.claimants[c.document.evidenceId := c]))
                 else w
  {
    RetainedExactly(DispatchSource(), w.evidence.dispatches, d);
    RetainedExactly(ClaimantSource(), w.evidence.claimants, c);
  }

  /** What an uninterrupted evaluation leaves and answers. An event is published exactly when the evidence supports the
      request, its identity is new, its version is current, the history allows it and the commit succeeds. */
  ghost predicate AnswerFits(e: Evidence, repo: Repository, q: Request, clock: int, commit: CommitOutcome,
                             later: Repository, answer: Result<EvaluationResult, RuntimeError>)
  {
    var h, key := History(repo, q.key), (q.key, IdempotencyIdentity(q.operation, q.key, q.idempotencyKey));
    if !Supported(e, q) then
      later == repo && answer.Err? && Resolve(e, q) == Err(answer.error)
    else if key in repo.idempotency then
      && later == repo
      && answer == (if repo.idempotency[key].request == q
                    then Ok(EvaluationResult(ExistingEquivalent, repo.idempotency[key].event))
                    else Err(IdempotencyConflict))
    else if q.expectedVersion != |h| then
      later == repo && answer == Err(VersionConflict)
    else if !Legal(h, q, DispatchOf(e, q), ClaimantOf(e, q)) then
      later == repo && answer == Err(IllegalTransition)
    else if commit.CommitFailed? then
      later == repo && answer == Err(PersistenceFailure)
    else
      answer.Ok? && answer.value.outcome.Created?
      && exists r :: Publishes(e, h, q, clock, r) && later == Publish(repo, r) && answer.value.event == r.event
  }

  /** The record that evaluating `q` on `h` publishes. */
  ghost predicate Publishes(e: Evidence, h: seq<Record>, q: Request, clock: int, r: Record) {
    && RecordFits(e, h, r) && r.request == q && r.event.recordedAt == clock
    && r.idempotencyIdentity == IdempotencyIdentity(q.operation, q.key, q.idempotencyKey)
  }

  lemma KnownIdentity(e: Evidence, repo: Repository, q: Request)
    requires ValidEvidence(e) && RepositoryInvariant(e, repo) && Resolve(e, q).Ok?
    requires (q.key, IdempotencyOf(q)) in repo.idempotency
    ensures Taken(e, repo, q) <==> repo.idempotency[(q.key, IdempotencyOf(q))].request != q
  {
    hide Replay, Resolve, CanonicalInput;
    var prior := repo.idempotency[(q.key, IdempotencyOf(q))];
    assert IdempotencyAgrees(repo, (q.key, IdempotencyOf(q)));
    assert StreamReplays(e, repo, prior.request.key);
    PriorInput(e, History(repo, prior.request.key), prior.event.document.lineageVersion - 1);
    if !Taken(e, repo, q) {
      HitIsOwn(e, repo, q);
    }
  }

  lemma ProposalIsPublished(e: Evidence, repo: Repository, q: Request, clock: int, commit: CommitOutcome, r: Record)
    requires ValidEvidence(e) && RepositoryInvariant(e, repo) && ValidRequest(q) && Resolve(e, q).Ok?
    requires q.expectedVersion == |History(repo, q.key)| && (q.key, IdempotencyOf(q)) !in repo.idempotency
    requires Replay(e, History(repo, q.key)).Ok?
    requires ProposedRecord(Resolve(e, q).value, q, Replay(e, History(repo, q.key)).value, clock) == Ok(r)
    requires r.request == q && r.idempotencyIdentity == IdempotencyOf(q) && r.event.recordedAt == clock
    ensures Append(repo, r, q.expectedVersion, commit)
              == if commit.CommitFailed? then (repo, Err(PersistenceFailure))
                 else (Publish(repo, r), Ok(EvaluationResult(Created, r.event)))
  {
    hide Replay, Resolve, ProposedRecord, IndexesAgree, Publish;
    assert History(repo, q.key)[..q.expectedVersion] == History(repo, q.key);
    assert ProposedOn(e, repo, q, r);
    ProposalIsFresh(e, repo, q, r);
  }

  lemma KnownAnswer(e: Evidence, repo: Repository, q: Request, clock: int, commit: CommitOutcome)
    requires ValidEvidence(e) && RepositoryInvariant(e, repo) && Resolve(e, q).Ok?
    requires (q.key, IdempotencyOf(q)) in repo.idempotency
    ensures var prior := repo.idempotency[(q.key, IdempotencyOf(q))];
            Evaluate(e, repo, q, clock, commit)
              == (repo, if prior.request == q then Ok(EvaluationResult(ExistingEquivalent, prior.event))
                        else Err(IdempotencyConflict))
  {
    hide Replay, Resolve, ProposedRecord, CanonicalInput, Append, RepositoryInvariant, ValidEvidence;
    KnownIdentity(e, repo, q);
  }

  lemma NewAnswer(e: Evidence, repo: Repository, q: Request, clock: int, commit: CommitOutcome)
    requires Resolve(e, q).Ok? && (q.key, IdempotencyOf(q)) !in repo.idempotency && Replay(e, History(repo, q.key)).Ok?
    ensures var h := History(repo, q.key);
            var proposal := ProposedRecord(Resolve(e, q).value, q, Replay(e, h).value, clock);
            Evaluate(e, repo, q, clock, commit)
              == if q.expectedVersion != |h| then (repo, Err(VersionConflict))
                 else if proposal.Err? then (repo, Err(proposal.error))
                 else Append(repo, proposal.value, q.expectedVersion, commit)
  {
    hide Replay, Resolve, ProposedRecord, CanonicalInput, Append;
  }

  /** The answer of an uninterrupted evaluation in every reachable state. */
  lemma EvaluationMeaning(schedule: seq<Action>, q: Request, clock: int, commit: CommitOutcome)
    requires ValidRequest(q)
    ensures var w := Run(schedule);
            var (later, answer) := Evaluate(w.evidence, w.repo, q, clock, commit);
            AnswerFits(w.evidence, w.repo, q, clock, commit, later, answer)
  {
    hide Replay, Run, Resolve, ProposedRecord, IndexesAgree, Publish, RecordFits, Legal, Supported, CanonicalInput,
         Append, ValidRequest, History, ValidEvidence, Found, DigestsAgree, Applies, NamesPolicy;
    RunKeepsInvariant(schedule);
    var w := Run(schedule);
    var h := History(w.repo, q.key);
    ResolutionMeaning(w.evidence, q);
    assert StreamReplays(w.evidence, w.repo, q.key);
    if Supported(w.evidence, q) {
      if (q.key, IdempotencyOf(q)) in w.repo.idempotency {
        KnownAnswer(w.evidence, w.repo, q, clock, commit);
        return;
      }
      NewAnswer(w.evidence, w.repo, q, clock, commit);
      hide Evaluate;
      if q.expectedVersion == |h| {
        ProposalMeaning(w.evidence, h, q, clock);
        var proposal := ProposedRecord(Resolve(w.evidence, q).value, q, Replay(w.evidence, h).value, clock);
        if proposal.Ok? {
          ProposalIsPublished(w.evidence, w.repo, q, clock, commit, proposal.value);
          assert Publishes(w.evidence, h, q, clock, proposal.value);
        }
      }
    }
  }
}
