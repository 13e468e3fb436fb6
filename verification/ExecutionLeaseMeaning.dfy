/** What an Execution Lease evaluation does, said of the retained evidence and the requests published before it rather
    than of the policy and the derived state that compute it. */
module ExecutionLeaseMeaning {
  import opened Foundations
  import opened RetainedEvidence
  import opened ExecutionLeaseDomain
  import opened ExecutionLeaseService
  import opened ExecutionLeaseSafety
  import opened ExecutionLeaseConcurrency
  import opened ExecutionLeaseTheorems

  // ---- the evidence a request rests on -------------------------------------

  /** The authorization is retained in the request's organization and workload. */
  predicate Found(e: Evidence, q: Request) {
    && q.authorizationId.Some? && q.authorizationId.value in e.authorizations
    && e.authorizations[q.authorizationId.value].document.organization == q.key.organization
    && e.authorizations[q.authorizationId.value].document.workload == q.key.workload
  }

  function AuthorizationOf(e: Evidence, q: Request): AuthorizationDocument
    requires Found(e, q)
  {
    e.authorizations[q.authorizationId.value].document
  }

  predicate DigestAgrees(e: Evidence, q: Request)
    requires Found(e, q)
  {
    q.authorizationDigest == Some(AuthorizationDigest(AuthorizationOf(e, q)))
  }

  /** The authorization is approved for this plan, work item and boundary, allows the permissions, is in force at the
      evaluation time and contains the whole interval asked for. */
  predicate Covers(a: AuthorizationDocument, q: Request) {
    && a.approved && a.plan == q.key.plan && a.workItem == q.key.workItem
    && q.authorizationBoundary == Some(a.historyBoundary)
    && q.permissions <= a.permissionCeiling
    && a.effectiveAt <= q.evaluationAt < a.expiresAt
    && a.effectiveAt <= q.effectiveAt && q.expiresAt.Some? && q.expiresAt.value <= a.expiresAt
  }

  /** The one registered policy, by identity and version. */
  predicate NamesPolicy(q: Request) {
    q.policyId == "execution-lease-policy" && q.policyVersion == "execution-lease-policy.v1"
  }

  function RegisteredDigest(): Digest {
    PolicyDigest("execution-lease-policy", "execution-lease-policy.v1")
  }

  predicate Supported(e: Evidence, q: Request) {
    && !q.operation.Revoke?
    && Found(e, q) && DigestAgrees(e, q) && Covers(AuthorizationOf(e, q), q)
    && NamesPolicy(q) && q.policyDigest == RegisteredDigest()
  }

  /** The authorization under a request's identity is intact: the checks made when it was retained still hold. */
  lemma RetainedIsIntact(e: Evidence, q: Request)
    requires ValidEvidence(e) && Found(e, q)
    ensures var a := e.authorizations[q.authorizationId.value];
            && a.document.authorizationId == q.authorizationId.value
            && a.content == a.document && a.digest == AuthorizationDigest(a.document)
            && a.document.effectiveAt < a.document.expiresAt
  {
    var a := e.authorizations[q.authorizationId.value];
    assert AuthorizationSource().validator(a).Pass?;
    assert AuthorizationSource().identity(a) == a.document.authorizationId;
  }

  /** When the evidence supports a request, and which error tells what is wrong with it. */
  lemma ResolutionMeaning(e: Evidence, repo: Repository, q: Request)
    requires ValidEvidence(e) && ValidRequest(q) && !q.operation.Revoke?
    ensures Resolve(e, repo, q) == Err(EvidenceUnavailable) <==> !Found(e, q)
    ensures Resolve(e, repo, q) == Err(DigestMismatch) <==>
              (&& Found(e, q)
               && (|| !DigestAgrees(e, q)
                   || (Covers(AuthorizationOf(e, q), q) && NamesPolicy(q) && q.policyDigest != RegisteredDigest())))
    ensures Resolve(e, repo, q) == Err(Invalid) <==>
              Found(e, q) && DigestAgrees(e, q) && !Covers(AuthorizationOf(e, q), q)
    ensures Resolve(e, repo, q) == Err(VersionUnsupported) <==>
              Found(e, q) && DigestAgrees(e, q) && Covers(AuthorizationOf(e, q), q) && !NamesPolicy(q)
    ensures Resolve(e, repo, q).Ok? <==> Supported(e, q)
    ensures Resolve(e, repo, q).Ok? ==>
              Resolve(e, repo, q).value
                == Resolved(Some(e.authorizations[q.authorizationId.value]), None,
                            Policy("execution-lease-policy", "execution-lease-policy.v1", RegisteredDigest()))
  {
    hide CheckAuthorization, Covers, ValidRequest, ValidateAuthorization;
    RequestNamesAuthorization(q);
    ScopedLookup(AuthorizationSource(), e.authorizations, q.authorizationId.value, q.key.organization, q.key.workload);
    if Found(e, q) {
      RetainedIsIntact(e, q);
      CheckMeaning(q, e.authorizations[q.authorizationId.value]);
    }
  }

  lemma RequestNamesAuthorization(q: Request)
    requires ValidRequest(q) && !q.operation.Revoke?
    ensures q.authorizationId.Some? && q.revocationId.None?
  {
  }

  lemma CheckMeaning(q: Request, a: AuthorizationEvidence)
    ensures CheckAuthorization(q, a).Pass? <==> q.authorizationDigest == Some(a.digest) && Covers(a.document, q)
    ensures CheckAuthorization(q, a) == Fail(DigestMismatch) <==> q.authorizationDigest != Some(a.digest)
    ensures CheckAuthorization(q, a) == Fail(Invalid) <==>
              q.authorizationDigest == Some(a.digest) && !Covers(a.document, q)
  {
  }

  /** The revocation evidence is retained in the request's organization and workload. */
  predicate RevocationFound(e: Evidence, q: Request) {
    && q.revocationId.Some? && q.revocationId.value in e.revocations
    && e.revocations[q.revocationId.value].document.organization == q.key.organization
    && e.revocations[q.revocationId.value].document.workload == q.key.workload
  }

  /** The revocation is of this lineage and time, and targets the lease of the event the request follows. */
  predicate RevocationConsistent(repo: Repository, q: Request, v: RevocationDocument) {
    && v.plan == q.key.plan && v.workItem == q.key.workItem && v.permissionFamily == q.key.permissionFamily
    && v.effectiveAt == q.effectiveAt && q.priorEventId == Some(v.targetEventId)
    && v.targetEventId in repo.byId && repo.byId[v.targetEventId].event.document.leaseId == v.targetLeaseId
  }

  /** A revocation always fails, and the error says how far its evidence got. */
  lemma RevocationMeaning(e: Evidence, repo: Repository, q: Request)
    requires ValidEvidence(e) && ValidRequest(q) && q.operation.Revoke?
    ensures Resolve(e, repo, q).Err?
    ensures Resolve(e, repo, q) == Err(EvidenceUnavailable) <==> !RevocationFound(e, q)
    ensures RevocationFound(e, q) ==>
              var v := e.revocations[q.revocationId.value].document;
              Resolve(e, repo, q) == Err(if q.revocationDigest != Some(RevocationDigest(v)) then DigestMismatch
                                         else if RevocationConsistent(repo, q, v) then IllegalTransition
                                         else Invalid)
  {
    ScopedLookup(RevocationSource(), e.revocations, q.revocationId.value, q.key.organization, q.key.workload);
    if RevocationFound(e, q) {
      var v := e.revocations[q.revocationId.value];
      assert RevocationSource().validator(v).Pass?;
    }
  }

  // ---- what replay lets an event do to any state ---------------------------

  predicate Advances(s: DerivedState, d: EventDocument) {
    && d.lineageVersion == s.lineageVersion + 1
    && (d.eventType.Granted? ==> s.lineageVersion == 0 && d.generation == 1 && d.priorEventId.None?)
    && (!d.eventType.Granted? ==>
          && s.authorityEvent.Some? && s.terminalEvent.None?
          && s.lastEvent.Some? && d.priorEventId == Some(s.lastEvent.value.eventId))
    && (d.eventType.Renewed? || d.eventType.Revoked? ==>
          d.generation == s.generation && d.leaseId == s.authorityEvent.value.document.leaseId)
    && (d.eventType.Superseded? ==>
          d.generation == s.generation + 1 && d.supersededLeaseId == Some(s.authorityEvent.value.document.leaseId))
  }

  /** An event advances a state exactly when it may; only a revocation keeps the authority and ends the lineage. */
  lemma AdvanceMeaning(s: DerivedState, event: Event)
    ensures AdvanceState(s, event).Ok? <==> Advances(s, event.document)
    ensures AdvanceState(s, event).Err? ==> AdvanceState(s, event) == Err(ReconstructionFailed)
    ensures AdvanceState(s, event).Ok? ==>
              var d, s' := event.document, AdvanceState(s, event).value;
              && s'.lineageVersion == s.lineageVersion + 1 && s'.lastEvent == Some(event)
              && s'.generation == d.generation
              && s'.authorityEvent == (if d.eventType.Revoked? then s.authorityEvent else Some(event))
              && s'.terminalEvent == (if d.eventType.Revoked? then Some(event) else None)
  {
  }

  // ---- the decision --------------------------------------------------------

  /** The history allows the request: a lineage is granted once; a renewal or supersession names the latest event, rests
      on another authorization than it and does not start earlier; a renewal adds no permission. */
  predicate Legal(h: seq<Record>, q: Request) {
    if h == [] then q.operation.Grant?
    else
      var last := h[|h| - 1];
      && last.request.evaluationAt <= q.evaluationAt
      && (q.operation.Renew? || q.operation.Supersede?)
      && q.priorEventId == Some(last.event.eventId)
      && q.authorizationId != last.request.authorizationId
      && last.request.effectiveAt <= q.effectiveAt
      && (q.operation.Renew? ==> q.permissions <= last.request.permissions)
  }

  /** A request that is not legal follows the latest event in time and name, and asks for more than it may. */
  predicate Overreaches(h: seq<Record>, q: Request) {
    && h != [] && !q.operation.Grant?
    && h[|h| - 1].request.evaluationAt <= q.evaluationAt
    && q.priorEventId == Some(h[|h| - 1].event.eventId)
  }

  /** An event carries what its request asked for. */
  predicate Carries(r: Record) {
    var q, d := r.request, r.event.document;
    && d.permissions == q.permissions && d.effectiveAt == q.effectiveAt && d.expiresAt == q.expiresAt
    && d.evaluationAt == q.evaluationAt && d.authorizationReference.Some?
    && q.authorizationId == Some(d.authorizationReference.value.artifactId)
  }

  predicate LastCarries(h: seq<Record>) {
    h != [] ==> Carries(h[|h| - 1])
  }

  /** Each operation leads to the event type of its own. */
  predicate Fitting(q: Request, t: EventType) {
    && (t.Granted? <==> q.operation.Grant?) && (t.Renewed? <==> q.operation.Renew?)
    && (t.Superseded? <==> q.operation.Supersede?) && (t.Revoked? <==> q.operation.Revoke?)
  }

  /** The policy decides a request exactly when the history allows it. */
  lemma DecisionMeaning(h: seq<Record>, q: Request)
    requires LastCarries(h) && Coherent(Latest(h)) && ValidRequest(q) && !q.operation.Revoke?
    ensures Decide(q, Latest(h)).Ok? <==> Legal(h, q)
    ensures Decide(q, Latest(h)).Err? ==>
              Decide(q, Latest(h)) == Err(if Overreaches(h, q) then Invalid else IllegalTransition)
    ensures Decide(q, Latest(h)).Ok? ==>
              var d := Decide(q, Latest(h)).value;
              && Fitting(q, d.eventType)
              && d.generation == (if h == [] then 1 else h[|h| - 1].event.document.generation)
                                 + (if q.operation.Supersede? then 1 else 0)
              && d.supersededLeaseId == (if q.operation.Supersede? then Some(h[|h| - 1].event.document.leaseId)
                                         else None)
  {
  }

  // ---- the record of an event ----------------------------------------------

  /** Every field of the record that extends `h`, told from the retained evidence, the request and the earlier
      events. */
  ghost predicate RecordFits(e: Evidence, h: seq<Record>, r: Record) {
    var q, d := r.request, r.event.document;
    var lineage := LineageIdentity(q.key);
    && Supported(e, q) && q.expectedVersion == |h| && Legal(h, q)
    && Fitting(q, d.eventType)
    && d.permissions == q.permissions
    && d.effectiveAt == q.effectiveAt && d.expiresAt == q.expiresAt && d.evaluationAt == q.evaluationAt
    && d.generation == 1 + Supersessions(h) + (if q.operation.Supersede? then 1 else 0)
    && d.leaseId == LeaseIdentity(lineage, d.generation)
    && d.supersededLeaseId == (if q.operation.Supersede? then Some(LeaseIdentity(lineage, d.generation - 1)) else None)
    && d.lineageVersion == |h| + 1 && d.key == q.key && d.lineageId == lineage
    && d.priorEventId == q.priorEventId && d.provenance == q.provenance
    && d.authorizationReference
         == Some(EvidenceReference(q.authorizationId.value, AuthorizationDigest(AuthorizationOf(e, q))))
    && d.authorizationBoundary == q.authorizationBoundary && d.revocationReference.None?
    && d.policyReference == EvidenceReference(q.policyId, q.policyDigest) && d.policyVersion == q.policyVersion
    && d.idempotencyIdentity == r.idempotencyIdentity && d.inputDigest == InputDigest(r.inputContent)
    && r.eventContent == d && r.event.eventDigest == EventDigest(d)
    && r.event.eventId == EventIdentity(EventDigest(d), lineage, |h| + 1)
    && InputFits(e, q, d.generation, r.inputContent)
  }

  /** The canonical input holds the request's fields, its authorization and the generation decided on. */
  ghost predicate InputFits(e: Evidence, q: Request, generation: int, input: InputDocument)
    requires Found(e, q)
  {
    var a := AuthorizationOf(e, q);
    && input.authorization == Some(AuthorizationInput(AuthorizationDigest(a), a)) && input.revocation.None?
    && input.policy == Policy(q.policyId, q.policyVersion, q.policyDigest) && input.generation == generation
    && input.operation == q.operation && input.key == q.key && input.expectedVersion == q.expectedVersion
    && input.effectiveAt == q.effectiveAt && input.expiresAt == q.expiresAt && input.evaluationAt == q.evaluationAt
    && input.permissions == q.permissions && input.priorEventId == q.priorEventId
    && input.idempotencyKey == q.idempotencyKey && input.provenance == q.provenance
  }

  lemma FittingCarries(e: Evidence, h: seq<Record>, r: Record)
    requires RecordFits(e, h, r)
    ensures Carries(r)
  {
    hide Legal, Fitting, InputFits, Supersessions;
  }

  /** The decision for a request that extends `h`. */
  predicate DecisionFits(h: seq<Record>, q: Request, decision: Decision) {
    && Fitting(q, decision.eventType)
    && decision.generation == 1 + Supersessions(h) + (if q.operation.Supersede? then 1 else 0)
    && decision.supersededLeaseId
       == (if q.operation.Supersede? then Some(LeaseIdentity(LineageIdentity(q.key), decision.generation - 1))
           else None)
  }

  lemma BuiltFits(e: Evidence, h: seq<Record>, q: Request, found: Resolved, decision: Decision, identity: Digest,
                  clock: int, r: Record)
    requires ValidEvidence(e) && Supported(e, q) && q.expectedVersion == |h| && Legal(h, q)
    requires found == Resolved(Some(e.authorizations[q.authorizationId.value]), None,
                               Policy("execution-lease-policy", "execution-lease-policy.v1", RegisteredDigest()))
    requires DecisionFits(h, q, decision)
    requires BuildRecord(q, found, decision, |h| + 1, identity, clock) == Ok(r)
    ensures RecordFits(e, h, r) && r.request == q && r.event.recordedAt == clock && r.idempotencyIdentity == identity
  {
    hide Legal, Fitting, ValidEvidence, WellFormedEvent, Supersessions, Covers, InputFits, CanonicalInput;
    RetainedIsIntact(e, q);
    BuiltInputFits(e, q, found, decision.generation);
  }

  lemma BuiltInputFits(e: Evidence, q: Request, found: Resolved, generation: int)
    requires ValidEvidence(e) && Supported(e, q)
    requires found == Resolved(Some(e.authorizations[q.authorizationId.value]), None,
                               Policy("execution-lease-policy", "execution-lease-policy.v1", RegisteredDigest()))
    ensures InputFits(e, q, generation, CanonicalInput(q, found, generation))
  {
    hide ValidEvidence, Covers;
    RetainedIsIntact(e, q);
  }

  /** Request, identity and recording time leave one record that fits a history. */
  lemma OneRecordFits(e: Evidence, h: seq<Record>, r: Record, r': Record)
    requires RecordFits(e, h, r) && RecordFits(e, h, r') && r.request == r'.request
    requires r.idempotencyIdentity == r'.idempotencyIdentity && r.event.recordedAt == r'.event.recordedAt
    ensures r == r'
  {
    hide Supported, Legal, Supersessions;
    assert r.inputContent == r'.inputContent;
    assert r.event.document == r'.event.document by {
      assert r.event.document.eventType == r'.event.document.eventType;
    }
  }

  /** What a replayed history says about its latest event. */
  lemma LatestMeaning(e: Evidence, repo: Repository, h: seq<Record>)
    requires ValidEvidence(e) && AllRequestsValid(h) && Replay(e, repo, h).Ok?
    ensures Replay(e, repo, h) == Ok(Latest(h)) && Coherent(Latest(h)) && Latest(h).lineageVersion == |h|
    ensures LastCarries(h) && (h == [] ==> Latest(h).lastEvent.None?)
    ensures h != [] ==> SameLineage(Latest(h), h[0].request.key)
    ensures h != [] ==>
              && h[|h| - 1].request.key == h[0].request.key
              && h[|h| - 1].event.document.generation == 1 + Supersessions(h)
              && h[|h| - 1].event.document.leaseId
                 == LeaseIdentity(LineageIdentity(h[0].request.key), h[|h| - 1].event.document.generation)
  {
    hide ReplayRecord, AllAuthorized, Continues, Opens, Decided, ValidRequest, Authorized;
    ReplayIsChain(e, repo, h);
    LatestIsCoherent(e, h);
    if h != [] {
      var n := |h| - 1;
      assert LinkAt(h, n) && h[..n + 1] == h;
      GenerationCountsSupersessions(h, n);
      var found, decision := AdmittedRecord(e, repo, h[0].request.key, Replay(e, repo, h[..n]).value, h[n]);
      DecidedCarries(e, repo, Replay(e, repo, h[..n]).value, h[n], found, decision);
    }
  }

  lemma DecidedCarries(e: Evidence, repo: Repository, s: DerivedState, r: Record, found: Resolved, decision: Decision)
    requires ValidEvidence(e) && ValidRequest(r.request) && Decided(e, repo, s, r, found, decision)
    ensures Carries(r)
  {
    hide Resolve, Decide, CanonicalInput, Authorized, Identified;
    DecidedIsAuthorized(e, repo, s, r, found, decision);
    ResolvedIsAuthorized(e, repo, r.request, found);
  }

  /** On a replayed history the decision exists exactly when the history allows the request, and its record fits. */
  lemma ProposalMeaning(e: Evidence, repo: Repository, h: seq<Record>, q: Request, identity: Digest, clock: int)
    requires ValidEvidence(e) && AllRequestsValid(h) && Replay(e, repo, h).Ok? && ValidRequest(q) && Supported(e, q)
    requires q.expectedVersion == |h| && (h != [] ==> q.key == h[0].request.key)
    ensures Resolve(e, repo, q).Ok?
    ensures var decision := Decide(q, Replay(e, repo, h).value);
            && (decision.Ok? <==> Legal(h, q))
            && (decision.Err? ==> decision == Err(if Overreaches(h, q) then Invalid else IllegalTransition))
            && (decision.Ok? ==>
                  var built := BuildRecord(q, Resolve(e, repo, q).value, decision.value, |h| + 1, identity, clock);
                  && built.Ok? && RecordFits(e, h, built.value) && built.value.request == q
                  && built.value.event.recordedAt == clock && built.value.idempotencyIdentity == identity)
  {
    hide Replay, Decide, Legal, Overreaches, Fitting, Resolve, Coherent, RecordFits, ValidEvidence, BuildRecord,
         Supersessions, LastCarries, DecisionFits, Latest, ValidRequest, Found, DigestAgrees, Covers, NamesPolicy;
    SupportedOperation(e, q);
    ResolutionMeaning(e, repo, q);
    LatestMeaning(e, repo, h);
    DecisionMeaning(h, q);
    var found, decision := Resolve(e, repo, q).value, Decide(q, Latest(h));
    if decision.Ok? {
      DecidedFits(h, q);
      WellFormedForAny(e, repo, q, found, Latest(h), decision.value, identity, clock);
      var built := BuildRecord(q, found, decision.value, |h| + 1, identity, clock);
      BuiltFits(e, h, q, found, decision.value, identity, clock, built.value);
    }
  }

  lemma DecidedFits(h: seq<Record>, q: Request)
    requires LastCarries(h) && Coherent(Latest(h)) && ValidRequest(q) && !q.operation.Revoke?
    requires h != [] ==>
               && h[|h| - 1].event.document.generation == 1 + Supersessions(h)
               && h[|h| - 1].event.document.leaseId
                  == LeaseIdentity(LineageIdentity(q.key), h[|h| - 1].event.document.generation)
    requires Decide(q, Latest(h)).Ok?
    ensures DecisionFits(h, q, Decide(q, Latest(h)).value)
  {
    hide Decide, Coherent, LastCarries, ValidRequest;
    DecisionMeaning(h, q);
  }

  lemma SupportedOperation(e: Evidence, q: Request)
    requires Supported(e, q)
    ensures !q.operation.Revoke? && Found(e, q)
  {
  }

  lemma WellFormedForAny(e: Evidence, repo: Repository, q: Request, found: Resolved, s: DerivedState,
                         decision: Decision, identity: Digest, clock: int)
    requires ValidEvidence(e) && ValidRequest(q) && Resolve(e, repo, q) == Ok(found)
    requires Coherent(s) && Decide(q, s) == Ok(decision) && s.lineageVersion == q.expectedVersion
    ensures BuildRecord(q, found, decision, q.expectedVersion + 1, identity, clock).Ok?
  {
    hide Resolve, CanonicalInput, Decide, Coherent, ValidRequest, ValidEvidence, EventFor;
    ProposalIsWellFormed(e, repo, q, found, s, decision, clock);
    assert WellFormedEvent(EventFor(EventPayload(q, found, decision, q.expectedVersion + 1, IdempotencyOf(q)), clock));
    WellFormedForgets(EventPayload(q, found, decision, q.expectedVersion + 1, IdempotencyOf(q)), identity, clock);
  }

  /** The event constructor does not look at the idempotency identity. */
  lemma WellFormedForgets(d: EventDocument, identity: Digest, clock: int)
    requires WellFormedEvent(EventFor(d, clock))
    ensures WellFormedEvent(EventFor(d.(idempotencyIdentity := identity), clock))
  {
  }

  // ---- what replay accepts -------------------------------------------------

  lemma RecordChecks(e: Evidence, repo: Repository, h: seq<Record>, r: Record, found: Resolved)
    requires ValidEvidence(e) && RecordFits(e, h, r) && ValidRequest(r.request)
    requires Resolve(e, repo, r.request) == Ok(found)
    ensures r.event.document.lineageId == LineageIdentity(r.request.key) && VerifiesRecordedContent(r)
    ensures CanonicalInput(r.request, found, r.event.document.generation) == r.inputContent
    ensures Legal(h, r.request) && r.request.expectedVersion == |h| && Supported(e, r.request)
  {
    hide Legal, Fitting, Resolve, ValidEvidence, Supersessions, Covers, ValidRequest;
    ResolutionMeaning(e, repo, r.request);
    RetainedIsIntact(e, r.request);
  }

  /** Replay admits a record after a replayed history exactly when it fits the history. */
  lemma AdmissionMeaning(e: Evidence, repo: Repository, h: seq<Record>, r: Record)
    requires ValidEvidence(e) && AllRequestsValid(h) && Replay(e, repo, h).Ok? && ValidRequest(r.request)
    requires h != [] ==> r.request.key == h[0].request.key
    ensures ReplayRecord(e, repo, r.request.key, Replay(e, repo, h).value, r).Ok? <==> RecordFits(e, h, r)
  {
    hide Replay, Decide, Legal, Resolve, AdvanceState, Coherent, RecordFits, Decided, ValidEvidence, ValidRequest,
         BuildRecord, CanonicalInput, Supported, VerifiesRecordedContent, Latest, LastCarries;
    var s, q, key := Replay(e, repo, h).value, r.request, r.request.key;
    LatestMeaning(e, repo, h);
    if ReplayRecord(e, repo, key, s, r).Ok? {
      var found, decision := AdmittedRecord(e, repo, key, s, r);
      AdmittedFits(e, repo, h, r, found, decision);
    }
    if RecordFits(e, h, r) {
      FittingIsSupported(e, h, r);
      ResolutionMeaning(e, repo, q);
      var found := Resolve(e, repo, q).value;
      RecordChecks(e, repo, h, r, found);
      ProposalMeaning(e, repo, h, q, r.idempotencyIdentity, r.event.recordedAt);
      var decision := Decide(q, s).value;
      var built := BuildRecord(q, found, decision, |h| + 1, r.idempotencyIdentity, r.event.recordedAt).value;
      OneRecordFits(e, h, r, built);
      SameGeneration(q, found, decision, |h| + 1, r);
      BuiltIsDecided(e, repo, s, r, found, decision);
      DecidedContinues(e, repo, s, r, found, decision);
      Readmits(e, repo, s, r, found, decision);
    }
  }

  lemma FittingIsSupported(e: Evidence, h: seq<Record>, r: Record)
    requires RecordFits(e, h, r)
    ensures Supported(e, r.request) && !r.request.operation.Revoke? && r.request.expectedVersion == |h|
  {
    hide Legal, Fitting, InputFits, Supersessions, Covers;
  }

  lemma SameGeneration(q: Request, found: Resolved, decision: Decision, version: nat, r: Record)
    requires BuildRecord(q, found, decision, version, r.idempotencyIdentity, r.event.recordedAt) == Ok(r)
    ensures r.event.document.generation == decision.generation && r.request == q
  {
    hide CanonicalInput;
  }

  lemma BuiltIsDecided(e: Evidence, repo: Repository, s: DerivedState, r: Record, found: Resolved, decision: Decision)
    requires Resolve(e, repo, r.request) == Ok(found) && Decide(r.request, s) == Ok(decision)
    requires s.lineageVersion == r.request.expectedVersion
    requires BuildRecord(r.request, found, decision, s.lineageVersion + 1, r.idempotencyIdentity, r.event.recordedAt)
               == Ok(r)
    ensures Decided(e, repo, s, r, found, decision)
  {
    hide Resolve, Decide, CanonicalInput;
  }

  lemma Readmits(e: Evidence, repo: Repository, s: DerivedState, r: Record, found: Resolved, decision: Decision)
    requires Resolve(e, repo, r.request) == Ok(found) && Decide(r.request, s) == Ok(decision)
    requires r.event.document.lineageId == LineageIdentity(r.request.key) && VerifiesRecordedContent(r)
    requires s.lineageVersion == r.request.expectedVersion
    requires CanonicalInput(r.request, found, decision.generation) == r.inputContent
    requires BuildRecord(r.request, found, decision, s.lineageVersion + 1, r.idempotencyIdentity, r.event.recordedAt)
               == Ok(r)
    requires AdvanceState(s, r.event).Ok?
    ensures ReplayRecord(e, repo, r.request.key, s, r).Ok?
  {
    hide Resolve, Decide, CanonicalInput, BuildRecord, AdvanceState, VerifiesRecordedContent;
  }

  lemma AdmittedFits(e: Evidence, repo: Repository, h: seq<Record>, r: Record, found: Resolved, decision: Decision)
    requires ValidEvidence(e) && AllRequestsValid(h) && Replay(e, repo, h).Ok? && ValidRequest(r.request)
    requires h != [] ==> r.request.key == h[0].request.key
    requires Decided(e, repo, Replay(e, repo, h).value, r, found, decision)
    requires ReplayRecord(e, repo, r.request.key, Replay(e, repo, h).value, r).Ok?
    ensures RecordFits(e, h, r)
  {
    hide Replay, Decide, Legal, Resolve, AdvanceState, Coherent, RecordFits, ValidEvidence, ValidRequest, BuildRecord,
         CanonicalInput, Supported, VerifiesRecordedContent, Latest, LastCarries, SameLineage, EventPayload, EventFor,
         WellFormedEvent;
    var q := r.request;
    LatestMeaning(e, repo, h);
    if q.operation.Revoke? {
      RevocationNeverResolves(e, repo, q);
    }
    assert !q.operation.Revoke?;
    ResolutionMeaning(e, repo, q);
    ProposalMeaning(e, repo, h, q, r.idempotencyIdentity, r.event.recordedAt);
  }

  ghost predicate EachFits(e: Evidence, h: seq<Record>) {
    forall i {:trigger h[i]} :: 0 <= i < |h| ==> h[i].request.key == h[0].request.key && RecordFits(e, h[..i], h[i])
  }

  /** Replay accepts a history exactly when every record fits the records before it: a record with any field altered,
      in its event, its content or its input, is refused. */
  lemma {:induction false} ReplayMeaning(e: Evidence, repo: Repository, h: seq<Record>)
    requires ValidEvidence(e) && AllRequestsValid(h)
    ensures Replay(e, repo, h).Ok? <==> EachFits(e, h)
  {
    hide ReplayRecord, RecordFits, ValidRequest, ValidEvidence;
    if h != [] {
      var n := |h| - 1;
      ReplayMeaning(e, repo, h[..n]);
      if EachFits(e, h) {
        forall i | 0 <= i < n ensures h[..n][i].request.key == h[..n][0].request.key
                                      && RecordFits(e, h[..n][..i], h[..n][i]) {
          assert h[..n][i] == h[i] && h[..n][0] == h[0] && h[..n][..i] == h[..i];
        }
      }
      if Replay(e, repo, h[..n]).Ok? && h[n].request.key == h[0].request.key {
        AdmissionMeaning(e, repo, h[..n], h[n]);
        if Replay(e, repo, h).Ok? {
          forall i | 0 <= i < |h| ensures h[i].request.key == h[0].request.key && RecordFits(e, h[..i], h[i]) {
            if i < n {
              assert h[..n][i] == h[i] && h[..n][0] == h[0] && h[..n][..i] == h[..i];
            }
          }
        }
      }
      if Replay(e, repo, h).Ok? {
        var _, _ := AdmittedRecord(e, repo, h[0].request.key, Replay(e, repo, h[..n]).value, h[n]);
      }
    }
  }

  // ---- every reachable lineage, every evaluation ---------------------------

  /** Every event of every reachable lineage is the lawful successor of the events before it, field by field, on the
      evidence that is retained. */
  lemma EveryEventIsLawful(schedule: seq<Action>, k: LineageKey, i: nat)
    requires i < |History(Run(schedule).repo, k)|
    ensures var w := Run(schedule); var h := History(w.repo, k);
            && h[i].request.key == k && ValidRequest(h[i].request) && RecordFits(w.evidence, h[..i], h[i])
            && h[i].idempotencyIdentity == IdempotencyIdentity(h[i].request.operation, k, h[i].request.idempotencyKey)
  {
    hide Replay, Run, RecordFits, ValidRequest, ValidEvidence;
    RunKeepsInvariant(schedule);
    var w := Run(schedule);
    var h := History(w.repo, k);
    assert StreamReplays(w.evidence, w.repo, k) && IndexedAt(w.repo, k, i);
    ReplayMeaning(w.evidence, w.repo, h);
  }

  /** Authority applies exactly during the interval that the request at the boundary asked for: the latest one, or the
      one at the version asked about. */
  lemma ApplicabilityMeaning(schedule: seq<Action>, k: LineageKey, organization: string, workload: string, at: int,
                             through: Option<int>)
    ensures var w := Run(schedule); var h, v := History(w.repo, k), AskedVersion(w.repo, k, through);
            var answer := Applicable(w.evidence, w.repo, k, organization, workload, at, through);
            && (answer == Err(NotFound) <==> k.organization != organization || k.workload != workload)
            && (answer == Err(ReconstructionFailed) <==>
                  (&& k.organization == organization && k.workload == workload
                   && through.Some? && !(1 <= through.value <= |h|)))
            && (answer.Err? ==> answer.error.NotFound? || answer.error.ReconstructionFailed?)
            && (answer == Ok(true) <==>
                  && k.organization == organization && k.workload == workload && 1 <= v <= |h|
                  && h[v - 1].request.expiresAt.Some?
                  && h[v - 1].request.effectiveAt <= at < h[v - 1].request.expiresAt.value)
  {
    hide Replay, Run, RecordFits, ValidRequest, Applicable;
    ApplicableIsCoverage(schedule, k, organization, workload, at, through);
    var w := Run(schedule);
    var h, v := History(w.repo, k), AskedVersion(w.repo, k, through);
    if 1 <= v <= |h| {
      EveryEventIsLawful(schedule, k, v - 1);
      FittingCarries(w.evidence, h[..v - 1], h[v - 1]);
    }
  }

  /** Which requests and which evidence are taken in: a request that names everything its operation needs and nothing
      it does not; intact evidence that does not contradict what is retained under its identity. */
  lemma IntakeMeaning(w: World, q: Request, a: AuthorizationEvidence, v: RevocationEvidence)
    ensures Next(w, Submit(q)).evidence == w.evidence && Next(w, Submit(q)).repo == w.repo
    ensures Next(w, Submit(q)).callers == if Submittable(q) then w.callers + [Caller(q, Submitted)] else w.callers
    ensures Next(w, RetainAuthorization(a))
              == if && IntactAuthorization(a)
                    && (a.document.authorizationId in w.evidence.authorizations ==>
                          w.evidence.authorizations[a.document.authorizationId] == a)
                 then w.(evidence := Evidence(w.evidence.authorizations[a.document.authorizationId := a],
                                              w.evidence.revocations))
                 else w
    ensures Next(w, RetainRevocation(v))
              == if && IntactRevocation(v)
                    && (v.document.evidenceId in w.evidence.revocations ==>
                          w.evidence.revocations[v.document.evidenceId] == v)
                 then w.(evidence := Evidence(w.evidence.authorizations,
                                              w.evidence.revocations[v.document.evidenceId := v]))
                 else w
  {
    RetainedExactly(AuthorizationSource(), w.evidence.authorizations, a);
    RetainedExactly(RevocationSource(), w.evidence.revocations, v);
    IntactExactly(a, v);
    SubmittedExactly(q);
    hide ValidRequest, ValidateAuthorization, ValidateRevocation, Submittable, IntactAuthorization, IntactRevocation;
  }

  lemma IntactExactly(a: AuthorizationEvidence, v: RevocationEvidence)
    ensures ValidateAuthorization(a).Pass? <==> IntactAuthorization(a)
    ensures ValidateRevocation(v).Pass? <==> IntactRevocation(v)
  {
  }

  lemma SubmittedExactly(q: Request)
    ensures ValidRequest(q) <==> Submittable(q)
  {
  }

  predicate Submittable(q: Request) {
    && "" !in {q.key.organization, q.key.workload, q.key.plan, q.key.workItem, q.idempotencyKey, q.policyId,
               q.policyVersion, q.provenance.clockSourceId, q.provenance.clockSourceVersion,
               q.provenance.configurationVersion}
    && Some("") !in {q.authorizationId, q.authorizationBoundary, q.revocationId}
    && q.key.permissionFamily == "work-item-execution.v1"
    && (q.operation.Revoke? <==> q.authorizationId.None?) && (q.operation.Revoke? <==> q.authorizationDigest.None?)
    && (q.operation.Revoke? <==> q.authorizationBoundary.None?) && (q.operation.Revoke? <==> q.permissions == {})
    && (q.operation.Revoke? <==> q.expiresAt.None?) && (q.expiresAt.Some? ==> q.effectiveAt < q.expiresAt.value)
    && (q.operation.Revoke? <==> q.revocationId.Some?) && (q.operation.Revoke? <==> q.revocationDigest.Some?)
    && (q.operation.Grant? <==> q.priorEventId.None?)
  }

  predicate IntactAuthorization(a: AuthorizationEvidence) {
    var d := a.document;
    && a.content == d && a.digest == AuthorizationDigest(d)
    && [d.schemaVersion, d.componentVersion, d.serializationVersion]
       == ["authorization-checkpoint-evidence.v1", "authorization-checkpoint.service.v1", "canonical-json.v1"]
    && |d.permissionCeiling| > 0 && d.effectiveAt < d.expiresAt && 1 <= d.decisionVersion
    && "" !in {d.authorizationId, d.organization, d.workload, d.principalId, d.plan, d.workItem, d.historyBoundary,
               d.policyId, d.policyVersion, d.correlationId, d.causationId, d.provenance.clockSourceId,
               d.provenance.clockSourceVersion, d.provenance.configurationVersion}
  }

  predicate IntactRevocation(v: RevocationEvidence) {
    var d := v.document;
    && v.content == d && v.digest == RevocationDigest(d)
    && [d.schemaVersion, d.componentVersion, d.serializationVersion]
       == ["opaque-retained-revocation-evidence.v1", "retained-evidence-port.v1", "canonical-json.v1"]
    && "" !in {d.evidenceId, d.organization, d.workload, d.plan, d.workItem, d.permissionFamily}
  }

  /** The record that evaluating `q` on `h` publishes. */
  ghost predicate Publishes(e: Evidence, h: seq<Record>, q: Request, clock: int, r: Record) {
    && RecordFits(e, h, r) && r.request == q && r.event.recordedAt == clock
    && r.idempotencyIdentity == IdempotencyIdentity(q.operation, q.key, q.idempotencyKey)
  }

  /** What an uninterrupted evaluation leaves and answers. An event is published exactly when the identity is new, the
      evidence supports the request, its version is current, the history allows it and the commit succeeds. */
  ghost predicate AnswerFits(e: Evidence, repo: Repository, q: Request, clock: int, commit: CommitOutcome,
                             later: Repository, answer: Result<EvaluationResult, RuntimeError>)
  {
    var h, key := History(repo, q.key), (q.key, IdempotencyIdentity(q.operation, q.key, q.idempotencyKey));
    if key in repo.idempotency && repo.idempotency[key].request != q then
      later == repo && answer == Err(IdempotencyConflict)
    else if !Supported(e, q) then
      later == repo && answer.Err? && Resolve(e, repo, q) == Err(answer.error)
    else if key in repo.idempotency then
      later == repo && answer == Ok(EvaluationResult(ExistingEquivalent, repo.idempotency[key].event))
    else if q.expectedVersion != |h| then
      later == repo && answer == Err(VersionConflict)
    else if !Legal(h, q) then
      later == repo && answer == Err(if Overreaches(h, q) then Invalid else IllegalTransition)
    else if commit.CommitFailed? then
      later == repo && answer == Err(PersistenceFailure)
    else
      answer.Ok? && answer.value.outcome.Created?
      && exists r :: Publishes(e, h, q, clock, r) && later == Publish(repo, r) && answer.value.event == r.event
  }

  lemma SupportMeaning(e: Evidence, repo: Repository, q: Request)
    requires ValidEvidence(e) && ValidRequest(q)
    ensures Resolve(e, repo, q).Ok? <==> Supported(e, q)
  {
    hide Resolve, Found, Covers;
    if q.operation.Revoke? {
      RevocationMeaning(e, repo, q);
    } else {
      ResolutionMeaning(e, repo, q);
    }
  }

  lemma ProposalIsPublished(e: Evidence, repo: Repository, q: Request, found: Resolved, decision: Decision, clock: int,
                            commit: CommitOutcome)
    requires ValidEvidence(e) && RepositoryInvariant(e, repo) && ValidRequest(q)
    requires q.expectedVersion == |History(repo, q.key)| && (q.key, IdempotencyOf(q)) !in repo.idempotency
    requires DecidedOn(e, repo, q, found, decision)
    ensures Proposed(found, q, decision, clock).Ok?
    ensures var r := Proposed(found, q, decision, clock).value;
            Append(repo, r, q.expectedVersion, commit)
              == if commit.CommitFailed? then (repo, Err(PersistenceFailure))
                 else (Publish(repo, r), Ok(EvaluationResult(Created, r.event)))
  {
    hide DecidedOn, Proposed, RepositoryInvariant, Publish, ProposedOn, ValidRequest, ValidEvidence;
    ProposalExists(e, repo, q, found, decision, clock);
    var r := Proposed(found, q, decision, clock).value;
    ProposalIsFresh(e, repo, q, r);
  }

  /** The answer of an uninterrupted evaluation in every reachable state. */
  lemma EvaluationMeaning(schedule: seq<Action>, q: Request, clock: int, commit: CommitOutcome)
    requires ValidRequest(q)
    ensures var w := Run(schedule);
            var (later, answer) := Evaluate(w.evidence, w.repo, q, clock, commit);
            AnswerFits(w.evidence, w.repo, q, clock, commit, later, answer)
  {
    hide Replay, Run, Resolve, Decide, BuildRecord, IndexesAgree, Publish, RecordFits, Legal, Overreaches, Supported,
         CanonicalInput, Append, ValidRequest, RetryAnswer, ValidEvidence;
    RunKeepsInvariant(schedule);
    var w := Run(schedule);
    var h := History(w.repo, q.key);
    SupportMeaning(w.evidence, w.repo, q);
    assert StreamReplays(w.evidence, w.repo, q.key);
    if Supported(w.evidence, q) && !Taken(w.repo, q) {
      var found := Resolve(w.evidence, w.repo, q).value;
      if (q.key, IdempotencyOf(q)) in w.repo.idempotency {
        RetryIsAnswered(w.evidence, w.repo, q, found);
      } else if q.expectedVersion == |h| {
        if h != [] {
          IndexesGiveStream(w.repo, q.key, 0);
        }
        ProposalMeaning(w.evidence, w.repo, h, q, IdempotencyOf(q), clock);
        var decision := Decide(q, Replay(w.evidence, w.repo, h).value);
        if decision.Ok? {
          assert h[..|h|] == h;
          assert DecidedOn(w.evidence, w.repo, q, found, decision.value);
          ProposalIsPublished(w.evidence, w.repo, q, found, decision.value, clock, commit);
          assert Publishes(w.evidence, h, q, clock, Proposed(found, q, decision.value, clock).value);
        }
      }
    }
  }
}
