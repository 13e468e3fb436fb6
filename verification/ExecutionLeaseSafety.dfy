/** What every lease lineage accepted by replay satisfies: one causal chain of bounded authority. */
module ExecutionLeaseSafety {
  import opened Foundations
  import opened RetainedEvidence
  import opened ExecutionLeaseDomain
  import opened ExecutionLeaseService

  // ---- replay, one record at a time ----------------------------------------

  lemma {:induction false} ReplayPrefix(e: Evidence, repo: Repository, h: seq<Record>, n: nat)
    requires Replay(e, repo, h).Ok? && n <= |h|
    ensures Replay(e, repo, h[..n]).Ok?
    decreases |h|
  {
    hide ReplayRecord;
    if n == |h| {
      assert h[..n] == h;
    } else {
      ReplayPrefix(e, repo, h[..|h| - 1], n);
      assert h[..|h| - 1][..n] == h[..n];
    }
  }

  lemma {:induction false} FailedReplayFails(e: Evidence, repo: Repository, h: seq<Record>, n: nat)
    requires n <= |h| && Replay(e, repo, h[..n]).Err?
    ensures Replay(e, repo, h) == Err(Replay(e, repo, h[..n]).error)
    decreases |h|
  {
    hide ReplayRecord;
    if n == |h| {
      assert h[..n] == h;
    } else {
      assert h[..|h| - 1][..n] == h[..n];
      FailedReplayFails(e, repo, h[..|h| - 1], n);
    }
  }

  /** A replayed record is exactly what `Decide` made of its request under the retained evidence. */
  ghost predicate Decided(e: Evidence, repo: Repository, s: DerivedState, r: Record, found: Resolved,
                          decision: Decision) {
    && Resolve(e, repo, r.request) == Ok(found)
    && r.request.expectedVersion == s.lineageVersion
    && Decide(r.request, s) == Ok(decision)
    && r.event.document == EventPayload(r.request, found, decision, s.lineageVersion + 1, r.idempotencyIdentity)
    && r.event == EventFor(r.event.document, r.event.recordedAt)
    && r.inputContent == CanonicalInput(r.request, found, decision.generation)
    && WellFormedEvent(r.event)
  }

  lemma AdmittedRecord(e: Evidence, repo: Repository, key: LineageKey, s: DerivedState, r: Record)
    returns (found: Resolved, decision: Decision)
    requires ReplayRecord(e, repo, key, s, r).Ok?
    ensures r.request.key == key
    ensures Decided(e, repo, s, r, found, decision)
    ensures AdvanceState(s, r.event) == ReplayRecord(e, repo, key, s, r)
  {
    found := Resolve(e, repo, r.request).value;
    decision := Decide(r.request, s).value;
  }

  // ---- the chain -----------------------------------------------------------

  /** A retained, approved authorization of the event's own scope covers its interval and its permissions. */
  ghost predicate Authorized(e: Evidence, event: Event) {
    var d := event.document;
    && d.authorizationReference.Some?
    && d.authorizationReference.value.artifactId in e.authorizations
    && var a := e.authorizations[d.authorizationReference.value.artifactId];
       && a.digest == d.authorizationReference.value.digest == AuthorizationDigest(a.document)
       && a.document.approved
       && a.document.organization == d.key.organization && a.document.workload == d.key.workload
       && a.document.plan == d.key.plan && a.document.workItem == d.key.workItem
       && d.permissions <= a.document.permissionCeiling
       && d.expiresAt.Some?
       && a.document.effectiveAt <= d.effectiveAt && d.expiresAt.value <= a.document.expiresAt
       && a.document.effectiveAt <= d.evaluationAt < a.document.expiresAt
  }

  /** The first event of a lineage. */
  predicate Opens(first: Event) {
    var d := first.document;
    d.eventType.Granted? && d.generation == 1 && d.priorEventId.None? && d.lineageVersion == 1
  }

  /** What each later event says about the one before it. */
  predicate Continues(prior: Event, next: Event) {
    var p, n := prior.document, next.document;
    && n.lineageVersion == p.lineageVersion + 1
    && n.priorEventId == Some(prior.eventId)
    && p.evaluationAt <= n.evaluationAt && p.effectiveAt <= n.effectiveAt
    && p.authorizationReference.Some? && n.authorizationReference.Some?
    && p.authorizationReference.value.artifactId != n.authorizationReference.value.artifactId
    && (|| (n.eventType.Renewed? && n.generation == p.generation && n.permissions <= p.permissions)
        || (n.eventType.Superseded? && n.generation == p.generation + 1 && n.supersededLeaseId == Some(p.leaseId)))
  }

  predicate Identified(event: Event, key: LineageKey) {
    var d := event.document;
    && d.key == key && d.lineageId == LineageIdentity(key)
    && d.leaseId == LeaseIdentity(LineageIdentity(key), d.generation)
    && event.eventId == EventIdentity(EventDigest(d), LineageIdentity(key), d.lineageVersion)
    && !d.eventType.Revoked?
    && d.generation >= 1 && d.permissions != {} && d.expiresAt.Some? && d.effectiveAt < d.expiresAt.value
  }

  /** The derived state is determined by the latest event alone. */
  predicate Coherent(s: DerivedState) {
    && s.terminalEvent.None?
    && s.authorityEvent == s.lastEvent
    && (s.lastEvent.None? <==> s.lineageVersion == 0)
    && (s.lastEvent.None? ==> s.generation == 0)
    && (s.lastEvent.Some? ==>
          && s.lineageVersion == s.lastEvent.value.document.lineageVersion
          && s.generation == s.lastEvent.value.document.generation
          && Identified(s.lastEvent.value, s.lastEvent.value.document.key)
          && s.lastEvent.value.document.authorizationReference.Some?)
  }

  lemma ResolvedIsAuthorized(e: Evidence, repo: Repository, request: Request, found: Resolved)
    requires ValidEvidence(e) && Resolve(e, repo, request) == Ok(found) && request.authorizationId.Some?
    ensures found.authorization.Some? && found.revocation.None?
    ensures var id, a := request.authorizationId.value, found.authorization.value;
            && id in e.authorizations && e.authorizations[id] == a && a.document.authorizationId == id
            && a.document.organization == request.key.organization && a.document.workload == request.key.workload
            && a.digest == AuthorizationDigest(a.document)
            && CheckAuthorization(request, a).Pass?
  {
    RequireReturnsRetained(AuthorizationSource(), e.authorizations, request.authorizationId.value,
                           request.key.organization, request.key.workload);
  }

  /** Fail closed: no revocation request ever resolves. */
  lemma RevocationNeverResolves(e: Evidence, repo: Repository, request: Request)
    requires ValidRequest(request) && request.operation.Revoke?
    ensures Resolve(e, repo, request).Err?
  {
  }

  /** Whatever was decided rests on retained authority and is no revocation. */
  lemma DecidedIsAuthorized(e: Evidence, repo: Repository, s: DerivedState, r: Record, found: Resolved,
                            decision: Decision)
    requires ValidEvidence(e) && ValidRequest(r.request) && Decided(e, repo, s, r, found, decision)
    ensures !r.request.operation.Revoke? && !decision.eventType.Revoked?
    ensures Authorized(e, r.event) && Identified(r.event, r.request.key)
    ensures var d := r.event.document;
            && d.lineageVersion == s.lineageVersion + 1
            && d.authorizationReference.Some?
            && r.request.authorizationId == Some(d.authorizationReference.value.artifactId)
            && d.permissions == r.request.permissions
            && d.effectiveAt == r.request.effectiveAt
            && d.evaluationAt == r.request.evaluationAt
            && d.priorEventId == r.request.priorEventId
  {
    hide Resolve, CanonicalInput, CheckAuthorization;
    if r.request.operation.Revoke? {
      RevocationNeverResolves(e, repo, r.request);
      assert false;
    }
    ResolvedIsAuthorized(e, repo, r.request, found);
    CheckedAuthorization(r.request, found.authorization.value);
  }

  lemma CheckedAuthorization(request: Request, a: AuthorizationEvidence)
    requires CheckAuthorization(request, a).Pass?
    ensures Some(a.digest) == request.authorizationDigest && a.document.approved
    ensures a.document.plan == request.key.plan && a.document.workItem == request.key.workItem
    ensures request.permissions <= a.document.permissionCeiling
    ensures a.document.effectiveAt <= request.evaluationAt < a.document.expiresAt
    ensures request.expiresAt.Some? && a.document.effectiveAt <= request.effectiveAt
            && request.expiresAt.value <= a.document.expiresAt
  {
  }

  predicate SameLineage(s: DerivedState, key: LineageKey) {
    s.lastEvent.Some? ==> s.lastEvent.value.document.key == key
  }

  /** A decision on a coherent state either opens the lineage or continues its latest event, and replay accepts it. */
  lemma DecidedContinues(e: Evidence, repo: Repository, s: DerivedState, r: Record, found: Resolved, decision: Decision)
    requires ValidEvidence(e) && ValidRequest(r.request) && Coherent(s) && SameLineage(s, r.request.key)
    requires Decided(e, repo, s, r, found, decision)
    ensures s.lastEvent.None? ==> Opens(r.event)
    ensures s.lastEvent.Some? ==> Continues(s.lastEvent.value, r.event)
    ensures AdvanceState(s, r.event)
              == Ok(DerivedState(s.lineageVersion + 1, r.event.document.generation, Some(r.event), None, Some(r.event)))
  {
    hide Resolve, CanonicalInput, Authorized;
    DecidedIsAuthorized(e, repo, s, r, found, decision);
  }

  /** The derived state read off the latest event of a history. */
  function Latest(h: seq<Record>): DerivedState {
    if h == [] then INITIAL_STATE
    else
      var last := h[|h| - 1].event;
      DerivedState(|h|, last.document.generation, Some(last), None, Some(last))
  }

  ghost predicate LinkAt(h: seq<Record>, i: nat)
    requires i < |h|
  {
    && Identified(h[i].event, h[0].request.key) && h[i].request.key == h[0].request.key
    && (if i == 0 then Opens(h[i].event) else Continues(h[i - 1].event, h[i].event))
  }

  /** One grant, then renewals and supersessions, each naming the event before it. */
  ghost predicate Chain(h: seq<Record>) {
    forall i: nat {:trigger LinkAt(h, i)} :: i < |h| ==> LinkAt(h, i)
  }

  ghost predicate AllAuthorized(e: Evidence, h: seq<Record>) {
    forall i :: 0 <= i < |h| ==> Authorized(e, h[i].event)
  }

  ghost predicate AllRequestsValid(h: seq<Record>) {
    forall i :: 0 <= i < |h| ==> ValidRequest(h[i].request)
  }

  lemma ChainStep(e: Evidence, repo: Repository, h: seq<Record>, r: Record)
    requires ValidEvidence(e) && ValidRequest(r.request) && Chain(h) && AllAuthorized(e, h)
    requires ReplayRecord(e, repo, (h + [r])[0].request.key, Latest(h), r).Ok?
    ensures Chain(h + [r]) && AllAuthorized(e, h + [r])
    ensures ReplayRecord(e, repo, (h + [r])[0].request.key, Latest(h), r) == Ok(Latest(h + [r]))
  {
    hide ReplayRecord, Decided, Authorized, Continues;
    var all := h + [r];
    LatestIsCoherent(e, h);
    var found, decision := AdmittedRecord(e, repo, all[0].request.key, Latest(h), r);
    DecidedIsAuthorized(e, repo, Latest(h), r, found, decision);
    DecidedContinues(e, repo, Latest(h), r, found, decision);
    forall i: nat | i < |all| ensures LinkAt(all, i) {
      if i < |h| {
        assert LinkAt(h, i);
      }
    }
  }

  lemma LatestIsCoherent(e: Evidence, h: seq<Record>)
    requires Chain(h) && AllAuthorized(e, h)
    ensures Coherent(Latest(h)) && Latest(h).lineageVersion == |h|
    ensures h != [] ==> SameLineage(Latest(h), h[0].request.key)
  {
    if h != [] {
      VersionsAreContiguous(h, |h| - 1);
      assert LinkAt(h, |h| - 1) && Authorized(e, h[|h| - 1].event);
    }
  }

  lemma {:induction false} VersionsAreContiguous(h: seq<Record>, i: nat)
    requires Chain(h) && i < |h|
    ensures h[i].event.document.lineageVersion == i + 1
  {
    assert LinkAt(h, i);
    if i > 0 {
      VersionsAreContiguous(h, i - 1);
    }
  }

  /** Every lineage replay accepts is one authorized chain, and its derived state is its latest event. */
  lemma {:induction false} ReplayIsChain(e: Evidence, repo: Repository, h: seq<Record>)
    requires ValidEvidence(e) && AllRequestsValid(h) && Replay(e, repo, h).Ok?
    ensures Chain(h) && AllAuthorized(e, h) && Replay(e, repo, h) == Ok(Latest(h))
  {
    hide ReplayRecord, Authorized, LinkAt;
    if h != [] {
      var n := |h| - 1;
      ReplayIsChain(e, repo, h[..n]);
      assert h[..n] + [h[n]] == h;
      ChainStep(e, repo, h[..n], h[n]);
    }
  }

  // ---- what a chain means --------------------------------------------------

  function Supersessions(h: seq<Record>): nat {
    if h == [] then 0
    else Supersessions(h[..|h| - 1]) + if h[|h| - 1].event.document.eventType.Superseded? then 1 else 0
  }

  /** The generation is one plus the number of supersessions so far. */
  lemma {:induction false} GenerationCountsSupersessions(h: seq<Record>, i: nat)
    requires Chain(h) && i < |h|
    ensures h[i].event.document.generation == 1 + Supersessions(h[..i + 1])
  {
    assert LinkAt(h, i);
    assert h[..i + 1][..i] == h[..i];
    if i > 0 {
      GenerationCountsSupersessions(h, i - 1);
    } else {
      assert h[..0] == [];
    }
  }

  /** Generations, effective times and evaluation times never go back; within a generation permissions only shrink. */
  lemma {:induction false} AuthorityNarrows(h: seq<Record>, i: nat, j: nat)
    requires Chain(h) && i <= j < |h|
    ensures var a, b := h[i].event.document, h[j].event.document;
            && a.generation <= b.generation
            && a.effectiveAt <= b.effectiveAt
            && a.evaluationAt <= b.evaluationAt
            && (a.generation == b.generation ==> b.permissions <= a.permissions)
    decreases j
  {
    if i < j {
      AuthorityNarrows(h, i, j - 1);
      assert LinkAt(h, j);
    }
  }

  predicate SameLease(a: Event, b: Event) {
    a.document.leaseId == b.document.leaseId
  }

  /** Lease identities agree exactly within a generation; event identities are never reused. */
  lemma IdentitiesFollowPosition(h: seq<Record>, i: nat, j: nat)
    requires Chain(h) && i < |h| && j < |h|
    ensures SameLease(h[i].event, h[j].event) == (h[i].event.document.generation == h[j].event.document.generation)
    ensures h[i].event.eventId == h[j].event.eventId ==> i == j
  {
    assert LinkAt(h, i) && LinkAt(h, j);
    VersionsAreContiguous(h, i);
    VersionsAreContiguous(h, j);
  }

  /** The laws of one lineage, together. */
  ghost predicate LeaseLaws(e: Evidence, h: seq<Record>) {
    && Chain(h) && AllAuthorized(e, h)
    && (forall i {:trigger h[i]} :: 0 <= i < |h| ==>
          && h[i].event.document.lineageVersion == i + 1
          && h[i].event.document.generation == 1 + Supersessions(h[..i + 1])
          && !h[i].event.document.eventType.Revoked?)
    && (forall i, j :: 0 <= i <= j < |h| ==>
          && h[i].event.document.effectiveAt <= h[j].event.document.effectiveAt
          && h[i].event.document.evaluationAt <= h[j].event.document.evaluationAt
          && (h[i].event.document.generation == h[j].event.document.generation ==>
                h[j].event.document.permissions <= h[i].event.document.permissions))
    && (forall i, j :: 0 <= i < |h| && 0 <= j < |h| ==>
          SameLease(h[i].event, h[j].event) == (h[i].event.document.generation == h[j].event.document.generation))
  }

  lemma ChainObeysLaws(e: Evidence, h: seq<Record>)
    requires Chain(h) && AllAuthorized(e, h)
    ensures LeaseLaws(e, h)
  {
    hide Chain, AllAuthorized, Continues, Opens;
    forall i: nat | i < |h|
      ensures h[i].event.document.lineageVersion == i + 1
      ensures h[i].event.document.generation == 1 + Supersessions(h[..i + 1])
      ensures !h[i].event.document.eventType.Revoked?
    {
      VersionsAreContiguous(h, i);
      GenerationCountsSupersessions(h, i);
      NeverRevoked(h, i);
    }
    forall i: nat, j: nat | i <= j < |h|
      ensures && h[i].event.document.effectiveAt <= h[j].event.document.effectiveAt
              && h[i].event.document.evaluationAt <= h[j].event.document.evaluationAt
              && (h[i].event.document.generation == h[j].event.document.generation ==>
                    h[j].event.document.permissions <= h[i].event.document.permissions)
    {
      AuthorityNarrows(h, i, j);
    }
    forall i: nat, j: nat | i < |h| && j < |h|
      ensures SameLease(h[i].event, h[j].event) == (h[i].event.document.generation == h[j].event.document.generation)
    {
      IdentitiesFollowPosition(h, i, j);
    }
  }

  lemma NeverRevoked(h: seq<Record>, i: nat)
    requires Chain(h) && i < |h|
    ensures !h[i].event.document.eventType.Revoked?
  {
    assert LinkAt(h, i);
  }
}
