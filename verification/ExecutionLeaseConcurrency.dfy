/** Any number of callers evaluating Execution Lease requests at once: only single repository and evidence calls are
    atomic. */
module ExecutionLeaseConcurrency {
  import opened Foundations
  import opened RetainedEvidence
  import opened ExecutionLeaseDomain
  import opened ExecutionLeaseService
  import opened ExecutionLeaseSafety

  // ---- the step relation ---------------------------------------------------

  /** Where one call of `evaluate` stands between two atomic steps. */
  datatype Phase =
    | Submitted
    | LookedUp(prior: Option<Record>)
    | EvidenceFound(found: Resolved)
    | Replaying(found: Resolved, history: seq<Record>, next: nat, state: DerivedState)
    | DecisionMade(found: Resolved, decision: Decision)
    | Publishing(record: Record)
    | Finished(result: Result<EvaluationResult, RuntimeError>)

  datatype Caller = Caller(request: Request, phase: Phase)

  datatype World = World(evidence: Evidence, repo: Repository, callers: seq<Caller>)

  const INITIAL_WORLD := World(NO_EVIDENCE, EMPTY_REPOSITORY, [])

  /** One atomic step of one caller. A revocation reads the repository besides its evidence; both reads are one step
      here, which loses nothing because every combination of their outcomes is an error. */
  function CallerStep(e: Evidence, repo: Repository, c: Caller, clock: int, commit: CommitOutcome)
    : (Repository, Phase)
  {
    match c.phase
    case Submitted =>
      var prior := IdempotencyRecord(repo, c.request);
      (repo, if prior.Some? && prior.value.request != c.request then Finished(Err(IdempotencyConflict))
             else LookedUp(prior))
    case LookedUp(prior) =>
      var found := Resolve(e, repo, c.request);
      (repo, if found.Err? then Finished(Err(found.error))
             else if prior.Some? then Finished(RetryAnswer(prior.value, c.request, found.value))
             else EvidenceFound(found.value))
    case EvidenceFound(found) =>
      var history := History(repo, c.request.key);
      (repo, if c.request.expectedVersion != |history| then Finished(Err(VersionConflict))
             else Replaying(found, history, 0, INITIAL_STATE))
    case Replaying(found, history, next, state) =>
      if next < |history| then
        var replayed := ReplayRecord(e, repo, history[0].request.key, state, history[next]);
        (repo, if replayed.Err? then Finished(Err(replayed.error))
               else Replaying(found, history, next + 1, replayed.value))
      else
        var decision := Decide(c.request, state);
        (repo, if decision.Err? then Finished(Err(decision.error)) else DecisionMade(found, decision.value))
    case DecisionMade(found, decision) =>
      var input := CanonicalInput(c.request, found, decision.generation);
      var prior := Idempotent(repo, c.request.key, IdempotencyOf(c.request), input);
      if prior.Err? then (repo, Finished(Err(prior.error)))
      else if prior.value.Some? then (repo, Finished(Ok(EvaluationResult(ExistingEquivalent, prior.value.value))))
      else
        var proposal := Proposed(found, c.request, decision, clock);
        (repo, if proposal.Err? then Finished(Err(proposal.error)) else Publishing(proposal.value))
    case Publishing(record) =>
      var (later, result) := Append(repo, record, c.request.expectedVersion, commit);
      (later, Finished(result))
    case Finished(_) => (repo, c.phase)
  }

  /** What may happen next: evidence is retained, a request is submitted, or one caller takes one step. */
  datatype Action =
    | RetainAuthorization(authorization: AuthorizationEvidence)
    | RetainRevocation(revocation: RevocationEvidence)
    | Submit(request: Request)
    | Advance(caller: nat, clock: int, commit: CommitOutcome)

  /** An action that raises, or that names no caller, leaves the world as it was. */
  function Next(w: World, action: Action): World {
    match action
    case RetainAuthorization(a) =>
      var items := Retained(AuthorizationSource(), w.evidence.authorizations, a);
      if items.Err? then w else w.(evidence := w.evidence.(authorizations := items.value))
    case RetainRevocation(r) =>
      var items := Retained(RevocationSource(), w.evidence.revocations, r);
      if items.Err? then w else w.(evidence := w.evidence.(revocations := items.value))
    case Submit(request) =>
      if ValidRequest(request) then w.(callers := w.callers + [Caller(request, Submitted)]) else w
    case Advance(i, clock, commit) =>
      if i >= |w.callers| then w else
      var (repo, phase) := CallerStep(w.evidence, w.repo, w.callers[i], clock, commit);
      w.(repo := repo, callers := w.callers[i := w.callers[i].(phase := phase)])
  }

  /** The world after a schedule; every interleaving is some schedule. */
  function Run(schedule: seq<Action>): World {
    if schedule == [] then INITIAL_WORLD
    else Next(Run(schedule[..|schedule| - 1]), schedule[|schedule| - 1])
  }

  // ---- what only grows -----------------------------------------------------

  ghost predicate StreamGrows(repo: Repository, later: Repository, k: LineageKey) {
    History(repo, k) <= History(later, k)
  }

  ghost predicate RepositoryGrows(repo: Repository, later: Repository) {
    && (forall k {:trigger StreamGrows(repo, later, k)} :: StreamGrows(repo, later, k))
    && (forall k :: k in repo.idempotency ==> k in later.idempotency && later.idempotency[k] == repo.idempotency[k])
  }

  lemma NoGrowth(repo: Repository)
    ensures RepositoryGrows(repo, repo)
  {
    forall k ensures StreamGrows(repo, repo, k) {}
  }

  /** A final answer of `_resolve` cannot be changed by later evidence or later events. */
  lemma ResolveIsStable(e: Evidence, later: Evidence, repo: Repository, repo': Repository, request: Request)
    requires EvidenceGrows(e, later) && request.revocationId.None?
    requires Resolve(e, repo, request) != Err(EvidenceUnavailable)
    ensures Resolve(later, repo', request) == Resolve(e, repo, request)
  {
    hide CheckAuthorization, ValidateAuthorization;
    if request.authorizationId.Some? {
      RequireIsStable(AuthorizationSource(), e.authorizations, later.authorizations, request.authorizationId.value,
                      request.key.organization, request.key.workload);
    }
  }

  lemma ResolvedIsNoRevocation(e: Evidence, repo: Repository, request: Request)
    requires Resolve(e, repo, request).Ok?
    ensures request.revocationId.None?
  {
  }

  lemma ReplayRecordIsStable(e: Evidence, later: Evidence, repo: Repository, repo': Repository, key: LineageKey,
                             s: DerivedState, r: Record)
    requires EvidenceGrows(e, later) && ReplayRecord(e, repo, key, s, r).Ok?
    ensures ReplayRecord(later, repo', key, s, r) == ReplayRecord(e, repo, key, s, r)
  {
    hide Decide, BuildRecord, AdvanceState, Resolve, CanonicalInput, VerifiesRecordedContent;
    ResolvedIsNoRevocation(e, repo, r.request);
    ResolveIsStable(e, later, repo, repo', r.request);
  }

  lemma {:induction false} ReplayIsStable(e: Evidence, later: Evidence, repo: Repository, repo': Repository,
                                          h: seq<Record>)
    requires EvidenceGrows(e, later) && Replay(e, repo, h).Ok?
    ensures Replay(later, repo', h) == Replay(e, repo, h)
  {
    hide ReplayRecord, EvidenceGrows;
    if h != [] {
      ReplayIsStable(e, later, repo, repo', h[..|h| - 1]);
      ReplayRecordIsStable(e, later, repo, repo', h[0].request.key, Replay(e, repo, h[..|h| - 1]).value, h[|h| - 1]);
    }
  }

  // ---- what is decided is accepted -----------------------------------------

  /** The event constructor accepts every decision on a coherent state. */
  lemma ProposalIsWellFormed(e: Evidence, repo: Repository, request: Request, found: Resolved, s: DerivedState,
                             decision: Decision, clock: int)
    requires ValidEvidence(e) && ValidRequest(request) && Resolve(e, repo, request) == Ok(found)
    requires Coherent(s) && Decide(request, s) == Ok(decision)
    ensures Proposed(found, request, decision, clock).Ok?
  {
    hide Resolve, CanonicalInput, CheckAuthorization, ValidEvidence;
    if request.operation.Revoke? {
      RevocationNeverResolves(e, repo, request);
      assert false;
    }
    ResolvedIsAuthorized(e, repo, request, found);
  }

  lemma ProposalIsDecided(e: Evidence, repo: Repository, request: Request, found: Resolved, s: DerivedState,
                          decision: Decision, clock: int, r: Record)
    requires Resolve(e, repo, request) == Ok(found) && s.lineageVersion == request.expectedVersion
    requires Decide(request, s) == Ok(decision) && Proposed(found, request, decision, clock) == Ok(r)
    ensures r.request == request && r.idempotencyIdentity == IdempotencyOf(request) && r.event.recordedAt == clock
    ensures Decided(e, repo, s, r, found, decision)
  {
    hide Resolve, Decide, CanonicalInput;
  }

  /** Every event `Decide` allows is one the event constructor and `AdvanceState` accept. */
  lemma DecisionIsAccepted(e: Evidence, repo: Repository, request: Request, found: Resolved, s: DerivedState,
                           decision: Decision, clock: int) returns (r: Record)
    requires ValidEvidence(e) && ValidRequest(request) && Resolve(e, repo, request) == Ok(found)
    requires Coherent(s) && SameLineage(s, request.key) && s.lineageVersion == request.expectedVersion
    requires Decide(request, s) == Ok(decision)
    ensures Proposed(found, request, decision, clock) == Ok(r)
    ensures r.request == request && r.idempotencyIdentity == IdempotencyOf(request) && r.event.recordedAt == clock
    ensures Decided(e, repo, s, r, found, decision)
    ensures AdvanceState(s, r.event).Ok?
  {
    hide Resolve, Decide, Proposed, Decided, AdvanceState, Coherent, SameLineage, ValidRequest;
    ProposalIsWellFormed(e, repo, request, found, s, decision, clock);
    r := Proposed(found, request, decision, clock).value;
    ProposalIsDecided(e, repo, request, found, s, decision, clock, r);
    DecidedContinues(e, repo, s, r, found, decision);
  }

  lemma DecidedReplays(e: Evidence, repo: Repository, s: DerivedState, r: Record, found: Resolved, decision: Decision)
    requires Decided(e, repo, s, r, found, decision) && AdvanceState(s, r.event).Ok?
    requires Proposed(found, r.request, decision, r.event.recordedAt) == Ok(r)
    requires r.idempotencyIdentity == IdempotencyOf(r.request)
    ensures ReplayRecord(e, repo, r.request.key, s, r) == AdvanceState(s, r.event)
  {
    hide Resolve, Decide, CanonicalInput, AdvanceState;
  }

  /** A proposed record extends the replayed history to a history that replays. */
  lemma ProposalReplays(e: Evidence, repo: Repository, h: seq<Record>, request: Request, found: Resolved,
                        decision: Decision, clock: int, r: Record)
    requires ValidEvidence(e) && ValidRequest(request) && Resolve(e, repo, request) == Ok(found)
    requires AllRequestsValid(h) && Replay(e, repo, h).Ok? && |h| == request.expectedVersion
    requires h != [] ==> h[0].request.key == request.key
    requires Decide(request, Replay(e, repo, h).value) == Ok(decision)
    requires Proposed(found, request, decision, clock) == Ok(r)
    ensures Replay(e, repo, h + [r]).Ok?
    ensures r.request == request && r.idempotencyIdentity == IdempotencyOf(request) && r.event.recordedAt == clock
    ensures r.event.document.lineageVersion == |h| + 1
  {
    hide ReplayRecord, Decide, Resolve, AdvanceState, Chain, AllAuthorized, Coherent, Proposed;
    ReplayIsChain(e, repo, h);
    LatestIsCoherent(e, h);
    var r' := DecisionIsAccepted(e, repo, request, found, Latest(h), decision, clock);
    DecidedReplays(e, repo, Latest(h), r, found, decision);
    assert (h + [r])[..|h|] == h;
  }

  // ---- the repository indexes ----------------------------------------------

  ghost predicate Placed(repo: Repository, r: Record) {
    var history, v := History(repo, r.request.key), r.event.document.lineageVersion;
    1 <= v <= |history| && history[v - 1] == r
  }

  /** The record at position `i` of a stream is where every index says it is. */
  ghost predicate IndexedAt(repo: Repository, k: LineageKey, i: nat)
    requires i < |History(repo, k)|
  {
    var r := History(repo, k)[i];
    && r.request.key == k && r.event.document.lineageVersion == i + 1
    && r.event.eventId in repo.byId && repo.byId[r.event.eventId] == r
    && IdempotencyKeyOf(r) in repo.idempotency && repo.idempotency[IdempotencyKeyOf(r)] == r
  }

  ghost predicate IdentityAgrees(repo: Repository, id: Digest) {
    id in repo.byId ==> Placed(repo, repo.byId[id]) && repo.byId[id].event.eventId == id
  }

  ghost predicate IdempotencyAgrees(repo: Repository, key: IdempotencyKey) {
    key in repo.idempotency ==> Placed(repo, repo.idempotency[key]) && IdempotencyKeyOf(repo.idempotency[key]) == key
  }

  ghost predicate CurrentAgrees(repo: Repository, k: LineageKey) {
    var h := History(repo, k);
    && (k in repo.current <==> h != [])
    && (k in repo.current ==> repo.current[k] == h[|h| - 1].event)
  }

  /** Streams, identity index, idempotency index and current pointers agree. */
  ghost predicate IndexesAgree(repo: Repository) {
    && (forall k, i {:trigger IndexedAt(repo, k, i)} :: 0 <= i < |History(repo, k)| ==> IndexedAt(repo, k, i))
    && (forall id {:trigger IdentityAgrees(repo, id)} :: IdentityAgrees(repo, id))
    && (forall key {:trigger IdempotencyAgrees(repo, key)} :: IdempotencyAgrees(repo, key))
    && (forall k {:trigger CurrentAgrees(repo, k)} :: CurrentAgrees(repo, k))
  }

  /** A record that follows its stream, is new to both key indexes and names its own position. */
  predicate Fresh(repo: Repository, r: Record) {
    && IdempotencyKeyOf(r) !in repo.idempotency
    && r.event.document.lineageVersion == |History(repo, r.request.key)| + 1
    && r.event.eventId !in repo.byId
  }

  lemma PublishExtendsOneStream(repo: Repository, r: Record, k: LineageKey)
    ensures History(Publish(repo, r), k) == History(repo, k) + (if k == r.request.key then [r] else [])
  {
  }

  lemma PublishGrows(repo: Repository, r: Record)
    requires Fresh(repo, r)
    ensures RepositoryGrows(repo, Publish(repo, r))
  {
    forall k ensures StreamGrows(repo, Publish(repo, r), k) {
      PublishExtendsOneStream(repo, r, k);
    }
  }

  lemma PublishKeepsIndexed(repo: Repository, r: Record, k: LineageKey, i: nat)
    requires IndexesAgree(repo) && Fresh(repo, r) && i < |History(Publish(repo, r), k)|
    ensures IndexedAt(Publish(repo, r), k, i)
  {
    PublishExtendsOneStream(repo, r, k);
    if i < |History(repo, k)| {
      assert IndexedAt(repo, k, i);
    }
  }

  lemma PublishKeepsPlaced(repo: Repository, r: Record, placed: Record)
    requires Fresh(repo, r) && (Placed(repo, placed) || placed == r)
    ensures Placed(Publish(repo, r), placed)
  {
    PublishExtendsOneStream(repo, r, placed.request.key);
  }

  lemma PublishKeepsIndexes(repo: Repository, r: Record)
    requires IndexesAgree(repo) && Fresh(repo, r)
    ensures IndexesAgree(Publish(repo, r))
  {
    var later := Publish(repo, r);
    forall k, i | 0 <= i < |History(later, k)| ensures IndexedAt(later, k, i) {
      PublishKeepsIndexed(repo, r, k, i);
    }
    forall id ensures IdentityAgrees(later, id) {
      assert IdentityAgrees(repo, id);
      if id in later.byId {
        PublishKeepsPlaced(repo, r, later.byId[id]);
      }
    }
    forall key ensures IdempotencyAgrees(later, key) {
      assert IdempotencyAgrees(repo, key);
      if key in later.idempotency {
        PublishKeepsPlaced(repo, r, later.idempotency[key]);
      }
    }
    forall k ensures CurrentAgrees(later, k) {
      assert CurrentAgrees(repo, k);
      PublishExtendsOneStream(repo, r, k);
    }
  }

  // ---- the invariant -------------------------------------------------------

  /** Every stream replays, and each of its records came from a valid request under that request's identity. */
  ghost predicate StreamReplays(e: Evidence, repo: Repository, k: LineageKey) {
    var h := History(repo, k);
    && Replay(e, repo, h).Ok?
    && AllRequestsValid(h)
    && (forall i :: 0 <= i < |h| ==> h[i].idempotencyIdentity == IdempotencyOf(h[i].request))
  }

  ghost predicate RepositoryInvariant(e: Evidence, repo: Repository) {
    && IndexesAgree(repo)
    && (forall k {:trigger StreamReplays(e, repo, k)} :: StreamReplays(e, repo, k))
  }

  /** The request is decided on exactly the first `expectedVersion` events of its lineage. */
  ghost predicate DecidedOn(e: Evidence, repo: Repository, request: Request, found: Resolved, decision: Decision) {
    var h := History(repo, request.key);
    && request.expectedVersion <= |h|
    && Resolve(e, repo, request) == Ok(found)
    && Replay(e, repo, h[..request.expectedVersion]).Ok?
    && Decide(request, Replay(e, repo, h[..request.expectedVersion]).value) == Ok(decision)
  }

  ghost predicate ProposedOn(e: Evidence, repo: Repository, request: Request, r: Record) {
    exists found, decision ::
      DecidedOn(e, repo, request, found, decision) && Proposed(found, request, decision, r.event.recordedAt) == Ok(r)
  }

  /** The idempotency index answers the request with exactly this event. */
  ghost predicate Retains(repo: Repository, request: Request, event: Event) {
    var key := (request.key, IdempotencyOf(request));
    key in repo.idempotency && repo.idempotency[key].request == request && repo.idempotency[key].event == event
  }

  ghost predicate Taken(repo: Repository, request: Request) {
    var key := (request.key, IdempotencyOf(request));
    key in repo.idempotency && repo.idempotency[key].request != request
  }

  ghost predicate Refused(e: Evidence, repo: Repository, request: Request) {
    var h := History(repo, request.key);
    && request.expectedVersion <= |h|
    && Replay(e, repo, h[..request.expectedVersion]).Ok?
    && Decide(request, Replay(e, repo, h[..request.expectedVersion]).value).Err?
  }

  /** Why a caller may have failed, in terms that stay true: a race or a fault, a revocation, evidence that fails its
      checks, an idempotency identity taken by another request, or a history on which the decision is illegal. */
  ghost predicate Justified(e: Evidence, repo: Repository, request: Request, error: RuntimeError) {
    || error.VersionConflict? || error.EvidenceUnavailable? || error.PersistenceFailure?
    || request.operation.Revoke?
    || Resolve(e, repo, request) == Err(error)
    || Taken(repo, request)
    || Refused(e, repo, request)
  }

  ghost predicate PhaseInvariant(e: Evidence, repo: Repository, request: Request, phase: Phase) {
    match phase
    case Submitted => true
    case LookedUp(prior) => prior.Some? ==> IdempotencyRecord(repo, request) == prior && prior.value.request == request
    case EvidenceFound(found) => Resolve(e, repo, request) == Ok(found)
    case Replaying(found, history, next, state) =>
      && Resolve(e, repo, request) == Ok(found)
      && |history| == request.expectedVersion && history <= History(repo, request.key)
      && next <= |history| && Replay(e, repo, history[..next]) == Ok(state)
    case DecisionMade(found, decision) => DecidedOn(e, repo, request, found, decision)
    case Publishing(record) => ProposedOn(e, repo, request, record)
    case Finished(Ok(result)) => Retains(repo, request, result.event)
    case Finished(Err(error)) => Justified(e, repo, request, error)
  }

  ghost predicate CallerInvariant(e: Evidence, repo: Repository, c: Caller) {
    ValidRequest(c.request) && PhaseInvariant(e, repo, c.request, c.phase)
  }

  ghost predicate Invariant(w: World) {
    && ValidEvidence(w.evidence)
    && RepositoryInvariant(w.evidence, w.repo)
    && (forall i :: 0 <= i < |w.callers| ==> CallerInvariant(w.evidence, w.repo, w.callers[i]))
  }

  // ---- stability under the steps of everybody else -------------------------

  lemma PrefixIsStable(e: Evidence, later: Evidence, repo: Repository, repo': Repository, k: LineageKey, n: nat)
    requires EvidenceGrows(e, later) && RepositoryGrows(repo, repo') && n <= |History(repo, k)|
    requires Replay(e, repo, History(repo, k)[..n]).Ok?
    ensures n <= |History(repo', k)|
    ensures Replay(later, repo', History(repo', k)[..n]) == Replay(e, repo, History(repo, k)[..n])
  {
    hide Replay, EvidenceGrows;
    assert StreamGrows(repo, repo', k);
    assert History(repo, k)[..n] == History(repo', k)[..n];
    ReplayIsStable(e, later, repo, repo', History(repo, k)[..n]);
  }

  lemma DecidedOnIsStable(e: Evidence, later: Evidence, repo: Repository, repo': Repository, request: Request,
                          found: Resolved, decision: Decision)
    requires EvidenceGrows(e, later) && RepositoryGrows(repo, repo') && DecidedOn(e, repo, request, found, decision)
    ensures DecidedOn(later, repo', request, found, decision)
  {
    hide Replay, Resolve, Decide, EvidenceGrows, RepositoryGrows;
    ResolvedIsNoRevocation(e, repo, request);
    ResolveIsStable(e, later, repo, repo', request);
    PrefixIsStable(e, later, repo, repo', request.key, request.expectedVersion);
  }

  lemma JustifiedIsStable(e: Evidence, later: Evidence, repo: Repository, repo': Repository, request: Request,
                          error: RuntimeError)
    requires EvidenceGrows(e, later) && RepositoryGrows(repo, repo') && ValidRequest(request)
    requires Justified(e, repo, request, error)
    ensures Justified(later, repo', request, error)
  {
    hide Replay, Resolve, Decide, EvidenceGrows;
    if !request.operation.Revoke? && Resolve(e, repo, request) == Err(error) && error != EvidenceUnavailable {
      ResolveIsStable(e, later, repo, repo', request);
    }
    if Refused(e, repo, request) {
      PrefixIsStable(e, later, repo, repo', request.key, request.expectedVersion);
    }
  }

  lemma PhaseIsStable(e: Evidence, later: Evidence, repo: Repository, repo': Repository, request: Request, phase: Phase)
    requires EvidenceGrows(e, later) && RepositoryGrows(repo, repo') && ValidRequest(request)
    requires PhaseInvariant(e, repo, request, phase)
    ensures PhaseInvariant(later, repo', request, phase)
  {
    hide Replay, Resolve, Decide, EvidenceGrows, DecidedOn, Justified, Proposed, ValidRequest;
    match phase
    case Submitted =>
    case LookedUp(_) =>
    case EvidenceFound(_) =>
      ResolvedIsNoRevocation(e, repo, request);
      ResolveIsStable(e, later, repo, repo', request);
    case Replaying(_, history, next, _) =>
      ResolvedIsNoRevocation(e, repo, request);
      ResolveIsStable(e, later, repo, repo', request);
      ReplayIsStable(e, later, repo, repo', history[..next]);
      assert StreamGrows(repo, repo', request.key);
    case DecisionMade(found, decision) => DecidedOnIsStable(e, later, repo, repo', request, found, decision);
    case Publishing(record) =>
      var found, decision :| DecidedOn(e, repo, request, found, decision)
                             && Proposed(found, request, decision, record.event.recordedAt) == Ok(record);
      DecidedOnIsStable(e, later, repo, repo', request, found, decision);
    case Finished(Ok(_)) =>
    case Finished(Err(error)) => JustifiedIsStable(e, later, repo, repo', request, error);
  }

  lemma EvidenceKeepsInvariant(w: World, later: Evidence)
    requires Invariant(w) && ValidEvidence(later) && EvidenceGrows(w.evidence, later)
    ensures Invariant(w.(evidence := later))
  {
    hide Replay, PhaseInvariant, EvidenceGrows, IndexesAgree;
    NoGrowth(w.repo);
    forall k ensures StreamReplays(later, w.repo, k) {
      assert StreamReplays(w.evidence, w.repo, k);
      ReplayIsStable(w.evidence, later, w.repo, w.repo, History(w.repo, k));
    }
    forall i | 0 <= i < |w.callers| ensures CallerInvariant(later, w.repo, w.callers[i]) {
      assert CallerInvariant(w.evidence, w.repo, w.callers[i]);
      PhaseIsStable(w.evidence, later, w.repo, w.repo, w.callers[i].request, w.callers[i].phase);
    }
  }

  // ---- every step keeps the invariant --------------------------------------

  /** Identity and canonical input together determine the whole request. */
  lemma InputDeterminesRequest(e: Evidence, repo: Repository, r: Request, r': Request, f: Resolved, f': Resolved,
                               g: int, g': int)
    requires ValidEvidence(e) && ValidRequest(r) && ValidRequest(r')
    requires Resolve(e, repo, r) == Ok(f) && Resolve(e, repo, r') == Ok(f')
    requires CanonicalInput(r, f, g) == CanonicalInput(r', f', g')
    ensures r == r'
  {
    hide CheckAuthorization;
    ResolvedIsNoRevocation(e, repo, r);
    ResolvedIsNoRevocation(e, repo, r');
    ResolvedIsAuthorized(e, repo, r, f);
    ResolvedIsAuthorized(e, repo, r', f');
    CheckedBoundary(r, f.authorization.value);
    CheckedBoundary(r', f'.authorization.value);
  }

  lemma CheckedBoundary(request: Request, a: AuthorizationEvidence)
    requires CheckAuthorization(request, a).Pass?
    ensures request.authorizationDigest == Some(a.digest)
    ensures request.authorizationBoundary == Some(a.document.historyBoundary)
  {
  }

  /** A retained record is what its request decides on the events before it. */
  lemma RetainedIsDecided(e: Evidence, repo: Repository, k: LineageKey, i: nat)
    returns (found: Resolved, decision: Decision)
    requires RepositoryInvariant(e, repo) && i < |History(repo, k)|
    ensures var r := History(repo, k)[i];
            && r.request.key == k && r.request.expectedVersion == i && ValidRequest(r.request)
            && DecidedOn(e, repo, r.request, found, decision)
            && r.inputContent == CanonicalInput(r.request, found, decision.generation)
            && r.event.document.generation == decision.generation
            && Proposed(found, r.request, decision, r.event.recordedAt) == Ok(r)
    ensures Replay(e, repo, History(repo, k)[..i]).Ok?
    ensures ValidEvidence(e) ==> Replay(e, repo, History(repo, k)[..i]).value.lineageVersion == i
  {
    hide ReplayRecord, Resolve, Decide, CanonicalInput, IndexesAgree, WellFormedEvent, ValidRequest, AdvanceState,
         Proposed, EventFor, ValidEvidence;
    var h := History(repo, k);
    assert StreamReplays(e, repo, k);
    assert IndexedAt(repo, k, i) by { IndexesGiveStream(repo, k, i); }
    ReplayPrefix(e, repo, h, i + 1);
    assert h[..i + 1][..i] == h[..i];
    found, decision := AdmittedRecord(e, repo, h[0].request.key, Replay(e, repo, h[..i]).value, h[i]);
    DecidedVersion(e, repo, h, i, found, decision);
  }

  lemma IndexesGiveStream(repo: Repository, k: LineageKey, i: nat)
    requires IndexesAgree(repo) && i < |History(repo, k)|
    ensures IndexedAt(repo, k, i)
  {
  }

  lemma {:induction false} ReplayCountsVersions(e: Evidence, repo: Repository, h: seq<Record>)
    requires Replay(e, repo, h).Ok?
    ensures Replay(e, repo, h).value.lineageVersion == |h|
  {
    hide Resolve, Decide, BuildRecord, CanonicalInput, VerifiesRecordedContent;
    if h != [] {
      ReplayCountsVersions(e, repo, h[..|h| - 1]);
    }
  }

  lemma DecidedVersion(e: Evidence, repo: Repository, h: seq<Record>, i: nat, found: Resolved, decision: Decision)
    requires i < |h| && Replay(e, repo, h[..i]).Ok?
    requires Decided(e, repo, Replay(e, repo, h[..i]).value, h[i], found, decision)
    requires h[i].idempotencyIdentity == IdempotencyOf(h[i].request)
    requires ReplayRecord(e, repo, h[0].request.key, Replay(e, repo, h[..i]).value, h[i]).Ok?
    ensures h[i].request.expectedVersion == i
    ensures Proposed(found, h[i].request, decision, h[i].event.recordedAt) == Ok(h[i])
  {
    hide Resolve, Decide, CanonicalInput, AdvanceState, Replay;
    ReplayCountsVersions(e, repo, h[..i]);
  }

  /** An index hit for this very request repeats its decision, so it repeats its canonical input. */
  lemma OwnHit(e: Evidence, repo: Repository, request: Request, found: Resolved, decision: Decision)
    requires RepositoryInvariant(e, repo) && DecidedOn(e, repo, request, found, decision)
    requires (request.key, IdempotencyOf(request)) in repo.idempotency && !Taken(repo, request)
    ensures repo.idempotency[(request.key, IdempotencyOf(request))].inputContent
              == CanonicalInput(request, found, decision.generation)
  {
    hide Replay, Resolve, Decide, CanonicalInput, StreamReplays;
    var prior := repo.idempotency[(request.key, IdempotencyOf(request))];
    assert IdempotencyAgrees(repo, (request.key, IdempotencyOf(request)));
    var found', decision' := RetainedIsDecided(e, repo, request.key, prior.event.document.lineageVersion - 1);
  }

  /** An index hit with equal input is the answer to this very request. */
  lemma HitIsOwn(e: Evidence, repo: Repository, request: Request, found: Resolved, generation: int)
    requires ValidEvidence(e) && RepositoryInvariant(e, repo) && ValidRequest(request)
    requires Resolve(e, repo, request) == Ok(found)
    requires (request.key, IdempotencyOf(request)) in repo.idempotency
    requires repo.idempotency[(request.key, IdempotencyOf(request))].inputContent
               == CanonicalInput(request, found, generation)
    ensures Retains(repo, request, repo.idempotency[(request.key, IdempotencyOf(request))].event)
  {
    hide Replay, Resolve, Decide, CanonicalInput, StreamReplays;
    var prior := repo.idempotency[(request.key, IdempotencyOf(request))];
    assert IdempotencyAgrees(repo, (request.key, IdempotencyOf(request)));
    var found', decision' := RetainedIsDecided(e, repo, request.key, prior.event.document.lineageVersion - 1);
    InputDeterminesRequest(e, repo, request, prior.request, found, found', generation, decision'.generation);
  }

  lemma RetryIsAnswered(e: Evidence, repo: Repository, request: Request, found: Resolved)
    requires RepositoryInvariant(e, repo) && Resolve(e, repo, request) == Ok(found)
    requires (request.key, IdempotencyOf(request)) in repo.idempotency && !Taken(repo, request)
    ensures var prior := repo.idempotency[(request.key, IdempotencyOf(request))];
            && RetryAnswer(prior, request, found) == Ok(EvaluationResult(ExistingEquivalent, prior.event))
            && Retains(repo, request, prior.event)
  {
    hide Replay, Resolve, Decide, CanonicalInput, StreamReplays;
    var prior := repo.idempotency[(request.key, IdempotencyOf(request))];
    assert IdempotencyAgrees(repo, (request.key, IdempotencyOf(request)));
    var found', decision' := RetainedIsDecided(e, repo, request.key, prior.event.document.lineageVersion - 1);
  }

  /** Identities carry lineage and version, so no retained event has the identity of the next one. */
  lemma IdentityIsNew(e: Evidence, repo: Repository, r: Record)
    requires RepositoryInvariant(e, repo)
    requires r.event.document.lineageVersion == |History(repo, r.request.key)| + 1
    requires r.event.eventId == EventIdentity(EventDigest(r.event.document), LineageIdentity(r.request.key),
                                              r.event.document.lineageVersion)
    ensures r.event.eventId !in repo.byId
  {
    hide Replay, Resolve, Decide, CanonicalInput, StreamReplays;
    var id := r.event.eventId;
    if id in repo.byId {
      assert IdentityAgrees(repo, id);
      var other := repo.byId[id];
      var found, decision := RetainedIsDecided(e, repo, other.request.key, other.event.document.lineageVersion - 1);
    }
  }

  lemma ProposalIsFresh(e: Evidence, repo: Repository, request: Request, r: Record)
    requires ValidEvidence(e) && RepositoryInvariant(e, repo) && ValidRequest(request)
    requires ProposedOn(e, repo, request, r)
    requires request.expectedVersion == |History(repo, request.key)|
    requires (request.key, IdempotencyOf(request)) !in repo.idempotency
    ensures r.request == request && r.idempotencyIdentity == IdempotencyOf(request) && Fresh(repo, r)
    ensures Replay(e, repo, History(repo, request.key) + [r]).Ok?
  {
    hide Replay, Resolve, Decide, CanonicalInput, IndexesAgree, WellFormedEvent, ValidRequest;
    var h := History(repo, request.key);
    var found, decision :| DecidedOn(e, repo, request, found, decision)
                           && Proposed(found, request, decision, r.event.recordedAt) == Ok(r);
    assert h[..request.expectedVersion] == h;
    assert StreamReplays(e, repo, request.key);
    if h != [] {
      IndexesGiveStream(repo, request.key, 0);
    }
    ProposalReplays(e, repo, h, request, found, decision, r.event.recordedAt, r);
    IdentityIsNew(e, repo, r);
  }

  lemma PublishKeepsStream(e: Evidence, repo: Repository, r: Record, k: LineageKey)
    requires StreamReplays(e, repo, k) && ValidRequest(r.request) && r.idempotencyIdentity == IdempotencyOf(r.request)
    requires Replay(e, repo, History(repo, r.request.key) + [r]).Ok?
    ensures StreamReplays(e, Publish(repo, r), k)
  {
    hide Replay, Publish, ValidRequest;
    PublishExtendsOneStream(repo, r, k);
    if k != r.request.key {
      assert History(repo, k) + [] == History(repo, k);
    }
    NoNewEvidence(e);
    ReplayIsStable(e, e, repo, Publish(repo, r), History(Publish(repo, r), k));
  }

  lemma NoNewEvidence(e: Evidence)
    ensures EvidenceGrows(e, e)
  {
  }

  lemma PublishKeepsInvariant(e: Evidence, repo: Repository, r: Record)
    requires RepositoryInvariant(e, repo) && Fresh(repo, r) && ValidRequest(r.request)
    requires r.idempotencyIdentity == IdempotencyOf(r.request)
    requires Replay(e, repo, History(repo, r.request.key) + [r]).Ok?
    ensures RepositoryInvariant(e, Publish(repo, r)) && RepositoryGrows(repo, Publish(repo, r))
  {
    hide Replay, Publish, IndexesAgree, StreamReplays, ValidRequest;
    PublishKeepsIndexes(repo, r);
    PublishGrows(repo, r);
    forall k ensures StreamReplays(e, Publish(repo, r), k) {
      assert StreamReplays(e, repo, k);
      PublishKeepsStream(e, repo, r, k);
    }
  }

  lemma ProposalNamesRequest(e: Evidence, repo: Repository, request: Request, r: Record)
    returns (found: Resolved, decision: Decision)
    requires ProposedOn(e, repo, request, r)
    ensures r.request == request && r.idempotencyIdentity == IdempotencyOf(request)
    ensures r.event.document.lineageVersion == request.expectedVersion + 1
    ensures DecidedOn(e, repo, request, found, decision)
    ensures r.inputContent == CanonicalInput(request, found, decision.generation)
  {
    hide Replay, Resolve, Decide, CanonicalInput, DecidedOn;
    found, decision :| DecidedOn(e, repo, request, found, decision)
                       && Proposed(found, request, decision, r.event.recordedAt) == Ok(r);
  }

  lemma PublishingKeepsInvariant(e: Evidence, repo: Repository, request: Request, r: Record, commit: CommitOutcome)
    requires ValidEvidence(e) && RepositoryInvariant(e, repo) && ValidRequest(request)
    requires ProposedOn(e, repo, request, r)
    ensures var (later, result) := Append(repo, r, request.expectedVersion, commit);
            && RepositoryInvariant(e, later) && RepositoryGrows(repo, later)
            && PhaseInvariant(e, later, request, Finished(result))
            && (result.Ok? && result.value.outcome.Created? ==>
                  later == Publish(repo, r) && Fresh(repo, r)
                  && request.expectedVersion == |History(repo, request.key)|)
            && (later != repo ==> result.Ok? && result.value.outcome.Created?)
  {
    hide Replay, Resolve, Decide, CanonicalInput, RepositoryInvariant, RepositoryGrows, Publish, ProposedOn,
         ValidRequest, Refused;
    NoGrowth(repo);
    var found, decision := ProposalNamesRequest(e, repo, request, r);
    if IdempotencyKeyOf(r) in repo.idempotency {
      if !Taken(repo, request) {
        OwnHit(e, repo, request, found, decision);
      } else if repo.idempotency[IdempotencyKeyOf(r)].inputContent == r.inputContent {
        HitIsOwn(e, repo, request, found, decision.generation);
      }
    } else if request.expectedVersion == |History(repo, request.key)| {
      ProposalIsFresh(e, repo, request, r);
      PublishKeepsInvariant(e, repo, r);
      PublishRetains(repo, r);
    }
  }

  lemma PublishRetains(repo: Repository, r: Record)
    requires r.idempotencyIdentity == IdempotencyOf(r.request)
    ensures Retains(Publish(repo, r), r.request, r.event)
  {
  }

  /** Replay never fails in the middle of an evaluation. */
  lemma ReplayingContinues(e: Evidence, repo: Repository, request: Request, found: Resolved, history: seq<Record>,
                           next: nat, state: DerivedState)
    requires RepositoryInvariant(e, repo) && next < |history|
    requires PhaseInvariant(e, repo, request, Replaying(found, history, next, state))
    ensures var replayed := ReplayRecord(e, repo, history[0].request.key, state, history[next]);
            && replayed.Ok?
            && PhaseInvariant(e, repo, request, Replaying(found, history, next + 1, replayed.value))
  {
    hide ReplayRecord, Resolve, IndexesAgree, DecidedOn, ProposedOn, Retains, Justified, AllRequestsValid,
         IdempotencyRecord;
    var h := History(repo, request.key);
    assert StreamReplays(e, repo, request.key);
    ReplayPrefix(e, repo, h, next + 1);
    assert h[..next + 1] == history[..next + 1] && history[..next + 1][..next] == history[..next];
  }

  lemma ReplayingDecides(e: Evidence, repo: Repository, request: Request, found: Resolved, history: seq<Record>,
                         state: DerivedState)
    requires PhaseInvariant(e, repo, request, Replaying(found, history, |history|, state))
    ensures var decision := Decide(request, state);
            PhaseInvariant(e, repo, request, if decision.Err? then Finished(Err(decision.error))
                                             else DecisionMade(found, decision.value))
  {
    hide Decide, Replay, Resolve;
    assert history[..|history|] == history;
    assert history == History(repo, request.key)[..|history|];
  }

  /** A decision is answered from the index, refused because its identity is taken, or turned into an acceptable
      event. */
  lemma DecisionProposes(e: Evidence, repo: Repository, request: Request, found: Resolved, decision: Decision,
                         clock: int)
    requires ValidEvidence(e) && RepositoryInvariant(e, repo) && ValidRequest(request)
    requires DecidedOn(e, repo, request, found, decision)
    ensures var phase := CallerStep(e, repo, Caller(request, DecisionMade(found, decision)), clock, Committed).1;
            PhaseInvariant(e, repo, request, phase)
  {
    hide Decide, Replay, Resolve, CanonicalInput, IndexesAgree, ValidRequest, Proposed;
    var key := (request.key, IdempotencyOf(request));
    if key in repo.idempotency {
      if !Taken(repo, request) {
        OwnHit(e, repo, request, found, decision);
      } else if repo.idempotency[key].inputContent == CanonicalInput(request, found, decision.generation) {
        HitIsOwn(e, repo, request, found, decision.generation);
      }
    } else {
      ProposalExists(e, repo, request, found, decision, clock);
    }
  }

  lemma ProposalExists(e: Evidence, repo: Repository, request: Request, found: Resolved, decision: Decision, clock: int)
    requires ValidEvidence(e) && RepositoryInvariant(e, repo) && ValidRequest(request)
    requires DecidedOn(e, repo, request, found, decision)
    ensures var proposal := Proposed(found, request, decision, clock);
            proposal.Ok? && proposal.value.event.recordedAt == clock && ProposedOn(e, repo, request, proposal.value)
  {
    hide Decide, ReplayRecord, Resolve, CanonicalInput, IndexesAgree, ValidRequest, Proposed, Chain, AllAuthorized,
         Coherent;
    var h := History(repo, request.key);
    var prefix := h[..request.expectedVersion];
    assert StreamReplays(e, repo, request.key);
    ReplayIsChain(e, repo, prefix);
    LatestIsCoherent(e, prefix);
    if prefix != [] {
      IndexesGiveStream(repo, request.key, 0);
      assert prefix[0] == h[0];
    }
    var r := DecisionIsAccepted(e, repo, request, found, Latest(prefix), decision, clock);
  }

  lemma ReplayOfNothing(e: Evidence, repo: Repository)
    ensures Replay(e, repo, []) == Ok(INITIAL_STATE)
  {
  }

  /** One caller's step keeps the repository in order, only adds to it, and leaves the caller where it can explain
      itself. */
  lemma CallerStepKeepsInvariant(e: Evidence, repo: Repository, c: Caller, clock: int, commit: CommitOutcome)
    requires ValidEvidence(e) && RepositoryInvariant(e, repo) && CallerInvariant(e, repo, c)
    ensures var (later, phase) := CallerStep(e, repo, c, clock, commit);
            && RepositoryInvariant(e, later) && RepositoryGrows(repo, later)
            && PhaseInvariant(e, later, c.request, phase)
  {
    hide Decide, Replay, ReplayRecord, Resolve, Append, RepositoryInvariant, RepositoryGrows, Proposed, RetryAnswer,
         ProposedOn, Refused, DecidedOn, ValidRequest, Idempotent, CanonicalInput;
    NoGrowth(repo);
    match c.phase
    case Submitted =>
    case LookedUp(prior) =>
      var found := Resolve(e, repo, c.request);
      if found.Ok? && prior.Some? {
        RetryIsAnswered(e, repo, c.request, found.value);
      }
    case EvidenceFound(found) =>
      ReplayOfNothing(e, repo);
      assert History(repo, c.request.key)[..0] == [];
    case Replaying(found, history, next, state) =>
      if next < |history| {
        ReplayingContinues(e, repo, c.request, found, history, next, state);
      } else {
        ReplayingDecides(e, repo, c.request, found, history, state);
      }
    case DecisionMade(found, decision) => DecisionProposes(e, repo, c.request, found, decision, clock);
    case Publishing(record) => PublishingKeepsInvariant(e, repo, c.request, record, commit);
    case Finished(_) =>
  }

  lemma AdvanceKeepsInvariant(w: World, i: nat, clock: int, commit: CommitOutcome)
    requires Invariant(w) && i < |w.callers|
    ensures Invariant(Next(w, Advance(i, clock, commit)))
    ensures RepositoryGrows(w.repo, Next(w, Advance(i, clock, commit)).repo)
  {
    hide PhaseInvariant, CallerStep, RepositoryInvariant, RepositoryGrows;
    var c := w.callers[i];
    assert CallerInvariant(w.evidence, w.repo, c);
    CallerStepKeepsInvariant(w.evidence, w.repo, c, clock, commit);
    var (later, phase) := CallerStep(w.evidence, w.repo, c, clock, commit);
    NoNewEvidence(w.evidence);
    forall j | 0 <= j < |w.callers| && j != i ensures CallerInvariant(w.evidence, later, w.callers[j]) {
      assert CallerInvariant(w.evidence, w.repo, w.callers[j]);
      PhaseIsStable(w.evidence, w.evidence, w.repo, later, w.callers[j].request, w.callers[j].phase);
    }
  }

  lemma SubmittedInvariant(e: Evidence, repo: Repository, request: Request)
    ensures PhaseInvariant(e, repo, request, Submitted)
  {
  }

  lemma NextKeepsInvariant(w: World, action: Action)
    requires Invariant(w)
    ensures Invariant(Next(w, action))
    ensures EvidenceGrows(w.evidence, Next(w, action).evidence) && RepositoryGrows(w.repo, Next(w, action).repo)
  {
    hide PhaseInvariant, CallerStep, RepositoryInvariant, RepositoryGrows;
    NoGrowth(w.repo);
    match action
    case RetainAuthorization(a) =>
      if Retained(AuthorizationSource(), w.evidence.authorizations, a).Ok? {
        RetainOnlyAdds(AuthorizationSource(), w.evidence.authorizations, a);
        EvidenceKeepsInvariant(w, Next(w, action).evidence);
      }
    case RetainRevocation(r) =>
      if Retained(RevocationSource(), w.evidence.revocations, r).Ok? {
        RetainOnlyAdds(RevocationSource(), w.evidence.revocations, r);
        EvidenceKeepsInvariant(w, Next(w, action).evidence);
      }
    case Submit(request) => SubmittedInvariant(w.evidence, w.repo, request);
    case Advance(i, clock, commit) =>
      if i < |w.callers| {
        AdvanceKeepsInvariant(w, i, clock, commit);
      }
  }

  lemma {:induction false} RunKeepsInvariant(schedule: seq<Action>)
    ensures Invariant(Run(schedule))
  {
    if schedule == [] {
      forall k ensures StreamReplays(NO_EVIDENCE, EMPTY_REPOSITORY, k) {}
    } else {
      RunKeepsInvariant(schedule[..|schedule| - 1]);
      NextKeepsInvariant(Run(schedule[..|schedule| - 1]), schedule[|schedule| - 1]);
    }
  }
}
