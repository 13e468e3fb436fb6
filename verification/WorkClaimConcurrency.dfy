/** Any number of callers evaluating Work Claim requests at once: only single repository and evidence calls are
    atomic. */
module WorkClaimConcurrency {
  import opened Foundations
  import opened RetainedEvidence
  import opened WorkClaimDomain
  import opened WorkClaimService
  import opened WorkClaimSafety

  // ---- the step relation ---------------------------------------------------

  /** Where one call of `evaluate` stands between two atomic steps. */
  datatype Phase =
    | Submitted
    | DispatchFound(dispatch: DispatchRecord)
    | EvidenceFound(found: Resolved)
    | LookupMissed(found: Resolved)
    | Replaying(found: Resolved, history: seq<Record>, next: nat, state: DerivedState)
    | Publishing(record: Record)
    | Finished(result: Result<EvaluationResult, RuntimeError>)

  datatype Caller = Caller(request: Request, phase: Phase)

  datatype World = World(evidence: Evidence, repo: Repository, callers: seq<Caller>)

  const INITIAL_WORLD := World(NO_EVIDENCE, EMPTY_REPOSITORY, [])

  /** One atomic step of one caller: the repository afterwards and the caller's next phase. */
  function CallerStep(e: Evidence, repo: Repository, c: Caller, clock: int, commit: CommitOutcome)
    : (Repository, Phase)
  {
    match c.phase
    case Submitted =>
      var dispatch := FindDispatch(e, c.request);
      (repo, if dispatch.Err? then Finished(Err(dispatch.error)) else DispatchFound(dispatch.value))
    case DispatchFound(dispatch) =>
      var claimant := FindClaimant(e, c.request);
      if claimant.Err? then (repo, Finished(Err(claimant.error))) else
      var checked := CheckEvidence(c.request, dispatch, claimant.value);
      (repo, if checked.Err? then Finished(Err(checked.error)) else EvidenceFound(checked.value))
    case EvidenceFound(found) =>
      var input := CanonicalInput(c.request, found.dispatch, found.claimant, found.policy);
      var prior := Idempotent(repo, c.request.key, IdempotencyOf(c.request), input);
      (repo, if prior.Err? then Finished(Err(prior.error))
             else if prior.value.Some? then Finished(Ok(EvaluationResult(ExistingEquivalent, prior.value.value)))
             else LookupMissed(found))
    case LookupMissed(found) =>
      var history := History(repo, c.request.key);
      (repo, if c.request.expectedVersion != |history| then Finished(Err(VersionConflict))
             else Replaying(found, history, 0, INITIAL_STATE))
    case Replaying(found, history, next, state) =>
      if next < |history| then
        var replayed := ReplayRecord(e, history[0].request.key, state, history[next]);
        (repo, if replayed.Err? then Finished(Err(replayed.error))
               else Replaying(found, history, next + 1, replayed.value))
      else
        var proposal := ProposedRecord(found, c.request, state, clock);
        (repo, if proposal.Err? then Finished(Err(proposal.error)) else Publishing(proposal.value))
    case Publishing(record) =>
      var (later, result) := Append(repo, record, c.request.expectedVersion, commit);
      (later, Finished(result))
    case Finished(_) => (repo, c.phase)
  }

  /** What may happen next: evidence is retained, a request is submitted, or one caller takes one step. */
  datatype Action =
    | RetainDispatch(dispatch: DispatchRecord)
    | RetainClaimant(claimant: ClaimantEvidence)
    | Submit(request: Request)
    | Advance(caller: nat, clock: int, commit: CommitOutcome)

  /** An action that raises, or that names no caller, leaves the world as it was. */
  function Next(w: World, action: Action): World {
    match action
    case RetainDispatch(d) =>
      var items := Retained(DispatchSource(), w.evidence.dispatches, d);
      if items.Err? then w else w.(evidence := w.evidence.(dispatches := items.value))
    case RetainClaimant(c) =>
      var items := Retained(ClaimantSource(), w.evidence.claimants, c);
      if items.Err? then w else w.(evidence := w.evidence.(claimants := items.value))
    case Submit(request) =>
      if ValidRequest(request) then w.(callers := w.callers + [Caller(request, Submitted)]) else w
    case Advance(i, clock, commit) =>
      if i >= |w.callers| then w else
      var (repo, phase) := CallerStep(w.evidence, w.repo, w.callers[i], clock, commit);
      w.(repo := repo, callers := w.callers[i := w.callers[i].(phase := phase)])
  }

  /** The world after a schedule; every interleaving is some schedule. */
  function Run(schedule: seq<Action>): World {
    if schedule == [] then INITIAL_WORLD
    else Next(Run(schedule[..|schedule| - 1]), schedule[|schedule| - 1])
  }

  // ---- what only grows -----------------------------------------------------

  ghost predicate RepositoryGrows(repo: Repository, later: Repository) {
    && (forall k {:trigger StreamGrows(repo, later, k)} :: StreamGrows(repo, later, k))
    && (forall k :: k in repo.idempotency ==> k in later.idempotency && later.idempotency[k] == repo.idempotency[k])
  }

  ghost predicate StreamGrows(repo: Repository, later: Repository, k: LineageKey) {
    History(repo, k) <= History(later, k)
  }

  lemma ResolveIsStable(e: Evidence, later: Evidence, request: Request)
    requires EvidenceGrows(e, later)
    requires Resolve(e, request) != Err(EvidenceUnavailable)
    ensures Resolve(later, request) == Resolve(e, request)
  {
    RequireIsStable(DispatchSource(), e.dispatches, later.dispatches, request.dispatchDecisionId,
                    request.key.organization, request.key.workload);
    if FindDispatch(e, request).Ok? {
      RequireIsStable(ClaimantSource(), e.claimants, later.claimants, request.claimantEvidenceId,
                      request.key.organization, request.key.workload);
    }
  }

  lemma ReplayRecordIsStable(e: Evidence, later: Evidence, key: LineageKey, s: DerivedState, r: Record)
    requires EvidenceGrows(e, later) && ReplayRecord(e, key, s, r).Ok?
    ensures ReplayRecord(later, key, s, r) == ReplayRecord(e, key, s, r)
  {
    hide Decide, BuildRecord, AdvanceState, Resolve, CanonicalInput, VerifiesRecordedContent;
    ResolveIsStable(e, later, r.request);
  }

  lemma {:induction false} ReplayIsStable(e: Evidence, later: Evidence, h: seq<Record>)
    requires EvidenceGrows(e, later) && Replay(e, h).Ok?
    ensures Replay(later, h) == Replay(e, h)
  {
    if h != [] {
      ReplayIsStable(e, later, h[..|h| - 1]);
      ReplayRecordIsStable(e, later, h[0].request.key, Replay(e, h[..|h| - 1]).value, h[|h| - 1]);
    }
  }

  // ---- what is decided is accepted -----------------------------------------

  lemma ReplayedIsCoherent(e: Evidence, h: seq<Record>)
    requires Replay(e, h).Ok?
    ensures Coherent(Replay(e, h).value) && Replay(e, h).value.lineageVersion == |h|
  {
    hide Replay, Describes, GenerationLaw;
    ReplayDescribes(e, h);
    DescribedIsCoherent(h, Replay(e, h).value);
  }

  lemma ResolvedNamesClaimant(e: Evidence, request: Request, found: Resolved)
    requires ValidEvidence(e) && Resolve(e, request) == Ok(found)
    ensures found.claimant.document.claimantId != ""
  {
    hide Require, PolicyFor;
    RequireReturnsRetained(ClaimantSource(), e.claimants, request.claimantEvidenceId,
                           request.key.organization, request.key.workload);
  }

  /** Every event `Decide` allows is one the event constructor and `AdvanceState` accept. */
  lemma DecisionIsAccepted(e: Evidence, request: Request, found: Resolved, s: DerivedState, decision: Decision,
                           identity: Digest, clock: int)
    requires ValidEvidence(e) && ValidRequest(request) && Resolve(e, request) == Ok(found) && Coherent(s)
    requires Decide(found.policy, request, found.dispatch, found.claimant, s) == Ok(decision)
    ensures var built := BuildRecord(request, found.dispatch, found.claimant, found.policy, decision,
                                     s.lineageVersion + 1, identity, clock);
            built.Ok? && AdvanceState(s, built.value.event).Ok?
  {
    hide Resolve, CanonicalInput;
    ResolvedNamesClaimant(e, request, found);
  }

  /** A proposed record extends the replayed history to a history that replays. */
  lemma ProposalReplays(e: Evidence, h: seq<Record>, request: Request, found: Resolved, clock: int, r: Record)
    requires ValidEvidence(e) && ValidRequest(request) && Resolve(e, request) == Ok(found)
    requires Replay(e, h).Ok? && |h| == request.expectedVersion
    requires h != [] ==> h[0].request.key == request.key
    requires ProposedRecord(found, request, Replay(e, h).value, clock) == Ok(r)
    ensures Replay(e, h + [r]).Ok?
    ensures r.request == request && r.idempotencyIdentity == IdempotencyOf(request) && r.event.recordedAt == clock
    ensures r.event.document.lineageVersion == |h| + 1
  {
    hide Decide, ReplayRecord, Resolve, CanonicalInput, AdvanceState;
    var s := Replay(e, h).value;
    ReplayedIsCoherent(e, h);
    var decision := Decide(found.policy, request, found.dispatch, found.claimant, s).value;
    DecisionIsAccepted(e, request, found, s, decision, IdempotencyOf(request), clock);
    assert (h + [r])[..|h|] == h;
    ReplayRecordOfProposal(e, request.key, request, found, s, decision, clock, r);
  }

  lemma ReplayRecordOfProposal(e: Evidence, key: LineageKey, request: Request, found: Resolved, s: DerivedState,
                               decision: Decision, clock: int, r: Record)
    requires Resolve(e, request) == Ok(found) && request.key == key && request.expectedVersion == s.lineageVersion
    requires Decide(found.policy, request, found.dispatch, found.claimant, s) == Ok(decision)
    requires BuildRecord(request, found.dispatch, found.claimant, found.policy, decision, s.lineageVersion + 1,
                         IdempotencyOf(request), clock) == Ok(r)
    requires AdvanceState(s, r.event).Ok?
    ensures ReplayRecord(e, key, s, r) == AdvanceState(s, r.event)
  {
    hide Resolve, CanonicalInput, Decide, AdvanceState, WellFormedEvent;
  }

  // ---- the repository indexes ----------------------------------------------

  ghost predicate Placed(repo: Repository, r: Record) {
    var history, v := History(repo, r.request.key), r.event.document.lineageVersion;
    1 <= v <= |history| && history[v - 1] == r
  }

  /** The record at position `i` of a stream is where every index says it is. */
  ghost predicate IndexedAt(repo: Repository, k: LineageKey, i: nat)
    requires i < |History(repo, k)|
  {
    var r := History(repo, k)[i];
    && r.request.key == k && r.event.document.lineageVersion == i + 1
    && r.event.eventId in repo.byId && repo.byId[r.event.eventId] == r
    && IdempotencyKeyOf(r) in repo.idempotency && repo.idempotency[IdempotencyKeyOf(r)] == r
  }

  ghost predicate IdentityAgrees(repo: Repository, id: Digest) {
    id in repo.byId ==> Placed(repo, repo.byId[id]) && repo.byId[id].event.eventId == id
  }

  ghost predicate IdempotencyAgrees(repo: Repository, key: IdempotencyKey) {
    key in repo.idempotency ==> Placed(repo, repo.idempotency[key]) && IdempotencyKeyOf(repo.idempotency[key]) == key
  }

  ghost predicate CurrentAgrees(repo: Repository, k: LineageKey) {
    var h := History(repo, k);
    && (k in repo.current <==> h != [])
    && (k in repo.current ==> repo.current[k] == h[|h| - 1].event)
  }

  /** Streams, identity index, idempotency index and current pointers agree. */
  ghost predicate IndexesAgree(repo: Repository) {
    && (forall k, i {:trigger IndexedAt(repo, k, i)} :: 0 <= i < |History(repo, k)| ==> IndexedAt(repo, k, i))
    && (forall id {:trigger IdentityAgrees(repo, id)} :: IdentityAgrees(repo, id))
    && (forall key {:trigger IdempotencyAgrees(repo, key)} :: IdempotencyAgrees(repo, key))
    && (forall k {:trigger CurrentAgrees(repo, k)} :: CurrentAgrees(repo, k))
  }

  lemma IndexesGive(repo: Repository, id: Digest)
    requires IndexesAgree(repo)
    ensures IdentityAgrees(repo, id)
  {
  }

  /** A record that follows its stream, is new to both key indexes and names its own position. */
  predicate Fresh(repo: Repository, r: Record) {
    && IdempotencyKeyOf(r) !in repo.idempotency
    && r.event.document.lineageVersion == |History(repo, r.request.key)| + 1
    && r.event.eventId !in repo.byId
  }

  lemma PublishExtendsOneStream(repo: Repository, r: Record, k: LineageKey)
    ensures History(Publish(repo, r), k) == History(repo, k) + (if k == r.request.key then [r] else [])
  {
  }

  lemma PublishGrows(repo: Repository, r: Record)
    requires Fresh(repo, r)
    ensures RepositoryGrows(repo, Publish(repo, r))
  {
    forall k ensures StreamGrows(repo, Publish(repo, r), k) {
      PublishExtendsOneStream(repo, r, k);
    }
  }

  lemma PublishKeepsIndexed(repo: Repository, r: Record, k: LineageKey, i: nat)
    requires IndexesAgree(repo) && Fresh(repo, r) && i < |History(Publish(repo, r), k)|
    ensures IndexedAt(Publish(repo, r), k, i)
  {
    PublishExtendsOneStream(repo, r, k);
    if i < |History(repo, k)| {
      assert IndexedAt(repo, k, i);
    }
  }

  lemma PublishKeepsPlaced(repo: Repository, r: Record, placed: Record)
    requires Fresh(repo, r) && (Placed(repo, placed) || placed == r)
    ensures Placed(Publish(repo, r), placed)
  {
    PublishExtendsOneStream(repo, r, placed.request.key);
  }

  lemma PublishKeepsIndexes(repo: Repository, r: Record)
    requires IndexesAgree(repo) && Fresh(repo, r)
    ensures IndexesAgree(Publish(repo, r))
  {
    var later := Publish(repo, r);
    forall k, i | 0 <= i < |History(later, k)| ensures IndexedAt(later, k, i) {
      PublishKeepsIndexed(repo, r, k, i);
    }
    forall id ensures IdentityAgrees(later, id) {
      assert IdentityAgrees(repo, id);
      if id in later.byId {
        PublishKeepsPlaced(repo, r, later.byId[id]);
      }
    }
    forall key ensures IdempotencyAgrees(later, key) {
      assert IdempotencyAgrees(repo, key);
      if key in later.idempotency {
        PublishKeepsPlaced(repo, r, later.idempotency[key]);
      }
    }
    forall k ensures CurrentAgrees(later, k) {
      assert CurrentAgrees(repo, k);
      PublishExtendsOneStream(repo, r, k);
    }
  }

  // ---- the invariant -------------------------------------------------------

  /** Every stream replays, and each of its records came from a valid request under that request's identity. */
  ghost predicate StreamReplays(e: Evidence, repo: Repository, k: LineageKey) {
    var h := History(repo, k);
    && Replay(e, h).Ok?
    && (forall i :: 0 <= i < |h| ==>
          ValidRequest(h[i].request) && h[i].idempotencyIdentity == IdempotencyOf(h[i].request))
  }

  ghost predicate RepositoryInvariant(e: Evidence, repo: Repository) {
    && IndexesAgree(repo)
    && (forall k {:trigger StreamReplays(e, repo, k)} :: StreamReplays(e, repo, k))
  }

  /** The record was decided on exactly the first `expectedVersion` events of its lineage. */
  ghost predicate ProposedOn(e: Evidence, repo: Repository, request: Request, r: Record) {
    var h := History(repo, request.key);
    && request.expectedVersion <= |h|
    && Resolve(e, request).Ok?
    && Replay(e, h[..request.expectedVersion]).Ok?
    && ProposedRecord(Resolve(e, request).value, request, Replay(e, h[..request.expectedVersion]).value,
                      r.event.recordedAt) == Ok(r)
  }

  /** The idempotency index answers the request with exactly this event. */
  ghost predicate Retains(repo: Repository, request: Request, event: Event) {
    var key := (request.key, IdempotencyOf(request));
    key in repo.idempotency && repo.idempotency[key].request == request && repo.idempotency[key].event == event
  }

  /** Why a caller may have failed, in terms that stay true: a race or a fault, evidence that fails its checks,
      an idempotency identity taken by other input, or a history on which the decision is illegal. */
  ghost predicate Justified(e: Evidence, repo: Repository, request: Request, error: RuntimeError) {
    || error.VersionConflict? || error.EvidenceUnavailable? || error.PersistenceFailure?
    || Resolve(e, request) == Err(error)
    || (&& Resolve(e, request).Ok?
        && (|| Taken(e, repo, request)
            || Refused(e, repo, request)))
  }

  ghost predicate Taken(e: Evidence, repo: Repository, request: Request)
    requires Resolve(e, request).Ok?
  {
    var found, key := Resolve(e, request).value, (request.key, IdempotencyOf(request));
    key in repo.idempotency
    && repo.idempotency[key].inputContent != CanonicalInput(request, found.dispatch, found.claimant, found.policy)
  }

  ghost predicate Refused(e: Evidence, repo: Repository, request: Request)
    requires Resolve(e, request).Ok?
  {
    var found, h := Resolve(e, request).value, History(repo, request.key);
    && request.expectedVersion <= |h|
    && Replay(e, h[..request.expectedVersion]).Ok?
    && Decide(found.policy, request, found.dispatch, found.claimant, Replay(e, h[..request.expectedVersion]).value).Err?
  }

  ghost predicate PhaseInvariant(e: Evidence, repo: Repository, request: Request, phase: Phase) {
    match phase
    case Submitted => true
    case DispatchFound(dispatch) => FindDispatch(e, request) == Ok(dispatch)
    case EvidenceFound(found) => Resolve(e, request) == Ok(found)
    case LookupMissed(found) => Resolve(e, request) == Ok(found)
    case Replaying(found, history, next, state) =>
      && Resolve(e, request) == Ok(found)
      && |history| == request.expectedVersion && history <= History(repo, request.key)
      && next <= |history| && Replay(e, history[..next]) == Ok(state)
    case Publishing(record) => ProposedOn(e, repo, request, record)
    case Finished(Ok(result)) => Retains(repo, request, result.event)
    case Finished(Err(error)) => Justified(e, repo, request, error)
  }

  ghost predicate CallerInvariant(e: Evidence, repo: Repository, c: Caller) {
    ValidRequest(c.request) && PhaseInvariant(e, repo, c.request, c.phase)
  }

  ghost predicate Invariant(w: World) {
    && ValidEvidence(w.evidence)
    && RepositoryInvariant(w.evidence, w.repo)
    && (forall i :: 0 <= i < |w.callers| ==> CallerInvariant(w.evidence, w.repo, w.callers[i]))
  }

  // ---- stability under the steps of everybody else -------------------------

  lemma ProposedOnIsStable(e: Evidence, later: Evidence, repo: Repository, repo': Repository, request: Request,
                           r: Record)
    requires EvidenceGrows(e, later) && RepositoryGrows(repo, repo') && ProposedOn(e, repo, request, r)
    ensures ProposedOn(later, repo', request, r)
  {
    PrefixIsStable(repo, repo', request.key, request.expectedVersion);
    ResolveIsStable(e, later, request);
    ReplayIsStable(e, later, History(repo, request.key)[..request.expectedVersion]);
  }

  lemma PrefixIsStable(repo: Repository, repo': Repository, k: LineageKey, n: nat)
    requires RepositoryGrows(repo, repo') && n <= |History(repo, k)|
    ensures n <= |History(repo', k)| && History(repo, k)[..n] == History(repo', k)[..n]
  {
    assert StreamGrows(repo, repo', k);
  }

  lemma JustifiedIsStable(e: Evidence, later: Evidence, repo: Repository, repo': Repository, request: Request,
                          error: RuntimeError)
    requires EvidenceGrows(e, later) && RepositoryGrows(repo, repo') && Justified(e, repo, request, error)
    ensures Justified(later, repo', request, error)
  {
    if Resolve(e, request) != Err(EvidenceUnavailable) {
      ResolveIsStable(e, later, request);
    }
    if Resolve(e, request).Ok? && Refused(e, repo, request) {
      PrefixIsStable(repo, repo', request.key, request.expectedVersion);
      ReplayIsStable(e, later, History(repo, request.key)[..request.expectedVersion]);
    }
  }

  lemma PhaseIsStable(e: Evidence, later: Evidence, repo: Repository, repo': Repository, request: Request, phase: Phase)
    requires EvidenceGrows(e, later) && RepositoryGrows(repo, repo') && PhaseInvariant(e, repo, request, phase)
    ensures PhaseInvariant(later, repo', request, phase)
  {
    match phase
    case Submitted =>
    case DispatchFound(_) =>
      RequireIsStable(DispatchSource(), e.dispatches, later.dispatches, request.dispatchDecisionId,
                      request.key.organization, request.key.workload);
    case EvidenceFound(_) => ResolveIsStable(e, later, request);
    case LookupMissed(_) => ResolveIsStable(e, later, request);
    case Replaying(_, history, next, _) =>
      ResolveIsStable(e, later, request);
      ReplayIsStable(e, later, history[..next]);
      assert StreamGrows(repo, repo', request.key);
    case Publishing(record) => ProposedOnIsStable(e, later, repo, repo', request, record);
    case Finished(Ok(_)) =>
    case Finished(Err(error)) => JustifiedIsStable(e, later, repo, repo', request, error);
  }

  lemma EvidenceKeepsInvariant(w: World, later: Evidence)
    requires Invariant(w) && ValidEvidence(later) && EvidenceGrows(w.evidence, later)
    ensures Invariant(w.(evidence := later))
  {
    forall k ensures StreamReplays(later, w.repo, k) {
      assert StreamReplays(w.evidence, w.repo, k);
      ReplayIsStable(w.evidence, later, History(w.repo, k));
    }
    forall i | 0 <= i < |w.callers| ensures CallerInvariant(later, w.repo, w.callers[i]) {
      assert CallerInvariant(w.evidence, w.repo, w.callers[i]);
      PhaseIsStable(w.evidence, later, w.repo, w.repo, w.callers[i].request, w.callers[i].phase);
    }
  }

  // ---- every step keeps the invariant --------------------------------------

  /** Identity and canonical input together determine the whole request. */
  lemma InputDeterminesRequest(e: Evidence, r: Request, r': Request)
    requires ValidEvidence(e) && Resolve(e, r).Ok? && Resolve(e, r').Ok?
    requires IdempotencyOf(r) == IdempotencyOf(r')
    requires var f, f' := Resolve(e, r).value, Resolve(e, r').value;
             CanonicalInput(r, f.dispatch, f.claimant, f.policy)
               == CanonicalInput(r', f'.dispatch, f'.claimant, f'.policy)
    ensures r == r'
  {
    RequireReturnsRetained(DispatchSource(), e.dispatches, r.dispatchDecisionId, r.key.organization, r.key.workload);
    RequireReturnsRetained(DispatchSource(), e.dispatches, r'.dispatchDecisionId, r'.key.organization, r'.key.workload);
    RequireReturnsRetained(ClaimantSource(), e.claimants, r.claimantEvidenceId, r.key.organization, r.key.workload);
    RequireReturnsRetained(ClaimantSource(), e.claimants, r'.claimantEvidenceId, r'.key.organization, r'.key.workload);
  }

  /** An index hit with equal input is the answer to this very request. */
  lemma HitIsOwn(e: Evidence, repo: Repository, request: Request)
    requires ValidEvidence(e) && RepositoryInvariant(e, repo) && Resolve(e, request).Ok?
    requires (request.key, IdempotencyOf(request)) in repo.idempotency && !Taken(e, repo, request)
    ensures Retains(repo, request, repo.idempotency[(request.key, IdempotencyOf(request))].event)
  {
    hide Replay, Resolve, CanonicalInput;
    var prior := repo.idempotency[(request.key, IdempotencyOf(request))];
    var i := prior.event.document.lineageVersion - 1;
    assert IdempotencyAgrees(repo, (request.key, IdempotencyOf(request)));
    var h := History(repo, prior.request.key);
    assert StreamReplays(e, repo, prior.request.key);
    PriorInput(e, h, i);
    InputDeterminesRequest(e, request, prior.request);
  }

  lemma PriorInput(e: Evidence, h: seq<Record>, i: nat)
    requires Replay(e, h).Ok? && i < |h|
    ensures Resolve(e, h[i].request).Ok?
    ensures var f := Resolve(e, h[i].request).value;
            h[i].inputContent == CanonicalInput(h[i].request, f.dispatch, f.claimant, f.policy)
  {
    hide ReplayRecord, Resolve, CanonicalInput, AdvanceState;
    ReplayPrefix(e, h, i + 1);
    assert h[..i + 1][..i] == h[..i];
    var _, _ := AdmittedRecord(e, h[0].request.key, Replay(e, h[..i]).value, h[i]);
  }

  /** Identities carry lineage and version, so no retained event has the identity of the next one. */
  lemma IdentityIsNew(e: Evidence, repo: Repository, r: Record)
    requires RepositoryInvariant(e, repo)
    requires Replay(e, History(repo, r.request.key) + [r]).Ok?
    ensures r.event.eventId !in repo.byId
  {
    hide Replay, Lineage;
    var h, id := History(repo, r.request.key), r.event.eventId;
    if id in repo.byId {
      assert IdentityAgrees(repo, id);
      var other := repo.byId[id];
      var h', j := History(repo, other.request.key), other.event.document.lineageVersion - 1;
      assert StreamReplays(e, repo, other.request.key) && IndexedAt(repo, other.request.key, j);
      var states := ReplayIsLineage(e, h + [r]);
      var states' := ReplayIsLineage(e, h');
      IdentityFixesPosition(h + [r], states, |h|, h', states', j);
    }
  }

  lemma ProposalIsFresh(e: Evidence, repo: Repository, request: Request, r: Record)
    requires ValidEvidence(e) && RepositoryInvariant(e, repo) && ValidRequest(request)
    requires ProposedOn(e, repo, request, r)
    requires request.expectedVersion == |History(repo, request.key)|
    requires IdempotencyKeyOf(r) !in repo.idempotency
    ensures r.request == request && r.idempotencyIdentity == IdempotencyOf(request) && Fresh(repo, r)
    ensures Replay(e, History(repo, request.key) + [r]).Ok?
  {
    var h := History(repo, request.key);
    assert h[..request.expectedVersion] == h;
    if h != [] { assert IndexedAt(repo, request.key, 0); }
    ProposalReplays(e, h, request, Resolve(e, request).value, r.event.recordedAt, r);
    IdentityIsNew(e, repo, r);
  }

  lemma PublishKeepsStream(e: Evidence, repo: Repository, r: Record, k: LineageKey)
    requires StreamReplays(e, repo, k) && ValidRequest(r.request) && r.idempotencyIdentity == IdempotencyOf(r.request)
    requires Replay(e, History(repo, r.request.key) + [r]).Ok?
    ensures StreamReplays(e, Publish(repo, r), k)
  {
    hide Replay, Publish;
    PublishExtendsOneStream(repo, r, k);
    if k != r.request.key {
      assert History(repo, k) + [] == History(repo, k);
    }
  }

  lemma PublishKeepsInvariant(e: Evidence, repo: Repository, r: Record)
    requires RepositoryInvariant(e, repo) && Fresh(repo, r) && ValidRequest(r.request)
    requires r.idempotencyIdentity == IdempotencyOf(r.request)
    requires Replay(e, History(repo, r.request.key) + [r]).Ok?
    ensures RepositoryInvariant(e, Publish(repo, r)) && RepositoryGrows(repo, Publish(repo, r))
  {
    PublishKeepsIndexes(repo, r);
    PublishGrows(repo, r);
    forall k ensures StreamReplays(e, Publish(repo, r), k) {
      assert StreamReplays(e, repo, k);
      PublishKeepsStream(e, repo, r, k);
    }
  }

  lemma PublishingKeepsInvariant(e: Evidence, repo: Repository, request: Request, r: Record, commit: CommitOutcome)
    requires ValidEvidence(e) && RepositoryInvariant(e, repo) && ValidRequest(request)
    requires ProposedOn(e, repo, request, r)
    ensures var (later, result) := Append(repo, r, request.expectedVersion, commit);
            && RepositoryInvariant(e, later) && RepositoryGrows(repo, later)
            && PhaseInvariant(e, later, request, Finished(result))
            && (result.Ok? && result.value.outcome.Created? ==>
                  later == Publish(repo, r) && Fresh(repo, r)
                  && request.expectedVersion == |History(repo, request.key)|)
            && (later != repo ==> result.Ok? && result.value.outcome.Created?)
  {
    ProposalNamesRequest(e, repo, request, r);
    if IdempotencyKeyOf(r) in repo.idempotency {
      if !Taken(e, repo, request) {
        HitIsOwn(e, repo, request);
      }
    } else if request.expectedVersion == |History(repo, request.key)| {
      ProposalIsFresh(e, repo, request, r);
      PublishKeepsInvariant(e, repo, r);
    }
  }

  lemma ProposalNamesRequest(e: Evidence, repo: Repository, request: Request, r: Record)
    requires ProposedOn(e, repo, request, r)
    ensures r.request == request && r.idempotencyIdentity == IdempotencyOf(request)
    ensures var f := Resolve(e, request).value;
            r.inputContent == CanonicalInput(request, f.dispatch, f.claimant, f.policy)
  {
  }

  lemma ReplayOfNothing(e: Evidence)
    ensures Replay(e, []) == Ok(INITIAL_STATE)
  {
  }

  lemma DispatchFoundKeepsInvariant(e: Evidence, repo: Repository, request: Request, dispatch: DispatchRecord)
    requires FindDispatch(e, request) == Ok(dispatch)
    ensures var claimant := FindClaimant(e, request);
            claimant.Err? ==> PhaseInvariant(e, repo, request, Finished(Err(claimant.error)))
    ensures var claimant := FindClaimant(e, request);
            claimant.Ok? ==>
              var checked := CheckEvidence(request, dispatch, claimant.value);
              PhaseInvariant(e, repo, request, if checked.Err? then Finished(Err(checked.error))
                                               else EvidenceFound(checked.value))
  {
    hide FindDispatch, FindClaimant, CheckEvidence;
  }

  lemma ResolveStartsWithDispatch(e: Evidence, request: Request)
    requires FindDispatch(e, request).Err?
    ensures Resolve(e, request) == Err(FindDispatch(e, request).error)
  {
  }

  lemma NoGrowth(repo: Repository)
    ensures RepositoryGrows(repo, repo)
  {
    forall k ensures StreamGrows(repo, repo, k) {}
  }

  /** One caller's step keeps the repository in order, only adds to it, and leaves the caller where it can explain
      itself. */
  lemma CallerStepKeepsInvariant(e: Evidence, repo: Repository, c: Caller, clock: int, commit: CommitOutcome)
    requires ValidEvidence(e) && RepositoryInvariant(e, repo) && CallerInvariant(e, repo, c)
    ensures var (later, phase) := CallerStep(e, repo, c, clock, commit);
            && RepositoryInvariant(e, later) && RepositoryGrows(repo, later)
            && PhaseInvariant(e, later, c.request, phase)
  {
    NoGrowth(repo);
    hide Decide, BuildRecord, Replay, ReplayRecord, CheckEvidence, Append, IndexesAgree, Resolve, ProposedRecord,
         RepositoryInvariant, RepositoryGrows;
    match c.phase
    case Submitted =>
      if FindDispatch(e, c.request).Err? {
        ResolveStartsWithDispatch(e, c.request);
      }
    case DispatchFound(dispatch) => DispatchFoundKeepsInvariant(e, repo, c.request, dispatch);
    case EvidenceFound(found) =>
      if (c.request.key, IdempotencyOf(c.request)) in repo.idempotency && !Taken(e, repo, c.request) {
        HitIsOwn(e, repo, c.request);
      }
    case LookupMissed(_) =>
      ReplayOfNothing(e);
      assert History(repo, c.request.key)[..0] == [];
    case Replaying(found, history, next, state) =>
      if next < |history| {
        ReplayingContinues(e, repo, c.request, found, history, next, state);
      } else {
        ReplayingProposes(e, repo, c.request, found, history, state, clock);
      }
    case Publishing(record) => PublishingKeepsInvariant(e, repo, c.request, record, commit);
    case Finished(_) =>
  }

  /** Replay never fails in the middle of an evaluation. */
  lemma ReplayingContinues(e: Evidence, repo: Repository, request: Request, found: Resolved, history: seq<Record>,
                           next: nat, state: DerivedState)
    requires RepositoryInvariant(e, repo) && next < |history|
    requires PhaseInvariant(e, repo, request, Replaying(found, history, next, state))
    ensures var replayed := ReplayRecord(e, history[0].request.key, state, history[next]);
            && replayed.Ok?
            && PhaseInvariant(e, repo, request, Replaying(found, history, next + 1, replayed.value))
  {
    hide ReplayRecord, Resolve, IndexesAgree, ProposedOn, Retains, Justified;
    var h := History(repo, request.key);
    assert StreamReplays(e, repo, request.key);
    ReplayPrefix(e, h, next + 1);
    assert h[..next + 1] == history[..next + 1] && history[..next + 1][..next] == history[..next];
  }

  /** A completed replay ends in a proposal the event constructor accepts, or in a decision that refuses. */
  lemma ReplayingProposes(e: Evidence, repo: Repository, request: Request, found: Resolved, history: seq<Record>,
                          state: DerivedState, clock: int)
    requires ValidEvidence(e) && RepositoryInvariant(e, repo) && ValidRequest(request)
    requires PhaseInvariant(e, repo, request, Replaying(found, history, |history|, state))
    ensures var proposal := ProposedRecord(found, request, state, clock);
            PhaseInvariant(e, repo, request, if proposal.Err? then Finished(Err(proposal.error))
                                             else Publishing(proposal.value))
  {
    hide Decide, EventPayload, Replay, Resolve, IndexesAgree, CanonicalInput;
    assert history[..|history|] == history;
    assert history == History(repo, request.key)[..|history|];
    ReplayedIsCoherent(e, history);
    var decision := Decide(found.policy, request, found.dispatch, found.claimant, state);
    if decision.Ok? {
      DecisionIsAccepted(e, request, found, state, decision.value, IdempotencyOf(request), clock);
    }
  }

  lemma SubmittedInvariant(e: Evidence, repo: Repository, request: Request)
    ensures PhaseInvariant(e, repo, request, Submitted)
  {
  }

  lemma NextKeepsInvariant(w: World, action: Action)
    requires Invariant(w)
    ensures Invariant(Next(w, action))
    ensures EvidenceGrows(w.evidence, Next(w, action).evidence) && RepositoryGrows(w.repo, Next(w, action).repo)
  {
    hide PhaseInvariant, CallerStep, RepositoryInvariant;
    match action
    case RetainDispatch(d) =>
      if Retained(DispatchSource(), w.evidence.dispatches, d).Ok? {
        RetainOnlyAdds(DispatchSource(), w.evidence.dispatches, d);
        EvidenceKeepsInvariant(w, Next(w, action).evidence);
      }
    case RetainClaimant(c) =>
      if Retained(ClaimantSource(), w.evidence.claimants, c).Ok? {
        RetainOnlyAdds(ClaimantSource(), w.evidence.claimants, c);
        EvidenceKeepsInvariant(w, Next(w, action).evidence);
      }
    case Submit(request) =>
      NoGrowth(w.repo);
      SubmittedInvariant(w.evidence, w.repo, request);
    case Advance(i, clock, commit) =>
      if i < |w.callers| {
        AdvanceKeepsInvariant(w, i, clock, commit);
      }
  }

  lemma AdvanceKeepsInvariant(w: World, i: nat, clock: int, commit: CommitOutcome)
    requires Invariant(w) && i < |w.callers|
    ensures Invariant(Next(w, Advance(i, clock, commit)))
    ensures RepositoryGrows(w.repo, Next(w, Advance(i, clock, commit)).repo)
  {
    hide PhaseInvariant, CallerStep, RepositoryInvariant, RepositoryGrows;
    var c := w.callers[i];
    assert CallerInvariant(w.evidence, w.repo, c);
    CallerStepKeepsInvariant(w.evidence, w.repo, c, clock, commit);
    var (later, phase) := CallerStep(w.evidence, w.repo, c, clock, commit);
    forall j | 0 <= j < |w.callers| && j != i ensures CallerInvariant(w.evidence, later, w.callers[j]) {
      assert CallerInvariant(w.evidence, w.repo, w.callers[j]);
      PhaseIsStable(w.evidence, w.evidence, w.repo, later, w.callers[j].request, w.callers[j].phase);
    }
  }

  lemma {:induction false} RunKeepsInvariant(schedule: seq<Action>)
    ensures Invariant(Run(schedule))
  {
    if schedule == [] {
      forall k ensures StreamReplays(NO_EVIDENCE, EMPTY_REPOSITORY, k) {}
    } else {
      RunKeepsInvariant(schedule[..|schedule| - 1]);
      NextKeepsInvariant(Run(schedule[..|schedule| - 1]), schedule[|schedule| - 1]);
    }
  }
}
