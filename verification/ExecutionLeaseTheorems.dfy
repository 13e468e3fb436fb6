/** What holds of every schedule of concurrent Execution Lease evaluations. */
module ExecutionLeaseTheorems {
  import opened Foundations
  import opened RetainedEvidence
  import opened ExecutionLeaseDomain
  import opened ExecutionLeaseService
  import opened ExecutionLeaseSafety
  import opened ExecutionLeaseConcurrency

  // ---- safety of every reachable lineage -----------------------------------

  /** The record at `i` is exactly what its request proposes on the first `i` events of its lineage. */
  ghost predicate DecidedOnItsHistory(e: Evidence, repo: Repository, k: LineageKey, i: nat)
    requires i < |History(repo, k)|
  {
    var r := History(repo, k)[i];
    && r.request.key == k && r.request.expectedVersion == i
    && exists found, decision ::
         DecidedOn(e, repo, r.request, found, decision)
         && Proposed(found, r.request, decision, r.event.recordedAt) == Ok(r)
  }

  /** In every interleaving every lineage replays exactly, each event was decided on precisely the history it extends,
      and the lineage is one authorized chain that obeys the lease laws. */
  lemma EveryLineageIsLawful(schedule: seq<Action>, k: LineageKey)
    ensures var w := Run(schedule); var h := History(w.repo, k);
            && Replay(w.evidence, w.repo, h) == Ok(Latest(h))
            && LeaseLaws(w.evidence, h)
            && (forall i {:trigger DecidedOnItsHistory(w.evidence, w.repo, k, i)} :: 0 <= i < |h| ==>
                  DecidedOnItsHistory(w.evidence, w.repo, k, i))
  {
    hide Replay, Run, LeaseLaws, Chain, AllAuthorized, DecidedOn, Proposed, IndexesAgree;
    RunKeepsInvariant(schedule);
    var w := Run(schedule);
    var h := History(w.repo, k);
    assert StreamReplays(w.evidence, w.repo, k);
    ReplayIsChain(w.evidence, w.repo, h);
    ChainObeysLaws(w.evidence, h);
    forall i: nat | i < |h| ensures DecidedOnItsHistory(w.evidence, w.repo, k, i) {
      var found, decision := RetainedIsDecided(w.evidence, w.repo, k, i);
    }
  }

  lemma EveryRepositoryIsIndexed(schedule: seq<Action>)
    ensures IndexesAgree(Run(schedule).repo)
  {
    RunKeepsInvariant(schedule);
  }

  lemma {:induction false} HistoryOnlyGrows(schedule: seq<Action>, n: nat)
    requires n <= |schedule|
    ensures RepositoryGrows(Run(schedule[..n]).repo, Run(schedule).repo)
    ensures EvidenceGrows(Run(schedule[..n]).evidence, Run(schedule).evidence)
    decreases |schedule|
  {
    hide Next, Invariant, RepositoryGrows;
    if n == |schedule| {
      assert schedule[..n] == schedule;
      NoGrowth(Run(schedule).repo);
    } else {
      var m := |schedule| - 1;
      HistoryOnlyGrows(schedule[..m], n);
      assert schedule[..m][..n] == schedule[..n];
      RunKeepsInvariant(schedule[..m]);
      NextKeepsInvariant(Run(schedule[..m]), schedule[m]);
      GrowthIsTransitive(Run(schedule[..n]).repo, Run(schedule[..m]).repo, Run(schedule).repo);
    }
  }

  lemma GrowthIsTransitive(a: Repository, b: Repository, c: Repository)
    requires RepositoryGrows(a, b) && RepositoryGrows(b, c)
    ensures RepositoryGrows(a, c)
  {
    forall k ensures StreamGrows(a, c, k) {
      assert StreamGrows(a, b, k) && StreamGrows(b, c, k);
    }
  }

  // ---- applicability -------------------------------------------------------

  /** The event whose authority is asked about: the latest, or the one at the requested version. */
  function AskedVersion(repo: Repository, k: LineageKey, through: Option<int>): int {
    if through.Some? then through.value else |History(repo, k)|
  }

  /** `applicable` is exactly half-open coverage by the event at the boundary asked about; nothing else can fail it. */
  lemma ApplicableIsCoverage(schedule: seq<Action>, k: LineageKey, organization: string, workload: string, at: int,
                             through: Option<int>)
    ensures var w := Run(schedule); var h, v := History(w.repo, k), AskedVersion(w.repo, k, through);
            Applicable(w.evidence, w.repo, k, organization, workload, at, through)
              == if k.organization != organization || k.workload != workload then Err(NotFound)
                 else if through.Some? && !(1 <= v <= |h|) then Err(ReconstructionFailed)
                 else Ok(v > 0 && h[v - 1].event.document.effectiveAt <= at
                         && h[v - 1].event.document.expiresAt.Some? && at < h[v - 1].event.document.expiresAt.value)
  {
    hide Replay, Run, AllAuthorized, IndexesAgree;
    RunKeepsInvariant(schedule);
    var w := Run(schedule);
    var h, v := History(w.repo, k), AskedVersion(w.repo, k, through);
    assert StreamReplays(w.evidence, w.repo, k);
    assert h[..|h|] == h;
    if 0 <= v <= |h| {
      ReplayPrefix(w.evidence, w.repo, h, v);
      ReplayIsChain(w.evidence, w.repo, h[..v]);
      if v > 0 {
        NeverRevoked(h[..v], v - 1);
      }
    }
  }

  /** A retained, approved authorization of this lineage's scope covers `at` and bounds the event's permissions. */
  ghost predicate CoveredBy(e: Evidence, k: LineageKey, event: Event, at: int, id: string) {
    && id in e.authorizations
    && var a := e.authorizations[id].document;
       && a.approved
       && a.organization == k.organization && a.workload == k.workload
       && a.plan == k.plan && a.workItem == k.workItem
       && a.effectiveAt <= at < a.expiresAt
       && event.document.permissions <= a.permissionCeiling
       && event.document.authorizationReference == Some(EvidenceReference(id, AuthorizationDigest(a)))
  }

  ghost predicate SomeAuthorizationCovers(e: Evidence, k: LineageKey, event: Event, at: int) {
    exists id :: CoveredBy(e, k, event, at, id)
  }

  lemma AuthorizedEventIsCovered(e: Evidence, k: LineageKey, event: Event, at: int)
    requires Authorized(e, event) && Identified(event, k)
    requires event.document.effectiveAt <= at < event.document.expiresAt.value
    ensures SomeAuthorizationCovers(e, k, event, at)
  {
    assert CoveredBy(e, k, event, at, event.document.authorizationReference.value.artifactId);
  }

  lemma RetainedEventIsAuthorized(e: Evidence, repo: Repository, k: LineageKey, i: nat)
    requires ValidEvidence(e) && RepositoryInvariant(e, repo) && i < |History(repo, k)|
    ensures Authorized(e, History(repo, k)[i].event) && Identified(History(repo, k)[i].event, k)
  {
    hide Replay, IndexesAgree, Authorized, Identified, Continues, Opens;
    var h := History(repo, k);
    assert StreamReplays(e, repo, k);
    ReplayIsChain(e, repo, h);
    assert LinkAt(h, i);
    IndexesGiveStream(repo, k, 0);
  }

  /** Whenever authority applies, a retained approved authorization of the same organization, workload, plan and
      work item covers that time, and its ceiling contains the permissions of the applicable event. */
  lemma ApplicableIsAuthorized(schedule: seq<Action>, k: LineageKey, organization: string, workload: string, at: int,
                               through: Option<int>)
    requires var w := Run(schedule); Applicable(w.evidence, w.repo, k, organization, workload, at, through) == Ok(true)
    ensures var w := Run(schedule); var v := AskedVersion(w.repo, k, through);
            && k.organization == organization && k.workload == workload
            && 1 <= v <= |History(w.repo, k)|
            && SomeAuthorizationCovers(w.evidence, k, History(w.repo, k)[v - 1].event, at)
  {
    hide Replay, Run, RepositoryInvariant, Applicable, SomeAuthorizationCovers, Authorized, ValidEvidence;
    ApplicableIsCoverage(schedule, k, organization, workload, at, through);
    RunKeepsInvariant(schedule);
    var w := Run(schedule);
    var h, v := History(w.repo, k), AskedVersion(w.repo, k, through);
    RetainedEventIsAuthorized(w.evidence, w.repo, k, v - 1);
    AuthorizedEventIsCovered(w.evidence, k, h[v - 1].event, at);
  }

  /** The answer at a fixed lineage version never changes, whatever is appended or retained later. */
  lemma ApplicableIsSettled(schedule: seq<Action>, n: nat, k: LineageKey, organization: string, workload: string,
                            at: int, version: int)
    requires n <= |schedule| && 1 <= version <= |History(Run(schedule[..n]).repo, k)|
    ensures var early, late := Run(schedule[..n]), Run(schedule);
            Applicable(late.evidence, late.repo, k, organization, workload, at, Some(version))
              == Applicable(early.evidence, early.repo, k, organization, workload, at, Some(version))
  {
    hide Run, Applicable;
    ApplicableIsCoverage(schedule[..n], k, organization, workload, at, Some(version));
    ApplicableIsCoverage(schedule, k, organization, workload, at, Some(version));
    HistoryOnlyGrows(schedule, n);
    assert StreamGrows(Run(schedule[..n]).repo, Run(schedule).repo, k);
  }

  // ---- idempotency ---------------------------------------------------------

  /** Equal requests, however they interleave, never yield two events: once one of them has an event, every other
      one that finishes has the same event, unless it lost a version race, ran before its evidence was retained,
      or met a failing commit. */
  lemma EqualRequestsShareOneEvent(schedule: seq<Action>, i: nat, j: nat)
    requires i < |Run(schedule).callers| && j < |Run(schedule).callers|
    requires var callers := Run(schedule).callers;
             && callers[i].request == callers[j].request
             && callers[i].phase.Finished? && callers[i].phase.result.Ok? && callers[j].phase.Finished?
    ensures var ours, theirs := Run(schedule).callers[i].phase.result, Run(schedule).callers[j].phase.result;
            match theirs
            case Ok(result) => result.event == ours.value.event
            case Err(error) => error.VersionConflict? || error.EvidenceUnavailable? || error.PersistenceFailure?
  {
    hide Run, Replay;
    RunKeepsInvariant(schedule);
    var w := Run(schedule);
    assert CallerInvariant(w.evidence, w.repo, w.callers[i]) && CallerInvariant(w.evidence, w.repo, w.callers[j]);
    RetainedExcludesOtherFailures(w.evidence, w.repo, w.callers[i].request, w.callers[i].phase.result.value.event);
  }

  lemma RetainedExcludesOtherFailures(e: Evidence, repo: Repository, request: Request, event: Event)
    requires ValidEvidence(e) && RepositoryInvariant(e, repo) && ValidRequest(request) && Retains(repo, request, event)
    ensures Resolve(e, repo, request).Ok? && !request.operation.Revoke? && !Taken(repo, request)
    ensures !Refused(e, repo, request)
  {
    hide Replay, Resolve, Decide, StreamReplays;
    var key := (request.key, IdempotencyOf(request));
    assert IdempotencyAgrees(repo, key);
    var found, decision := RetainedIsDecided(e, repo, request.key,
                                             repo.idempotency[key].event.document.lineageVersion - 1);
    if request.operation.Revoke? {
      RevocationNeverResolves(e, repo, request);
    }
  }

  /** No two positions, of the same or of different lineages, were published under one idempotency identity. */
  lemma OnePositionPerIdentity(schedule: seq<Action>, k: LineageKey, i: nat, k': LineageKey, j: nat)
    requires i < |History(Run(schedule).repo, k)| && j < |History(Run(schedule).repo, k')|
    requires IdempotencyKeyOf(History(Run(schedule).repo, k)[i]) == IdempotencyKeyOf(History(Run(schedule).repo, k')[j])
    ensures k == k' && i == j
  {
    hide Run;
    RunKeepsInvariant(schedule);
    IndexesGiveStream(Run(schedule).repo, k, i);
    IndexesGiveStream(Run(schedule).repo, k', j);
  }

  /** Fail closed: no interleaving lets a revocation request finish with an event. */
  lemma RevocationFailsClosed(schedule: seq<Action>, i: nat)
    requires i < |Run(schedule).callers| && Run(schedule).callers[i].request.operation.Revoke?
    requires Run(schedule).callers[i].phase.Finished?
    ensures Run(schedule).callers[i].phase.result.Err?
  {
    hide Run, Replay, Resolve;
    RunKeepsInvariant(schedule);
    var w := Run(schedule);
    assert CallerInvariant(w.evidence, w.repo, w.callers[i]);
    if w.callers[i].phase.result.Ok? {
      RetainedExcludesOtherFailures(w.evidence, w.repo, w.callers[i].request, w.callers[i].phase.result.value.event);
    }
  }

  /** Retrying a published request, in any later state and whatever the commit would have done,
      returns the original event and changes nothing. */
  lemma RetryReturnsOriginal(schedule: seq<Action>, n: nat, k: LineageKey, i: nat, clock: int, commit: CommitOutcome)
    requires n <= |schedule| && i < |History(Run(schedule[..n]).repo, k)|
    ensures var w, r := Run(schedule), History(Run(schedule[..n]).repo, k)[i];
            Evaluate(w.evidence, w.repo, r.request, clock, commit)
              == (w.repo, Ok(EvaluationResult(ExistingEquivalent, r.event)))
  {
    hide Run, Replay, ReplayRecord, Proposed, Append, Resolve, IndexesAgree, RetryAnswer;
    HistoryOnlyGrows(schedule, n);
    RunKeepsInvariant(schedule);
    var w := Run(schedule);
    var r := History(Run(schedule[..n]).repo, k)[i];
    assert StreamGrows(Run(schedule[..n]).repo, w.repo, k);
    IndexesGiveStream(w.repo, k, i);
    assert StreamReplays(w.evidence, w.repo, k);
    var found, decision := RetainedIsDecided(w.evidence, w.repo, k, i);
    RetryIsAnswered(w.evidence, w.repo, r.request, found);
  }

  // ---- every run is a serial run -------------------------------------------

  /** Evaluating the logged requests one after the other, each to completion and each creating its event. */
  function Serial(e: Evidence, log: seq<(Request, int)>): Option<Repository> {
    if log == [] then Some(EMPTY_REPOSITORY)
    else
      var last := log[|log| - 1];
      var earlier := Serial(e, log[..|log| - 1]);
      if earlier.None? then None
      else
        var (later, result) := Evaluate(e, earlier.value, last.0, last.1, Committed);
        if result.Ok? && result.value.outcome.Created? then Some(later) else None
  }

  /** The requests in the order in which they published, each with the clock its event recorded. */
  function Published(schedule: seq<Action>): seq<(Request, int)> {
    if schedule == [] then []
    else
      var m := |schedule| - 1;
      Published(schedule[..m]) + Publication(Run(schedule[..m]), schedule[m])
  }

  function Publication(w: World, action: Action): seq<(Request, int)> {
    if action.Advance? && action.caller < |w.callers| && w.callers[action.caller].phase.Publishing? then
      var c := w.callers[action.caller];
      var (_, result) := Append(w.repo, c.phase.record, c.request.expectedVersion, action.commit);
      if result.Ok? && result.value.outcome.Created? then [(c.request, c.phase.record.event.recordedAt)] else []
    else []
  }

  lemma CreationIsStable(e: Evidence, later: Evidence, repo: Repository, request: Request, clock: int)
    requires EvidenceGrows(e, later)
    requires var (_, result) := Evaluate(e, repo, request, clock, Committed);
             result.Ok? && result.value.outcome.Created?
    ensures Evaluate(later, repo, request, clock, Committed) == Evaluate(e, repo, request, clock, Committed)
  {
    hide Resolve, Replay, Append, Proposed, CanonicalInput, Idempotent, Decide;
    ResolvedIsNoRevocation(e, repo, request);
    ResolveIsStable(e, later, repo, repo, request);
    ReplayIsStable(e, later, repo, repo, History(repo, request.key));
  }

  lemma {:induction false} SerialIsStable(e: Evidence, later: Evidence, log: seq<(Request, int)>)
    requires EvidenceGrows(e, later) && Serial(e, log).Some?
    ensures Serial(later, log) == Serial(e, log)
  {
    hide Evaluate, EvidenceGrows;
    if log != [] {
      var last := log[|log| - 1];
      SerialIsStable(e, later, log[..|log| - 1]);
      CreationIsStable(e, later, Serial(e, log[..|log| - 1]).value, last.0, last.1);
    }
  }

  lemma PublicationIsEvaluation(e: Evidence, repo: Repository, request: Request, r: Record)
    requires ValidEvidence(e) && RepositoryInvariant(e, repo) && ValidRequest(request)
    requires ProposedOn(e, repo, request, r)
    requires request.expectedVersion == |History(repo, request.key)| && Fresh(repo, r)
    ensures Evaluate(e, repo, request, r.event.recordedAt, Committed)
              == (Publish(repo, r), Ok(EvaluationResult(Created, r.event)))
  {
    hide Replay, Resolve, Publish, IndexesAgree, Decide, CanonicalInput, Proposed, ValidRequest;
    var found, decision :| DecidedOn(e, repo, request, found, decision)
                           && Proposed(found, request, decision, r.event.recordedAt) == Ok(r);
    var _, _ := ProposalNamesRequest(e, repo, request, r);
    assert StreamReplays(e, repo, request.key);
    assert History(repo, request.key)[..request.expectedVersion] == History(repo, request.key);
  }

  /** Every interleaving leaves the repository that a serial execution of the published requests leaves. */
  lemma {:induction false} EveryRunIsSerial(schedule: seq<Action>)
    ensures Serial(Run(schedule).evidence, Published(schedule)) == Some(Run(schedule).repo)
  {
    if schedule != [] {
      var m := |schedule| - 1;
      EveryRunIsSerial(schedule[..m]);
      RunKeepsInvariant(schedule[..m]);
      SerialStep(Run(schedule[..m]), schedule[m], Published(schedule[..m]));
    }
  }

  lemma SerialStep(w: World, action: Action, log: seq<(Request, int)>)
    requires Invariant(w) && Serial(w.evidence, log) == Some(w.repo)
    ensures Serial(Next(w, action).evidence, log + Publication(w, action)) == Some(Next(w, action).repo)
  {
    hide Serial, CallerStep;
    var w' := Next(w, action);
    NextKeepsInvariant(w, action);
    SerialIsStable(w.evidence, w'.evidence, log);
    assert log + [] == log;
    if action.Advance? && action.caller < |w.callers| {
      AdvanceIsSerial(w, action.caller, action.clock, action.commit, log);
    }
  }

  lemma AdvanceIsSerial(w: World, i: nat, clock: int, commit: CommitOutcome, log: seq<(Request, int)>)
    requires Invariant(w) && i < |w.callers| && Serial(w.evidence, log) == Some(w.repo)
    ensures Serial(w.evidence, log + Publication(w, Advance(i, clock, commit)))
              == Some(CallerStep(w.evidence, w.repo, w.callers[i], clock, commit).0)
  {
    hide Append, Evaluate, ReplayRecord, Proposed, Resolve, RepositoryInvariant, ProposedOn, DecidedOn, Decide,
         Idempotent, RetryAnswer, CanonicalInput;
    var c := w.callers[i];
    assert CallerInvariant(w.evidence, w.repo, c);
    assert log + [] == log;
    if c.phase.Publishing? {
      var r := c.phase.record;
      var (later, result) := Append(w.repo, r, c.request.expectedVersion, commit);
      PublishingKeepsInvariant(w.evidence, w.repo, c.request, r, commit);
      if result.Ok? && result.value.outcome.Created? {
        PublicationIsEvaluation(w.evidence, w.repo, c.request, r);
        var more := log + [(c.request, r.event.recordedAt)];
        assert more[..|log|] == log;
      }
    }
  }

  // ---- the step relation and `evaluate` ------------------------------------

  /** `n` uninterrupted steps of one caller. */
  function Solo(e: Evidence, repo: Repository, c: Caller, clock: int, commit: CommitOutcome, n: nat)
    : (Repository, Phase)
    decreases n
  {
    if n == 0 then (repo, c.phase)
    else
      var (later, phase) := CallerStep(e, repo, c, clock, commit);
      Solo(e, later, c.(phase := phase), clock, commit, n - 1)
  }

  /** What remains to be done once the history is replayed. */
  function Conclusion(repo: Repository, request: Request, found: Resolved, state: DerivedState, clock: int,
                      commit: CommitOutcome)
    : (Repository, Result<EvaluationResult, RuntimeError>)
  {
    var decision := Decide(request, state);
    if decision.Err? then (repo, Err(decision.error)) else
    var again := Idempotent(repo, request.key, IdempotencyOf(request),
                            CanonicalInput(request, found, decision.value.generation));
    if again.Err? then (repo, Err(again.error)) else
    if again.value.Some? then (repo, Ok(EvaluationResult(ExistingEquivalent, again.value.value))) else
    var proposal := Proposed(found, request, decision.value, clock);
    if proposal.Err? then (repo, Err(proposal.error)) else
    Append(repo, proposal.value, request.expectedVersion, commit)
  }

  lemma {:induction false} SoloStays(e: Evidence, repo: Repository, request: Request,
                                     result: Result<EvaluationResult, RuntimeError>, clock: int, commit: CommitOutcome,
                                     n: nat)
    ensures Solo(e, repo, Caller(request, Finished(result)), clock, commit, n) == (repo, Finished(result))
  {
    if n > 0 {
      SoloStays(e, repo, request, result, clock, commit, n - 1);
    }
  }

  lemma SoloPublishes(e: Evidence, repo: Repository, request: Request, r: Record, clock: int, commit: CommitOutcome)
    ensures var (later, result) := Append(repo, r, request.expectedVersion, commit);
            Solo(e, repo, Caller(request, Publishing(r)), clock, commit, 1) == (later, Finished(result))
  {
    hide Append;
    var (later, result) := Append(repo, r, request.expectedVersion, commit);
    SoloStays(e, later, request, result, clock, commit, 0);
  }

  lemma SoloConcludes(e: Evidence, repo: Repository, request: Request, found: Resolved, h: seq<Record>,
                      state: DerivedState, clock: int, commit: CommitOutcome)
    ensures var (later, result) := Conclusion(repo, request, found, state, clock, commit);
            Solo(e, repo, Caller(request, Replaying(found, h, |h|, state)), clock, commit, 3)
              == (later, Finished(result))
  {
    hide Append, Decide, Idempotent, CanonicalInput, Proposed;
    var decision := Decide(request, state);
    if decision.Err? {
      SoloStays(e, repo, request, Err(decision.error), clock, commit, 2);
      return;
    }
    var again := Idempotent(repo, request.key, IdempotencyOf(request),
                            CanonicalInput(request, found, decision.value.generation));
    var proposal := Proposed(found, request, decision.value, clock);
    if again.Err? {
      SoloStays(e, repo, request, Err(again.error), clock, commit, 1);
    } else if again.value.Some? {
      SoloStays(e, repo, request, Ok(EvaluationResult(ExistingEquivalent, again.value.value)), clock, commit, 1);
    } else if proposal.Err? {
      SoloStays(e, repo, request, Err(proposal.error), clock, commit, 1);
    } else {
      SoloPublishes(e, repo, request, proposal.value, clock, commit);
    }
  }

  lemma {:induction false} SoloReplays(e: Evidence, repo: Repository, request: Request, found: Resolved, h: seq<Record>,
                                       next: nat, state: DerivedState, clock: int, commit: CommitOutcome)
    requires next <= |h| && Replay(e, repo, h[..next]) == Ok(state)
    ensures var replayed := Replay(e, repo, h);
            Solo(e, repo, Caller(request, Replaying(found, h, next, state)), clock, commit, |h| - next + 3)
              == if replayed.Err? then (repo, Finished(Err(replayed.error)))
                 else
                   var (later, result) := Conclusion(repo, request, found, replayed.value, clock, commit);
                   (later, Finished(result))
    decreases |h| - next
  {
    hide ReplayRecord, Conclusion, Append;
    if next < |h| {
      assert h[..next + 1][..next] == h[..next];
      var replayed := ReplayRecord(e, repo, h[0].request.key, state, h[next]);
      if replayed.Ok? {
        SoloReplays(e, repo, request, found, h, next + 1, replayed.value, clock, commit);
      } else {
        FailedReplayFails(e, repo, h, next + 1);
        SoloStays(e, repo, request, Err(replayed.error), clock, commit, |h| - next + 2);
      }
    } else {
      assert h[..next] == h;
      SoloConcludes(e, repo, request, found, h, state, clock, commit);
    }
  }

  lemma EvaluateConcludes(e: Evidence, repo: Repository, request: Request, found: Resolved, clock: int,
                          commit: CommitOutcome)
    requires IdempotencyRecord(repo, request).None? && Resolve(e, repo, request) == Ok(found)
    requires request.expectedVersion == |History(repo, request.key)|
    ensures var replayed := Replay(e, repo, History(repo, request.key));
            Evaluate(e, repo, request, clock, commit)
              == if replayed.Err? then (repo, Err(replayed.error))
                 else Conclusion(repo, request, found, replayed.value, clock, commit)
  {
    hide Resolve, Replay, Decide, CanonicalInput, Proposed, Append, Idempotent, IdempotencyRecord;
  }

  /** A caller that nobody interrupts computes exactly `Evaluate`, in at most six steps more than its history is
      long. */
  lemma UninterruptedIsEvaluate(e: Evidence, repo: Repository, request: Request, clock: int, commit: CommitOutcome)
    ensures var (later, result) := Evaluate(e, repo, request, clock, commit);
            Solo(e, repo, Caller(request, Submitted), clock, commit, |History(repo, request.key)| + 6)
              == (later, Finished(result))
  {
    hide Replay, ReplayRecord, Resolve, Conclusion, RetryAnswer, IdempotencyRecord, Append, Decide, Proposed,
         CanonicalInput;
    var h := History(repo, request.key);
    var prior, found := IdempotencyRecord(repo, request), Resolve(e, repo, request);
    if prior.Some? && prior.value.request != request {
      SoloStays(e, repo, request, Err(IdempotencyConflict), clock, commit, |h| + 5);
    } else if found.Err? {
      SoloStays(e, repo, request, Err(found.error), clock, commit, |h| + 4);
    } else if prior.Some? {
      SoloStays(e, repo, request, RetryAnswer(prior.value, request, found.value), clock, commit, |h| + 4);
    } else {
      SoloFromEvidence(e, repo, request, found.value, clock, commit);
    }
  }

  lemma SoloFromEvidence(e: Evidence, repo: Repository, request: Request, found: Resolved, clock: int,
                         commit: CommitOutcome)
    requires IdempotencyRecord(repo, request).None? && Resolve(e, repo, request) == Ok(found)
    ensures var (later, result) := Evaluate(e, repo, request, clock, commit);
            Solo(e, repo, Caller(request, EvidenceFound(found)), clock, commit, |History(repo, request.key)| + 4)
              == (later, Finished(result))
  {
    var h := History(repo, request.key);
    if request.expectedVersion != |h| {
      hide Replay, Resolve, IdempotencyRecord;
      SoloStays(e, repo, request, Err(VersionConflict), clock, commit, |h| + 3);
    } else {
      EvaluateConcludes(e, repo, request, found, clock, commit);
      hide Evaluate, Conclusion, Resolve, IdempotencyRecord, ReplayRecord;
      assert h[..0] == [];
      SoloReplays(e, repo, request, found, h, 0, INITIAL_STATE, clock, commit);
    }
  }
}
