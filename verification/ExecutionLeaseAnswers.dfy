/** What concurrent lease callers are told: the answer of an uninterrupted evaluation at some moment of their own
    call, unless another call publishes under the same idempotency identity meanwhile. */
module ExecutionLeaseAnswers {
  import opened Foundations
  import opened RetainedEvidence
  import opened ExecutionLeaseDomain
  import opened ExecutionLeaseService
  import opened ExecutionLeaseSafety
  import opened ExecutionLeaseConcurrency
  import opened ExecutionLeaseTheorems

  // ---- moments of a call ---------------------------------------------------

  /** The identity of the request is in the idempotency index. */
  predicate Known(repo: Repository, request: Request) {
    (request.key, IdempotencyOf(request)) in repo.idempotency
  }

  /** After the first `n` actions the call of caller `i` has begun and is not finished. */
  predicate OpenAt(schedule: seq<Action>, n: nat, i: nat, request: Request) {
    && n <= |schedule|
    && var callers := Run(schedule[..n]).callers;
       i < |callers| && callers[i].request == request && !callers[i].phase.Finished?
  }

  /** An uninterrupted evaluation in this world may answer so. */
  ghost predicate AnswersIn(w: World, request: Request, result: Result<EvaluationResult, RuntimeError>) {
    exists clock, commit :: Evaluate(w.evidence, w.repo, request, clock, commit).1 == result
  }

  ghost predicate AtomicAt(schedule: seq<Action>, n: nat, i: nat, request: Request,
                           result: Result<EvaluationResult, RuntimeError>) {
    OpenAt(schedule, n, i, request) && AnswersIn(Run(schedule[..n]), request, result)
  }

  /** At some moment of the call an uninterrupted evaluation answers so. */
  ghost predicate Atomic(schedule: seq<Action>, i: nat, request: Request,
                         result: Result<EvaluationResult, RuntimeError>) {
    exists n: nat :: AtomicAt(schedule, n, i, request, result)
  }

  ghost predicate MissedAt(schedule: seq<Action>, n: nat, i: nat, request: Request) {
    OpenAt(schedule, n, i, request) && !Known(Run(schedule[..n]).repo, request)
  }

  ghost predicate KnownAt(schedule: seq<Action>, n: nat, i: nat, request: Request) {
    OpenAt(schedule, n, i, request) && Known(Run(schedule[..n]).repo, request)
  }

  ghost predicate Missed(schedule: seq<Action>, i: nat, request: Request) {
    exists m: nat :: MissedAt(schedule, m, i, request)
  }

  /** While the call was open another one published under its idempotency identity. */
  ghost predicate Raced(schedule: seq<Action>, i: nat, request: Request) {
    exists m: nat, n: nat :: m < n && MissedAt(schedule, m, i, request) && KnownAt(schedule, n, i, request)
  }

  /** The history the request expects refuses its decision with this error. */
  ghost predicate Refuses(w: World, request: Request, error: RuntimeError) {
    var h := History(w.repo, request.key);
    && request.expectedVersion <= |h|
    && Replay(w.evidence, w.repo, h[..request.expectedVersion]).Ok?
    && Decide(request, Replay(w.evidence, w.repo, h[..request.expectedVersion]).value) == Err(error)
  }

  /** The identity is taken by another request, and the evidence of this one fails with this error. */
  ghost predicate Unresolved(w: World, request: Request, error: RuntimeError) {
    Taken(w.repo, request) && Resolve(w.evidence, w.repo, request) == Err(error)
  }

  ghost predicate RefusedAt(schedule: seq<Action>, n: nat, i: nat, request: Request, error: RuntimeError) {
    && OpenAt(schedule, n, i, request)
    && (Refuses(Run(schedule[..n]), request, error) || Unresolved(Run(schedule[..n]), request, error))
  }

  /** What a race for the identity can do to an answer: the version has moved on, the history it left refuses, or the
      evidence is read after another request has taken the identity. */
  ghost predicate LostRace(schedule: seq<Action>, i: nat, request: Request, error: RuntimeError) {
    && Raced(schedule, i, request)
    && (error.VersionConflict? || exists n: nat :: RefusedAt(schedule, n, i, request, error))
  }

  /** The history was loaded while the identity was still unknown. */
  ghost predicate LoadedAt(schedule: seq<Action>, n: nat, i: nat, request: Request, history: seq<Record>) {
    && MissedAt(schedule, n, i, request)
    && History(Run(schedule[..n]).repo, request.key) == history
    && Resolve(Run(schedule[..n]).evidence, Run(schedule[..n]).repo, request).Ok?
  }

  ghost predicate Loaded(schedule: seq<Action>, i: nat, request: Request, history: seq<Record>) {
    exists n: nat :: LoadedAt(schedule, n, i, request, history)
  }

  /** The lookup has missed and the history is not loaded yet. */
  predicate Searching(phase: Phase) {
    phase == LookedUp(None) || phase.EvidenceFound?
  }

  /** What is known of each caller. */
  ghost predicate Accounted(schedule: seq<Action>, i: nat, c: Caller) {
    match c.phase
    case LookedUp(None) => Missed(schedule, i, c.request)
    case EvidenceFound(_) => Missed(schedule, i, c.request)
    case Replaying(_, history, _, _) => Raced(schedule, i, c.request) || Loaded(schedule, i, c.request, history)
    case Finished(result) =>
      Atomic(schedule, i, c.request, result) || (result.Err? && LostRace(schedule, i, c.request, result.error))
    case _ => true
  }

  lemma EarlierMoment(schedule: seq<Action>, m: nat, n: nat, i: nat, request: Request)
    requires n <= m <= |schedule|
    ensures schedule[..m][..n] == schedule[..n]
    ensures OpenAt(schedule[..m], n, i, request) == OpenAt(schedule, n, i, request)
  {
  }

  /** A moment before the first `m` actions are done is the same moment of the longer schedule. */
  lemma MomentStays(schedule: seq<Action>, m: nat, n: nat, i: nat, request: Request)
    requires m <= |schedule| && OpenAt(schedule[..m], n, i, request)
    ensures n <= m && OpenAt(schedule, n, i, request) && schedule[..m][..n] == schedule[..n]
  {
    EarlierMoment(schedule, m, n, i, request);
  }

  lemma RaceStays(schedule: seq<Action>, m: nat, i: nat, request: Request)
    requires m <= |schedule| && Raced(schedule[..m], i, request)
    ensures Raced(schedule, i, request)
  {
    hide OpenAt, Known;
    var a: nat, b: nat :| a < b && MissedAt(schedule[..m], a, i, request) && KnownAt(schedule[..m], b, i, request);
    MomentStays(schedule, m, a, i, request);
    MomentStays(schedule, m, b, i, request);
    assert MissedAt(schedule, a, i, request) && KnownAt(schedule, b, i, request);
  }

  lemma LossStays(schedule: seq<Action>, m: nat, i: nat, request: Request, error: RuntimeError)
    requires m <= |schedule| && LostRace(schedule[..m], i, request, error)
    ensures LostRace(schedule, i, request, error)
  {
    hide OpenAt, Refuses, Raced;
    RaceStays(schedule, m, i, request);
    if !error.VersionConflict? {
      var n: nat :| RefusedAt(schedule[..m], n, i, request, error);
      MomentStays(schedule, m, n, i, request);
      assert RefusedAt(schedule, n, i, request, error);
    }
  }

  lemma MomentOfMissStays(schedule: seq<Action>, m: nat, i: nat, request: Request) returns (n: nat)
    requires m <= |schedule| && Missed(schedule[..m], i, request)
    ensures n <= m && MissedAt(schedule, n, i, request)
    ensures Missed(schedule, i, request)
  {
    hide OpenAt, Known;
    n :| MissedAt(schedule[..m], n, i, request);
    MomentStays(schedule, m, n, i, request);
    assert MissedAt(schedule, n, i, request);
  }

  lemma LoadStays(schedule: seq<Action>, m: nat, i: nat, request: Request, history: seq<Record>)
    requires m <= |schedule| && Loaded(schedule[..m], i, request, history)
    ensures Loaded(schedule, i, request, history)
  {
    hide OpenAt, Known, Resolve, History;
    var n: nat :| LoadedAt(schedule[..m], n, i, request, history);
    MomentStays(schedule, m, n, i, request);
    assert LoadedAt(schedule, n, i, request, history);
  }

  lemma AtomicStays(schedule: seq<Action>, m: nat, i: nat, request: Request,
                    result: Result<EvaluationResult, RuntimeError>)
    requires m <= |schedule| && Atomic(schedule[..m], i, request, result)
    ensures Atomic(schedule, i, request, result)
  {
    hide OpenAt, AnswersIn;
    var n: nat :| AtomicAt(schedule[..m], n, i, request, result);
    MomentStays(schedule, m, n, i, request);
    assert AtomicAt(schedule, n, i, request, result);
  }

  /** More actions leave the account of a caller that does not move. */
  lemma AccountStays(schedule: seq<Action>, m: nat, i: nat, c: Caller)
    requires m <= |schedule| && Accounted(schedule[..m], i, c)
    ensures Accounted(schedule, i, c)
  {
    hide Missed, Raced, Loaded, Atomic, LostRace;
    if Raced(schedule[..m], i, c.request) {
      RaceStays(schedule, m, i, c.request);
    }
    match c.phase
    case LookedUp(None) => var _ := MomentOfMissStays(schedule, m, i, c.request);
    case EvidenceFound(_) => var _ := MomentOfMissStays(schedule, m, i, c.request);
    case Replaying(_, history, _, _) =>
      if Loaded(schedule[..m], i, c.request, history) {
        LoadStays(schedule, m, i, c.request, history);
      }
    case Finished(result) =>
      if Atomic(schedule[..m], i, c.request, result) {
        AtomicStays(schedule, m, i, c.request, result);
      } else {
        LossStays(schedule, m, i, c.request, result.error);
      }
    case _ =>
  }

  // ---- the last step of a call ---------------------------------------------

  lemma Answers(w: World, request: Request, clock: int, commit: CommitOutcome)
    ensures AnswersIn(w, request, Evaluate(w.evidence, w.repo, request, clock, commit).1)
  {
  }

  /** The compare-and-swap answers, and changes, what an evaluation run without interruption in its place would. */
  lemma PublishingIsEvaluate(e: Evidence, repo: Repository, request: Request, r: Record, commit: CommitOutcome)
    requires ValidEvidence(e) && RepositoryInvariant(e, repo) && ValidRequest(request)
    requires ProposedOn(e, repo, request, r)
    ensures Evaluate(e, repo, request, r.event.recordedAt, commit) == Append(repo, r, request.expectedVersion, commit)
  {
    hide Replay, Resolve, Publish, IndexesAgree, Decide, CanonicalInput, Proposed, ValidRequest, DecidedOn, RetryAnswer;
    var found, decision :| DecidedOn(e, repo, request, found, decision)
                           && Proposed(found, request, decision, r.event.recordedAt) == Ok(r);
    ProposalIsEvaluate(e, repo, request, found, decision, r.event.recordedAt, r, commit);
  }

  lemma DecisionIsEvaluate(e: Evidence, repo: Repository, request: Request, found: Resolved, decision: Decision,
                           clock: int, commit: CommitOutcome)
    requires ValidEvidence(e) && RepositoryInvariant(e, repo) && ValidRequest(request)
    requires DecidedOn(e, repo, request, found, decision)
    ensures Known(repo, request) ==>
              var prior := Idempotent(repo, request.key, IdempotencyOf(request),
                                      CanonicalInput(request, found, decision.generation));
              && Evaluate(e, repo, request, clock, commit)
                   == (repo, if prior.Err? then Err(prior.error)
                             else Ok(EvaluationResult(ExistingEquivalent, prior.value.value)))
              && (prior.Ok? ==> prior.value.Some?)
  {
    hide Replay, Resolve, IndexesAgree, Decide, CanonicalInput, ValidRequest, DecidedOn, RetryAnswer,
         RepositoryInvariant;
    ResolvedWhenDecided(e, repo, request, found, decision);
    if Known(repo, request) {
      if Taken(repo, request) {
        if repo.idempotency[(request.key, IdempotencyOf(request))].inputContent
             == CanonicalInput(request, found, decision.generation) {
          HitIsOwn(e, repo, request, found, decision.generation);
        }
      } else {
        OwnHit(e, repo, request, found, decision);
        RetryIsAnswered(e, repo, request, found);
      }
    }
  }

  lemma ResolvedWhenDecided(e: Evidence, repo: Repository, request: Request, found: Resolved, decision: Decision)
    requires DecidedOn(e, repo, request, found, decision)
    ensures Resolve(e, repo, request) == Ok(found)
  {
  }

  lemma ProposalIsEvaluate(e: Evidence, repo: Repository, request: Request, found: Resolved, decision: Decision,
                           clock: int, r: Record, commit: CommitOutcome)
    requires ValidEvidence(e) && RepositoryInvariant(e, repo) && ValidRequest(request)
    requires DecidedOn(e, repo, request, found, decision)
    requires Proposed(found, request, decision, clock) == Ok(r)
    ensures Evaluate(e, repo, request, clock, commit) == Append(repo, r, request.expectedVersion, commit)
  {
    hide Replay, Resolve, Publish, IndexesAgree, Decide, CanonicalInput, ValidRequest, RetryAnswer;
    if Known(repo, request) {
      DecisionIsEvaluate(e, repo, request, found, decision, clock, commit);
    } else {
      assert StreamReplays(e, repo, request.key);
      assert request.expectedVersion == |History(repo, request.key)| ==>
               History(repo, request.key)[..request.expectedVersion] == History(repo, request.key);
    }
  }

  /** The answers that need no history. */
  lemma LookupIsEvaluate(e: Evidence, repo: Repository, request: Request, clock: int, commit: CommitOutcome)
    ensures var prior, found := IdempotencyRecord(repo, request), Resolve(e, repo, request);
            var (later, result) := Evaluate(e, repo, request, clock, commit);
            && (prior.Some? && prior.value.request != request ==> later == repo && result == Err(IdempotencyConflict))
            && ((prior.Some? ==> prior.value.request == request) && found.Err? ==>
                  later == repo && result == Err(found.error))
            && (prior.Some? && prior.value.request == request && found.Ok? ==>
                  later == repo && result == RetryAnswer(prior.value, request, found.value))
            && (prior.None? && found.Ok? && request.expectedVersion != |History(repo, request.key)| ==>
                  later == repo && result == Err(VersionConflict))
  {
    hide Resolve, Replay, Proposed, CanonicalInput, Append, RetryAnswer, Decide;
  }

  /** A call that ends neither after loading a history nor under an identity that became known since its lookup
      answers as an evaluation run in place of its last step. */
  lemma LastStepAnswers(w: World, c: Caller, clock: int, commit: CommitOutcome)
    requires ValidEvidence(w.evidence) && RepositoryInvariant(w.evidence, w.repo)
    requires CallerInvariant(w.evidence, w.repo, c)
    requires !c.phase.Finished? && !c.phase.Replaying?
    requires (c.phase == LookedUp(None) ==> !Taken(w.repo, c.request))
    requires (c.phase.EvidenceFound? ==> !Known(w.repo, c.request))
    ensures var phase := CallerStep(w.evidence, w.repo, c, clock, commit).1;
            phase.Finished? ==> AnswersIn(w, c.request, phase.result)
  {
    hide Evaluate, Resolve, CanonicalInput, Append, ProposedOn, DecidedOn, RepositoryInvariant, AnswersIn, RetryAnswer,
         ValidRequest, Proposed;
    Answers(w, c.request, clock, commit);
    LookupIsEvaluate(w.evidence, w.repo, c.request, clock, commit);
    match c.phase
    case Submitted =>
    case LookedUp(_) =>
    case EvidenceFound(_) =>
    case DecisionMade(found, decision) =>
      DecisionIsEvaluate(w.evidence, w.repo, c.request, found, decision, clock, commit);
      ProposalExists(w.evidence, w.repo, c.request, found, decision, clock);
    case Publishing(r) =>
      PublishingIsEvaluate(w.evidence, w.repo, c.request, r, commit);
      Answers(w, c.request, r.event.recordedAt, commit);
  }

  /** A refused decision is what an evaluation run when the history was loaded answers. */
  lemma RefusalIsEvaluate(early: World, late: World, request: Request, found: Resolved, history: seq<Record>,
                          state: DerivedState)
    requires Invariant(early) && EvidenceGrows(early.evidence, late.evidence)
    requires PhaseInvariant(late.evidence, late.repo, request, Replaying(found, history, |history|, state))
    requires !Known(early.repo, request) && History(early.repo, request.key) == history
    requires Resolve(early.evidence, early.repo, request).Ok? && Decide(request, state).Err?
    ensures AnswersIn(early, request, Err(Decide(request, state).error))
  {
    hide Replay, Resolve, Decide, CanonicalInput, IndexesAgree;
    ReplayIsStable(early.evidence, late.evidence, early.repo, late.repo, history) by {
      assert StreamReplays(early.evidence, early.repo, request.key);
    }
    assert StreamReplays(early.evidence, early.repo, request.key);
    assert history[..|history|] == history;
    Answers(early, request, 0, Committed);
  }

  // ---- every answer is accounted for ---------------------------------------

  lemma AnswerIsAtomic(schedule: seq<Action>, i: nat, c: Caller, clock: int, commit: CommitOutcome)
    requires schedule != [] && OpenAt(schedule, |schedule| - 1, i, c.request)
    requires var w := Run(schedule[..|schedule| - 1]);
             && Invariant(w) && w.callers[i] == c
             && !c.phase.Replaying?
             && (c.phase == LookedUp(None) ==> !Taken(w.repo, c.request))
             && (c.phase.EvidenceFound? ==> !Known(w.repo, c.request))
    ensures var w := Run(schedule[..|schedule| - 1]); var phase := CallerStep(w.evidence, w.repo, c, clock, commit).1;
            phase.Finished? ==> Atomic(schedule, i, c.request, phase.result)
  {
    hide Run, CallerStep, AnswersIn, PhaseInvariant, RepositoryInvariant;
    var w := Run(schedule[..|schedule| - 1]);
    assert CallerInvariant(w.evidence, w.repo, w.callers[i]);
    LastStepAnswers(w, c, clock, commit);
    var phase := CallerStep(w.evidence, w.repo, c, clock, commit).1;
    if phase.Finished? {
      assert AtomicAt(schedule, |schedule| - 1, i, c.request, phase.result);
    }
  }

  lemma RefusalIsAtomic(schedule: seq<Action>, i: nat, request: Request, found: Resolved, history: seq<Record>,
                        state: DerivedState)
    requires var w := Run(schedule);
             PhaseInvariant(w.evidence, w.repo, request, Replaying(found, history, |history|, state))
    requires Loaded(schedule, i, request, history) && Decide(request, state).Err?
    ensures Atomic(schedule, i, request, Err(Decide(request, state).error))
  {
    hide Run, Invariant, PhaseInvariant, RepositoryGrows, EvidenceGrows, AnswersIn, Decide, Resolve;
    var n: nat :| LoadedAt(schedule, n, i, request, history);
    RunKeepsInvariant(schedule[..n]);
    HistoryOnlyGrows(schedule, n);
    RefusalIsEvaluate(Run(schedule[..n]), Run(schedule), request, found, history, state);
    assert AtomicAt(schedule, n, i, request, Err(Decide(request, state).error));
  }

  lemma MissBecomesRace(schedule: seq<Action>, m: nat, i: nat, request: Request)
    requires m <= |schedule| && Missed(schedule[..m], i, request) && KnownAt(schedule, m, i, request)
    ensures Raced(schedule, i, request)
  {
    hide Run, OpenAt, Known;
    var n := MomentOfMissStays(schedule, m, i, request);
  }

  lemma SearchIsAccounted(schedule: seq<Action>, i: nat, c: Caller, clock: int, commit: CommitOutcome)
    requires schedule != [] && OpenAt(schedule, |schedule| - 1, i, c.request) && Searching(c.phase)
    requires var earlier := schedule[..|schedule| - 1];
             Invariant(Run(earlier)) && Run(earlier).callers[i] == c && Missed(earlier, i, c.request)
    ensures var w := Run(schedule[..|schedule| - 1]);
            Accounted(schedule, i, c.(phase := CallerStep(w.evidence, w.repo, c, clock, commit).1))
  {
    var m := |schedule| - 1;
    var w := Run(schedule[..m]);
    assert CallerInvariant(w.evidence, w.repo, w.callers[i]);
    SearchStep(w, c, clock, commit);
    assert Taken(w.repo, c.request) ==> Known(w.repo, c.request);
    hide Run, CallerStep, Resolve, OpenAt, Known, Taken, Raced, Atomic, RepositoryInvariant, Replay, History;
    var n := MomentOfMissStays(schedule, m, i, c.request);
    if Known(w.repo, c.request) {
      MissBecomesRace(schedule, m, i, c.request);
    }
    if Taken(w.repo, c.request) || (Known(w.repo, c.request) && c.phase.EvidenceFound?) {
      var phase := CallerStep(w.evidence, w.repo, c, clock, commit).1;
      assert c.phase.LookedUp? && phase.Finished? ==> RefusedAt(schedule, m, i, c.request, phase.result.error);
    } else {
      AnswerIsAtomic(schedule, i, c, clock, commit);
      if c.phase.EvidenceFound? {
        assert LoadedAt(schedule, m, i, c.request, History(w.repo, c.request.key));
      }
    }
  }

  lemma SearchStep(w: World, c: Caller, clock: int, commit: CommitOutcome)
    requires Searching(c.phase)
    ensures var (later, phase) := CallerStep(w.evidence, w.repo, c, clock, commit);
            && later == w.repo
            && (c.phase.LookedUp? ==>
                  || phase.EvidenceFound?
                  || (phase.Finished? && phase.result.Err?
                      && Resolve(w.evidence, w.repo, c.request) == Err(phase.result.error)))
            && (c.phase.EvidenceFound? ==>
                  var history := History(w.repo, c.request.key);
                  phase == if c.request.expectedVersion != |history| then Finished(Err(VersionConflict))
                           else Replaying(c.phase.found, history, 0, INITIAL_STATE))
  {
    hide Resolve;
  }

  lemma ReplayIsAccounted(schedule: seq<Action>, i: nat, c: Caller, clock: int, commit: CommitOutcome)
    requires Invariant(Run(schedule)) && i < |Run(schedule).callers| && Run(schedule).callers[i] == c
    requires c.phase.Replaying? && Accounted(schedule, i, c)
    ensures var w := Run(schedule);
            Accounted(schedule, i, c.(phase := CallerStep(w.evidence, w.repo, c, clock, commit).1))
  {
    hide Run, CallerStep, LostRace, Raced, Loaded, Atomic, ReplayRecord, Decide, RepositoryInvariant, PhaseInvariant,
         History, Resolve;
    var w := Run(schedule);
    ReplayStep(w, c, clock, commit);
    assert CallerInvariant(w.evidence, w.repo, w.callers[i]);
    var Replaying(found, history, next, state) := c.phase;
    NextIsWithin(w, c.request, found, history, next, state);
    if next < |history| {
      ReplayingContinues(w.evidence, w.repo, c.request, found, history, next, state);
    } else if Decide(c.request, state).Err? {
      RefusalIsAccounted(schedule, i, c, found, history, state);
    }
  }

  lemma RefusalIsAccounted(schedule: seq<Action>, i: nat, c: Caller, found: Resolved, history: seq<Record>,
                           state: DerivedState)
    requires Invariant(Run(schedule)) && i < |Run(schedule).callers| && Run(schedule).callers[i] == c
    requires c.phase == Replaying(found, history, |history|, state) && Decide(c.request, state).Err?
    requires Raced(schedule, i, c.request) || Loaded(schedule, i, c.request, history)
    ensures var error := Decide(c.request, state).error;
            Atomic(schedule, i, c.request, Err(error)) || LostRace(schedule, i, c.request, error)
  {
    var w := Run(schedule);
    assert schedule[..|schedule|] == schedule;
    assert OpenAt(schedule, |schedule|, i, c.request);
    hide Run, OpenAt, Raced, Loaded, Atomic, Decide, RepositoryInvariant, PhaseInvariant, Refuses;
    assert CallerInvariant(w.evidence, w.repo, w.callers[i]);
    if Raced(schedule, i, c.request) {
      FailedDecisionIsRefused(w, c.request, found, history, state);
      assert RefusedAt(schedule, |schedule|, i, c.request, Decide(c.request, state).error);
    } else {
      RefusalIsAtomic(schedule, i, c.request, found, history, state);
    }
  }

  lemma ReplayStep(w: World, c: Caller, clock: int, commit: CommitOutcome)
    requires c.phase.Replaying?
    ensures var (later, phase) := CallerStep(w.evidence, w.repo, c, clock, commit);
            var Replaying(found, history, next, state) := c.phase;
            && later == w.repo
            && (next < |history| ==>
                  var replayed := ReplayRecord(w.evidence, w.repo, history[0].request.key, state, history[next]);
                  phase == if replayed.Err? then Finished(Err(replayed.error))
                           else Replaying(found, history, next + 1, replayed.value))
            && (next >= |history| ==>
                  var decision := Decide(c.request, state);
                  phase == if decision.Err? then Finished(Err(decision.error)) else DecisionMade(found, decision.value))
  {
    hide ReplayRecord, Decide;
  }

  lemma FailedDecisionIsRefused(w: World, request: Request, found: Resolved, history: seq<Record>, state: DerivedState)
    requires Decide(request, state).Err?
    requires PhaseInvariant(w.evidence, w.repo, request, Replaying(found, history, |history|, state))
    ensures Refuses(w, request, Decide(request, state).error)
  {
    hide Decide, Replay, Resolve;
    assert history[..|history|] == history;
    assert history == History(w.repo, request.key)[..|history|];
  }

  lemma NextIsWithin(w: World, request: Request, found: Resolved, history: seq<Record>, next: nat, state: DerivedState)
    requires PhaseInvariant(w.evidence, w.repo, request, Replaying(found, history, next, state))
    ensures next <= |history|
  {
  }

  lemma StepIsAccounted(schedule: seq<Action>, i: nat, c: Caller, clock: int, commit: CommitOutcome)
    requires schedule != [] && OpenAt(schedule, |schedule| - 1, i, c.request)
    requires var earlier := schedule[..|schedule| - 1];
             Invariant(Run(earlier)) && Run(earlier).callers[i] == c && !c.phase.Finished? && Accounted(earlier, i, c)
    ensures var w := Run(schedule[..|schedule| - 1]);
            Accounted(schedule, i, c.(phase := CallerStep(w.evidence, w.repo, c, clock, commit).1))
  {
    var m := |schedule| - 1;
    var w := Run(schedule[..m]);
    assert i < |w.callers|;
    hide Run, CallerStep, Known, OpenAt;
    var phase := CallerStep(w.evidence, w.repo, c, clock, commit).1;
    if Searching(c.phase) {
      SearchIsAccounted(schedule, i, c, clock, commit);
    } else if c.phase.Replaying? {
      ReplayIsAccounted(schedule[..m], i, c, clock, commit);
      AccountStays(schedule, m, i, c.(phase := phase));
    } else {
      hide Atomic;
      AnswerIsAtomic(schedule, i, c, clock, commit);
      LookupLeadsToSearch(w.evidence, w.repo, c, clock, commit);
      if Searching(phase) {
        assert MissedAt(schedule, m, i, c.request);
      }
    }
  }

  lemma LookupLeadsToSearch(e: Evidence, repo: Repository, c: Caller, clock: int, commit: CommitOutcome)
    requires !Searching(c.phase) && !c.phase.Replaying?
    ensures var phase := CallerStep(e, repo, c, clock, commit).1;
            !phase.Replaying? && (Searching(phase) ==> !Known(repo, c.request))
  {
    hide Append, Resolve, CanonicalInput, RetryAnswer, Proposed;
  }

  lemma {:induction false} EveryCallerIsAccounted(schedule: seq<Action>, i: nat)
    requires i < |Run(schedule).callers|
    ensures Accounted(schedule, i, Run(schedule).callers[i])
    decreases |schedule|
  {
    if schedule != [] {
      var m := |schedule| - 1;
      var w := Run(schedule[..m]);
      if i < |w.callers| {
        EveryCallerIsAccounted(schedule[..m], i);
        RunKeepsInvariant(schedule[..m]);
        AccountStays(schedule, m, i, w.callers[i]);
        if schedule[m].Advance? && schedule[m].caller == i && !w.callers[i].phase.Finished? {
          hide Accounted, CallerStep;
          StepIsAccounted(schedule, i, w.callers[i], schedule[m].clock, schedule[m].commit);
        }
      }
    }
  }

  /** Every answer a caller ever gets is the answer of an evaluation run without interruption at some moment of that
      call. Only an error may differ, and only if another call published under the same idempotency identity
      meanwhile: then it is a version conflict or a refusal of the decision by the history that was left, or a failure
      of evidence that was read after another request had taken the identity. */
  lemma EveryAnswerIsAtomic(schedule: seq<Action>, i: nat)
    requires i < |Run(schedule).callers| && Run(schedule).callers[i].phase.Finished?
    ensures var c := Run(schedule).callers[i];
            || Atomic(schedule, i, c.request, c.phase.result)
            || (c.phase.result.Err? && LostRace(schedule, i, c.request, c.phase.result.error))
  {
    EveryCallerIsAccounted(schedule, i);
  }

  /** In terms of the published log: the answer is what evaluating the requests logged up to some moment of the call,
      one after the other, and then this request answers. */
  lemma EveryAnswerFollowsTheLog(schedule: seq<Action>, i: nat) returns (n: nat, clock: int, commit: CommitOutcome)
    requires i < |Run(schedule).callers| && Run(schedule).callers[i].phase.Finished?
    requires var c := Run(schedule).callers[i];
             c.phase.result.Ok? || !LostRace(schedule, i, c.request, c.phase.result.error)
    ensures OpenAt(schedule, n, i, Run(schedule).callers[i].request)
    ensures var c := Run(schedule).callers[i];
            var e := Run(schedule[..n]).evidence;
            var repo := Serial(e, Published(schedule[..n]));
            repo.Some? && Evaluate(e, repo.value, c.request, clock, commit).1 == c.phase.result
  {
    hide Run, Serial, Published, Evaluate, OpenAt, LostRace;
    var c := Run(schedule).callers[i];
    EveryAnswerIsAtomic(schedule, i);
    n :| AtomicAt(schedule, n, i, c.request, c.phase.result);
    OpenIsWithin(schedule, n, i, c.request);
    var w := Run(schedule[..n]);
    clock, commit :| Evaluate(w.evidence, w.repo, c.request, clock, commit).1 == c.phase.result;
    EveryRunIsSerial(schedule[..n]);
  }

  lemma OpenIsWithin(schedule: seq<Action>, n: nat, i: nat, request: Request)
    requires OpenAt(schedule, n, i, request)
    ensures n <= |schedule|
  {
  }

  // ---- the exception is real -----------------------------------------------

  function Times(action: Action, n: nat): seq<Action> {
    if n == 0 then [] else [action] + Times(action, n - 1)
  }

  lemma RunAfter(schedule: seq<Action>, action: Action)
    ensures Run(schedule + [action]) == Next(Run(schedule), action)
  {
    assert (schedule + [action])[..|schedule|] == schedule;
  }

  /** Advancing one caller again and again is what it does on its own. */
  lemma {:induction false} RunIsSolo(schedule: seq<Action>, j: nat, clock: int, commit: CommitOutcome, n: nat)
    requires j < |Run(schedule).callers|
    ensures var w := Run(schedule);
            var (repo, phase) := Solo(w.evidence, w.repo, w.callers[j], clock, commit, n);
            Run(schedule + Times(Advance(j, clock, commit), n))
              == w.(repo := repo, callers := w.callers[j := w.callers[j].(phase := phase)])
    decreases n
  {
    hide Run, CallerStep;
    var w := Run(schedule);
    var action := Advance(j, clock, commit);
    if n == 0 {
      assert schedule + [] == schedule;
      assert w.callers[j := w.callers[j].(phase := w.callers[j].phase)] == w.callers;
    } else {
      RunAfter(schedule, action);
      RunIsSolo(schedule + [action], j, clock, commit, n - 1);
      assert schedule + Times(action, n) == schedule + [action] + Times(action, n - 1);
    }
  }

  ghost predicate Creates(e: Evidence, repo: Repository, request: Request, clock: int) {
    var result := Evaluate(e, repo, request, clock, Committed).1;
    result.Ok? && result.value.outcome.Created?
  }

  /** What it takes to create an event, and which record is published then. */
  lemma CreationPublishes(e: Evidence, repo: Repository, request: Request, clock: int)
    returns (found: Resolved, state: DerivedState, decision: Decision, r: Record)
    requires Creates(e, repo, request, clock)
    ensures Resolve(e, repo, request) == Ok(found) && !Known(repo, request)
    ensures request.expectedVersion == |History(repo, request.key)|
    ensures Replay(e, repo, History(repo, request.key)) == Ok(state) && Decide(request, state) == Ok(decision)
    ensures Proposed(found, request, decision, clock) == Ok(r)
    ensures r.request == request && r.idempotencyIdentity == IdempotencyOf(request)
    ensures Evaluate(e, repo, request, clock, Committed).0 == Publish(repo, r)
  {
    hide Resolve, Replay, Decide, CanonicalInput, Publish;
    found := Resolve(e, repo, request).value;
    state := Replay(e, repo, History(repo, request.key)).value;
    decision := Decide(request, state).value;
    r := Proposed(found, request, decision, clock).value;
  }

  /** Neither another clock nor a failing commit brings up the version. */
  lemma CreationMeetsNoConflict(e: Evidence, repo: Repository, request: Request, found: Resolved, state: DerivedState,
                                clock: int, commit: CommitOutcome)
    requires Resolve(e, repo, request) == Ok(found) && !Known(repo, request)
    requires request.expectedVersion == |History(repo, request.key)|
    requires Replay(e, repo, History(repo, request.key)) == Ok(state) && Decide(request, state).Ok?
    ensures Evaluate(e, repo, request, clock, commit).1 != Err(VersionConflict)
  {
    hide Resolve, Replay, Decide, CanonicalInput, Publish, RetryAnswer;
  }

  lemma RetainedMeetsNoConflict(e: Evidence, repo: Repository, request: Request, found: Resolved, clock: int,
                                commit: CommitOutcome)
    requires Resolve(e, repo, request) == Ok(found) && Known(repo, request)
    ensures Evaluate(e, repo, request, clock, commit).1 != Err(VersionConflict)
  {
    hide Resolve, Replay, Decide, CanonicalInput, Publish;
  }

  lemma {:induction false} CallersOnlyJoin(schedule: seq<Action>, n: nat)
    requires n <= |schedule|
    ensures |Run(schedule[..n]).callers| <= |Run(schedule).callers|
    decreases |schedule|
  {
    hide CallerStep;
    if n == |schedule| {
      assert schedule[..n] == schedule;
    } else {
      CallersOnlyJoin(schedule[..|schedule| - 1], n);
      assert schedule[..|schedule| - 1][..n] == schedule[..n];
    }
  }

  /** Two steps lead past the lookup that misses. */
  lemma SoloMisses(e: Evidence, repo: Repository, request: Request, found: Resolved, clock: int)
    requires Resolve(e, repo, request) == Ok(found) && !Known(repo, request)
    ensures Solo(e, repo, Caller(request, Submitted), clock, Committed, 2) == (repo, EvidenceFound(found))
  {
    hide Resolve, IdempotencyOf;
    var c1, c2 := Caller(request, LookedUp(None)), Caller(request, EvidenceFound(found));
    assert Solo(e, repo, c2, clock, Committed, 0) == (repo, EvidenceFound(found));
    assert CallerStep(e, repo, c1, clock, Committed) == (repo, c2.phase);
    assert Solo(e, repo, c1, clock, Committed, 1) == (repo, EvidenceFound(found));
  }

  /** One call looks its identity up, an equal one runs to its end, and the first then loads the history. */
  lemma RaceSchedule(schedule: seq<Action>, request: Request, clock: int, found: Resolved, r: Record)
    returns (longer: seq<Action>)
    requires ValidRequest(request)
    requires var w := Run(schedule);
             && Creates(w.evidence, w.repo, request, clock)
             && Resolve(w.evidence, w.repo, request) == Ok(found) && !Known(w.repo, request)
             && request.expectedVersion == |History(w.repo, request.key)|
             && r.request == request
             && Evaluate(w.evidence, w.repo, request, clock, Committed).0 == Publish(w.repo, r)
    ensures var i := |Run(schedule).callers|;
            && schedule <= longer && Run(longer).repo == Publish(Run(schedule).repo, r)
            && i < |Run(longer).callers| && Run(longer).callers[i] == Caller(request, Finished(Err(VersionConflict)))
  {
    hide Run, Publish, Evaluate, Resolve, Solo, CallerStep, Known, Times, ValidRequest;
    var w, i := Run(schedule), |Run(schedule).callers|;
    var both := schedule + [Submit(request)] + [Submit(request)];
    RunAfter(schedule, Submit(request));
    RunAfter(schedule + [Submit(request)], Submit(request));
    var missed := both + Times(Advance(i, clock, Committed), 2);
    RunIsSolo(both, i, clock, Committed, 2);
    SoloMisses(w.evidence, w.repo, request, found, clock);
    var n := |History(w.repo, request.key)| + 6;
    var done := missed + Times(Advance(i + 1, clock, Committed), n);
    RunIsSolo(missed, i + 1, clock, Committed, n);
    UninterruptedIsEvaluate(w.evidence, w.repo, request, clock, Committed);
    longer := done + [Advance(i, clock, Committed)];
    RunAfter(done, Advance(i, clock, Committed));
    PublishExtendsOneStream(w.repo, r, request.key);
    SearchStep(Run(done), Run(done).callers[i], clock, Committed);
  }

  /** Whenever a request would create an event, two calls with that same request can be interleaved so that one of them
      is told of a version conflict, which no evaluation run without interruption at any moment of its call answers. */
  lemma EqualRequestsCanRace(schedule: seq<Action>, request: Request, clock: int) returns (longer: seq<Action>)
    requires ValidRequest(request) && Creates(Run(schedule).evidence, Run(schedule).repo, request, clock)
    ensures var i := |Run(schedule).callers|;
            && schedule <= longer
            && i < |Run(longer).callers| && Run(longer).callers[i] == Caller(request, Finished(Err(VersionConflict)))
            && !Atomic(longer, i, request, Err(VersionConflict))
  {
    hide Run, Creates, Evaluate, Publish, Resolve, Replay, Decide, Proposed, Known, Invariant, ValidRequest;
    var w, i := Run(schedule), |Run(schedule).callers|;
    var found, state, decision, r := CreationPublishes(w.evidence, w.repo, request, clock);
    longer := RaceSchedule(schedule, request, clock, found, r);
    forall n: nat ensures !AtomicAt(longer, n, i, request, Err(VersionConflict)) {
      if OpenAt(longer, n, i, request) {
        OpenAfterSubmission(schedule, longer, n, i, request);
        MomentMeetsNoConflict(schedule, longer, n, request, found, r, state);
      }
    }
  }

  lemma OpenAfterSubmission(schedule: seq<Action>, longer: seq<Action>, n: nat, i: nat, request: Request)
    requires schedule <= longer && i == |Run(schedule).callers| && OpenAt(longer, n, i, request)
    ensures |schedule| <= n <= |longer|
  {
    hide Run;
    if n < |schedule| {
      assert longer[..n] == schedule[..n];
      CallersOnlyJoin(schedule, n);
    }
  }

  lemma MomentMeetsNoConflict(schedule: seq<Action>, longer: seq<Action>, n: nat, request: Request, found: Resolved,
                              r: Record, state: DerivedState)
    requires schedule <= longer && |schedule| <= n <= |longer|
    requires var w := Run(schedule);
             && Resolve(w.evidence, w.repo, request) == Ok(found)
             && request.expectedVersion == |History(w.repo, request.key)|
             && Replay(w.evidence, w.repo, History(w.repo, request.key)) == Ok(state) && Decide(request, state).Ok?
             && r.request == request && r.idempotencyIdentity == IdempotencyOf(request)
             && Run(longer).repo == Publish(w.repo, r)
    ensures !AnswersIn(Run(longer[..n]), request, Err(VersionConflict))
  {
    hide Run, Evaluate, Resolve, Replay, Decide, EvidenceGrows, IndexesAgree, RepositoryGrows, History, IdempotencyOf;
    var w, at := Run(schedule), Run(longer[..n]);
    assert longer[..n][..|schedule|] == schedule;
    HistoryOnlyGrows(longer[..n], |schedule|);
    ResolvedIsNoRevocation(w.evidence, w.repo, request);
    ResolveIsStable(w.evidence, at.evidence, w.repo, at.repo, request);
    ReplayIsStable(w.evidence, at.evidence, w.repo, at.repo, History(w.repo, request.key));
    if !Known(at.repo, request) {
      UnknownMeansUnmoved(longer, n, w.repo, r);
    }
    hide Publish, Known;
    forall clock, commit ensures Evaluate(at.evidence, at.repo, request, clock, commit).1 != Err(VersionConflict) {
      if Known(at.repo, request) {
        RetainedMeetsNoConflict(at.evidence, at.repo, request, found, clock, commit);
      } else {
        CreationMeetsNoConflict(at.evidence, at.repo, request, found, state, clock, commit);
      }
    }
  }

  /** Until the identity is known its stream has not moved. */
  lemma UnknownMeansUnmoved(longer: seq<Action>, n: nat, repo: Repository, r: Record)
    requires n <= |longer| && RepositoryGrows(repo, Run(longer[..n]).repo) && Run(longer).repo == Publish(repo, r)
    requires IdempotencyKeyOf(r) !in Run(longer[..n]).repo.idempotency
    ensures History(Run(longer[..n]).repo, r.request.key) == History(repo, r.request.key)
  {
    hide Run, Publish, IndexesAgree;
    var at, k := Run(longer[..n]).repo, r.request.key;
    HistoryOnlyGrows(longer, n);
    PublishExtendsOneStream(repo, r, k);
    assert StreamGrows(repo, at, k) && StreamGrows(at, Run(longer).repo, k);
    var i := |History(repo, k)|;
    if i < |History(at, k)| {
      assert History(at, k)[i] == (History(repo, k) + [r])[i];
      EveryRepositoryIsIndexed(longer[..n]);
      EntryIsKnown(at, k, i);
    }
  }

  lemma EntryIsKnown(repo: Repository, k: LineageKey, i: nat)
    requires IndexesAgree(repo) && i < |History(repo, k)|
    ensures IdempotencyKeyOf(History(repo, k)[i]) in repo.idempotency
  {
    assert IndexedAt(repo, k, i);
  }
}
