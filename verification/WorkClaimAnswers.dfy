/** What concurrent callers are told: the answer of an uninterrupted evaluation at some moment of their own call, unless
    another call publishes under the same idempotency identity meanwhile. */
module WorkClaimAnswers {
  import opened Foundations
  import opened RetainedEvidence
  import opened WorkClaimDomain
  import opened WorkClaimService
  import opened WorkClaimSafety
  import opened WorkClaimConcurrency
  import opened WorkClaimTheorems

  // ---- moments of a call ---------------------------------------------------

  /** The identity of the request is in the idempotency index. */
  predicate Known(repo: Repository, request: Request) {
    (request.key, IdempotencyOf(request)) in repo.idempotency
  }

  /** After the first `n` actions the call of caller `i` has begun and is not finished. */
  predicate OpenAt(schedule: seq<Action>, n: nat, i: nat, request: Request) {
    && n <= |schedule|
    && var callers := Run(schedule[..n]).callers;
       i < |callers| && callers[i].request == request && !callers[i].phase.Finished?
  }

  /** An uninterrupted evaluation in this world may answer so. */
  ghost predicate AnswersIn(w: World, request: Request, result: Result<EvaluationResult, RuntimeError>) {
    exists clock, commit :: Evaluate(w.evidence, w.repo, request, clock, commit).1 == result
  }

  ghost predicate AtomicAt(schedule: seq<Action>, n: nat, i: nat, request: Request,
                           result: Result<EvaluationResult, RuntimeError>) {
    OpenAt(schedule, n, i, request) && AnswersIn(Run(schedule[..n]), request, result)
  }

  /** At some moment of the call an uninterrupted evaluation answers so. */
  ghost predicate Atomic(schedule: seq<Action>, i: nat, request: Request,
                         result: Result<EvaluationResult, RuntimeError>) {
    exists n: nat :: AtomicAt(schedule, n, i, request, result)
  }

  ghost predicate MissedAt(schedule: seq<Action>, n: nat, i: nat, request: Request) {
    OpenAt(schedule, n, i, request) && !Known(Run(schedule[..n]).repo, request)
  }

  ghost predicate KnownAt(schedule: seq<Action>, n: nat, i: nat, request: Request) {
    OpenAt(schedule, n, i, request) && Known(Run(schedule[..n]).repo, request)
  }

  ghost predicate Missed(schedule: seq<Action>, i: nat, request: Request) {
    exists m: nat :: MissedAt(schedule, m, i, request)
  }

  /** While the call was open another one published under its idempotency identity. */
  ghost predicate Raced(schedule: seq<Action>, i: nat, request: Request) {
    exists m: nat, n: nat :: m < n && MissedAt(schedule, m, i, request) && KnownAt(schedule, n, i, request)
  }

  /** The history the request expects refuses its decision with this error. */
  ghost predicate Refuses(w: World, request: Request, error: RuntimeError) {
    var h := History(w.repo, request.key);
    && Resolve(w.evidence, request).Ok?
    && request.expectedVersion <= |h|
    && Replay(w.evidence, h[..request.expectedVersion]).Ok?
    && var found := Resolve(w.evidence, request).value;
       Decide(found.policy, request, found.dispatch, found.claimant,
              Replay(w.evidence, h[..request.expectedVersion]).value) == Err(error)
  }

  ghost predicate RefusedAt(schedule: seq<Action>, n: nat, i: nat, request: Request, error: RuntimeError) {
    OpenAt(schedule, n, i, request) && Refuses(Run(schedule[..n]), request, error)
  }

  /** What a race for the identity can do to an answer: the version has moved on, or the history it left refuses. */
  ghost predicate LostRace(schedule: seq<Action>, i: nat, request: Request, error: RuntimeError) {
    && Raced(schedule, i, request)
    && (error.VersionConflict? || exists n: nat :: RefusedAt(schedule, n, i, request, error))
  }

  /** The history was loaded while the identity was still unknown. */
  ghost predicate LoadedAt(schedule: seq<Action>, n: nat, i: nat, request: Request, history: seq<Record>) {
    && MissedAt(schedule, n, i, request)
    && History(Run(schedule[..n]).repo, request.key) == history
    && Resolve(Run(schedule[..n]).evidence, request).Ok?
  }

  ghost predicate Loaded(schedule: seq<Action>, i: nat, request: Request, history: seq<Record>) {
    exists n: nat :: LoadedAt(schedule, n, i, request, history)
  }

  /** What is known of each caller. */
  ghost predicate Accounted(schedule: seq<Action>, i: nat, c: Caller) {
    match c.phase
    case LookupMissed(_) => Missed(schedule, i, c.request)
    case Replaying(_, history, _, _) => Raced(schedule, i, c.request) || Loaded(schedule, i, c.request, history)
    case Finished(result) =>
      Atomic(schedule, i, c.request, result) || (result.Err? && LostRace(schedule, i, c.request, result.error))
    case _ => true
  }

  lemma EarlierMoment(schedule: seq<Action>, m: nat, n: nat, i: nat, request: Request)
    requires n <= m <= |schedule|
    ensures schedule[..m][..n] == schedule[..n]
    ensures OpenAt(schedule[..m], n, i, request) == OpenAt(schedule, n, i, request)
  {
  }

  /** A moment before the first `m` actions are done is the same moment of the longer schedule. */
  lemma MomentStays(schedule: seq<Action>, m: nat, n: nat, i: nat, request: Request)
    requires m <= |schedule| && OpenAt(schedule[..m], n, i, request)
    ensures n <= m && OpenAt(schedule, n, i, request) && schedule[..m][..n] == schedule[..n]
  {
    EarlierMoment(schedule, m, n, i, request);
  }

  lemma RaceStays(schedule: seq<Action>, m: nat, i: nat, request: Request)
    requires m <= |schedule| && Raced(schedule[..m], i, request)
    ensures Raced(schedule, i, request)
  {
    hide OpenAt, Known;
    var a: nat, b: nat :| a < b && MissedAt(schedule[..m], a, i, request) && KnownAt(schedule[..m], b, i, request);
    MomentStays(schedule, m, a, i, request);
    MomentStays(schedule, m, b, i, request);
    assert MissedAt(schedule, a, i, request) && KnownAt(schedule, b, i, request);
  }

  lemma LossStays(schedule: seq<Action>, m: nat, i: nat, request: Request, error: RuntimeError)
    requires m <= |schedule| && LostRace(schedule[..m], i, request, error)
    ensures LostRace(schedule, i, request, error)
  {
    hide OpenAt, Refuses, Raced;
    RaceStays(schedule, m, i, request);
    if !error.VersionConflict? {
      var n: nat :| RefusedAt(schedule[..m], n, i, request, error);
      MomentStays(schedule, m, n, i, request);
      assert RefusedAt(schedule, n, i, request, error);
    }
  }

  lemma MomentOfMissStays(schedule: seq<Action>, m: nat, i: nat, request: Request) returns (n: nat)
    requires m <= |schedule| && Missed(schedule[..m], i, request)
    ensures n <= m && MissedAt(schedule, n, i, request)
    ensures Missed(schedule, i, request)
  {
    hide OpenAt, Known;
    n :| MissedAt(schedule[..m], n, i, request);
    MomentStays(schedule, m, n, i, request);
    assert MissedAt(schedule, n, i, request);
  }

  lemma LoadStays(schedule: seq<Action>, m: nat, i: nat, request: Request, history: seq<Record>)
    requires m <= |schedule| && Loaded(schedule[..m], i, request, history)
    ensures Loaded(schedule, i, request, history)
  {
    hide OpenAt, Known, Resolve, History;
    var n: nat :| LoadedAt(schedule[..m], n, i, request, history);
    MomentStays(schedule, m, n, i, request);
    assert LoadedAt(schedule, n, i, request, history);
  }

  lemma AtomicStays(schedule: seq<Action>, m: nat, i: nat, request: Request,
                    result: Result<EvaluationResult, RuntimeError>)
    requires m <= |schedule| && Atomic(schedule[..m], i, request, result)
    ensures Atomic(schedule, i, request, result)
  {
    hide OpenAt, AnswersIn;
    var n: nat :| AtomicAt(schedule[..m], n, i, request, result);
    MomentStays(schedule, m, n, i, request);
    assert AtomicAt(schedule, n, i, request, result);
  }

  /** More actions leave the account of a caller that does not move. */
  lemma AccountStays(schedule: seq<Action>, m: nat, i: nat, c: Caller)
    requires m <= |schedule| && Accounted(schedule[..m], i, c)
    ensures Accounted(schedule, i, c)
  {
    hide Missed, Raced, Loaded, Atomic, LostRace;
    if Raced(schedule[..m], i, c.request) {
      RaceStays(schedule, m, i, c.request);
    }
    match c.phase
    case LookupMissed(_) => var _ := MomentOfMissStays(schedule, m, i, c.request);
    case Replaying(_, history, _, _) =>
      if Loaded(schedule[..m], i, c.request, history) {
        LoadStays(schedule, m, i, c.request, history);
      }
    case Finished(result) =>
      if Atomic(schedule[..m], i, c.request, result) {
        AtomicStays(schedule, m, i, c.request, result);
      } else {
        LossStays(schedule, m, i, c.request, result.error);
      }
    case _ =>
  }

  // ---- the last step of a call ---------------------------------------------

  lemma Answers(w: World, request: Request, clock: int, commit: CommitOutcome)
    ensures AnswersIn(w, request, Evaluate(w.evidence, w.repo, request, clock, commit).1)
  {
  }

  /** The compare-and-swap answers, and changes, what an evaluation run without interruption in its place would. */
  lemma PublishingIsEvaluate(e: Evidence, repo: Repository, request: Request, r: Record, commit: CommitOutcome)
    requires RepositoryInvariant(e, repo) && ProposedOn(e, repo, request, r)
    ensures Evaluate(e, repo, request, r.event.recordedAt, commit) == Append(repo, r, request.expectedVersion, commit)
  {
    hide Replay, Resolve, ProposedRecord, Publish, IndexesAgree;
    ProposalNamesRequest(e, repo, request, r);
    assert StreamReplays(e, repo, request.key);
    assert request.expectedVersion == |History(repo, request.key)| ==>
             History(repo, request.key)[..request.expectedVersion] == History(repo, request.key);
  }

  lemma EvidenceFailureIsEvaluate(e: Evidence, repo: Repository, request: Request, clock: int, commit: CommitOutcome)
    ensures Resolve(e, request).Err? ==>
              Evaluate(e, repo, request, clock, commit) == (repo, Err(Resolve(e, request).error))
  {
  }

  lemma LookupIsEvaluate(e: Evidence, repo: Repository, request: Request, found: Resolved, clock: int,
                         commit: CommitOutcome)
    requires Resolve(e, request) == Ok(found)
    ensures var prior := Idempotent(repo, request.key, IdempotencyOf(request),
                                    CanonicalInput(request, found.dispatch, found.claimant, found.policy));
            var (later, result) := Evaluate(e, repo, request, clock, commit);
            && (prior.Err? ==> later == repo && result == Err(prior.error))
            && (prior.Ok? && prior.value.Some? ==>
                  later == repo && result == Ok(EvaluationResult(ExistingEquivalent, prior.value.value)))
            && (prior == Ok(None) && request.expectedVersion != |History(repo, request.key)| ==>
                  later == repo && result == Err(VersionConflict))
  {
    hide Resolve, Replay, ProposedRecord, CanonicalInput, Append;
  }

  /** A call that ends neither after loading a history nor on a history that moved under a known identity
      answers as an evaluation run in place of its last step. */
  lemma LastStepAnswers(w: World, c: Caller, clock: int, commit: CommitOutcome)
    requires RepositoryInvariant(w.evidence, w.repo) && CallerInvariant(w.evidence, w.repo, c)
    requires !c.phase.Finished? && !c.phase.Replaying? && (c.phase.LookupMissed? ==> !Known(w.repo, c.request))
    ensures var phase := CallerStep(w.evidence, w.repo, c, clock, commit).1;
            phase.Finished? ==> AnswersIn(w, c.request, phase.result)
  {
    hide Evaluate, CheckEvidence, CanonicalInput, Append, ProposedOn, RepositoryInvariant, AnswersIn, FindDispatch,
         FindClaimant;
    Answers(w, c.request, clock, commit);
    EvidenceFailureIsEvaluate(w.evidence, w.repo, c.request, clock, commit);
    match c.phase
    case Submitted =>
    case DispatchFound(_) =>
    case EvidenceFound(found) => LookupIsEvaluate(w.evidence, w.repo, c.request, found, clock, commit);
    case LookupMissed(found) => LookupIsEvaluate(w.evidence, w.repo, c.request, found, clock, commit);
    case Publishing(r) =>
      PublishingIsEvaluate(w.evidence, w.repo, c.request, r, commit);
      Answers(w, c.request, r.event.recordedAt, commit);
  }

  /** A refused decision is what an evaluation run when the history was loaded answers. */
  lemma RefusalIsEvaluate(early: World, late: World, request: Request, found: Resolved, history: seq<Record>,
                          state: DerivedState, clock: int)
    requires Invariant(early) && EvidenceGrows(early.evidence, late.evidence)
    requires PhaseInvariant(late.evidence, late.repo, request, Replaying(found, history, |history|, state))
    requires !Known(early.repo, request) && History(early.repo, request.key) == history
    requires Resolve(early.evidence, request).Ok?
    requires ProposedRecord(found, request, state, clock).Err?
    ensures AnswersIn(early, request, Err(ProposedRecord(found, request, state, clock).error))
  {
    hide Replay, Resolve, ProposedRecord, CanonicalInput, IndexesAgree;
    ResolveIsStable(early.evidence, late.evidence, request);
    assert StreamReplays(early.evidence, early.repo, request.key);
    ReplayIsStable(early.evidence, late.evidence, history);
    assert history[..|history|] == history;
    Answers(early, request, clock, Committed);
  }

  // ---- every answer is accounted for ---------------------------------------

  lemma AnswerIsAtomic(schedule: seq<Action>, i: nat, c: Caller, clock: int, commit: CommitOutcome)
    requires schedule != [] && OpenAt(schedule, |schedule| - 1, i, c.request)
    requires var w := Run(schedule[..|schedule| - 1]);
             && Invariant(w) && w.callers[i] == c
             && !c.phase.Replaying? && (c.phase.LookupMissed? ==> !Known(w.repo, c.request))
    ensures var w := Run(schedule[..|schedule| - 1]); var phase := CallerStep(w.evidence, w.repo, c, clock, commit).1;
            phase.Finished? ==> Atomic(schedule, i, c.request, phase.result)
  {
    hide Run, CallerStep, AnswersIn, PhaseInvariant, RepositoryInvariant;
    var w := Run(schedule[..|schedule| - 1]);
    assert CallerInvariant(w.evidence, w.repo, w.callers[i]);
    LastStepAnswers(w, c, clock, commit);
    var phase := CallerStep(w.evidence, w.repo, c, clock, commit).1;
    if phase.Finished? {
      assert AtomicAt(schedule, |schedule| - 1, i, c.request, phase.result);
    }
  }

  lemma RefusalIsAtomic(schedule: seq<Action>, i: nat, request: Request, found: Resolved, history: seq<Record>,
                        state: DerivedState, clock: int)
    requires var w := Run(schedule);
             PhaseInvariant(w.evidence, w.repo, request, Replaying(found, history, |history|, state))
    requires Loaded(schedule, i, request, history) && ProposedRecord(found, request, state, clock).Err?
    ensures Atomic(schedule, i, request, Err(ProposedRecord(found, request, state, clock).error))
  {
    hide Run, Invariant, PhaseInvariant, RepositoryGrows, EvidenceGrows, AnswersIn, ProposedRecord, Resolve;
    var n: nat :| LoadedAt(schedule, n, i, request, history);
    RunKeepsInvariant(schedule[..n]);
    HistoryOnlyGrows(schedule, n);
    RefusalIsEvaluate(Run(schedule[..n]), Run(schedule), request, found, history, state, clock);
    assert AtomicAt(schedule, n, i, request, Err(ProposedRecord(found, request, state, clock).error));
  }

  lemma MissBecomesRace(schedule: seq<Action>, m: nat, i: nat, request: Request)
    requires m <= |schedule| && Missed(schedule[..m], i, request) && KnownAt(schedule, m, i, request)
    ensures Raced(schedule, i, request)
  {
    hide Run, OpenAt, Known;
    var n := MomentOfMissStays(schedule, m, i, request);
  }

  lemma LoadIsAccounted(schedule: seq<Action>, i: nat, c: Caller, clock: int, commit: CommitOutcome)
    requires schedule != [] && OpenAt(schedule, |schedule| - 1, i, c.request) && c.phase.LookupMissed?
    requires var earlier := schedule[..|schedule| - 1];
             Invariant(Run(earlier)) && Run(earlier).callers[i] == c && Missed(earlier, i, c.request)
    ensures var w := Run(schedule[..|schedule| - 1]);
            Accounted(schedule, i, c.(phase := CallerStep(w.evidence, w.repo, c, clock, commit).1))
  {
    var m := |schedule| - 1;
    var w := Run(schedule[..m]);
    assert CallerInvariant(w.evidence, w.repo, w.callers[i]);
    LoadStep(w, c, clock, commit);
    hide Run, CallerStep, Resolve, OpenAt, Known, Atomic, RepositoryInvariant, Replay, History;
    if Known(w.repo, c.request) {
      MissBecomesRace(schedule, m, i, c.request);
    } else {
      AnswerIsAtomic(schedule, i, c, clock, commit);
      assert LoadedAt(schedule, m, i, c.request, History(w.repo, c.request.key));
    }
  }

  lemma LoadStep(w: World, c: Caller, clock: int, commit: CommitOutcome)
    requires c.phase.LookupMissed?
    ensures var (later, phase) := CallerStep(w.evidence, w.repo, c, clock, commit);
            var history := History(w.repo, c.request.key);
            && later == w.repo
            && phase == if c.request.expectedVersion != |history| then Finished(Err(VersionConflict))
                        else Replaying(c.phase.found, history, 0, INITIAL_STATE)
  {
  }

  lemma ReplayIsAccounted(schedule: seq<Action>, i: nat, c: Caller, clock: int, commit: CommitOutcome)
    requires Invariant(Run(schedule)) && i < |Run(schedule).callers| && Run(schedule).callers[i] == c
    requires c.phase.Replaying? && Accounted(schedule, i, c)
    ensures var w := Run(schedule);
            Accounted(schedule, i, c.(phase := CallerStep(w.evidence, w.repo, c, clock, commit).1))
  {
    hide Run, CallerStep, LostRace, Raced, Loaded, Atomic, ReplayRecord, ProposedRecord, RepositoryInvariant,
         PhaseInvariant, History, Resolve;
    var w := Run(schedule);
    ReplayStep(w, c, clock, commit);
    assert CallerInvariant(w.evidence, w.repo, w.callers[i]);
    var Replaying(found, history, next, state) := c.phase;
    NextIsWithin(w, c.request, found, history, next, state);
    if next < |history| {
      ReplayingContinues(w.evidence, w.repo, c.request, found, history, next, state);
    } else if ProposedRecord(found, c.request, state, clock).Err? {
      RefusalIsAccounted(schedule, i, c, found, history, state, clock);
    }
  }

  lemma RefusalIsAccounted(schedule: seq<Action>, i: nat, c: Caller, found: Resolved, history: seq<Record>,
                           state: DerivedState, clock: int)
    requires Invariant(Run(schedule)) && i < |Run(schedule).callers| && Run(schedule).callers[i] == c
    requires c.phase == Replaying(found, history, |history|, state)
    requires ProposedRecord(found, c.request, state, clock).Err?
    requires Raced(schedule, i, c.request) || Loaded(schedule, i, c.request, history)
    ensures var error := ProposedRecord(found, c.request, state, clock).error;
            Atomic(schedule, i, c.request, Err(error)) || LostRace(schedule, i, c.request, error)
  {
    var w := Run(schedule);
    assert schedule[..|schedule|] == schedule;
    assert OpenAt(schedule, |schedule|, i, c.request);
    hide Run, OpenAt, Raced, Loaded, Atomic, ProposedRecord, RepositoryInvariant, PhaseInvariant, Refuses;
    assert CallerInvariant(w.evidence, w.repo, w.callers[i]);
    if Raced(schedule, i, c.request) {
      FailedProposalIsRefused(w, c.request, found, history, state, clock);
      assert RefusedAt(schedule, |schedule|, i, c.request, ProposedRecord(found, c.request, state, clock).error);
    } else {
      RefusalIsAtomic(schedule, i, c.request, found, history, state, clock);
    }
  }

  lemma ReplayStep(w: World, c: Caller, clock: int, commit: CommitOutcome)
    requires c.phase.Replaying?
    ensures var (later, phase) := CallerStep(w.evidence, w.repo, c, clock, commit);
            var Replaying(found, history, next, state) := c.phase;
            && later == w.repo
            && (next < |history| ==>
                  var replayed := ReplayRecord(w.evidence, history[0].request.key, state, history[next]);
                  phase == if replayed.Err? then Finished(Err(replayed.error))
                           else Replaying(found, history, next + 1, replayed.value))
            && (next >= |history| ==>
                  var proposal := ProposedRecord(found, c.request, state, clock);
                  phase == if proposal.Err? then Finished(Err(proposal.error)) else Publishing(proposal.value))
  {
    hide ReplayRecord, ProposedRecord;
  }

  /** The event constructor accepts every decision, so a proposal fails only where the decision does. */
  lemma FailedProposalIsRefused(w: World, request: Request, found: Resolved, history: seq<Record>, state: DerivedState,
                                clock: int)
    requires ValidEvidence(w.evidence) && ValidRequest(request) && ProposedRecord(found, request, state, clock).Err?
    requires PhaseInvariant(w.evidence, w.repo, request, Replaying(found, history, |history|, state))
    ensures Refuses(w, request, ProposedRecord(found, request, state, clock).error)
  {
    hide Decide, EventPayload, Replay, Resolve, CanonicalInput;
    assert history[..|history|] == history;
    assert history == History(w.repo, request.key)[..|history|];
    ReplayedIsCoherent(w.evidence, history);
    var decision := Decide(found.policy, request, found.dispatch, found.claimant, state);
    if decision.Ok? {
      DecisionIsAccepted(w.evidence, request, found, state, decision.value, IdempotencyOf(request), clock);
    }
  }

  lemma NextIsWithin(w: World, request: Request, found: Resolved, history: seq<Record>, next: nat, state: DerivedState)
    requires PhaseInvariant(w.evidence, w.repo, request, Replaying(found, history, next, state))
    ensures next <= |history|
  {
  }

  lemma StepIsAccounted(schedule: seq<Action>, i: nat, c: Caller, clock: int, commit: CommitOutcome)
    requires schedule != [] && OpenAt(schedule, |schedule| - 1, i, c.request)
    requires var earlier := schedule[..|schedule| - 1];
             Invariant(Run(earlier)) && Run(earlier).callers[i] == c && !c.phase.Finished? && Accounted(earlier, i, c)
    ensures var w := Run(schedule[..|schedule| - 1]);
            Accounted(schedule, i, c.(phase := CallerStep(w.evidence, w.repo, c, clock, commit).1))
  {
    var m := |schedule| - 1;
    var w := Run(schedule[..m]);
    assert i < |w.callers|;
    hide Run, CallerStep, Known, OpenAt;
    var phase := CallerStep(w.evidence, w.repo, c, clock, commit).1;
    if c.phase.LookupMissed? {
      LoadIsAccounted(schedule, i, c, clock, commit);
    } else if c.phase.Replaying? {
      ReplayIsAccounted(schedule[..m], i, c, clock, commit);
      AccountStays(schedule, m, i, c.(phase := phase));
    } else {
      hide Atomic;
      AnswerIsAtomic(schedule, i, c, clock, commit);
      LookupLeadsToLoad(w.evidence, w.repo, c, clock, commit);
      if phase.LookupMissed? {
        assert MissedAt(schedule, m, i, c.request);
      }
    }
  }

  lemma LookupLeadsToLoad(e: Evidence, repo: Repository, c: Caller, clock: int, commit: CommitOutcome)
    requires !c.phase.LookupMissed? && !c.phase.Replaying?
    ensures var phase := CallerStep(e, repo, c, clock, commit).1;
            !phase.Replaying? && (phase.LookupMissed? ==> !Known(repo, c.request))
  {
    hide Append, CheckEvidence, CanonicalInput;
  }

  lemma {:induction false} EveryCallerIsAccounted(schedule: seq<Action>, i: nat)
    requires i < |Run(schedule).callers|
    ensures Accounted(schedule, i, Run(schedule).callers[i])
    decreases |schedule|
  {
    if schedule != [] {
      var m := |schedule| - 1;
      var w := Run(schedule[..m]);
      if i < |w.callers| {
        EveryCallerIsAccounted(schedule[..m], i);
        RunKeepsInvariant(schedule[..m]);
        AccountStays(schedule, m, i, w.callers[i]);
        if schedule[m].Advance? && schedule[m].caller == i && !w.callers[i].phase.Finished? {
          hide Accounted, CallerStep;
          StepIsAccounted(schedule, i, w.callers[i], schedule[m].clock, schedule[m].commit);
        }
      }
    }
  }

  /** Every answer a caller ever gets is the answer of an evaluation run without interruption at some moment of that
      call. Only an error may differ, and only if another call published under the same idempotency identity
      meanwhile: then it is a version conflict or a refusal of the decision by the history that was left. */
  lemma EveryAnswerIsAtomic(schedule: seq<Action>, i: nat)
    requires i < |Run(schedule).callers| && Run(schedule).callers[i].phase.Finished?
    ensures var c := Run(schedule).callers[i];
            || Atomic(schedule, i, c.request, c.phase.result)
            || (c.phase.result.Err? && LostRace(schedule, i, c.request, c.phase.result.error))
  {
    EveryCallerIsAccounted(schedule, i);
  }

  /** In terms of the published log: the answer is what evaluating the requests logged up to some moment of the call,
      one after the other, and then this request answers. */
  lemma EveryAnswerFollowsTheLog(schedule: seq<Action>, i: nat) returns (n: nat, clock: int, commit: CommitOutcome)
    requires i < |Run(schedule).callers| && Run(schedule).callers[i].phase.Finished?
    requires var c := Run(schedule).callers[i];
             c.phase.result.Ok? || !LostRace(schedule, i, c.request, c.phase.result.error)
    ensures OpenAt(schedule, n, i, Run(schedule).callers[i].request)
    ensures var c := Run(schedule).callers[i];
            var e := Run(schedule[..n]).evidence;
            var repo := Serial(e, Published(schedule[..n]));
            repo.Some? && Evaluate(e, repo.value, c.request, clock, commit).1 == c.phase.result
  {
    hide Run, Serial, Published, Evaluate, OpenAt, LostRace;
    var c := Run(schedule).callers[i];
    EveryAnswerIsAtomic(schedule, i);
    n :| AtomicAt(schedule, n, i, c.request, c.phase.result);
    OpenIsWithin(schedule, n, i, c.request);
    var w := Run(schedule[..n]);
    clock, commit :| Evaluate(w.evidence, w.repo, c.request, clock, commit).1 == c.phase.result;
    EveryRunIsSerial(schedule[..n]);
  }

  lemma OpenIsWithin(schedule: seq<Action>, n: nat, i: nat, request: Request)
    requires OpenAt(schedule, n, i, request)
    ensures n <= |schedule|
  {
  }

  // ---- the exception is real -----------------------------------------------

  function Times(action: Action, n: nat): seq<Action> {
    if n == 0 then [] else [action] + Times(action, n - 1)
  }

  lemma RunAfter(schedule: seq<Action>, action: Action)
    ensures Run(schedule + [action]) == Next(Run(schedule), action)
  {
    assert (schedule + [action])[..|schedule|] == schedule;
  }

  /** Advancing one caller again and again is what it does on its own. */
  lemma {:induction false} RunIsSolo(schedule: seq<Action>, j: nat, clock: int, commit: CommitOutcome, n: nat)
    requires j < |Run(schedule).callers|
    ensures var w := Run(schedule);
            var (repo, phase) := Solo(w.evidence, w.repo, w.callers[j], clock, commit, n);
            Run(schedule + Times(Advance(j, clock, commit), n))
              == w.(repo := repo, callers := w.callers[j := w.callers[j].(phase := phase)])
    decreases n
  {
    hide Run, CallerStep;
    var w := Run(schedule);
    var action := Advance(j, clock, commit);
    if n == 0 {
      assert schedule + [] == schedule;
      assert w.callers[j := w.callers[j].(phase := w.callers[j].phase)] == w.callers;
    } else {
      RunAfter(schedule, action);
      RunIsSolo(schedule + [action], j, clock, commit, n - 1);
      assert schedule + Times(action, n) == schedule + [action] + Times(action, n - 1);
    }
  }

  ghost predicate Creates(e: Evidence, repo: Repository, request: Request, clock: int) {
    var result := Evaluate(e, repo, request, clock, Committed).1;
    result.Ok? && result.value.outcome.Created?
  }

  /** What it takes to create an event, and which record is published then. */
  lemma CreationPublishes(e: Evidence, repo: Repository, request: Request, clock: int)
    returns (found: Resolved, r: Record)
    requires Creates(e, repo, request, clock)
    ensures Resolve(e, request) == Ok(found) && !Known(repo, request)
    ensures request.expectedVersion == |History(repo, request.key)|
    ensures Replay(e, History(repo, request.key)).Ok?
    ensures ProposedRecord(found, request, Replay(e, History(repo, request.key)).value, clock) == Ok(r)
    ensures r.request == request && r.idempotencyIdentity == IdempotencyOf(request)
    ensures r.inputContent == CanonicalInput(request, found.dispatch, found.claimant, found.policy)
    ensures Evaluate(e, repo, request, clock, Committed).0 == Publish(repo, r)
  {
    hide Resolve, Replay, Decide, CanonicalInput, Publish;
    found := Resolve(e, request).value;
    r := ProposedRecord(found, request, Replay(e, History(repo, request.key)).value, clock).value;
  }

  /** Neither another clock nor a failing commit brings up the version. */
  lemma CreationMeetsNoConflict(e: Evidence, repo: Repository, request: Request, found: Resolved, state: DerivedState,
                                clock: int, clock': int, commit: CommitOutcome)
    requires Resolve(e, request) == Ok(found) && !Known(repo, request)
    requires request.expectedVersion == |History(repo, request.key)|
    requires Replay(e, History(repo, request.key)) == Ok(state) && ProposedRecord(found, request, state, clock).Ok?
    ensures Evaluate(e, repo, request, clock', commit).1 != Err(VersionConflict)
  {
    hide Resolve, Replay, Decide, CanonicalInput, Publish;
  }

  lemma RetainedMeetsNoConflict(e: Evidence, repo: Repository, request: Request, found: Resolved, r: Record, clock: int,
                                commit: CommitOutcome)
    requires Resolve(e, request) == Ok(found) && Known(repo, request)
    requires repo.idempotency[(request.key, IdempotencyOf(request))] == r
    requires r.inputContent == CanonicalInput(request, found.dispatch, found.claimant, found.policy)
    ensures Evaluate(e, repo, request, clock, commit).1 != Err(VersionConflict)
  {
    hide Resolve, Replay, Decide, CanonicalInput, Publish;
  }

  lemma {:induction false} CallersOnlyJoin(schedule: seq<Action>, n: nat)
    requires n <= |schedule|
    ensures |Run(schedule[..n]).callers| <= |Run(schedule).callers|
    decreases |schedule|
  {
    hide CallerStep;
    if n == |schedule| {
      assert schedule[..n] == schedule;
    } else {
      CallersOnlyJoin(schedule[..|schedule| - 1], n);
      assert schedule[..|schedule| - 1][..n] == schedule[..n];
    }
  }

  /** Three steps lead to the lookup that misses. */
  lemma SoloMisses(e: Evidence, repo: Repository, request: Request, found: Resolved, clock: int)
    requires Resolve(e, request) == Ok(found) && !Known(repo, request)
    ensures Solo(e, repo, Caller(request, Submitted), clock, Committed, 3) == (repo, LookupMissed(found))
  {
    hide FindDispatch, FindClaimant, CheckEvidence, CanonicalInput, IdempotencyOf;
    var c1 := Caller(request, DispatchFound(FindDispatch(e, request).value));
    var c2 := Caller(request, EvidenceFound(found));
    var c3 := Caller(request, LookupMissed(found));
    assert Solo(e, repo, c3, clock, Committed, 0) == (repo, LookupMissed(found));
    assert CallerStep(e, repo, c2, clock, Committed) == (repo, c3.phase);
    assert Solo(e, repo, c2, clock, Committed, 1) == (repo, LookupMissed(found));
    assert Solo(e, repo, c1, clock, Committed, 2) == (repo, LookupMissed(found));
  }

  /** One call looks its identity up, an equal one runs to its end, and the first then loads the history. */
  lemma RaceSchedule(schedule: seq<Action>, request: Request, clock: int, found: Resolved, r: Record)
    returns (longer: seq<Action>)
    requires ValidRequest(request)
    requires var w := Run(schedule);
             && Creates(w.evidence, w.repo, request, clock)
             && Resolve(w.evidence, request) == Ok(found) && !Known(w.repo, request)
             && request.expectedVersion == |History(w.repo, request.key)|
             && r.request == request
             && Evaluate(w.evidence, w.repo, request, clock, Committed).0 == Publish(w.repo, r)
    ensures var i := |Run(schedule).callers|;
            && schedule <= longer && Run(longer).repo == Publish(Run(schedule).repo, r)
            && i < |Run(longer).callers| && Run(longer).callers[i] == Caller(request, Finished(Err(VersionConflict)))
  {
    hide Run, Publish, Evaluate, Resolve, Solo, CallerStep, Known, Times;
    var w, i := Run(schedule), |Run(schedule).callers|;
    var both := schedule + [Submit(request)] + [Submit(request)];
    RunAfter(schedule, Submit(request));
    RunAfter(schedule + [Submit(request)], Submit(request));
    var missed := both + Times(Advance(i, clock, Committed), 3);
    RunIsSolo(both, i, clock, Committed, 3);
    SoloMisses(w.evidence, w.repo, request, found, clock);
    var n := |History(w.repo, request.key)| + 6;
    var done := missed + Times(Advance(i + 1, clock, Committed), n);
    RunIsSolo(missed, i + 1, clock, Committed, n);
    UninterruptedIsEvaluate(w.evidence, w.repo, request, clock, Committed);
    longer := done + [Advance(i, clock, Committed)];
    RunAfter(done, Advance(i, clock, Committed));
    PublishExtendsOneStream(w.repo, r, request.key);
    LoadStep(Run(done), Run(done).callers[i], clock, Committed);
  }

  /** Whenever a request would create an event, two calls with that same request can be interleaved so that one of them
      is told of a version conflict, which no evaluation run without interruption at any moment of its call answers. */
  lemma EqualRequestsCanRace(schedule: seq<Action>, request: Request, clock: int) returns (longer: seq<Action>)
    requires ValidRequest(request) && Creates(Run(schedule).evidence, Run(schedule).repo, request, clock)
    ensures var i := |Run(schedule).callers|;
            && schedule <= longer
            && i < |Run(longer).callers| && Run(longer).callers[i] == Caller(request, Finished(Err(VersionConflict)))
            && !Atomic(longer, i, request, Err(VersionConflict))
  {
    hide Run, Creates, Evaluate, Publish, Resolve, Replay, ProposedRecord, CanonicalInput, Known, Invariant;
    var w, i := Run(schedule), |Run(schedule).callers|;
    var found, r := CreationPublishes(w.evidence, w.repo, request, clock);
    longer := RaceSchedule(schedule, request, clock, found, r);
    forall n: nat ensures !AtomicAt(longer, n, i, request, Err(VersionConflict)) {
      if OpenAt(longer, n, i, request) {
        OpenAfterSubmission(schedule, longer, n, i, request);
        MomentMeetsNoConflict(schedule, longer, n, request, clock, found, r,
                              Replay(w.evidence, History(w.repo, request.key)).value);
      }
    }
  }

  lemma OpenAfterSubmission(schedule: seq<Action>, longer: seq<Action>, n: nat, i: nat, request: Request)
    requires schedule <= longer && i == |Run(schedule).callers| && OpenAt(longer, n, i, request)
    ensures |schedule| <= n <= |longer|
  {
    hide Run;
    if n < |schedule| {
      assert longer[..n] == schedule[..n];
      CallersOnlyJoin(schedule, n);
    }
  }

  lemma MomentMeetsNoConflict(schedule: seq<Action>, longer: seq<Action>, n: nat, request: Request, clock: int,
                              found: Resolved, r: Record, state: DerivedState)
    requires schedule <= longer && |schedule| <= n <= |longer|
    requires var w := Run(schedule);
             && Resolve(w.evidence, request) == Ok(found) && request.expectedVersion == |History(w.repo, request.key)|
             && Replay(w.evidence, History(w.repo, request.key)) == Ok(state)
             && ProposedRecord(found, request, state, clock) == Ok(r)
             && r.request == request && r.idempotencyIdentity == IdempotencyOf(request)
             && r.inputContent == CanonicalInput(request, found.dispatch, found.claimant, found.policy)
             && Run(longer).repo == Publish(w.repo, r)
    ensures !AnswersIn(Run(longer[..n]), request, Err(VersionConflict))
  {
    hide Run, Evaluate, Resolve, Replay, ProposedRecord, CanonicalInput, EvidenceGrows, IndexesAgree, RepositoryGrows,
         History, IdempotencyOf;
    var w, at := Run(schedule), Run(longer[..n]);
    assert longer[..n][..|schedule|] == schedule;
    HistoryOnlyGrows(longer[..n], |schedule|);
    ResolveIsStable(w.evidence, at.evidence, request);
    ReplayIsStable(w.evidence, at.evidence, History(w.repo, request.key));
    if Known(at.repo, request) {
      KnownMeansPublished(longer, n, w.repo, r);
    } else {
      UnknownMeansUnmoved(longer, n, w.repo, r);
    }
    hide Publish, Known;
    forall clock', commit ensures Evaluate(at.evidence, at.repo, request, clock', commit).1 != Err(VersionConflict) {
      if Known(at.repo, request) {
        RetainedMeetsNoConflict(at.evidence, at.repo, request, found, r, clock', commit);
      } else {
        CreationMeetsNoConflict(at.evidence, at.repo, request, found, state, clock, clock', commit);
      }
    }
  }

  lemma KnownMeansPublished(longer: seq<Action>, n: nat, repo: Repository, r: Record)
    requires n <= |longer| && Run(longer).repo == Publish(repo, r)
    requires IdempotencyKeyOf(r) in Run(longer[..n]).repo.idempotency
    ensures Run(longer[..n]).repo.idempotency[IdempotencyKeyOf(r)] == r
  {
    hide Run;
    HistoryOnlyGrows(longer, n);
  }

  /** Until the identity is known its stream has not moved. */
  lemma UnknownMeansUnmoved(longer: seq<Action>, n: nat, repo: Repository, r: Record)
    requires n <= |longer| && RepositoryGrows(repo, Run(longer[..n]).repo) && Run(longer).repo == Publish(repo, r)
    requires IdempotencyKeyOf(r) !in Run(longer[..n]).repo.idempotency
    ensures History(Run(longer[..n]).repo, r.request.key) == History(repo, r.request.key)
  {
    hide Run, Publish, IndexesAgree;
    var at, k := Run(longer[..n]).repo, r.request.key;
    HistoryOnlyGrows(longer, n);
    PublishExtendsOneStream(repo, r, k);
    assert StreamGrows(repo, at, k) && StreamGrows(at, Run(longer).repo, k);
    var i := |History(repo, k)|;
    if i < |History(at, k)| {
      assert History(at, k)[i] == (History(repo, k) + [r])[i];
      EveryRepositoryIsIndexed(longer[..n]);
      EntryIsKnown(at, k, i);
    }
  }

  lemma EntryIsKnown(repo: Repository, k: LineageKey, i: nat)
    requires IndexesAgree(repo) && i < |History(repo, k)|
    ensures IdempotencyKeyOf(History(repo, k)[i]) in repo.idempotency
  {
    assert IndexedAt(repo, k, i);
  }
}
