/** What holds of every schedule of concurrent Work Claim evaluations. */
module WorkClaimTheorems {
  import opened Foundations
  import opened RetainedEvidence
  import opened WorkClaimDomain
  import opened WorkClaimService
  import opened WorkClaimSafety
  import opened WorkClaimConcurrency

  // ---- safety of every reachable lineage -----------------------------------

  /** The record at `i` is exactly what its request proposes on the first `i` events of its lineage. */
  ghost predicate DecidedOnItsHistory(e: Evidence, h: seq<Record>, i: nat)
    requires i < |h|
  {
    && h[i].request.expectedVersion == i
    && Replay(e, h[..i]).Ok?
    && Resolve(e, h[i].request).Ok?
    && ProposedRecord(Resolve(e, h[i].request).value, h[i].request, Replay(e, h[..i]).value, h[i].event.recordedAt)
         == Ok(h[i])
  }

  lemma DecidedAt(e: Evidence, h: seq<Record>, i: nat)
    requires Replay(e, h).Ok? && i < |h| && h[i].idempotencyIdentity == IdempotencyOf(h[i].request)
    ensures DecidedOnItsHistory(e, h, i)
  {
    hide ReplayRecord, Resolve, ProposedRecord, Coherent;
    ReplayPrefix(e, h, i + 1);
    assert h[..i + 1][..i] == h[..i];
    ReplayPrefix(e, h, i);
    ReplayedIsCoherent(e, h[..i]);
    DecidedRecord(e, h[0].request.key, Replay(e, h[..i]).value, h[i]);
  }

  lemma DecidedRecord(e: Evidence, key: LineageKey, s: DerivedState, r: Record)
    requires ReplayRecord(e, key, s, r).Ok? && r.idempotencyIdentity == IdempotencyOf(r.request)
    ensures r.request.expectedVersion == s.lineageVersion && Resolve(e, r.request).Ok?
    ensures ProposedRecord(Resolve(e, r.request).value, r.request, s, r.event.recordedAt) == Ok(r)
  {
    hide Resolve, CanonicalInput, Decide, AdvanceState, BuildRecord, VerifiesRecordedContent;
  }

  /** In every interleaving every lineage replays exactly, each event was decided on precisely the history it extends,
      and the lineage obeys the fencing, generation, exclusion and causation laws. */
  lemma EveryLineageIsSafe(schedule: seq<Action>, k: LineageKey)
    ensures var w := Run(schedule); var h := History(w.repo, k);
            && Replay(w.evidence, h).Ok?
            && Describes(h, Replay(w.evidence, h).value)
            && (forall i {:trigger DecidedOnItsHistory(w.evidence, h, i)} :: 0 <= i < |h| ==>
                  DecidedOnItsHistory(w.evidence, h, i))
            && GenerationLaw(h) && FencingLaw(h) && ExclusionLaw(h) && CausationLaw(h)
  {
    hide Replay, Run, DecidedOnItsHistory, GenerationLaw, FencingLaw, ExclusionLaw, CausationLaw, Describes,
         IndexesAgree;
    RunKeepsInvariant(schedule);
    var w := Run(schedule);
    var h := History(w.repo, k);
    assert StreamReplays(w.evidence, w.repo, k);
    ReplayDescribes(w.evidence, h);
    ReplayedLineageIsSafe(w.evidence, h);
    forall i: nat | i < |h| ensures DecidedOnItsHistory(w.evidence, h, i) {
      DecidedAt(w.evidence, h, i);
    }
  }

  /** The indexes of every reachable repository agree with its streams. */
  lemma EveryRepositoryIsIndexed(schedule: seq<Action>)
    ensures IndexesAgree(Run(schedule).repo)
  {
    RunKeepsInvariant(schedule);
  }

  /** Later states only add: streams keep their prefix and idempotency entries never change. */
  lemma {:induction false} HistoryOnlyGrows(schedule: seq<Action>, n: nat)
    requires n <= |schedule|
    ensures RepositoryGrows(Run(schedule[..n]).repo, Run(schedule).repo)
    ensures EvidenceGrows(Run(schedule[..n]).evidence, Run(schedule).evidence)
    decreases |schedule|
  {
    hide Next, Invariant, RepositoryGrows;
    if n == |schedule| {
      assert schedule[..n] == schedule;
      NoGrowth(Run(schedule).repo);
    } else {
      var m := |schedule| - 1;
      HistoryOnlyGrows(schedule[..m], n);
      assert schedule[..m][..n] == schedule[..n];
      RunKeepsInvariant(schedule[..m]);
      NextKeepsInvariant(Run(schedule[..m]), schedule[m]);
      GrowthIsTransitive(Run(schedule[..n]).repo, Run(schedule[..m]).repo, Run(schedule).repo);
    }
  }

  lemma GrowthIsTransitive(a: Repository, b: Repository, c: Repository)
    requires RepositoryGrows(a, b) && RepositoryGrows(b, c)
    ensures RepositoryGrows(a, c)
  {
    forall k ensures StreamGrows(a, c, k) {
      assert StreamGrows(a, b, k) && StreamGrows(b, c, k);
    }
  }

  // ---- idempotency ---------------------------------------------------------

  /** Equal requests, however they interleave, never yield two events: once one of them has an event, every other
      one that finishes has the same event, unless it lost a version race, ran before its evidence was retained,
      or met a failing commit. */
  lemma EqualRequestsShareOneEvent(schedule: seq<Action>, i: nat, j: nat)
    requires i < |Run(schedule).callers| && j < |Run(schedule).callers|
    requires var callers := Run(schedule).callers;
             && callers[i].request == callers[j].request
             && callers[i].phase.Finished? && callers[i].phase.result.Ok? && callers[j].phase.Finished?
    ensures var ours, theirs := Run(schedule).callers[i].phase.result, Run(schedule).callers[j].phase.result;
            match theirs
            case Ok(result) => result.event == ours.value.event
            case Err(error) => error.VersionConflict? || error.EvidenceUnavailable? || error.PersistenceFailure?
  {
    hide Run, Replay;
    RunKeepsInvariant(schedule);
    var w := Run(schedule);
    assert CallerInvariant(w.evidence, w.repo, w.callers[i]) && CallerInvariant(w.evidence, w.repo, w.callers[j]);
    var request := w.callers[i].request;
    RetainedExcludesOtherFailures(w.evidence, w.repo, request, w.callers[i].phase.result.value.event);
  }

  lemma RetainedExcludesOtherFailures(e: Evidence, repo: Repository, request: Request, event: Event)
    requires ValidEvidence(e) && RepositoryInvariant(e, repo) && Retains(repo, request, event)
    ensures Resolve(e, request).Ok? && !Taken(e, repo, request) && !Refused(e, repo, request)
  {
    hide Replay, Resolve, GenerationLaw;
    var key := (request.key, IdempotencyOf(request));
    assert IdempotencyAgrees(repo, key);
    var prior := repo.idempotency[key];
    var h, i := History(repo, request.key), prior.event.document.lineageVersion - 1;
    assert StreamReplays(e, repo, request.key);
    DecidedAt(e, h, i);
    PriorInput(e, h, i);
  }

  /** No two positions, of the same or of different lineages, were published under one idempotency identity. */
  lemma OnePositionPerIdentity(schedule: seq<Action>, k: LineageKey, i: nat, k': LineageKey, j: nat)
    requires i < |History(Run(schedule).repo, k)| && j < |History(Run(schedule).repo, k')|
    requires IdempotencyKeyOf(History(Run(schedule).repo, k)[i]) == IdempotencyKeyOf(History(Run(schedule).repo, k')[j])
    ensures k == k' && i == j
  {
    RunKeepsInvariant(schedule);
    assert IndexedAt(Run(schedule).repo, k, i) && IndexedAt(Run(schedule).repo, k', j);
  }

  /** Retrying a published request, in any later state and whatever the commit would have done,
      returns the original event and changes nothing. */
  lemma RetryReturnsOriginal(schedule: seq<Action>, n: nat, k: LineageKey, i: nat, clock: int, commit: CommitOutcome)
    requires n <= |schedule| && i < |History(Run(schedule[..n]).repo, k)|
    ensures var w, r := Run(schedule), History(Run(schedule[..n]).repo, k)[i];
            Evaluate(w.evidence, w.repo, r.request, clock, commit)
              == (w.repo, Ok(EvaluationResult(ExistingEquivalent, r.event)))
  {
    hide Run, Replay, ReplayRecord, ProposedRecord, Append;
    HistoryOnlyGrows(schedule, n);
    RunKeepsInvariant(schedule);
    var w := Run(schedule);
    var r := History(Run(schedule[..n]).repo, k)[i];
    assert StreamGrows(Run(schedule[..n]).repo, w.repo, k);
    assert History(w.repo, k)[i] == r && IndexedAt(w.repo, k, i) && StreamReplays(w.evidence, w.repo, k);
    PriorInput(w.evidence, History(w.repo, k), i);
  }

  // ---- every run is a serial run -------------------------------------------

  /** Evaluating the logged requests one after the other, each to completion and each creating its event. */
  function Serial(e: Evidence, log: seq<(Request, int)>): Option<Repository> {
    if log == [] then Some(EMPTY_REPOSITORY)
    else
      var last := log[|log| - 1];
      var earlier := Serial(e, log[..|log| - 1]);
      if earlier.None? then None
      else
        var (later, result) := Evaluate(e, earlier.value, last.0, last.1, Committed);
        if result.Ok? && result.value.outcome.Created? then Some(later) else None
  }

  /** The requests in the order in which they published, each with the clock its event recorded. */
  function Published(schedule: seq<Action>): seq<(Request, int)> {
    if schedule == [] then []
    else
      var m := |schedule| - 1;
      Published(schedule[..m]) + Publication(Run(schedule[..m]), schedule[m])
  }

  function Publication(w: World, action: Action): seq<(Request, int)> {
    if action.Advance? && action.caller < |w.callers| && w.callers[action.caller].phase.Publishing? then
      var c := w.callers[action.caller];
      var (_, result) := Append(w.repo, c.phase.record, c.request.expectedVersion, action.commit);
      if result.Ok? && result.value.outcome.Created? then [(c.request, c.phase.record.event.recordedAt)] else []
    else []
  }

  lemma CreationIsStable(e: Evidence, later: Evidence, repo: Repository, request: Request, clock: int)
    requires EvidenceGrows(e, later)
    requires var (_, result) := Evaluate(e, repo, request, clock, Committed);
             result.Ok? && result.value.outcome.Created?
    ensures Evaluate(later, repo, request, clock, Committed) == Evaluate(e, repo, request, clock, Committed)
  {
    hide Resolve, Replay, Append, ProposedRecord, CanonicalInput, Idempotent;
    ResolveIsStable(e, later, request);
    ReplayIsStable(e, later, History(repo, request.key));
  }

  lemma {:induction false} SerialIsStable(e: Evidence, later: Evidence, log: seq<(Request, int)>)
    requires EvidenceGrows(e, later) && Serial(e, log).Some?
    ensures Serial(later, log) == Serial(e, log)
  {
    hide Evaluate, EvidenceGrows;
    if log != [] {
      var last := log[|log| - 1];
      SerialIsStable(e, later, log[..|log| - 1]);
      CreationIsStable(e, later, Serial(e, log[..|log| - 1]).value, last.0, last.1);
    }
  }

  lemma PublicationIsEvaluation(e: Evidence, repo: Repository, request: Request, r: Record)
    requires ValidEvidence(e) && RepositoryInvariant(e, repo) && ValidRequest(request)
    requires ProposedOn(e, repo, request, r)
    requires request.expectedVersion == |History(repo, request.key)| && Fresh(repo, r)
    ensures Evaluate(e, repo, request, r.event.recordedAt, Committed)
              == (Publish(repo, r), Ok(EvaluationResult(Created, r.event)))
  {
    hide Replay, Resolve, ProposedRecord, Publish, IndexesAgree;
    ProposalNamesRequest(e, repo, request, r);
    assert StreamReplays(e, repo, request.key);
    assert History(repo, request.key)[..request.expectedVersion] == History(repo, request.key);
  }

  /** Every interleaving leaves the repository that a serial execution of the published requests leaves. */
  lemma {:induction false} EveryRunIsSerial(schedule: seq<Action>)
    ensures Serial(Run(schedule).evidence, Published(schedule)) == Some(Run(schedule).repo)
  {
    if schedule != [] {
      var m := |schedule| - 1;
      EveryRunIsSerial(schedule[..m]);
      RunKeepsInvariant(schedule[..m]);
      SerialStep(Run(schedule[..m]), schedule[m], Published(schedule[..m]));
    }
  }

  lemma SerialStep(w: World, action: Action, log: seq<(Request, int)>)
    requires Invariant(w) && Serial(w.evidence, log) == Some(w.repo)
    ensures Serial(Next(w, action).evidence, log + Publication(w, action)) == Some(Next(w, action).repo)
  {
    hide Serial;
    var w' := Next(w, action);
    NextKeepsInvariant(w, action);
    SerialIsStable(w.evidence, w'.evidence, log);
    assert log + [] == log;
    if action.Advance? && action.caller < |w.callers| {
      AdvanceIsSerial(w, action.caller, action.clock, action.commit, log);
    }
  }

  lemma AdvanceIsSerial(w: World, i: nat, clock: int, commit: CommitOutcome, log: seq<(Request, int)>)
    requires Invariant(w) && i < |w.callers| && Serial(w.evidence, log) == Some(w.repo)
    ensures Serial(w.evidence, log + Publication(w, Advance(i, clock, commit)))
              == Some(CallerStep(w.evidence, w.repo, w.callers[i], clock, commit).0)
  {
    hide Append, Evaluate, ReplayRecord, ProposedRecord, Resolve, RepositoryInvariant, ProposedOn, CheckEvidence;
    var c := w.callers[i];
    assert CallerInvariant(w.evidence, w.repo, c);
    assert log + [] == log;
    if c.phase.Publishing? {
      var r := c.phase.record;
      var (later, result) := Append(w.repo, r, c.request.expectedVersion, commit);
      PublishingKeepsInvariant(w.evidence, w.repo, c.request, r, commit);
      if result.Ok? && result.value.outcome.Created? {
        PublicationIsEvaluation(w.evidence, w.repo, c.request, r);
        var more := log + [(c.request, r.event.recordedAt)];
        assert more[..|log|] == log;
      }
    }
  }

  // ---- the step relation and `evaluate` ------------------------------------

  /** `n` uninterrupted steps of one caller. */
  function Solo(e: Evidence, repo: Repository, c: Caller, clock: int, commit: CommitOutcome, n: nat)
    : (Repository, Phase)
    decreases n
  {
    if n == 0 then (repo, c.phase)
    else
      var (later, phase) := CallerStep(e, repo, c, clock, commit);
      Solo(e, later, c.(phase := phase), clock, commit, n - 1)
  }

  lemma {:induction false} SoloReplays(e: Evidence, repo: Repository, request: Request, found: Resolved, h: seq<Record>,
                                       next: nat, state: DerivedState, clock: int, commit: CommitOutcome)
    requires next <= |h| && Replay(e, h[..next]) == Ok(state)
    ensures var n := |h| - next + 2;
            var replayed := Replay(e, h);
            Solo(e, repo, Caller(request, Replaying(found, h, next, state)), clock, commit, n)
              == if replayed.Err? then (repo, Finished(Err(replayed.error)))
                 else
                   var proposal := ProposedRecord(found, request, replayed.value, clock);
                   if proposal.Err? then (repo, Finished(Err(proposal.error)))
                   else var (later, result) := Append(repo, proposal.value, request.expectedVersion, commit);
                        (later, Finished(result))
    decreases |h| - next
  {
    hide ReplayRecord, ProposedRecord, Append;
    var c := Caller(request, Replaying(found, h, next, state));
    if next < |h| {
      assert h[..next + 1][..next] == h[..next];
      var replayed := ReplayRecord(e, h[0].request.key, state, h[next]);
      if replayed.Ok? {
        SoloReplays(e, repo, request, found, h, next + 1, replayed.value, clock, commit);
      } else {
        FailedReplayFails(e, h, next + 1);
        SoloStays(e, repo, request, Err(replayed.error), clock, commit, |h| - next + 1);
      }
    } else {
      assert h[..next] == h;
      var proposal := ProposedRecord(found, request, state, clock);
      if proposal.Err? {
        SoloStays(e, repo, request, Err(proposal.error), clock, commit, 1);
      } else {
        SoloPublishes(e, repo, request, proposal.value, clock, commit);
      }
    }
  }

  lemma {:induction false} SoloStays(e: Evidence, repo: Repository, request: Request,
                                     result: Result<EvaluationResult, RuntimeError>, clock: int, commit: CommitOutcome,
                                     n: nat)
    ensures Solo(e, repo, Caller(request, Finished(result)), clock, commit, n) == (repo, Finished(result))
  {
    if n > 0 {
      SoloStays(e, repo, request, result, clock, commit, n - 1);
    }
  }

  lemma SoloPublishes(e: Evidence, repo: Repository, request: Request, r: Record, clock: int, commit: CommitOutcome)
    ensures var (later, result) := Append(repo, r, request.expectedVersion, commit);
            Solo(e, repo, Caller(request, Publishing(r)), clock, commit, 1) == (later, Finished(result))
  {
    hide Append;
    var (later, result) := Append(repo, r, request.expectedVersion, commit);
    SoloStays(e, later, request, result, clock, commit, 0);
  }

  /** A caller that nobody interrupts computes exactly `Evaluate`, in at most six steps more than its history is
      long. */
  lemma UninterruptedIsEvaluate(e: Evidence, repo: Repository, request: Request, clock: int, commit: CommitOutcome)
    ensures var (later, result) := Evaluate(e, repo, request, clock, commit);
            Solo(e, repo, Caller(request, Submitted), clock, commit, |History(repo, request.key)| + 6)
              == (later, Finished(result))
  {
    hide Replay, ReplayRecord, ProposedRecord, Append, CheckEvidence, Idempotent, CanonicalInput;
    var n := |History(repo, request.key)|;
    var dispatch := FindDispatch(e, request);
    if dispatch.Err? {
      SoloStays(e, repo, request, Err(dispatch.error), clock, commit, n + 5);
      return;
    }
    var claimant := FindClaimant(e, request);
    if claimant.Err? {
      SoloStays(e, repo, request, Err(claimant.error), clock, commit, n + 4);
      return;
    }
    var checked := CheckEvidence(request, dispatch.value, claimant.value);
    if checked.Err? {
      SoloStays(e, repo, request, Err(checked.error), clock, commit, n + 4);
      return;
    }
    SoloFromEvidence(e, repo, request, checked.value, clock, commit);
  }

  lemma SoloFromEvidence(e: Evidence, repo: Repository, request: Request, found: Resolved, clock: int,
                         commit: CommitOutcome)
    requires Resolve(e, request) == Ok(found)
    ensures var (later, result) := Evaluate(e, repo, request, clock, commit);
            Solo(e, repo, Caller(request, EvidenceFound(found)), clock, commit, |History(repo, request.key)| + 4)
              == (later, Finished(result))
  {
    hide Replay, ReplayRecord, ProposedRecord, Append, Resolve, Idempotent, CanonicalInput;
    var h := History(repo, request.key);
    var input := CanonicalInput(request, found.dispatch, found.claimant, found.policy);
    var prior := Idempotent(repo, request.key, IdempotencyOf(request), input);
    if prior.Err? {
      SoloStays(e, repo, request, Err(prior.error), clock, commit, |h| + 3);
    } else if prior.value.Some? {
      SoloStays(e, repo, request, Ok(EvaluationResult(ExistingEquivalent, prior.value.value)), clock, commit, |h| + 3);
    } else if request.expectedVersion != |h| {
      SoloStays(e, repo, request, Err(VersionConflict), clock, commit, |h| + 2);
    } else {
      ReplayOfNothing(e);
      assert h[..0] == [];
      SoloReplays(e, repo, request, found, h, 0, INITIAL_STATE, clock, commit);
    }
  }
}
