/** What a worker ranking says, in the fields of the request and of the readiness evidence. */
module WorkerRankingMeaning {
  import opened Foundations
  import opened Ordering
  import opened WorkerRanking
  import opened WorkerRankingTheorems

  // ---- eligibility ---------------------------------------------------------

  /** Nothing speaks against the worker. */
  predicate Eligible(q: Request, e: Evidence) {
    && e.organization == q.organization && e.workload == q.workload
    && e.reference != "" && e.canonicalHash != ""
    && e.schemaVersion == "worker-readiness.v1"
    && q.evaluationBoundary <= e.expiresAt
    && e.ready
    && (forall capability :: capability in q.requiredCapabilities ==> capability in e.capabilities)
    && e.hardPolicyPass == Some(true)
    && e.consistent
  }

  /** The condition each reason code stands for. */
  predicate Fails(q: Request, e: Evidence, reason: Reason) {
    match reason
    case OrganizationOrWorkloadMismatch => !(e.organization == q.organization && e.workload == q.workload)
    case RequiredEvidenceInvalid => e.reference == "" || e.canonicalHash == ""
    case ReadinessVersionUnsupported => e.schemaVersion != "worker-readiness.v1"
    case ReadinessExpired => e.expiresAt < q.evaluationBoundary
    case WorkerNotReady => !e.ready
    case RequiredCapabilityMissing =>
      exists capability :: capability in q.requiredCapabilities && capability !in e.capabilities
    case HardPolicyEvidenceUnavailable => e.hardPolicyPass.None?
    case HardPolicyFiltered => e.hardPolicyPass == Some(false)
    case ContradictoryEvidence => !e.consistent
  }

  lemma ReasonMeaning(q: Request, e: Evidence, reason: Reason)
    ensures reason in Reasons(q, e) <==> Fails(q, e, reason)
  {
    hide When;
    forall condition: bool, code: Reason {:trigger When(condition, code)}
      ensures reason in When(condition, code) <==> condition && reason == code
    {
      WhenMeaning(condition, code, reason);
    }
  }

  lemma WhenMeaning(condition: bool, code: Reason, reason: Reason)
    ensures reason in When(condition, code) <==> condition && reason == code
  {
  }

  lemma EligibleMeaning(q: Request, e: Evidence)
    ensures Eligible(q, e) <==> forall reason :: !Fails(q, e, reason)
  {
    if forall reason :: !Fails(q, e, reason) {
      assert !Fails(q, e, OrganizationOrWorkloadMismatch) && !Fails(q, e, RequiredEvidenceInvalid);
      assert !Fails(q, e, ReadinessVersionUnsupported) && !Fails(q, e, ReadinessExpired);
      assert !Fails(q, e, WorkerNotReady) && !Fails(q, e, RequiredCapabilityMissing);
      assert !Fails(q, e, HardPolicyEvidenceUnavailable) && !Fails(q, e, HardPolicyFiltered);
      assert !Fails(q, e, ContradictoryEvidence);
      assert e.hardPolicyPass.Some? && (e.hardPolicyPass.value || e.hardPolicyPass == Some(false));
    }
  }

  lemma ReasonsMeaning(q: Request, e: Evidence)
    ensures forall reason :: reason in Reasons(q, e) <==> Fails(q, e, reason)
    ensures Reasons(q, e) == {} <==> Eligible(q, e)
  {
    hide Reasons, Fails, Eligible;
    EligibleMeaning(q, e);
    forall reason ensures reason in Reasons(q, e) <==> Fails(q, e, reason) {
      ReasonMeaning(q, e, reason);
    }
  }

  /** An exclusion tells whom it excludes and lists exactly the conditions that worker fails. */
  predicate Explains(q: Request, e: Evidence, x: Exclusion) {
    && x.workerId == e.workerId && x.reference == e.reference
    && forall reason :: reason in x.reasons <==> Fails(q, e, reason)
  }

  /** A worker is a candidate exactly when it is eligible. It is excluded exactly when it is not, by one exclusion that
      lists each code exactly when its own condition fails. */
  lemma EligibilityMeaning(q: Request, e: Evidence)
    requires Evaluation(q).Ok? && e in q.readiness
    ensures var s := Evaluation(q).value;
            && (IsCandidate(s, e.workerId) <==> Eligible(q, e))
            && (IsExcluded(s, e.workerId) <==> !Eligible(q, e))
            && (forall k :: 0 <= k < |s.excluded| && s.excluded[k].workerId == e.workerId ==>
                  Explains(q, e, s.excluded[k]))
  {
    hide Reasons, ScoreComponents, OutcomeOf, AllReasons, Provisional, Excluded, Sort, ById, Before, Fails, Eligible;
    var s, readiness := Evaluation(q).value, InWorkerOrder(q);
    var n := |readiness|;
    CandidatesAndExclusionsPartition(q, e);
    ReasonsMeaning(q, e);
    ExcludedMembers(q, readiness, n);
    SortKeepsItems(q.readiness, ById);
    InTheMultiset(readiness, q.readiness, e);
    var at :| 0 <= at < n && readiness[at] == e;
    forall k | 0 <= k < |s.excluded| && s.excluded[k].workerId == e.workerId ensures Explains(q, e, s.excluded[k]) {
      var i :| 0 <= i < n
               && s.excluded[k]
                  == Exclusion(readiness[i].workerId, readiness[i].reference, Reasons(q, readiness[i]))
               && Reasons(q, readiness[i]) != {};
      assert i == at;
    }
  }

  /** Exclusions are listed by worker, each worker once. */
  lemma ExclusionsAreOrdered(q: Request, j: nat, k: nat)
    requires Evaluation(q).Ok? && j < k < |Evaluation(q).value.excluded|
    ensures TextLess(Evaluation(q).value.excluded[j].workerId, Evaluation(q).value.excluded[k].workerId)
  {
    hide Reasons, ScoreComponents, OutcomeOf, AllReasons, Provisional, Excluded, Sort, TextLess;
    var readiness := InWorkerOrder(q);
    SortKeepsItems(q.readiness, ById);
    RepetitionSurvives(readiness, q.readiness);
    UniqueAreDistinct(q.readiness);
    WorkersAreOrdered(q.readiness);
    SortSorts(q.readiness, ById);
    ExcludedFollowOrder(q, readiness, |readiness|, j, k);
  }

  lemma {:induction false} ExcludedFollowOrder(q: Request, readiness: seq<Evidence>, n: nat, j: nat, k: nat)
    requires n <= |readiness| && Sorted(readiness, ById) && UniqueWorkers(readiness)
    requires j < k < |Excluded(q, readiness, n)|
    ensures TextLess(Excluded(q, readiness, n)[j].workerId, Excluded(q, readiness, n)[k].workerId)
  {
    hide Reasons, TextLess, Sorted, UniqueWorkers;
    var x := Excluded(q, readiness, n - 1);
    if k < |x| {
      ExcludedFollowOrder(q, readiness, n - 1, j, k);
    } else {
      LaterExclusion(q, readiness, n, j);
    }
  }

  lemma LaterExclusion(q: Request, readiness: seq<Evidence>, n: nat, j: nat)
    requires 0 < n <= |readiness| && Sorted(readiness, ById) && UniqueWorkers(readiness)
    requires j < |Excluded(q, readiness, n - 1)|
    ensures TextLess(Excluded(q, readiness, n - 1)[j].workerId, readiness[n - 1].workerId)
  {
    hide Reasons, TextLess, Excluded;
    ExcludedMembers(q, readiness, n - 1);
    var i :| 0 <= i < n - 1
             && Excluded(q, readiness, n - 1)[j].workerId == readiness[i].workerId;
    assert !ById(readiness[n - 1], readiness[i]);
    TextIsTotal(readiness[i].workerId, readiness[n - 1].workerId);
  }

  // ---- the outcome ---------------------------------------------------------

  /** No worker is eligible, and no evidence is contradictory. */
  predicate Settled(q: Request) {
    forall e :: e in q.readiness ==> !Eligible(q, e) && e.consistent
  }

  /** Evidence that is unusable for another reason than the worker's own state or the hard policy's verdict. */
  predicate Unusable(q: Request, e: Evidence) {
    || e.hardPolicyPass.None?
    || Fails(q, e, OrganizationOrWorkloadMismatch) || Fails(q, e, RequiredEvidenceInvalid)
    || Fails(q, e, ReadinessVersionUnsupported) || Fails(q, e, ReadinessExpired)
    || Fails(q, e, RequiredCapabilityMissing)
  }

  predicate OnlyPolicyFails(q: Request, e: Evidence) {
    e.hardPolicyPass == Some(false) && Eligible(q, e.(hardPolicyPass := Some(true)))
  }

  /** The five outcomes, each by its own condition on the evidence. */
  lemma OutcomesMeaning(q: Request)
    requires Evaluation(q).Ok?
    ensures var outcome := Evaluation(q).value.outcome;
            && (outcome.CandidateFound? <==> exists e :: e in q.readiness && Eligible(q, e))
            && (outcome.Indeterminate? <==>
                  && (forall e :: e in q.readiness ==> !Eligible(q, e))
                  && exists e :: e in q.readiness && !e.consistent)
            && (outcome.PolicyFiltered? <==>
                  q.readiness != [] && forall e :: e in q.readiness ==> OnlyPolicyFails(q, e))
            && (outcome.EvidenceUnavailable? <==> Settled(q) && exists e :: e in q.readiness && Unusable(q, e))
            && (outcome.NoEligibleWorkers? <==>
                  && Settled(q) && (forall e :: e in q.readiness ==> !Unusable(q, e))
                  && (q.readiness == [] || exists e :: e in q.readiness && !e.ready))
  {
    hide Reasons, ScoreComponents, Sort, ById, Provisional, AllReasons, Excluded, Candidates, Fails, Eligible;
    var readiness := InWorkerOrder(q);
    var n, all := |readiness|, AllReasons(q, readiness, |readiness|);
    SortKeepsItems(q.readiness, ById);
    assert |multiset(readiness)| == |multiset(q.readiness)|;
    forall reason ensures reason in all <==> exists e :: e in q.readiness && Fails(q, e, reason) {
      SomeReason(q, reason);
    }
    forall e | e in q.readiness ensures (Reasons(q, e) == {} <==> Eligible(q, e)) {
      ReasonsMeaning(q, e);
    }
    SomeCandidate(q);
    SettledMeaning(q, all);
    forall e | e in q.readiness ensures OnlyPolicyFails(q, e) <==> Reasons(q, e) == {HardPolicyFiltered} {
      OnlyPolicyMeaning(q, e);
    }
    OutcomeMeaning(q);
    forall e ensures e in readiness <==> e in q.readiness {
      InTheMultiset(readiness, q.readiness, e);
    }
    forall e: Evidence
      ensures !e.consistent <==> Fails(q, e, ContradictoryEvidence)
      ensures !e.ready <==> Fails(q, e, WorkerNotReady)
      ensures e.hardPolicyPass.None? <==> Fails(q, e, HardPolicyEvidenceUnavailable)
    {
      StateFails(q, e);
    }
  }

  lemma OtherReasons(reason: Reason)
    requires reason !in UNAVAILABLE && !reason.ContradictoryEvidence? && !reason.HardPolicyEvidenceUnavailable?
    ensures reason in {HardPolicyFiltered, WorkerNotReady}
  {
    assert OrganizationOrWorkloadMismatch in UNAVAILABLE && RequiredEvidenceInvalid in UNAVAILABLE;
    assert ReadinessVersionUnsupported in UNAVAILABLE && ReadinessExpired in UNAVAILABLE;
    assert RequiredCapabilityMissing in UNAVAILABLE;
  }

  /** The same conditions, read off the set of all reasons. */
  lemma SettledMeaning(q: Request, all: set<Reason>)
    requires forall reason :: reason in all <==> exists e :: e in q.readiness && Fails(q, e, reason)
    requires forall e :: e in q.readiness ==> (Reasons(q, e) == {} <==> Eligible(q, e))
    ensures (exists e :: e in q.readiness && Unusable(q, e)) <==>
              HardPolicyEvidenceUnavailable in all || all * UNAVAILABLE != {}
    ensures (forall e :: e in q.readiness ==> !Eligible(q, e)) && all <= {HardPolicyFiltered, WorkerNotReady} ==>
              (q.readiness == [] || WorkerNotReady in all <==> all != {HardPolicyFiltered})
    ensures all <= {HardPolicyFiltered, WorkerNotReady} <==>
              ContradictoryEvidence !in all && HardPolicyEvidenceUnavailable !in all && all * UNAVAILABLE == {}
  {
    hide Fails, Eligible, Reasons;
    forall e: Evidence ensures e.hardPolicyPass.None? <==> Fails(q, e, HardPolicyEvidenceUnavailable) {
      StateFails(q, e);
    }
    if e :| e in q.readiness && Unusable(q, e) {
      assert || HardPolicyEvidenceUnavailable in all || OrganizationOrWorkloadMismatch in all * UNAVAILABLE
             || RequiredEvidenceInvalid in all * UNAVAILABLE || ReadinessVersionUnsupported in all * UNAVAILABLE
             || ReadinessExpired in all * UNAVAILABLE || RequiredCapabilityMissing in all * UNAVAILABLE;
    }
    if all * UNAVAILABLE != {} {
      var reason :| reason in all * UNAVAILABLE;
      var e :| e in q.readiness && Fails(q, e, reason);
      assert Unusable(q, e);
    }
    if HardPolicyEvidenceUnavailable in all {
      var e :| e in q.readiness && Fails(q, e, HardPolicyEvidenceUnavailable);
      assert Unusable(q, e);
    }
    if q.readiness != [] && (forall e :: e in q.readiness ==> !Eligible(q, e)) {
      var e := q.readiness[0];
      assert e in q.readiness;
      EligibleMeaning(q, e);
      var reason :| Fails(q, e, reason);
      assert reason in all;
    }
    forall reason | reason in all && ContradictoryEvidence !in all && HardPolicyEvidenceUnavailable !in all
                    && all * UNAVAILABLE == {}
      ensures reason in {HardPolicyFiltered, WorkerNotReady}
    {
      assert reason !in all * UNAVAILABLE && reason !in UNAVAILABLE;
      OtherReasons(reason);
    }
    if all <= {HardPolicyFiltered, WorkerNotReady} {
      assert all * UNAVAILABLE == {};
    }
  }

  lemma StateFails(q: Request, e: Evidence)
    ensures !e.consistent <==> Fails(q, e, ContradictoryEvidence)
    ensures !e.ready <==> Fails(q, e, WorkerNotReady)
    ensures e.hardPolicyPass.None? <==> Fails(q, e, HardPolicyEvidenceUnavailable)
  {
  }

  lemma OnlyPolicyMeaning(q: Request, e: Evidence)
    ensures OnlyPolicyFails(q, e) <==> Reasons(q, e) == {HardPolicyFiltered}
  {
    ReasonsMeaning(q, e);
    ReasonsMeaning(q, e.(hardPolicyPass := Some(true)));
  }

  lemma SomeReason(q: Request, reason: Reason)
    ensures reason in AllReasons(q, InWorkerOrder(q), |InWorkerOrder(q)|) <==>
              exists e :: e in q.readiness && Fails(q, e, reason)
  {
    hide Reasons, AllReasons, Sort, ById, Fails;
    var readiness := InWorkerOrder(q);
    SortKeepsItems(q.readiness, ById);
    AllReasonsAreReasons(q, readiness, |readiness|, reason);
    if reason in AllReasons(q, readiness, |readiness|) {
      var i :| 0 <= i < |readiness| && reason in Reasons(q, readiness[i]);
      InTheMultiset(readiness, q.readiness, readiness[i]);
      ReasonsMeaning(q, readiness[i]);
    }
    if e :| e in q.readiness && Fails(q, e, reason) {
      InTheMultiset(readiness, q.readiness, e);
      var i :| 0 <= i < |readiness| && readiness[i] == e;
      ReasonsMeaning(q, e);
    }
  }

  lemma SomeCandidate(q: Request)
    requires Evaluation(q).Ok?
    ensures Evaluation(q).value.outcome.CandidateFound? <==> exists e :: e in q.readiness && Eligible(q, e)
  {
    hide Reasons, ScoreComponents, Sort, ById, Provisional, AllReasons, Excluded, Candidates, Eligible;
    var readiness := InWorkerOrder(q);
    SortKeepsItems(q.readiness, ById);
    OutcomeMeaning(q);
    if i :| 0 <= i < |readiness| && Reasons(q, readiness[i]) == {} {
      InTheMultiset(readiness, q.readiness, readiness[i]);
      ReasonsMeaning(q, readiness[i]);
    }
    if e :| e in q.readiness && Eligible(q, e) {
      InTheMultiset(readiness, q.readiness, e);
      var i :| 0 <= i < |readiness| && readiness[i] == e;
      ReasonsMeaning(q, e);
    }
  }

  // ---- scores --------------------------------------------------------------

  /** `k` millionths are nearest to `x`; of two that are equally near, the even one. */
  predicate Rounds(x: real, k: int) {
    var error := k as real - x * 1000000.0;
    -0.5 <= error <= 0.5 && (error == 0.5 || error == -0.5 ==> k % 2 == 0)
  }

  lemma QuantizeRounds(x: real)
    ensures Rounds(x, Quantize(x)) && forall k :: Rounds(x, k) ==> k == Quantize(x)
  {
  }

  predicate InUnitInterval(raw: RawScore) {
    raw.Decimal? && 0.0 <= raw.value <= 1.0
  }

  /** A supplied score is rounded to millionths and weighted exactly; a missing one counts nothing. */
  predicate ComponentFits(scores: map<string, RawScore>, c: Component, code: string, weight: nat) {
    && c.code == code && c.weight == weight && c.missing == (code !in scores) && c.weighted == c.normalized * weight
    && if code in scores then InUnitInterval(scores[code]) && Rounds(scores[code].value, c.normalized)
       else c.normalized == 0
  }

  predicate ComponentsFit(scores: map<string, RawScore>, c: seq<Component>) {
    && |c| == 6
    && ComponentFits(scores, c[0], "CAPABILITY_FIT", 40)
    && ComponentFits(scores, c[1], "ORGANIZATION_POLICY_PREFERENCE", 20)
    && ComponentFits(scores, c[2], "LATENCY_OBJECTIVE", 15)
    && ComponentFits(scores, c[3], "COST_PREFERENCE", 10)
    && ComponentFits(scores, c[4], "AFFINITY_PREFERENCE", 10)
    && ComponentFits(scores, c[5], "LOAD_BALANCE", 5)
  }

  function KnownCodes(): seq<string> {
    ["CAPABILITY_FIT", "ORGANIZATION_POLICY_PREFERENCE", "LATENCY_OBJECTIVE", "COST_PREFERENCE", "AFFINITY_PREFERENCE",
     "LOAD_BALANCE"]
  }

  /** Every supplied score of a known component is a decimal from zero to one. */
  predicate Scorable(scores: map<string, RawScore>) {
    forall code :: code in KnownCodes() && code in scores ==> InUnitInterval(scores[code])
  }

  lemma NormalizedMeaning(scores: map<string, RawScore>, definition: Definition)
    ensures var normalized := Normalized(scores, definition.code);
            && (normalized.Ok? <==> (definition.code in scores ==> InUnitInterval(scores[definition.code])))
            && (normalized.Err? ==> normalized == Err(RequestInvalid))
            && (normalized.Ok? ==> ComponentFits(scores, ComponentOf(definition, normalized.value,
                                                                     definition.code !in scores),
                                                 definition.code, definition.weight))
  {
    hide Quantize;
    var normalized := Normalized(scores, definition.code);
    if definition.code in scores && scores[definition.code].Decimal? {
      QuantizeRounds(scores[definition.code].value);
    }
    if normalized.Ok? {
      QuantizeIsExact(normalized.value * definition.weight);
    }
  }

  /** The definitions seen so far, one component each. */
  predicate FitSoFar(scores: map<string, RawScore>, c: seq<Component>, n: nat)
    requires n <= |COMPONENTS|
  {
    |c| == n && forall k :: 0 <= k < n ==> ComponentFits(scores, c[k], COMPONENTS[k].code, COMPONENTS[k].weight)
  }

  lemma {:induction false} ComponentsMeaning(scores: map<string, RawScore>, n: nat)
    requires n <= |COMPONENTS|
    ensures var c := ScoreComponents(scores, n);
            && (c.Ok? <==> forall k {:trigger COMPONENTS[k]} :: 0 <= k < n && COMPONENTS[k].code in scores ==>
                  InUnitInterval(scores[COMPONENTS[k].code]))
            && (c.Err? ==> c == Err(RequestInvalid))
            && (c.Ok? ==> FitSoFar(scores, c.value, n))
  {
    hide COMPONENTS, Normalized, ComponentOf, ComponentFits, InUnitInterval;
    if n > 0 {
      ComponentsMeaning(scores, n - 1);
      NormalizedMeaning(scores, COMPONENTS[n - 1]);
    }
  }

  /** A score is the sum of six weighted components, of the codes and weights of the policy. */
  lemma ScoreMeaning(scores: map<string, RawScore>)
    ensures var c := ScoreComponents(scores, |COMPONENTS|);
            && (c.Ok? <==> Scorable(scores)) && (c.Err? ==> c == Err(RequestInvalid))
            && (c.Ok? ==>
                  && ComponentsFit(scores, c.value)
                  && TotalScore(c.value)
                     == 40 * c.value[0].normalized + 20 * c.value[1].normalized + 15 * c.value[2].normalized
                        + 10 * c.value[3].normalized + 10 * c.value[4].normalized + 5 * c.value[5].normalized)
  {
    hide ScoreComponents, TotalScore, InUnitInterval;
    ComponentsMeaning(scores, |COMPONENTS|);
    var c := ScoreComponents(scores, |COMPONENTS|);
    ScorableMeaning(scores);
    if c.Ok? {
      assert forall k :: 0 <= k < 6 ==>
          ComponentFits(scores, c.value[k], COMPONENTS[k].code, COMPONENTS[k].weight);
      TotalOfSix(c.value);
    }
  }

  lemma ScorableMeaning(scores: map<string, RawScore>)
    ensures Scorable(scores) <==>
              forall k {:trigger COMPONENTS[k]} :: 0 <= k < |COMPONENTS| && COMPONENTS[k].code in scores ==>
                InUnitInterval(scores[COMPONENTS[k].code])
  {
    hide InUnitInterval;
    if Scorable(scores) {
      forall k | 0 <= k < |COMPONENTS| && COMPONENTS[k].code in scores
        ensures InUnitInterval(scores[COMPONENTS[k].code]) {
        assert COMPONENTS[k].code in KnownCodes();
      }
    } else {
      assert COMPONENTS[0].code == "CAPABILITY_FIT" && COMPONENTS[1].code == "ORGANIZATION_POLICY_PREFERENCE";
      assert COMPONENTS[2].code == "LATENCY_OBJECTIVE" && COMPONENTS[3].code == "COST_PREFERENCE";
      assert COMPONENTS[4].code == "AFFINITY_PREFERENCE" && COMPONENTS[5].code == "LOAD_BALANCE";
    }
  }

  lemma TotalOfSix(c: seq<Component>)
    requires |c| == 6
    ensures TotalScore(c)
              == c[0].weighted + c[1].weighted + c[2].weighted + c[3].weighted + c[4].weighted + c[5].weighted
  {
    TotalStep(c, 0);
    TotalStep(c, 1);
    TotalStep(c, 2);
    TotalStep(c, 3);
    TotalStep(c, 4);
    TotalStep(c, 5);
    assert c[..6] == c;
  }

  lemma TotalStep(c: seq<Component>, n: nat)
    requires n < |c|
    ensures TotalScore(c[..n + 1]) == (if n == 0 then 0 else TotalScore(c[..n])) + c[n].weighted
  {
    assert c[..n + 1][..n] == c[..n];
  }

  /** A candidate shows an eligible worker of the request with that worker's own reference, time and component scores;
      its score adds them up with the weights of the policy. */
  lemma CandidateMeaning(q: Request, i: nat) returns (e: Evidence)
    requires Evaluation(q).Ok? && i < |Evaluation(q).value.candidates|
    ensures e in q.readiness && Eligible(q, e)
    ensures var c := Evaluation(q).value.candidates[i];
            && c.workerId == e.workerId && c.reference == e.reference && c.evaluatedAt == e.evaluatedAt
            && c.rank == i + 1 && ComponentsFit(e.scores, c.components)
            && c.score == 40 * c.components[0].normalized + 20 * c.components[1].normalized
                          + 15 * c.components[2].normalized + 10 * c.components[3].normalized
                          + 10 * c.components[4].normalized + 5 * c.components[5].normalized
  {
    hide Reasons, ScoreComponents, OutcomeOf, AllReasons, Excluded, Sort, Provisional, TotalScore, COMPONENTS,
         ComponentsFit, ById, Before, Eligible;
    var readiness := InWorkerOrder(q);
    var n, p := |readiness|, Provisional(q, readiness, |readiness|).value;
    SortKeepsItems(p, Before);
    var r := Sort(p, Before)[i];
    InTheMultiset(Sort(p, Before), p, r);
    var j :| 0 <= j < |p| && p[j] == r;
    ProvisionalIsScored(q, readiness, n, j);
    ProvisionalMembers(q, readiness, n);
    assert readiness[..n] == readiness && p[j] in p;
    e := r.evidence;
    ScoreMeaning(e.scores);
    ReasonsMeaning(q, e);
    SortKeepsItems(q.readiness, ById);
    InTheMultiset(readiness, q.readiness, e);
  }

  // ---- failures ------------------------------------------------------------

  predicate Repeated(readiness: seq<Evidence>) {
    exists i, j :: 0 <= i < j < |readiness| && readiness[i].workerId == readiness[j].workerId
  }

  predicate ContextMissing(q: Request) {
    "" in {q.organization, q.workload, q.planReference, q.requirementsReference, q.constraintsReference,
           q.historyBoundary}
  }

  lemma {:induction false} ProvisionalSucceeds(q: Request, readiness: seq<Evidence>, n: nat)
    requires n <= |readiness|
    ensures Provisional(q, readiness, n).Ok? <==>
              forall i :: 0 <= i < n && Eligible(q, readiness[i]) ==> Scorable(readiness[i].scores)
    ensures Provisional(q, readiness, n).Err? ==> Provisional(q, readiness, n) == Err(RequestInvalid)
  {
    hide Reasons, ScoreComponents, Eligible, Scorable, COMPONENTS;
    if n > 0 {
      ProvisionalSucceeds(q, readiness, n - 1);
      ReasonsMeaning(q, readiness[n - 1]);
      ScoreMeaning(readiness[n - 1].scores);
    }
  }

  /** A request fails exactly when context is missing, a worker repeats, the scoring policy is not the registered one or
      an eligible worker supplies a malformed score; nothing an ineligible worker supplies matters. */
  lemma FailureMeaning(q: Request)
    ensures Evaluation(q).Ok? <==>
              && !ContextMissing(q) && !Repeated(q.readiness)
              && q.scoringPolicyVersion == "worker-selection.scoring.v1"
              && forall e :: e in q.readiness && Eligible(q, e) ==> Scorable(e.scores)
    ensures Evaluation(q) == Err(SelectionError.VersionUnsupported) <==>
              !ContextMissing(q) && !Repeated(q.readiness) && q.scoringPolicyVersion != "worker-selection.scoring.v1"
    ensures Evaluation(q).Err? ==> Evaluation(q).error.RequestInvalid? || Evaluation(q).error.VersionUnsupported?
  {
    hide Reasons, ScoreComponents, OutcomeOf, AllReasons, Excluded, Sort, Provisional, Candidates, Eligible, Scorable;
    var readiness := InWorkerOrder(q);
    SortKeepsItems(q.readiness, ById);
    if UniqueWorkers(readiness) {
      RepetitionSurvives(readiness, q.readiness);
    }
    if UniqueWorkers(q.readiness) {
      RepetitionSurvives(q.readiness, readiness);
    }
    ProvisionalSucceeds(q, readiness, |readiness|);
    forall e ensures e in readiness <==> e in q.readiness {
      InTheMultiset(readiness, q.readiness, e);
    }
  }
}
