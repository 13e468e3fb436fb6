/** evaluator.py and policy.py of Worker Selection: deterministic scoring and ranking in exact millionths. */
module WorkerRanking {
  import opened Foundations
  import opened Numerics
  import opened Ordering

  // ---- scores --------------------------------------------------------------

  const MILLION := 1000000

  /** Decimal quantisation to six places, ties to even, as a count of millionths. */
  function Quantize(x: real): int {
    var y := x * MILLION as real;
    var below := y.Floor;
    var rest := y - below as real;
    if rest < 0.5 || (rest == 0.5 && below % 2 == 0) then below else below + 1
  }

  /** Quantisation is a nearest value, respects order, and leaves exact millionths alone. */
  lemma QuantizeIsNearest(x: real)
    ensures -0.5 <= Quantize(x) as real - x * MILLION as real <= 0.5
  {
  }

  lemma QuantizeIsMonotone(x: real, y: real)
    requires x <= y
    ensures Quantize(x) <= Quantize(y)
  {
    var a, b := x * MILLION as real, y * MILLION as real;
    assert a <= b && a.Floor <= b.Floor;
  }

  lemma QuantizeIsExact(k: int)
    ensures Quantize(k as real / MILLION as real) == k
  {
    assert k as real / MILLION as real * MILLION as real == k as real;
  }

  datatype RawScore = Malformed | Decimal(value: real)

  datatype SelectionError = RequestInvalid | VersionUnsupported

  function ParseScore(raw: RawScore): Result<int, SelectionError> {
    if raw.Malformed? || raw.value < 0.0 || raw.value > 1.0 then Err(RequestInvalid) else Ok(Quantize(raw.value))
  }

  datatype Definition = Definition(code: string, weight: nat)

  const COMPONENTS: seq<Definition> := [
    Definition("CAPABILITY_FIT", 40),
    Definition("ORGANIZATION_POLICY_PREFERENCE", 20),
    Definition("LATENCY_OBJECTIVE", 15),
    Definition("COST_PREFERENCE", 10),
    Definition("AFFINITY_PREFERENCE", 10),
    Definition("LOAD_BALANCE", 5)
  ]

  datatype Component = Component(code: string, normalized: int, weight: nat, weighted: int, missing: bool)

  function Normalized(scores: map<string, RawScore>, code: string): Result<int, SelectionError> {
    if code in scores then ParseScore(scores[code]) else Ok(0)
  }

  /** The component of one definition; the product is quantised again although it is exact already. */
  function ComponentOf(definition: Definition, normalized: int, missing: bool): Component {
    Component(definition.code, normalized, definition.weight,
              Quantize((normalized * definition.weight) as real / MILLION as real), missing)
  }

  function ScoreComponents(scores: map<string, RawScore>, n: nat): Result<seq<Component>, SelectionError>
    requires n <= |COMPONENTS|
  {
    if n == 0 then Ok([])
    else
      var earlier :- ScoreComponents(scores, n - 1);
      var normalized :- Normalized(scores, COMPONENTS[n - 1].code);
      Ok(earlier + [ComponentOf(COMPONENTS[n - 1], normalized, COMPONENTS[n - 1].code !in scores)])
  }

  function TotalScore(components: seq<Component>): int {
    if components == [] then 0 else TotalScore(components[..|components| - 1]) + components[|components| - 1].weighted
  }

  function WeightSum(n: nat): nat
    requires n <= |COMPONENTS|
  {
    if n == 0 then 0 else WeightSum(n - 1) + COMPONENTS[n - 1].weight
  }

  lemma {:induction false} ScoreIsBounded(scores: map<string, RawScore>, n: nat)
    requires n <= |COMPONENTS| && ScoreComponents(scores, n).Ok?
    ensures |ScoreComponents(scores, n).value| == n
    ensures 0 <= TotalScore(ScoreComponents(scores, n).value) <= MILLION * WeightSum(n)
  {
    hide Quantize, Normalized, COMPONENTS;
    if n > 0 {
      ScoreIsBounded(scores, n - 1);
      var definition := COMPONENTS[n - 1];
      var normalized := Normalized(scores, definition.code).value;
      NormalizedIsBounded(scores, definition.code);
      WeightedIsBounded(definition, normalized, definition.code !in scores);
      var earlier := ScoreComponents(scores, n - 1).value;
      var last := ComponentOf(definition, normalized, definition.code !in scores);
      hide ComponentOf;
      assert ScoreComponents(scores, n).value == earlier + [last];
      assert (earlier + [last])[..n - 1] == earlier;
      assert MILLION * WeightSum(n) == MILLION * WeightSum(n - 1) + MILLION * definition.weight;
    }
  }

  lemma WeightedIsBounded(definition: Definition, normalized: int, missing: bool)
    requires 0 <= normalized <= MILLION
    ensures ComponentOf(definition, normalized, missing).weighted == normalized * definition.weight
    ensures 0 <= normalized * definition.weight <= MILLION * definition.weight
  {
    hide Quantize;
    QuantizeIsExact(normalized * definition.weight);
  }

  lemma NormalizedIsBounded(scores: map<string, RawScore>, code: string)
    requires Normalized(scores, code).Ok?
    ensures 0 <= Normalized(scores, code).value <= MILLION
  {
    if code in scores {
      QuantizeIsMonotone(0.0, scores[code].value);
      QuantizeIsMonotone(scores[code].value, 1.0);
    }
  }

  /** What a component would contribute without any rounding. */
  function ExactValue(scores: map<string, RawScore>, code: string): real {
    if code in scores && scores[code].Decimal? then scores[code].value else 0.0
  }

  function ExactScore(scores: map<string, RawScore>, n: nat): real
    requires n <= |COMPONENTS|
  {
    if n == 0 then 0.0
    else ExactScore(scores, n - 1) + COMPONENTS[n - 1].weight as real * ExactValue(scores, COMPONENTS[n - 1].code)
  }

  predicate Within(score: int, exact: real, halves: nat) {
    -(halves as real) <= 2.0 * (score as real - MILLION as real * exact) <= halves as real
  }

  /** Rounding costs at most half a millionth for each point of weight. */
  lemma {:induction false} ScoreIsNearExact(scores: map<string, RawScore>, n: nat)
    requires n <= |COMPONENTS| && ScoreComponents(scores, n).Ok?
    ensures Within(TotalScore(ScoreComponents(scores, n).value), ExactScore(scores, n), WeightSum(n))
  {
    hide *;
    if n == 0 {
      NothingScored(scores);
    } else {
      var weight, weighted, product := ScoreStep(scores, n);
      ScoreIsNearExact(scores, n - 1);
      AddedWithin(TotalScore(ScoreComponents(scores, n - 1).value), ExactScore(scores, n - 1), WeightSum(n - 1),
                  weighted, product, weight);
    }
  }

  lemma ScoreStep(scores: map<string, RawScore>, n: nat)
    returns (weight: nat, weighted: int, product: real)
    requires 0 < n <= |COMPONENTS| && ScoreComponents(scores, n).Ok?
    ensures ScoreComponents(scores, n - 1).Ok?
    ensures TotalScore(ScoreComponents(scores, n).value) == TotalScore(ScoreComponents(scores, n - 1).value) + weighted
    ensures ExactScore(scores, n) == ExactScore(scores, n - 1) + product && WeightSum(n) == WeightSum(n - 1) + weight
    ensures Within(weighted, product, weight)
  {
    hide Quantize, Normalized, COMPONENTS, ExactValue, Within;
    var definition := COMPONENTS[n - 1];
    var normalized, value := Normalized(scores, definition.code).value, ExactValue(scores, definition.code);
    weight := definition.weight;
    weighted, product := normalized * weight, weight as real * value;
    NormalizedIsNearExact(scores, definition.code);
    NormalizedIsBounded(scores, definition.code);
    WeightedIsBounded(definition, normalized, definition.code !in scores);
    var earlier := ScoreComponents(scores, n - 1).value;
    var last := ComponentOf(definition, normalized, definition.code !in scores);
    hide ComponentOf;
    assert ScoreComponents(scores, n).value == earlier + [last];
    assert (earlier + [last])[..|earlier|] == earlier;
    WeightedWithin(normalized, value, weight, weighted, product);
  }

  lemma NothingScored(scores: map<string, RawScore>)
    ensures ScoreComponents(scores, 0).Ok?
    ensures Within(TotalScore(ScoreComponents(scores, 0).value), ExactScore(scores, 0), WeightSum(0))
  {
  }

  lemma NormalizedIsNearExact(scores: map<string, RawScore>, code: string)
    requires Normalized(scores, code).Ok?
    ensures Within(Normalized(scores, code).value, ExactValue(scores, code), 1)
  {
    if code in scores {
      QuantizeIsNearest(scores[code].value);
    }
  }

  lemma AddedWithin(score: int, exact: real, halves: nat, weighted: int, product: real, weight: nat)
    requires Within(score, exact, halves) && Within(weighted, product, weight)
    ensures Within(score + weighted, exact + product, halves + weight)
  {
  }

  lemma WeightedWithin(normalized: int, value: real, weight: nat, weighted: int, product: real)
    requires Within(normalized, value, 1) && weighted == normalized * weight && product == weight as real * value
    ensures Within(weighted, product, weight)
  {
    var w, error := weight as real, 2.0 * (normalized as real - MILLION as real * value);
    assert weighted as real == normalized as real * w;
    assert w * error == 2.0 * (weighted as real - MILLION as real * product);
    NonNegativeProduct(w, 1.0 - error, w - w * error);
    NonNegativeProduct(w, 1.0 + error, w + w * error);
  }

  lemma WeightsAddUpToOneHundred()
    ensures WeightSum(|COMPONENTS|) == 100
  {
    assert WeightSum(2) == 60;
    assert WeightSum(4) == 85;
    assert WeightSum(6) == 100;
  }

  /** A second evidence set that knows at least as much good about the worker. */
  ghost predicate ScoresAtLeast(better: map<string, RawScore>, scores: map<string, RawScore>) {
    forall code :: Normalized(scores, code).Ok? && Normalized(better, code).Ok? ==>
      Normalized(scores, code).value <= Normalized(better, code).value
  }

  lemma {:induction false} BetterScoresTotalMore(better: map<string, RawScore>, scores: map<string, RawScore>, n: nat)
    requires n <= |COMPONENTS| && ScoresAtLeast(better, scores)
    requires ScoreComponents(scores, n).Ok? && ScoreComponents(better, n).Ok?
    ensures TotalScore(ScoreComponents(scores, n).value) <= TotalScore(ScoreComponents(better, n).value)
  {
    hide Quantize, Normalized;
    if n > 0 {
      BetterScoresTotalMore(better, scores, n - 1);
      var definition := COMPONENTS[n - 1];
      var a, b := Normalized(scores, definition.code).value, Normalized(better, definition.code).value;
      QuantizeIsExact(a * definition.weight);
      QuantizeIsExact(b * definition.weight);
      assert a * definition.weight <= b * definition.weight;
    }
  }

  // ---- requests ------------------------------------------------------------

  datatype Evidence = Evidence(
    workerId: string, reference: string, canonicalHash: string, organization: string, workload: string,
    evaluatedAt: int, expiresAt: int, ready: bool, capabilities: set<string>, hardPolicyPass: Option<bool>,
    consistent: bool, scores: map<string, RawScore>, schemaVersion: string)

  datatype Request = Request(
    organization: string, workload: string, planReference: string, requirementsReference: string,
    constraintsReference: string, requiredCapabilities: set<string>, readiness: seq<Evidence>,
    evaluationBoundary: int, historyBoundary: string, scoringPolicyVersion: string)

  const READINESS_VERSION := "worker-readiness.v1"
  const SCORING_VERSION := "worker-selection.scoring.v1"

  datatype Reason =
    | ContradictoryEvidence
    | HardPolicyEvidenceUnavailable
    | HardPolicyFiltered
    | OrganizationOrWorkloadMismatch
    | ReadinessExpired
    | ReadinessVersionUnsupported
    | RequiredCapabilityMissing
    | RequiredEvidenceInvalid
    | WorkerNotReady

  function When(condition: bool, reason: Reason): set<Reason> {
    if condition then {reason} else {}
  }

  /** The reason codes, which the evaluator emits in sorted order. */
  function Reasons(request: Request, e: Evidence): set<Reason> {
    When(e.organization != request.organization || e.workload != request.workload, OrganizationOrWorkloadMismatch)
    + When(e.canonicalHash == "" || e.reference == "", RequiredEvidenceInvalid)
    + When(e.schemaVersion != READINESS_VERSION, ReadinessVersionUnsupported)
    + When(e.expiresAt < request.evaluationBoundary, ReadinessExpired)
    + When(!e.ready, WorkerNotReady)
    + When(!(request.requiredCapabilities <= e.capabilities), RequiredCapabilityMissing)
    + When(e.hardPolicyPass.None?, HardPolicyEvidenceUnavailable)
    + When(e.hardPolicyPass == Some(false), HardPolicyFiltered)
    + When(!e.consistent, ContradictoryEvidence)
  }

  datatype SelectionOutcome = CandidateFound | Indeterminate | EvidenceUnavailable | PolicyFiltered | NoEligibleWorkers

  const UNAVAILABLE: set<Reason> :=
    {OrganizationOrWorkloadMismatch, RequiredEvidenceInvalid, ReadinessVersionUnsupported, ReadinessExpired,
     RequiredCapabilityMissing}

  function OutcomeOf(found: bool, reasons: set<Reason>): SelectionOutcome {
    if found then CandidateFound
    else if ContradictoryEvidence in reasons then Indeterminate
    else if HardPolicyEvidenceUnavailable in reasons then SelectionOutcome.EvidenceUnavailable
    else if reasons == {HardPolicyFiltered} then PolicyFiltered
    else if reasons * UNAVAILABLE != {} then SelectionOutcome.EvidenceUnavailable
    else NoEligibleWorkers
  }

  datatype Ranked = Ranked(evidence: Evidence, components: seq<Component>, total: int)

  datatype Candidate = Candidate(workerId: string, reference: string, score: int, rank: nat, components: seq<Component>,
                                 evaluatedAt: int)

  datatype Exclusion = Exclusion(workerId: string, reference: string, reasons: set<Reason>)

  datatype Selection = Selection(outcome: SelectionOutcome, candidates: seq<Candidate>, excluded: seq<Exclusion>)

  predicate ById(a: Evidence, b: Evidence) {
    TextLess(a.workerId, b.workerId)
  }

  /** Score descending, readiness ascending, worker ascending. */
  predicate Before(a: Ranked, b: Ranked) {
    || a.total > b.total
    || (a.total == b.total
        && (|| a.evidence.evaluatedAt < b.evidence.evaluatedAt
            || (a.evidence.evaluatedAt == b.evidence.evaluatedAt
                && TextLess(a.evidence.workerId, b.evidence.workerId))))
  }

  predicate UniqueWorkers(readiness: seq<Evidence>) {
    forall i, j :: 0 <= i < j < |readiness| ==> readiness[i].workerId != readiness[j].workerId
  }

  predicate ContextPresent(r: Request) {
    && r.organization != "" && r.workload != "" && r.planReference != "" && r.requirementsReference != ""
    && r.constraintsReference != "" && r.historyBoundary != ""
  }

  // ---- what the evaluation is ----------------------------------------------

  /** The eligible workers among the first `n`, scored. */
  function Provisional(request: Request, readiness: seq<Evidence>, n: nat): Result<seq<Ranked>, SelectionError>
    requires n <= |readiness|
  {
    if n == 0 then Ok([])
    else
      var earlier :- Provisional(request, readiness, n - 1);
      var e := readiness[n - 1];
      if Reasons(request, e) != {} then Ok(earlier)
      else
        var components :- ScoreComponents(e.scores, |COMPONENTS|);
        Ok(earlier + [Ranked(e, components, TotalScore(components))])
  }

  function Excluded(request: Request, readiness: seq<Evidence>, n: nat): seq<Exclusion>
    requires n <= |readiness|
  {
    if n == 0 then []
    else
      var e := readiness[n - 1];
      Excluded(request, readiness, n - 1)
        + if Reasons(request, e) == {} then [] else [Exclusion(e.workerId, e.reference, Reasons(request, e))]
  }

  function AllReasons(request: Request, readiness: seq<Evidence>, n: nat): set<Reason>
    requires n <= |readiness|
  {
    if n == 0 then {} else AllReasons(request, readiness, n - 1) + Reasons(request, readiness[n - 1])
  }

  function CandidateAt(order: seq<Ranked>, i: nat): Candidate
    requires i < |order|
  {
    var r := order[i];
    Candidate(r.evidence.workerId, r.evidence.reference, r.total, i + 1, r.components, r.evidence.evaluatedAt)
  }

  function Candidates(order: seq<Ranked>): seq<Candidate> {
    seq(|order|, i requires 0 <= i < |order| => CandidateAt(order, i))
  }

  /** Requests keep readiness in worker order from construction on. */
  function InWorkerOrder(request: Request): seq<Evidence> {
    Sort(request.readiness, ById)
  }

  function Evaluation(request: Request): Result<Selection, SelectionError> {
    var readiness := InWorkerOrder(request);
    if !ContextPresent(request) || !UniqueWorkers(readiness) then Err(RequestInvalid)
    else if request.scoringPolicyVersion != SCORING_VERSION then Err(SelectionError.VersionUnsupported)
    else
      var provisional :- Provisional(request, readiness, |readiness|);
      var excluded := Excluded(request, readiness, |readiness|);
      Ok(Selection(OutcomeOf(provisional != [], AllReasons(request, readiness, |readiness|)),
                   Candidates(Sort(provisional, Before)), excluded))
  }

  method Evaluate(request: Request) returns (result: Result<Selection, SelectionError>)
    ensures result == Evaluation(request)
  {
    hide Reasons, ScoreComponents, TotalScore, OutcomeOf, Sort, ContextPresent, UniqueWorkers;
    var readiness := InWorkerOrder(request);
    if !ContextPresent(request) || !UniqueWorkers(readiness) {
      return Err(RequestInvalid);
    }
    if request.scoringPolicyVersion != SCORING_VERSION {
      return Err(SelectionError.VersionUnsupported);
    }
    var provisional: seq<Ranked>, exclusions: seq<Exclusion>, categories: set<Reason> := [], [], {};
    for n := 0 to |readiness|
      invariant Provisional(request, readiness, n) == Ok(provisional)
      invariant exclusions == Excluded(request, readiness, n)
      invariant categories == AllReasons(request, readiness, n)
    {
      var e := readiness[n];
      var reasons := Reasons(request, e);
      categories := categories + reasons;
      if reasons != {} {
        exclusions := exclusions + [Exclusion(e.workerId, e.reference, reasons)];
      } else {
        var components := ScoreComponents(e.scores, |COMPONENTS|);
        if components.Err? {
          ScoringFailureStops(request, readiness, n, |readiness|);
          return Err(components.error);
        }
        provisional := provisional + [Ranked(e, components.value, TotalScore(components.value))];
      }
    }
    var order := Sort(provisional, Before);
    var candidates: seq<Candidate> := [];
    for i := 0 to |order|
      invariant |candidates| == i && forall j :: 0 <= j < i ==> candidates[j] == CandidateAt(order, j)
    {
      candidates := candidates + [CandidateAt(order, i)];
    }
    assert candidates == Candidates(order);
    return Ok(Selection(OutcomeOf(provisional != [], categories), candidates, exclusions));
  }

  lemma {:induction false} ScoringFailureStops(request: Request, readiness: seq<Evidence>, n: nat, m: nat)
    requires n < m <= |readiness| && Provisional(request, readiness, n).Ok?
    requires Reasons(request, readiness[n]) == {} && ScoreComponents(readiness[n].scores, |COMPONENTS|).Err?
    ensures Provisional(request, readiness, m) == Err(ScoreComponents(readiness[n].scores, |COMPONENTS|).error)
    decreases m
  {
    hide Reasons, ScoreComponents;
    if m > n + 1 {
      ScoringFailureStops(request, readiness, n, m - 1);
    }
  }
}
