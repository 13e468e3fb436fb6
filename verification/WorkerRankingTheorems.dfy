/** What a worker ranking guarantees. */
module WorkerRankingTheorems {
  import opened Foundations
  import opened Ordering
  import opened WorkerRanking

  // ---- supply order --------------------------------------------------------

  predicate DistinctIds(readiness: seq<Evidence>) {
    forall a, b :: a in readiness && b in readiness && a != b ==> a.workerId != b.workerId
  }

  lemma WorkersAreOrdered(readiness: seq<Evidence>)
    requires DistinctIds(readiness)
    ensures Transitive(ById) && Asymmetric(ById) && Orders(readiness, ById)
  {
    IdsAreOrdered();
    forall a, b | a in readiness && b in readiness && a != b ensures ById(a, b) || ById(b, a) {
      TextIsTotal(a.workerId, b.workerId);
    }
  }

  lemma IdsAreOrdered()
    ensures Transitive(ById) && Asymmetric(ById)
  {
    forall a, b, c | ById(a, b) && ById(b, c) ensures ById(a, c) {
      TextIsTransitive(a.workerId, b.workerId, c.workerId);
    }
    forall a, b | ById(a, b) ensures !ById(b, a) {
      TextIsTotal(a.workerId, b.workerId);
    }
  }

  /** A repeated worker stays repeated in any arrangement. */
  lemma RepetitionSurvives(a: seq<Evidence>, b: seq<Evidence>)
    requires multiset(a) == multiset(b) && UniqueWorkers(a)
    ensures UniqueWorkers(b)
  {
    RepeatsSurvive(a, b);
    forall i, j | 0 <= i < j < |b| ensures b[i].workerId != b[j].workerId {
      InTheMultiset(a, b, b[i]);
      InTheMultiset(a, b, b[j]);
      var p :| 0 <= p < |a| && a[p] == b[i];
      var q :| 0 <= q < |a| && a[q] == b[j];
    }
  }

  /** The result, failures included, does not depend on the order in which readiness is supplied. */
  lemma SupplyOrderIsIrrelevant(request: Request, shuffled: seq<Evidence>)
    requires multiset(request.readiness) == multiset(shuffled)
    ensures Evaluation(request.(readiness := shuffled)) == Evaluation(request)
  {
    var other := request.(readiness := shuffled);
    var a, b := InWorkerOrder(request), InWorkerOrder(other);
    SortKeepsItems(request.readiness, ById);
    SortKeepsItems(shuffled, ById);
    if UniqueWorkers(a) {
      RepetitionSurvives(a, request.readiness);
      WorkersAreOrdered(request.readiness);
      SortForgetsOrder(request.readiness, shuffled, ById);
      SameReadiness(request, other, a, |a|);
    } else if UniqueWorkers(b) {
      RepetitionSurvives(b, a);
    }
  }

  lemma {:induction false} SameReadiness(request: Request, other: Request, readiness: seq<Evidence>, n: nat)
    requires other == request.(readiness := other.readiness) && n <= |readiness|
    ensures Provisional(request, readiness, n) == Provisional(other, readiness, n)
    ensures Excluded(request, readiness, n) == Excluded(other, readiness, n)
    ensures AllReasons(request, readiness, n) == AllReasons(other, readiness, n)
  {
    hide ScoreComponents;
    if n > 0 {
      SameReadiness(request, other, readiness, n - 1);
      assert Reasons(request, readiness[n - 1]) == Reasons(other, readiness[n - 1]);
    }
  }

  // ---- partition -----------------------------------------------------------

  /** The provisional list holds exactly the eligible workers, each once and in worker order. */
  lemma {:induction false} ProvisionalMembers(request: Request, readiness: seq<Evidence>, n: nat)
    requires n <= |readiness| && Provisional(request, readiness, n).Ok?
    ensures var p := Provisional(request, readiness, n).value;
            && |p| + |Excluded(request, readiness, n)| == n
            && (forall r :: r in p ==> r.evidence in readiness[..n] && Reasons(request, r.evidence) == {})
            && (forall i :: 0 <= i < n && Reasons(request, readiness[i]) == {} ==>
                  exists r :: r in p && r.evidence == readiness[i])
  {
    hide Reasons, ScoreComponents;
    if n > 0 {
      ProvisionalMembers(request, readiness, n - 1);
      var p, q, e := Provisional(request, readiness, n - 1).value, Provisional(request, readiness, n).value,
                     readiness[n - 1];
      assert readiness[..n] == readiness[..n - 1] + [e];
      forall i | 0 <= i < n && Reasons(request, readiness[i]) == {}
        ensures exists r :: r in q && r.evidence == readiness[i] {
        if i < n - 1 {
          var r :| r in p && r.evidence == readiness[i];
          assert r in q;
        } else {
          assert q[|q| - 1].evidence == e;
        }
      }
    }
  }

  lemma {:induction false} ExcludedMembers(request: Request, readiness: seq<Evidence>, n: nat)
    requires n <= |readiness|
    ensures var x := Excluded(request, readiness, n);
            && (forall k :: 0 <= k < |x| ==>
                  exists i :: 0 <= i < n &&
                    x[k] == Exclusion(readiness[i].workerId, readiness[i].reference, Reasons(request, readiness[i]))
                              && Reasons(request, readiness[i]) != {})
            && (forall i :: 0 <= i < n && Reasons(request, readiness[i]) != {} ==>
                  Exclusion(readiness[i].workerId, readiness[i].reference, Reasons(request, readiness[i])) in x)
  {
    hide Reasons;
    if n > 0 {
      ExcludedMembers(request, readiness, n - 1);
    }
  }

  predicate IsCandidate(s: Selection, worker: string) {
    exists i :: 0 <= i < |s.candidates| && s.candidates[i].workerId == worker
  }

  predicate IsExcluded(s: Selection, worker: string) {
    exists i :: 0 <= i < |s.excluded| && s.excluded[i].workerId == worker
  }

  /** A worker is ranked exactly when no reason excludes it. */
  lemma RankedExactlyEligible(request: Request, readiness: seq<Evidence>, at: nat)
    requires at < |readiness| && UniqueWorkers(readiness) && Provisional(request, readiness, |readiness|).Ok?
    ensures var order := Sort(Provisional(request, readiness, |readiness|).value, Before);
            (exists i :: 0 <= i < |order| && order[i].evidence.workerId == readiness[at].workerId) <==>
              Reasons(request, readiness[at]) == {}
  {
    hide Reasons, Sort, Before, Provisional;
    var n := |readiness|;
    var p := Provisional(request, readiness, n).value;
    var order := Sort(p, Before);
    ProvisionalMembers(request, readiness, n);
    SortKeepsItems(p, Before);
    if Reasons(request, readiness[at]) == {} {
      var r :| r in p && r.evidence == readiness[at];
      InTheMultiset(order, p, r);
      var i :| 0 <= i < |order| && order[i] == r;
    }
    if i :| 0 <= i < |order| && order[i].evidence.workerId == readiness[at].workerId {
      InTheMultiset(order, p, order[i]);
      var j :| 0 <= j < n && readiness[..n][j] == order[i].evidence;
      assert j == at;
    }
  }

  lemma ExcludedExactlyIneligible(request: Request, readiness: seq<Evidence>, at: nat)
    requires at < |readiness| && UniqueWorkers(readiness)
    ensures var x := Excluded(request, readiness, |readiness|);
            (exists k :: 0 <= k < |x| && x[k].workerId == readiness[at].workerId) <==>
              Reasons(request, readiness[at]) != {}
  {
    hide Reasons, Excluded;
    var x := Excluded(request, readiness, |readiness|);
    ExcludedMembers(request, readiness, |readiness|);
    if Reasons(request, readiness[at]) != {} {
      var exclusion := Exclusion(readiness[at].workerId, readiness[at].reference, Reasons(request, readiness[at]));
      var k :| 0 <= k < |x| && x[k] == exclusion;
    }
    if k :| 0 <= k < |x| && x[k].workerId == readiness[at].workerId {
      var j :| 0 <= j < |readiness|
               && x[k] == Exclusion(readiness[j].workerId, readiness[j].reference, Reasons(request, readiness[j]))
               && Reasons(request, readiness[j]) != {};
      assert j == at;
    }
  }

  /** Every worker is a candidate or excluded and never both; it is a candidate exactly when no reason excludes it. */
  lemma CandidatesAndExclusionsPartition(request: Request, e: Evidence)
    requires Evaluation(request).Ok? && e in request.readiness
    ensures var s := Evaluation(request).value;
            && |s.candidates| + |s.excluded| == |request.readiness|
            && (IsCandidate(s, e.workerId) <==> Reasons(request, e) == {})
            && (IsExcluded(s, e.workerId) <==> Reasons(request, e) != {})
  {
    hide Reasons, ScoreComponents, OutcomeOf, AllReasons, Provisional, Excluded, Sort, ById, Before;
    var s, readiness := Evaluation(request).value, InWorkerOrder(request);
    var n := |readiness|;
    SortKeepsItems(request.readiness, ById);
    assert |multiset(readiness)| == |multiset(request.readiness)|;
    InTheMultiset(readiness, request.readiness, e);
    var at :| 0 <= at < n && readiness[at] == e;
    ProvisionalMembers(request, readiness, n);
    var p := Provisional(request, readiness, n).value;
    SortHasSize(p);
    RankedExactlyEligible(request, readiness, at);
    ExcludedExactlyIneligible(request, readiness, at);
    var order := Sort(p, Before);
    assert forall i :: 0 <= i < |order| ==> s.candidates[i].workerId == order[i].evidence.workerId;
  }

  // ---- the outcome ---------------------------------------------------------

  lemma {:induction false} AllReasonsAreReasons(request: Request, readiness: seq<Evidence>, n: nat, reason: Reason)
    requires n <= |readiness|
    ensures reason in AllReasons(request, readiness, n) <==>
              exists i :: 0 <= i < n && reason in Reasons(request, readiness[i])
  {
    hide Reasons;
    if n > 0 {
      AllReasonsAreReasons(request, readiness, n - 1, reason);
      if reason in AllReasons(request, readiness, n - 1) {
        var i :| 0 <= i < n - 1 && reason in Reasons(request, readiness[i]);
      } else if reason in Reasons(request, readiness[n - 1]) {
        assert 0 <= n - 1 < n;
      }
    }
  }

  /** A candidate is found exactly when some worker is eligible; otherwise contradictory evidence makes the result
      indeterminate, and it is policy-filtered exactly when the hard policy is the only thing against every worker. */
  lemma OutcomeMeaning(request: Request)
    requires Evaluation(request).Ok?
    ensures var outcome, readiness := Evaluation(request).value.outcome, InWorkerOrder(request);
            && (outcome.CandidateFound? <==> exists i :: 0 <= i < |readiness| && Reasons(request, readiness[i]) == {})
            && (outcome.Indeterminate? <==>
                  && !outcome.CandidateFound?
                  && exists i :: 0 <= i < |readiness| && ContradictoryEvidence in Reasons(request, readiness[i]))
            && (outcome.PolicyFiltered? <==>
                  readiness != [] && forall i :: 0 <= i < |readiness| ==>
                    Reasons(request, readiness[i]) == {HardPolicyFiltered})
  {
    hide Reasons, ScoreComponents, Sort, ById, Provisional, AllReasons, Excluded, Candidates;
    var readiness := InWorkerOrder(request);
    var n := |readiness|;
    var all := AllReasons(request, readiness, n);
    ProvisionalMembers(request, readiness, n);
    var p := Provisional(request, readiness, n).value;
    if p != [] {
      assert p[0] in p;
      var i :| 0 <= i < n && readiness[..n][i] == p[0].evidence;
    }
    forall reason ensures reason in all <==> exists i :: 0 <= i < n && reason in Reasons(request, readiness[i]) {
      AllReasonsAreReasons(request, readiness, n, reason);
    }
    if p == [] && all == {HardPolicyFiltered} {
      OnlyReason(request, readiness, all);
    }
    if readiness != [] && forall i :: 0 <= i < n ==> Reasons(request, readiness[i]) == {HardPolicyFiltered} {
      assert HardPolicyFiltered in Reasons(request, readiness[0]);
      assert all == {HardPolicyFiltered};
    }
  }

  lemma OnlyReason(request: Request, readiness: seq<Evidence>, all: set<Reason>)
    requires all == {HardPolicyFiltered}
    requires forall reason :: reason in all <==>
               exists i :: 0 <= i < |readiness| && reason in Reasons(request, readiness[i])
    requires forall i :: 0 <= i < |readiness| ==> Reasons(request, readiness[i]) != {}
    ensures readiness != [] && forall i :: 0 <= i < |readiness| ==>
              Reasons(request, readiness[i]) == {HardPolicyFiltered}
  {
    hide Reasons;
    assert HardPolicyFiltered in all;
    forall i | 0 <= i < |readiness| ensures Reasons(request, readiness[i]) == {HardPolicyFiltered} {
      forall reason | reason in Reasons(request, readiness[i]) ensures reason == HardPolicyFiltered {
        assert reason in all;
      }
      var reason :| reason in Reasons(request, readiness[i]);
    }
  }

  // ---- the order of candidates ---------------------------------------------

  lemma RankingIsAnOrder()
    ensures Transitive(Before) && Asymmetric(Before)
  {
    forall a, b, c | Before(a, b) && Before(b, c) ensures Before(a, c) {
      BeforeIsTransitive(a, b, c);
    }
    forall a, b | Before(a, b) ensures !Before(b, a) {
      TextIsTotal(a.evidence.workerId, b.evidence.workerId);
    }
  }

  lemma BeforeIsTransitive(a: Ranked, b: Ranked, c: Ranked)
    requires Before(a, b) && Before(b, c)
    ensures Before(a, c)
  {
    if TextLess(a.evidence.workerId, b.evidence.workerId) && TextLess(b.evidence.workerId, c.evidence.workerId) {
      TextIsTransitive(a.evidence.workerId, b.evidence.workerId, c.evidence.workerId);
    }
  }

  ghost predicate DistinctWorkers(items: seq<Ranked>) {
    forall i, j :: 0 <= i < j < |items| ==> items[i].evidence.workerId != items[j].evidence.workerId
  }

  lemma {:induction false} ProvisionalIsDistinct(request: Request, readiness: seq<Evidence>, n: nat)
    requires n <= |readiness| && UniqueWorkers(readiness) && Provisional(request, readiness, n).Ok?
    ensures DistinctWorkers(Provisional(request, readiness, n).value)
  {
    hide Reasons, ScoreComponents;
    if n > 0 {
      ProvisionalIsDistinct(request, readiness, n - 1);
      ProvisionalMembers(request, readiness, n - 1);
      var p := Provisional(request, readiness, n - 1).value;
      forall i | 0 <= i < |p| ensures p[i].evidence.workerId != readiness[n - 1].workerId {
        assert p[i] in p;
        var j :| 0 <= j < n - 1 && readiness[..n - 1][j] == p[i].evidence;
      }
    }
  }

  lemma WorkersOrderRanking(items: seq<Ranked>)
    requires DistinctWorkers(items)
    ensures Orders(items, Before)
  {
    forall a, b | a in items && b in items && a != b ensures Before(a, b) || Before(b, a) {
      var i :| 0 <= i < |items| && items[i] == a;
      var j :| 0 <= j < |items| && items[j] == b;
      TextIsTotal(a.evidence.workerId, b.evidence.workerId);
    }
  }

  /** How many items come before one. */
  function Preceding(items: seq<Ranked>, x: Ranked): nat {
    if items == [] then 0 else Preceding(items[..|items| - 1], x) + if Before(items[|items| - 1], x) then 1 else 0
  }

  lemma {:induction false} PrecedingSplits(a: seq<Ranked>, b: seq<Ranked>, x: Ranked)
    ensures Preceding(a + b, x) == Preceding(a, x) + Preceding(b, x)
  {
    if b == [] {
      assert a + b == a;
    } else {
      var n := |b| - 1;
      PrecedingSplits(a, b[..n], x);
      assert (a + b)[..|a| + n] == a + b[..n];
    }
  }

  lemma {:induction false} PrecedingInserted(item: Ranked, items: seq<Ranked>, x: Ranked)
    ensures Preceding(Insert(item, items, Before), x) == Preceding(items, x) + Preceding([item], x)
  {
    if items == [] || Before(item, items[0]) {
      PrecedingSplits([item], items, x);
      assert items == [] ==> [item] + items == [item];
    } else {
      var rest := items[1..];
      PrecedingInserted(item, rest, x);
      PrecedingSplits([items[0]], rest, x);
      PrecedingSplits([items[0]], Insert(item, rest, Before), x);
      assert items == [items[0]] + rest;
    }
  }

  lemma {:induction false} PrecedingSorted(items: seq<Ranked>, x: Ranked)
    ensures Preceding(Sort(items, Before), x) == Preceding(items, x)
  {
    if items != [] {
      var n := |items| - 1;
      PrecedingSorted(items[..n], x);
      PrecedingInserted(items[n], Sort(items[..n], Before), x);
      PrecedingSplits(items[..n], [items[n]], x);
      assert items[..n] + [items[n]] == items;
    }
  }

  /** In a strict arrangement the position of an item is the number of items before it. */
  lemma {:induction false} PositionIsPreceding(order: seq<Ranked>, i: nat, n: nat)
    requires i < |order| && n <= |order| && Asymmetric(Before)
    requires forall j, k :: 0 <= j < k < |order| ==> Before(order[j], order[k])
    ensures Preceding(order[..n], order[i]) == if n < i then n else i
  {
    hide Before;
    if n > 0 {
      PositionIsPreceding(order, i, n - 1);
      assert order[..n][..n - 1] == order[..n - 1];
      if n - 1 > i {
        assert Before(order[i], order[n - 1]);
      } else if n - 1 == i {
        assert !Before(order[i], order[i]);
      }
    }
  }

  lemma SortedOrderIsStrict(items: seq<Ranked>)
    requires DistinctWorkers(items)
    ensures forall j, k :: 0 <= j < k < |Sort(items, Before)| ==> Before(Sort(items, Before)[j], Sort(items, Before)[k])
  {
    hide Before;
    RankingIsAnOrder();
    WorkersOrderRanking(items);
    SortSorts(items, Before);
    var order := Sort(items, Before);
    forall j, k | 0 <= j < k < |order| ensures Before(order[j], order[k]) {
      InTheMultiset(order, items, order[j]);
      InTheMultiset(order, items, order[k]);
      if order[j] == order[k] {
        EachOnce(items, order, j, k);
      }
    }
  }

  lemma EachOnce(items: seq<Ranked>, order: seq<Ranked>, j: nat, k: nat)
    requires DistinctWorkers(items) && multiset(order) == multiset(items) && j < k < |order|
    ensures order[j] != order[k]
  {
    RepeatsSurvive(items, order);
  }

  predicate StrictlyBefore(a: Candidate, b: Candidate) {
    || a.score > b.score
    || (a.score == b.score && (a.evaluatedAt < b.evaluatedAt
                               || (a.evaluatedAt == b.evaluatedAt && TextLess(a.workerId, b.workerId))))
  }

  /** Ranks run 1, 2, 3, ... in strict order; every score is an exact number of millionths between 0 and 100. */
  lemma RanksAreStrict(request: Request, i: nat)
    requires Evaluation(request).Ok? && i < |Evaluation(request).value.candidates|
    ensures var c := Evaluation(request).value.candidates;
            && c[i].rank == i + 1
            && 0 <= c[i].score <= 100 * MILLION
            && (forall j :: i < j < |c| ==> StrictlyBefore(c[i], c[j]))
  {
    hide Reasons, ScoreComponents, OutcomeOf, AllReasons, Excluded, Sort, Provisional, TotalScore;
    var readiness := InWorkerOrder(request);
    var p := Provisional(request, readiness, |readiness|).value;
    ProvisionalIsDistinct(request, readiness, |readiness|);
    SortedOrderIsStrict(p);
    SortKeepsItems(p, Before);
    var order := Sort(p, Before);
    InTheMultiset(order, p, order[i]);
    var at :| 0 <= at < |p| && p[at] == order[i];
    ProvisionalIsScored(request, readiness, |readiness|, at);
    var c := Evaluation(request).value.candidates;
    forall j | i < j < |c| ensures StrictlyBefore(c[i], c[j]) {
      assert Before(order[i], order[j]);
    }
  }

  /** A candidate's score is the weighted sum of the worker's own component scores, off by at most fifty millionths. */
  lemma ScoresAreNearExact(request: Request, i: nat) returns (at: nat)
    requires Evaluation(request).Ok? && i < |Evaluation(request).value.candidates|
    ensures at < |request.readiness|
    ensures request.readiness[at].workerId == Evaluation(request).value.candidates[i].workerId
    ensures Within(Evaluation(request).value.candidates[i].score,
                   ExactScore(request.readiness[at].scores, |COMPONENTS|), 100)
  {
    hide Reasons, ScoreComponents, OutcomeOf, AllReasons, Excluded, Sort, Provisional, TotalScore, COMPONENTS,
         ExactScore, Within, WeightSum;
    var readiness := InWorkerOrder(request);
    var n, p := |readiness|, Provisional(request, readiness, |readiness|).value;
    SortKeepsItems(p, Before);
    var r := Sort(p, Before)[i];
    InTheMultiset(Sort(p, Before), p, r);
    var j :| 0 <= j < |p| && p[j] == r;
    ProvisionalIsScored(request, readiness, n, j);
    ScoreIsNearExact(r.evidence.scores, |COMPONENTS|);
    WeightsAddUpToOneHundred();
    ProvisionalMembers(request, readiness, n);
    assert readiness[..n] == readiness && p[j] in p;
    SortKeepsItems(request.readiness, ById);
    InTheMultiset(readiness, request.readiness, r.evidence);
    at :| 0 <= at < |request.readiness| && request.readiness[at] == r.evidence;
  }

  lemma {:induction false} ProvisionalIsScored(request: Request, readiness: seq<Evidence>, n: nat, at: nat)
    requires n <= |readiness| && Provisional(request, readiness, n).Ok?
    requires at < |Provisional(request, readiness, n).value|
    ensures var r := Provisional(request, readiness, n).value[at];
            ScoreComponents(r.evidence.scores, |COMPONENTS|) == Ok(r.components) && r.total == TotalScore(r.components)
            && 0 <= r.total <= 100 * MILLION
  {
    hide Reasons, ScoreComponents, TotalScore, COMPONENTS;
    if n > 0 {
      if at < |Provisional(request, readiness, n - 1).value| {
        ProvisionalIsScored(request, readiness, n - 1, at);
      } else {
        ScoreIsBounded(readiness[n - 1].scores, |COMPONENTS|);
        WeightsAddUpToOneHundred();
      }
    }
  }

  // ---- monotone in the evidence --------------------------------------------

  lemma {:induction false} RaisingPrecedesNoMore(items: seq<Ranked>, j: nat, raised: Ranked, n: nat)
    requires j < |items| && n <= |items|
    requires raised.evidence.workerId == items[j].evidence.workerId
    requires raised.evidence.evaluatedAt == items[j].evidence.evaluatedAt
    requires raised.total >= items[j].total
    ensures Preceding(items[j := raised][..n], raised) <= Preceding(items[..n], items[j])
  {
    if n > 0 {
      RaisingPrecedesNoMore(items, j, raised, n - 1);
      assert items[..n][..n - 1] == items[..n - 1];
      assert items[j := raised][..n][..n - 1] == items[j := raised][..n - 1];
      TextIsTotal(raised.evidence.workerId, raised.evidence.workerId);
      if j != n - 1 && Before(items[n - 1], raised) {
        assert Before(items[n - 1], items[j]);
      }
    }
  }

  lemma {:induction false} RaisedProvisional(request: Request, readiness: seq<Evidence>, at: nat, better: Evidence,
                                             n: nat)
    returns (j: nat)
    requires at < n <= |readiness| && better == readiness[at].(scores := better.scores)
    requires Reasons(request, better) == {} && ScoreComponents(better.scores, |COMPONENTS|).Ok?
    requires Provisional(request, readiness, n).Ok?
    ensures Provisional(request, readiness[at := better], n).Ok?
    ensures var p, q := Provisional(request, readiness, n).value,
                        Provisional(request, readiness[at := better], n).value;
            j < |p| && p[j].evidence == readiness[at] && |q| == |p| && q[j].evidence == better && q == p[j := q[j]]
    decreases n
  {
    hide ScoreComponents, TotalScore, COMPONENTS;
    var other := readiness[at := better];
    assert Reasons(request, readiness[at]) == Reasons(request, better);
    hide Reasons;
    if at == n - 1 {
      SamePrefix(request, readiness, other, n - 1);
      j := |Provisional(request, readiness, n - 1).value|;
    } else {
      j := RaisedProvisional(request, readiness, at, better, n - 1);
    }
  }

  lemma {:induction false} SamePrefix(request: Request, a: seq<Evidence>, b: seq<Evidence>, n: nat)
    requires n <= |a| && n <= |b| && forall i :: 0 <= i < n ==> a[i] == b[i]
    ensures Provisional(request, a, n) == Provisional(request, b, n)
  {
    hide Reasons, ScoreComponents;
    if n > 0 {
      SamePrefix(request, a, b, n - 1);
    }
  }

  /** The rank of a worker is one more than the number of eligible workers that beat it. */
  lemma RankCountsBetterWorkers(items: seq<Ranked>, i: nat)
    requires DistinctWorkers(items) && |Sort(items, Before)| == |items| && i < |items|
    ensures CandidateAt(Sort(items, Before), i).rank == 1 + Preceding(items, Sort(items, Before)[i])
  {
    hide Before, Sort;
    RankingIsAnOrder();
    SortedOrderIsStrict(items);
    var order := Sort(items, Before);
    PositionIsPreceding(order, i, |order|);
    assert order[..|order|] == order;
    PrecedingSorted(items, order[i]);
  }

  /** Raising or supplying component scores of one candidate, with valid values, keeps the evaluation successful and the
      worker a candidate, and never worsens that worker's rank. */
  lemma BetterEvidenceNeverHurts(request: Request, at: nat, better: Evidence, i: nat) returns (i': nat)
    requires Evaluation(request).Ok? && at < |InWorkerOrder(request)|
    requires better == InWorkerOrder(request)[at].(scores := better.scores)
    requires ScoreComponents(better.scores, |COMPONENTS|).Ok?
    requires ScoresAtLeast(better.scores, InWorkerOrder(request)[at].scores)
    requires i < |Evaluation(request).value.candidates|
    requires Evaluation(request).value.candidates[i].workerId == better.workerId
    ensures var result := Evaluation(request.(readiness := InWorkerOrder(request)[at := better]));
            && result.Ok? && i' < |result.value.candidates| && result.value.candidates[i'].workerId == better.workerId
            && result.value.candidates[i'].rank <= Evaluation(request).value.candidates[i].rank
  {
    hide Reasons, ScoreComponents, OutcomeOf, AllReasons, Excluded, Sort, Provisional, TotalScore, COMPONENTS, Before;
    var other := request.(readiness := InWorkerOrder(request)[at := better]);
    ChangedWorkerStaysInOrder(request, at, better);
    var a, b := InWorkerOrder(request), InWorkerOrder(other);
    var n, p := |a|, Provisional(request, a, |a|).value;
    SameReadiness(request, other, b, n);
    ProvisionalIsDistinct(request, a, n);
    RankedWorker(request, a, p, i, better.workerId, at);
    ReasonsIgnoreScores(request, a[at], better.scores);
    var j := RaisedProvisional(request, a, at, better, n);
    var q := Provisional(other, b, n).value;
    ProvisionalIsDistinct(other, b, n);
    ProvisionalIsScored(request, a, n, j);
    ProvisionalIsScored(other, b, n, j);
    BetterScoresTotalMore(better.scores, a[at].scores, |COMPONENTS|);
    RaisingPrecedesNoMore(p, j, q[j], |p|);
    assert p[..|p|] == p && p[j := q[j]][..|p|] == q;
    PositionOfWorker(p, i, j);
    i' := SortedPosition(q, j);
    SortHasSize(p);
    SortHasSize(q);
    RankCountsBetterWorkers(p, i);
    RankCountsBetterWorkers(q, i');
  }

  lemma SortedPosition(items: seq<Ranked>, j: nat) returns (i: nat)
    requires j < |items|
    ensures i < |Sort(items, Before)| && Sort(items, Before)[i] == items[j]
  {
    hide Sort, Before;
    SortKeepsItems(items, Before);
    InTheMultiset(Sort(items, Before), items, items[j]);
    i :| 0 <= i < |Sort(items, Before)| && Sort(items, Before)[i] == items[j];
  }

  /** Changing only scores leaves the worker order alone. */
  lemma ChangedWorkerStaysInOrder(request: Request, at: nat, better: Evidence)
    requires UniqueWorkers(InWorkerOrder(request)) && at < |InWorkerOrder(request)|
    requires better.workerId == InWorkerOrder(request)[at].workerId
    ensures Sort(InWorkerOrder(request)[at := better], ById) == InWorkerOrder(request)[at := better]
  {
    hide Sort, TextLess;
    var a := InWorkerOrder(request);
    SortKeepsItems(request.readiness, ById);
    RepetitionSurvives(a, request.readiness);
    UniqueAreDistinct(request.readiness);
    WorkersAreOrdered(request.readiness);
    SortSorts(request.readiness, ById);
    SameIdsStaySorted(a, at, better);
  }

  lemma UniqueAreDistinct(readiness: seq<Evidence>)
    requires UniqueWorkers(readiness)
    ensures DistinctIds(readiness)
  {
  }

  lemma SameIdsStaySorted(a: seq<Evidence>, at: nat, better: Evidence)
    requires UniqueWorkers(a) && Sorted(a, ById) && at < |a| && better.workerId == a[at].workerId
    ensures Sort(a[at := better], ById) == a[at := better]
  {
    hide Sort, TextLess;
    var b := a[at := better];
    assert forall i :: 0 <= i < |a| ==> b[i].workerId == a[i].workerId;
    forall i, j | 0 <= i < j < |b| ensures !ById(b[j], b[i]) && b[i].workerId != b[j].workerId {
      assert !ById(a[j], a[i]) && a[i].workerId != a[j].workerId;
    }
    UniqueAreDistinct(b);
    WorkersAreOrdered(b);
    SortOfSorted(b, ById);
  }

  lemma SortHasSize(items: seq<Ranked>)
    ensures |Sort(items, Before)| == |items|
  {
    SortKeepsItems(items, Before);
    assert |multiset(Sort(items, Before))| == |multiset(items)|;
  }

  lemma ReasonsIgnoreScores(request: Request, e: Evidence, scores: map<string, RawScore>)
    ensures Reasons(request, e.(scores := scores)) == Reasons(request, e)
  {
  }

  /** A candidate's worker is eligible. */
  lemma RankedWorker(request: Request, readiness: seq<Evidence>, p: seq<Ranked>, i: nat, worker: string, at: nat)
    requires UniqueWorkers(readiness) && Provisional(request, readiness, |readiness|) == Ok(p)
    requires i < |Sort(p, Before)| && Sort(p, Before)[i].evidence.workerId == worker
    requires at < |readiness| && readiness[at].workerId == worker
    ensures Reasons(request, readiness[at]) == {}
  {
    hide Reasons, Sort, Provisional;
    SortKeepsItems(p, Before);
    InTheMultiset(Sort(p, Before), p, Sort(p, Before)[i]);
    ProvisionalMembers(request, readiness, |readiness|);
    var k :| 0 <= k < |readiness| && readiness[..|readiness|][k] == Sort(p, Before)[i].evidence;
  }

  lemma PositionOfWorker(items: seq<Ranked>, i: nat, j: nat)
    requires DistinctWorkers(items) && i < |Sort(items, Before)| && j < |items|
    requires Sort(items, Before)[i].evidence.workerId == items[j].evidence.workerId
    ensures Sort(items, Before)[i] == items[j]
  {
    SortKeepsItems(items, Before);
    InTheMultiset(Sort(items, Before), items, Sort(items, Before)[i]);
    var k :| 0 <= k < |items| && items[k] == Sort(items, Before)[i];
    assert k == j;
  }
}
