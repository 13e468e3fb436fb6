/** `calibration_table`: fixed-width probability bins and the expected calibration error. */
module Calibration {
  import opened Foundations
  import opened Numerics
  import opened PoissonTails

  /** The predicted probability of going over the line, and whether it happened. */
  datatype Scored = Scored(probability: real, observed: real)

  datatype Bin = Bin(lower: real, upper: real, count: nat, meanProbability: Option<real>,
                     observedFrequency: Option<real>, gap: Option<real>)

  datatype CalibrationError = UnequalOrEmpty | TooFewBins | BadRate | BadLine

  function BinIndex(probability: real, binCount: nat): int {
    var index := (probability * binCount as real).Floor;
    if index > binCount - 1 then binCount - 1 else index
  }

  /** The rows that fall into one bin, in order. */
  function Bucket(rows: seq<Scored>, index: int, binCount: nat): seq<Scored> {
    if rows == [] then []
    else
      var n := |rows| - 1;
      Bucket(rows[..n], index, binCount) + if BinIndex(rows[n].probability, binCount) == index then [rows[n]] else []
  }

  function Probability(r: Scored): real {
    r.probability
  }

  function Observed(r: Scored): real {
    r.observed
  }

  function One(r: Scored): real {
    1.0
  }

  function BinOf(bucket: seq<Scored>, index: nat, binCount: nat): Bin
    requires binCount > 0
  {
    var lower, upper := index as real / binCount as real, (index + 1) as real / binCount as real;
    if bucket == [] then Bin(lower, upper, 0, None, None, None)
    else
      var mean, observed := Total(bucket, Probability) / |bucket| as real, Total(bucket, Observed) / |bucket| as real;
      Bin(lower, upper, |bucket|, Some(mean), Some(observed), Some(Abs(mean - observed)))
  }

  function Contribution(bin: Bin): real {
    if bin.gap.Some? then bin.count as real * bin.gap.value else 0.0
  }

  /** Each bin's gap, weighted by its rows. */
  function WeightedGap(rows: seq<Scored>, k: nat, binCount: nat): real
    requires binCount > 0
  {
    if k == 0 then 0.0
    else
      WeightedGap(rows, k - 1, binCount) + Contribution(BinOf(Bucket(rows, k - 1, binCount), k - 1, binCount))
  }

  function ScoredRows(exp: real -> real, actuals: seq<real>, predictions: seq<real>, line: real): seq<Scored>
    requires |actuals| == |predictions|
  {
    seq(|actuals|, i requires 0 <= i < |actuals| =>
      Scored(1.0 - Cdf(exp, line.Floor, predictions[i]), if actuals[i] > line then 1.0 else 0.0))
  }

  predicate AllRates(predictions: seq<real>) {
    forall i :: 0 <= i < |predictions| ==> predictions[i] >= 0.0
  }

  /** Fill the buckets row by row. */
  method FillBuckets(exp: real -> real, actuals: seq<real>, predictions: seq<real>, line: real, binCount: nat)
    returns (result: Result<seq<seq<Scored>>, CalibrationError>)
    requires Exponential(exp) && |actuals| == |predictions| > 0 && binCount >= 2
    ensures result.Ok? <==> line >= 0.0 && AllRates(predictions)
    ensures result.Err? ==> result.error == if line < 0.0 && predictions[0] >= 0.0 then BadLine else BadRate
    ensures result.Ok? ==>
              && |result.value| == binCount
              && forall b :: 0 <= b < binCount ==>
                   result.value[b] == Bucket(ScoredRows(exp, actuals, predictions, line), b, binCount)
  {
    hide Cdf;
    var bucketed: seq<seq<Scored>> := seq(binCount, _ => []);
    ghost var rows := ScoredRows(exp, actuals, predictions, line);
    for i := 0 to |actuals|
      invariant |bucketed| == binCount
      invariant forall b :: 0 <= b < binCount ==> bucketed[b] == Bucket(rows[..i], b, binCount)
      invariant i > 0 ==> line >= 0.0
      invariant AllRates(predictions[..i])
    {
      var over := OverProbability(exp, predictions[i], line);
      if over.Err? {
        return Err(if over.error.InvalidRate? then BadRate else BadLine);
      }
      var row := Scored(over.value, if actuals[i] > line then 1.0 else 0.0);
      assert row == rows[i];
      var index := BinIndex(over.value, binCount);
      IndexInRange(over.value, binCount);
      assert rows[..i + 1][..i] == rows[..i];
      bucketed := bucketed[index := bucketed[index] + [row]];
    }
    assert rows[..|actuals|] == rows && predictions[..|actuals|] == predictions;
    return Ok(bucketed);
  }

  lemma IndexInRange(probability: real, binCount: nat)
    requires 0.0 <= probability <= 1.0 && binCount > 0
    ensures 0 <= BinIndex(probability, binCount) < binCount
  {
    assert probability * binCount as real >= 0.0;
  }

  /** Summarise the buckets and accumulate the weighted gap. */
  method SummarizeBuckets(bucketed: seq<seq<Scored>>, ghost rows: seq<Scored>, binCount: nat)
    returns (bins: seq<Bin>, weightedGap: real)
    requires binCount > 0 && |bucketed| == binCount
    requires forall b :: 0 <= b < binCount ==> bucketed[b] == Bucket(rows, b, binCount)
    ensures |bins| == binCount
    ensures forall b :: 0 <= b < binCount ==> bins[b] == BinOf(Bucket(rows, b, binCount), b, binCount)
    ensures weightedGap == WeightedGap(rows, binCount, binCount)
  {
    hide Bucket, BinOf, Contribution;
    bins, weightedGap := [], 0.0;
    for index := 0 to binCount
      invariant |bins| == index
      invariant forall b :: 0 <= b < index ==> bins[b] == BinOf(Bucket(rows, b, binCount), b, binCount)
      invariant weightedGap == WeightedGap(rows, index, binCount)
    {
      var bin := BinOf(bucketed[index], index, binCount);
      weightedGap := weightedGap + Contribution(bin);
      bins := bins + [bin];
    }
  }

  method CalibrationTable(exp: real -> real, actuals: seq<real>, predictions: seq<real>, line: real, binCount: nat)
    returns (result: Result<(seq<Bin>, real), CalibrationError>)
    requires Exponential(exp)
    ensures result.Err? <==>
              |actuals| != |predictions| || actuals == [] || binCount < 2 || line < 0.0 || !AllRates(predictions)
    ensures result.Err? ==>
              result.error == if |actuals| != |predictions| || actuals == [] then UnequalOrEmpty
                              else if binCount < 2 then TooFewBins
                              else if line < 0.0 && predictions[0] >= 0.0 then BadLine else BadRate
    ensures result.Ok? ==>
              var rows := ScoredRows(exp, actuals, predictions, line);
              && |result.value.0| == binCount
              && (forall b :: 0 <= b < binCount ==> result.value.0[b] == BinOf(Bucket(rows, b, binCount), b, binCount))
              && result.value.1 == WeightedGap(rows, binCount, binCount) / |actuals| as real
  {
    hide Bucket, BinOf, ScoredRows, WeightedGap, AllRates;
    if |actuals| != |predictions| || actuals == [] {
      return Err(UnequalOrEmpty);
    }
    if binCount < 2 {
      return Err(TooFewBins);
    }
    var filled := FillBuckets(exp, actuals, predictions, line, binCount);
    if filled.Err? {
      return Err(filled.error);
    }
    var bins, weightedGap := SummarizeBuckets(filled.value, ScoredRows(exp, actuals, predictions, line), binCount);
    return Ok((bins, weightedGap / |actuals| as real));
  }

  // ---- conservation --------------------------------------------------------

  /** A total over the first `k` buckets. */
  function BucketTotals(rows: seq<Scored>, f: Scored -> real, k: nat, binCount: nat): real {
    if k == 0 then 0.0 else BucketTotals(rows, f, k - 1, binCount) + Total(Bucket(rows, k - 1, binCount), f)
  }

  lemma OneMoreInBucket(rows: seq<Scored>, f: Scored -> real, b: int, binCount: nat)
    requires rows != []
    ensures var n := |rows| - 1;
            Total(Bucket(rows, b, binCount), f)
              == Total(Bucket(rows[..n], b, binCount), f)
               + if BinIndex(rows[n].probability, binCount) == b then f(rows[n]) else 0.0
  {
    hide BinIndex;
    var n := |rows| - 1;
    var earlier := Bucket(rows[..n], b, binCount);
    if BinIndex(rows[n].probability, binCount) == b {
      assert (earlier + [rows[n]])[..|earlier|] == earlier;
    } else {
      assert earlier + [] == earlier;
    }
  }

  lemma {:induction false} OneMoreRow(rows: seq<Scored>, f: Scored -> real, k: nat, binCount: nat)
    requires rows != []
    ensures var n := |rows| - 1; var index := BinIndex(rows[n].probability, binCount);
            BucketTotals(rows, f, k, binCount)
              == BucketTotals(rows[..n], f, k, binCount) + if 0 <= index < k then f(rows[n]) else 0.0
  {
    hide BinIndex, Bucket, Total;
    if k > 0 {
      OneMoreRow(rows, f, k - 1, binCount);
      OneMoreInBucket(rows, f, k - 1, binCount);
    }
  }

  ghost predicate Probabilities(rows: seq<Scored>) {
    forall i :: 0 <= i < |rows| ==> 0.0 <= rows[i].probability <= 1.0 && 0.0 <= rows[i].observed <= 1.0
  }

  /** Every row is in exactly one bin, so totals over the bins are totals over the rows. */
  lemma {:induction false} BinsConserve(rows: seq<Scored>, f: Scored -> real, binCount: nat)
    requires Probabilities(rows) && binCount > 0
    ensures BucketTotals(rows, f, binCount, binCount) == Total(rows, f)
  {
    if rows == [] {
      NothingInBins(f, binCount, binCount);
    } else {
      var n := |rows| - 1;
      BinsConserve(rows[..n], f, binCount);
      OneMoreRow(rows, f, binCount, binCount);
      IndexInRange(rows[n].probability, binCount);
    }
  }

  lemma {:induction false} NothingInBins(f: Scored -> real, k: nat, binCount: nat)
    ensures BucketTotals([], f, k, binCount) == 0.0
  {
    if k > 0 {
      NothingInBins(f, k - 1, binCount);
    }
  }

  lemma {:induction false} TotalCounts(rows: seq<Scored>)
    ensures Total(rows, One) == |rows| as real
  {
    if rows != [] {
      TotalCounts(rows[..|rows| - 1]);
    }
  }

  function Counts(rows: seq<Scored>, k: nat, binCount: nat): nat {
    if k == 0 then 0 else Counts(rows, k - 1, binCount) + |Bucket(rows, k - 1, binCount)|
  }

  lemma {:induction false} CountsAreTotals(rows: seq<Scored>, k: nat, binCount: nat)
    ensures Counts(rows, k, binCount) as real == BucketTotals(rows, One, k, binCount)
  {
    if k > 0 {
      CountsAreTotals(rows, k - 1, binCount);
      TotalCounts(Bucket(rows, k - 1, binCount));
    }
  }

  /** The bin counts add up to the number of rows. */
  lemma CountsAddUp(rows: seq<Scored>, binCount: nat)
    requires Probabilities(rows) && binCount > 0
    ensures Counts(rows, binCount, binCount) == |rows|
  {
    CountsAreTotals(rows, binCount, binCount);
    BinsConserve(rows, One, binCount);
    TotalCounts(rows);
  }

  // ---- bins hold what their bounds say -------------------------------------

  lemma {:induction false} BucketMembers(rows: seq<Scored>, index: int, binCount: nat, i: nat)
    requires i < |Bucket(rows, index, binCount)|
    ensures Bucket(rows, index, binCount)[i] in rows
    ensures BinIndex(Bucket(rows, index, binCount)[i].probability, binCount) == index
  {
    hide BinIndex;
    var n := |rows| - 1;
    if i < |Bucket(rows[..n], index, binCount)| {
      BucketMembers(rows[..n], index, binCount, i);
    }
  }

  lemma AtMostWhole(p: real, n: real, scaled: real)
    requires 0.0 <= p <= 1.0 && n > 0.0 && scaled == p * n
    ensures 0.0 <= scaled <= n
  {
    var rest := (1.0 - p) * n;
    assert rest >= 0.0 && rest == n - scaled;
  }

  lemma IndexBoundsProbability(probability: real, binCount: nat)
    requires 0.0 <= probability <= 1.0 && binCount > 0
    ensures var b := BinIndex(probability, binCount);
            b as real / binCount as real <= probability <= (b + 1) as real / binCount as real
  {
    var n, b := binCount as real, BinIndex(probability, binCount);
    var scaled := probability * n;
    AtMostWhole(probability, n, scaled);
    assert b as real <= scaled <= (b + 1) as real;
    DividedOrder(b as real, scaled, n);
    DividedOrder(scaled, (b + 1) as real, n);
    assert scaled / n == probability;
  }

  lemma CancelDivision(n: real, x: real)
    requires n > 0.0
    ensures n * x / n == x
  {
  }

  /** Each bin's rows and its mean probability lie within the bin's bounds; the observed frequency is a frequency. */
  lemma BinsRespectBounds(rows: seq<Scored>, b: nat, binCount: nat)
    requires Probabilities(rows) && b < binCount && Bucket(rows, b, binCount) != []
    ensures var bin, bucket := BinOf(Bucket(rows, b, binCount), b, binCount), Bucket(rows, b, binCount);
            && (forall i :: 0 <= i < |bucket| ==> bin.lower <= bucket[i].probability <= bin.upper)
            && bin.meanProbability.Some? && bin.lower <= bin.meanProbability.value <= bin.upper
            && bin.observedFrequency.Some? && 0.0 <= bin.observedFrequency.value <= 1.0
  {
    var bucket := Bucket(rows, b, binCount);
    var lower, upper := b as real / binCount as real, (b + 1) as real / binCount as real;
    forall i | 0 <= i < |bucket|
      ensures lower <= Probability(bucket[i]) <= upper && 0.0 <= Observed(bucket[i]) <= 1.0
    {
      BucketMembers(rows, b, binCount, i);
      IndexBoundsProbability(bucket[i].probability, binCount);
    }
    assert forall i :: 0 <= i < |bucket| ==> lower <= bucket[i].probability == Probability(bucket[i]) <= upper;
    MeanIsBounded(bucket, Probability, lower, upper);
    MeanIsBounded(bucket, Observed, 0.0, 1.0);
  }

  // ---- the expected calibration error --------------------------------------

  function NetGap(rows: seq<Scored>): real {
    Total(rows, Probability) - Total(rows, Observed)
  }

  /** Rows times gap is the absolute difference of the bin's totals. */
  lemma BinGap(bucket: seq<Scored>, index: nat, binCount: nat)
    requires bucket != [] && binCount > 0
    ensures var bin := BinOf(bucket, index, binCount); Contribution(bin) == Abs(NetGap(bucket))
  {
    var n, p, o := |bucket| as real, Total(bucket, Probability), Total(bucket, Observed);
    assert n * (p / n) == p && n * (o / n) == o;
    ScaleDifference(n, p / n, o / n, p, o);
  }

  lemma ScaleDifference(n: real, a: real, b: real, p: real, o: real)
    requires n > 0.0 && n * a == p && n * b == o
    ensures n * Abs(a - b) == Abs(p - o)
  {
    assert n * (a - b) == p - o;
    assert n * (b - a) == o - p;
    if a < b {
      assert n * (b - a) > 0.0;
    }
  }

  lemma {:induction false} NetGapIsBounded(bucket: seq<Scored>)
    requires Probabilities(bucket)
    ensures Abs(NetGap(bucket)) <= |bucket| as real
  {
    TotalIsBounded(bucket, Probability, 0.0, 1.0);
    TotalIsBounded(bucket, Observed, 0.0, 1.0);
  }

  lemma {:induction false} WeightedGapIsBounded(rows: seq<Scored>, k: nat, binCount: nat)
    requires Probabilities(rows) && k <= binCount && binCount > 0
    ensures Abs(BucketTotals(rows, Probability, k, binCount) - BucketTotals(rows, Observed, k, binCount))
              <= WeightedGap(rows, k, binCount) <= Counts(rows, k, binCount) as real
  {
    hide BinOf, Bucket, Contribution, Total, Probabilities;
    if k > 0 {
      WeightedGapIsBounded(rows, k - 1, binCount);
      BinContribution(rows, k - 1, binCount);
    }
  }

  lemma BinContribution(rows: seq<Scored>, b: nat, binCount: nat)
    requires Probabilities(rows) && b < binCount
    ensures var bucket := Bucket(rows, b, binCount);
            && Contribution(BinOf(bucket, b, binCount)) == Abs(NetGap(bucket))
            && Abs(NetGap(bucket)) <= |bucket| as real
  {
    BucketHoldsProbabilities(rows, b, binCount);
    hide Bucket, Probabilities;
    var bucket := Bucket(rows, b, binCount);
    NetGapIsBounded(bucket);
    if bucket == [] {
      assert NetGap(bucket) == 0.0;
    } else {
      BinGap(bucket, b, binCount);
    }
  }

  lemma BucketHoldsProbabilities(rows: seq<Scored>, b: nat, binCount: nat)
    requires Probabilities(rows)
    ensures Probabilities(Bucket(rows, b, binCount))
  {
    hide Bucket;
    var bucket := Bucket(rows, b, binCount);
    forall i | 0 <= i < |bucket| ensures 0.0 <= bucket[i].probability <= 1.0 && 0.0 <= bucket[i].observed <= 1.0 {
      BucketMembers(rows, b, binCount, i);
    }
  }

  /** The calibration error is at most one and at least the overall difference between prediction and outcome. */
  lemma CalibrationErrorIsSound(rows: seq<Scored>, binCount: nat)
    requires Probabilities(rows) && rows != [] && binCount > 0
    ensures var error := WeightedGap(rows, binCount, binCount) / |rows| as real;
            && 0.0 <= error <= 1.0
            && error >= Abs(Total(rows, Probability) / |rows| as real - Total(rows, Observed) / |rows| as real)
  {
    hide WeightedGap, Counts, BucketTotals, Total, Probabilities;
    WeightedGapIsBounded(rows, binCount, binCount);
    CountsAddUp(rows, binCount);
    BinsConserve(rows, Probability, binCount);
    BinsConserve(rows, Observed, binCount);
    ErrorBounds(|rows| as real, WeightedGap(rows, binCount, binCount), Total(rows, Probability), Total(rows, Observed));
  }

  lemma ErrorBounds(n: real, gap: real, p: real, o: real)
    requires n > 0.0 && Abs(p - o) <= gap <= n
    ensures 0.0 <= gap / n <= 1.0 && gap / n >= Abs(p / n - o / n)
  {
    DividedOrder(0.0, gap, n);
    DividedOrder(gap, n, n);
    DividedOrder(p - o, gap, n);
    DividedOrder(o - p, gap, n);
    CancelDivision(n, 1.0);
    DivideDifference(p, o, n);
    DivideDifference(o, p, n);
  }

  lemma DivideDifference(a: real, b: real, n: real)
    requires n > 0.0
    ensures (a - b) / n == a / n - b / n
  {
    var x, y := a / n, b / n;
    assert n * x == a && n * y == b;
    assert n * (x - y) == a - b;
    CancelDivision(n, x - y);
  }

  /** What the table works on are probabilities. */
  lemma ScoredRowsAreProbabilities(exp: real -> real, actuals: seq<real>, predictions: seq<real>, line: real)
    requires Exponential(exp) && |actuals| == |predictions| && AllRates(predictions)
    ensures Probabilities(ScoredRows(exp, actuals, predictions, line))
  {
    hide Cdf, Exponential;
    forall i | 0 <= i < |predictions| ensures 0.0 <= Cdf(exp, line.Floor, predictions[i]) <= 1.0 {
      CdfIsProper(exp, line.Floor, predictions[i]);
    }
  }
}
