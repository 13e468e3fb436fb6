/** What calibration tables, residual summaries and bootstrap intervals say, in counts and sums over the rows. */
module MetricMeaning {
  import opened Foundations
  import opened Numerics
  import opened Ordering
  import opened PoissonTails
  import Cal = Calibration
  import opened Quantiles

  // ---- calibration bins ----------------------------------------------------

  /** The probability that the row goes over the line. */
  function Over(exp: real -> real, rate: real, line: real): real {
    1.0 - Cdf(exp, line.Floor, rate)
  }

  /** Bins are half-open, the last one closed. */
  predicate InBin(probability: real, b: nat, binCount: nat) {
    && b as real <= probability * binCount as real
    && (probability * binCount as real < b as real + 1.0 || b + 1 == binCount)
  }

  /** The rows of one bin among the first `n`, those of them over the line, and their probabilities added up. */
  function RowsIn(exp: real -> real, predictions: seq<real>, line: real, b: nat, binCount: nat, n: nat): nat
    requires n <= |predictions|
  {
    if n == 0 then 0
    else
      RowsIn(exp, predictions, line, b, binCount, n - 1)
        + if InBin(Over(exp, predictions[n - 1], line), b, binCount) then 1 else 0
  }

  function OverIn(exp: real -> real, actuals: seq<real>, predictions: seq<real>, line: real, b: nat, binCount: nat,
                  n: nat): nat
    requires n <= |predictions| && n <= |actuals|
  {
    if n == 0 then 0
    else
      OverIn(exp, actuals, predictions, line, b, binCount, n - 1)
        + if InBin(Over(exp, predictions[n - 1], line), b, binCount) && actuals[n - 1] > line then 1 else 0
  }

  function ChancesIn(exp: real -> real, predictions: seq<real>, line: real, b: nat, binCount: nat, n: nat): real
    requires n <= |predictions|
  {
    if n == 0 then 0.0
    else
      var chance := Over(exp, predictions[n - 1], line);
      ChancesIn(exp, predictions, line, b, binCount, n - 1) + if InBin(chance, b, binCount) then chance else 0.0
  }

  /** A bin of the table: its bounds, and the means of its rows as their totals. */
  predicate BinFits(bin: Cal.Bin, b: nat, binCount: nat, rows: nat, over: nat, chances: real) {
    && bin.lower * binCount as real == b as real && bin.upper * binCount as real == b as real + 1.0
    && bin.count == rows
    && if rows == 0 then bin.meanProbability.None? && bin.observedFrequency.None? && bin.gap.None?
       else
         && bin.meanProbability.Some? && bin.meanProbability.value * rows as real == chances
         && bin.observedFrequency.Some? && bin.observedFrequency.value * rows as real == over as real
         && bin.gap == Some(Abs(bin.meanProbability.value - bin.observedFrequency.value))
  }

  lemma BinIndexMeaning(probability: real, b: nat, binCount: nat)
    requires 0.0 <= probability <= 1.0 && b < binCount
    ensures Cal.BinIndex(probability, binCount) == b <==> InBin(probability, b, binCount)
  {
    var scaled := probability * binCount as real;
    Cal.AtMostWhole(probability, binCount as real, scaled);
  }

  lemma OverIsProbability(exp: real -> real, rate: real, line: real)
    requires Exponential(exp) && rate >= 0.0
    ensures 0.0 <= Over(exp, rate, line) <= 1.0
  {
    hide Cdf, Exponential;
    CdfIsProper(exp, line.Floor, rate);
  }

  /** The bucket of a bin holds its rows, so its totals are the sums over them. */
  lemma {:induction false} BucketSums(exp: real -> real, actuals: seq<real>, predictions: seq<real>, line: real, b: nat,
                                      binCount: nat, n: nat)
    requires Exponential(exp) && |actuals| == |predictions| && Cal.AllRates(predictions)
    requires b < binCount && n <= |predictions|
    ensures var bucket := Cal.Bucket(Cal.ScoredRows(exp, actuals, predictions, line)[..n], b, binCount);
            && |bucket| == RowsIn(exp, predictions, line, b, binCount, n)
            && Total(bucket, Cal.Observed) == OverIn(exp, actuals, predictions, line, b, binCount, n) as real
            && Total(bucket, Cal.Probability) == ChancesIn(exp, predictions, line, b, binCount, n)
  {
    hide Cdf, Exponential, InBin, Cal.BinIndex;
    if n > 0 {
      var rows := Cal.ScoredRows(exp, actuals, predictions, line)[..n];
      BucketSums(exp, actuals, predictions, line, b, binCount, n - 1);
      assert rows[..n - 1] == Cal.ScoredRows(exp, actuals, predictions, line)[..n - 1];
      assert rows[n - 1].probability == Over(exp, predictions[n - 1], line);
      OverIsProbability(exp, predictions[n - 1], line);
      BinIndexMeaning(rows[n - 1].probability, b, binCount);
      Cal.OneMoreInBucket(rows, Cal.Observed, b, binCount);
      Cal.OneMoreInBucket(rows, Cal.Probability, b, binCount);
    }
  }

  lemma QuotientTimes(total: real, n: real)
    requires n != 0.0
    ensures total / n * n == total
  {
  }

  /** Each bin of a table in terms of the inputs: the observed frequency times the count is the number of its rows whose
      actual is above the line, the mean probability times the count the sum of their probabilities. */
  lemma BinMeaning(exp: real -> real, actuals: seq<real>, predictions: seq<real>, line: real, b: nat, binCount: nat)
    requires Exponential(exp) && |actuals| == |predictions| && Cal.AllRates(predictions) && b < binCount
    ensures var n := |predictions|;
            BinFits(Cal.BinOf(Cal.Bucket(Cal.ScoredRows(exp, actuals, predictions, line), b, binCount), b, binCount),
                    b, binCount, RowsIn(exp, predictions, line, b, binCount, n),
                    OverIn(exp, actuals, predictions, line, b, binCount, n),
                    ChancesIn(exp, predictions, line, b, binCount, n))
  {
    hide Exponential, Cal.Bucket, RowsIn, OverIn, ChancesIn, Cal.ScoredRows, Cal.AllRates, Total;
    var rows := Cal.ScoredRows(exp, actuals, predictions, line);
    var n := |predictions|;
    BucketSums(exp, actuals, predictions, line, b, binCount, n);
    assert rows[..n] == rows by { ScoredRowsAreSized(exp, actuals, predictions, line); }
    var bucket := Cal.Bucket(rows, b, binCount);
    QuotientTimes(b as real, binCount as real);
    QuotientTimes((b + 1) as real, binCount as real);
    if |bucket| > 0 {
      QuotientTimes(Total(bucket, Cal.Probability), |bucket| as real);
      QuotientTimes(Total(bucket, Cal.Observed), |bucket| as real);
    }
  }

  lemma ScoredRowsAreSized(exp: real -> real, actuals: seq<real>, predictions: seq<real>, line: real)
    requires |actuals| == |predictions|
    ensures |Cal.ScoredRows(exp, actuals, predictions, line)| == |predictions|
  {
  }

  /** The distance between expected and observed counts over the line, bin by bin. */
  function Misses(exp: real -> real, actuals: seq<real>, predictions: seq<real>, line: real, k: nat, binCount: nat)
    : real
    requires |actuals| == |predictions|
  {
    if k == 0 then 0.0
    else
      var n := |predictions|;
      Misses(exp, actuals, predictions, line, k - 1, binCount)
        + Abs(ChancesIn(exp, predictions, line, k - 1, binCount, n)
              - OverIn(exp, actuals, predictions, line, k - 1, binCount, n) as real)
  }

  /** The weighted error adds up these distances. */
  lemma {:induction false} ErrorMeaning(exp: real -> real, actuals: seq<real>, predictions: seq<real>, line: real,
                                        k: nat, binCount: nat)
    requires Exponential(exp) && |actuals| == |predictions| && Cal.AllRates(predictions) && k <= binCount
    requires binCount > 0
    ensures Cal.WeightedGap(Cal.ScoredRows(exp, actuals, predictions, line), k, binCount)
              == Misses(exp, actuals, predictions, line, k, binCount)
  {
    hide Exponential, Cal.Bucket, RowsIn, OverIn, ChancesIn, Cal.ScoredRows, Cal.AllRates, Cal.BinOf, Cal.Contribution,
         BinFits;
    if k > 0 {
      ErrorMeaning(exp, actuals, predictions, line, k - 1, binCount);
      BinMiss(exp, actuals, predictions, line, k - 1, binCount);
    }
  }

  lemma BinMiss(exp: real -> real, actuals: seq<real>, predictions: seq<real>, line: real, b: nat, binCount: nat)
    requires Exponential(exp) && |actuals| == |predictions| && Cal.AllRates(predictions) && b < binCount
    ensures var n := |predictions|;
            Cal.Contribution(Cal.BinOf(Cal.Bucket(Cal.ScoredRows(exp, actuals, predictions, line), b, binCount), b,
                                       binCount))
              == Abs(ChancesIn(exp, predictions, line, b, binCount, n)
                     - OverIn(exp, actuals, predictions, line, b, binCount, n) as real)
  {
    hide Exponential, RowsIn, OverIn, ChancesIn, Cal.ScoredRows, Cal.AllRates, Cal.BinOf, Cal.Contribution;
    var rows, n := Cal.ScoredRows(exp, actuals, predictions, line), |predictions|;
    BucketSums(exp, actuals, predictions, line, b, binCount, n);
    assert rows[..n] == rows by { ScoredRowsAreSized(exp, actuals, predictions, line); }
    var bucket := Cal.Bucket(rows, b, binCount);
    if bucket == [] {
      assert Total(bucket, Cal.Observed) == 0.0 && Total(bucket, Cal.Probability) == 0.0;
      NoContribution(bucket, b, binCount);
    } else {
      Cal.BinGap(bucket, b, binCount);
    }
  }

  lemma NoContribution(bucket: seq<Cal.Scored>, b: nat, binCount: nat)
    requires bucket == [] && b < binCount
    ensures Cal.Contribution(Cal.BinOf(bucket, b, binCount)) == 0.0
  {
  }

  // ---- quantiles -----------------------------------------------------------

  /** The value at position `x` of an ascending list: the items at whole positions, straight lines between them. */
  ghost predicate LiesAt(s: seq<real>, x: real, value: real) {
    exists k: nat, w: real {:trigger OnSegment(s, k, w, value)} :: k as real + w == x && OnSegment(s, k, w, value)
  }

  predicate OnSegment(s: seq<real>, k: nat, w: real, value: real) {
    && 0.0 <= w < 1.0 && k < |s|
    && if w == 0.0 then value == s[k] else k + 1 < |s| && value - s[k] == w * (s[k + 1] - s[k])
  }

  lemma InterpolateMeaning(s: seq<real>, x: real)
    requires 0.0 <= x <= (|s| - 1) as real
    ensures LiesAt(s, x, Interpolate(s, x))
  {
    var k := x.Floor;
    var w := x - k as real;
    if w != 0.0 {
      Weighted(s[k], s[k + 1], w);
    }
    assert OnSegment(s, k, w, Interpolate(s, x));
  }

  lemma Weighted(a: real, b: real, w: real)
    ensures a * (1.0 - w) + b * w - a == w * (b - a)
  {
  }

  /** The position that lies a given share of the way from the first item to the last. */
  function Along(share: real, count: nat): real {
    share * (count - 1) as real
  }

  /** A quantile is the value of the sorted data at its share of the last position; it fails exactly without data or
      outside the unit interval. */
  lemma QuantileMeaning(values: seq<real>, p: real)
    ensures Quantile(values, p) == Err(NoValues) <==> values == []
    ensures Quantile(values, p) == Err(ProbabilityOutOfRange) <==> values != [] && (p < 0.0 || 1.0 < p)
    ensures Quantile(values, p).Ok? <==> values != [] && 0.0 <= p <= 1.0
    ensures Quantile(values, p).Ok? ==>
              LiesAt(Ascending(values), Along(p, |values|), Quantile(values, p).value)
  {
    hide Interpolate, LiesAt, Ascending, Along;
    if Quantile(values, p).Ok? {
      AscendingSorts(values);
      PositionInRange(|values|, p);
      InterpolateMeaning(Ascending(values), Position(|values|, p));
      PositionIsShare(|values|, p);
    }
  }

  // ---- how much of the data lies where -------------------------------------

  function CountWhere(values: seq<real>, test: real -> bool): nat {
    if values == [] then 0
    else CountWhere(values[..|values| - 1], test) + if test(values[|values| - 1]) then 1 else 0
  }

  lemma {:induction false} CountSplits(a: seq<real>, b: seq<real>, test: real -> bool)
    ensures CountWhere(a + b, test) == CountWhere(a, test) + CountWhere(b, test)
  {
    if b == [] {
      assert a + b == a;
    } else {
      var n := |b| - 1;
      CountSplits(a, b[..n], test);
      assert (a + b)[..|a| + n] == a + b[..n];
    }
  }

  lemma {:induction false} InsertCounts(x: real, values: seq<real>, test: real -> bool)
    ensures CountWhere(Insert(x, values, Less), test) == CountWhere(values, test) + CountWhere([x], test)
  {
    if values == [] || x < values[0] {
      CountSplits([x], values, test);
    } else {
      InsertCounts(x, values[1..], test);
      CountSplits([values[0]], values[1..], test);
      CountSplits([values[0]], Insert(x, values[1..], Less), test);
      assert values == [values[0]] + values[1..];
    }
  }

  lemma {:induction false} SortedCounts(values: seq<real>, test: real -> bool)
    ensures CountWhere(Ascending(values), test) == CountWhere(values, test)
  {
    if values != [] {
      var n := |values| - 1;
      SortedCounts(values[..n], test);
      InsertCounts(values[n], Ascending(values[..n]), test);
      CountSplits(values[..n], [values[n]], test);
      assert values == values[..n] + [values[n]];
    }
  }

  /** Where a test holds and where it does not bounds how often it holds. */
  lemma {:induction false} CountBounds(s: seq<real>, test: real -> bool, from: nat, to: nat)
    requires from <= to <= |s|
    ensures (forall i :: from <= i < to ==> test(s[i])) ==> CountWhere(s, test) >= to - from
    ensures (forall i :: 0 <= i < |s| && !(from <= i < to) ==> !test(s[i])) ==> CountWhere(s, test) <= to - from
  {
    if s != [] {
      var n := |s| - 1;
      CountBounds(s[..n], test, if from == |s| then n else from, if to == |s| then n else to);
    }
  }

  lemma AscendingIsAscending(values: seq<real>)
    ensures IsAscending(Ascending(values)) && |Ascending(values)| == |values|
  {
    hide Ascending;
    AscendingSorts(values);
  }

  /** No more of the data than its share is below a quantile or above it, and no less is at or beyond it. */
  lemma QuantileShares(values: seq<real>, p: real)
    requires values != [] && 0.0 <= p <= 1.0
    ensures Quantile(values, p).Ok?
    ensures var q, x := Quantile(values, p).value, Along(p, |values|);
            && CountWhere(values, (y: real) => y < q) <= Ceiling(x)
            && CountWhere(values, (y: real) => y <= q) >= x.Floor + 1
            && CountWhere(values, (y: real) => y > q) <= |values| - 1 - x.Floor
            && CountWhere(values, (y: real) => y >= q) >= |values| - Ceiling(x)
  {
    hide Interpolate, Ascending, Position, Along;
    AscendingIsAscending(values);
    PositionInRange(|values|, p);
    var s, x := Ascending(values), Position(|values|, p);
    PositionIsShare(|values|, p);
    InterpolateBetweenNeighbours(s, x);
    var q, n := Quantile(values, p).value, |values|;
    SortedCounts(values, (y: real) => y < q);
    SortedCounts(values, (y: real) => y <= q);
    SortedCounts(values, (y: real) => y > q);
    SortedCounts(values, (y: real) => y >= q);
    CountBounds(s, (y: real) => y < q, 0, Ceiling(x));
    CountBounds(s, (y: real) => y <= q, 0, x.Floor + 1);
    CountBounds(s, (y: real) => y > q, x.Floor + 1, n);
    CountBounds(s, (y: real) => y >= q, Ceiling(x), n);
  }

  lemma PositionIsShare(count: nat, p: real)
    requires count > 0
    ensures Position(count, p) == Along(p, count)
  {
  }

  // ---- residual summaries --------------------------------------------------

  function ErrorSum(actuals: seq<real>, predictions: seq<real>, n: nat): real
    requires n <= |actuals| && n <= |predictions|
  {
    if n == 0 then 0.0 else ErrorSum(actuals, predictions, n - 1) + (predictions[n - 1] - actuals[n - 1])
  }

  function LossSum(actuals: seq<real>, predictions: seq<real>, n: nat): real
    requires n <= |actuals| && n <= |predictions|
  {
    if n == 0 then 0.0
    else
      LossSum(actuals, predictions, n - 1)
        + if predictions[n - 1] < actuals[n - 1] then actuals[n - 1] - predictions[n - 1]
          else predictions[n - 1] - actuals[n - 1]
  }

  lemma MeanTimesCount(values: seq<real>)
    requires values != []
    ensures Mean(values) * |values| as real == Sum(values)
  {
    hide Sum;
    QuotientTimes(Sum(values), |values| as real);
  }

  lemma {:induction false} ResidualSums(actuals: seq<real>, predictions: seq<real>, n: nat)
    requires |actuals| == |predictions| && n <= |actuals|
    ensures Sum(Residuals(actuals, predictions)[..n]) == ErrorSum(actuals, predictions, n)
    ensures Sum(Absolutes(Residuals(actuals, predictions))[..n]) == LossSum(actuals, predictions, n)
  {
    if n > 0 {
      ResidualSums(actuals, predictions, n - 1);
      var r := Residuals(actuals, predictions);
      assert r[..n][..n - 1] == r[..n - 1] && Absolutes(r)[..n][..n - 1] == Absolutes(r)[..n - 1];
    }
  }

  /** A residual summary, field by field. */
  lemma SummaryMeaning(actuals: seq<real>, predictions: seq<real>)
    ensures Summarize(actuals, predictions).Err? <==> |actuals| != |predictions| || actuals == []
    ensures Summarize(actuals, predictions).Ok? ==>
              var s, n := Summarize(actuals, predictions).value, |actuals|;
              var ordered := Ascending(Residuals(actuals, predictions));
              && s.sampleCount == n && |ordered| == n
              && s.mean * n as real == ErrorSum(actuals, predictions, n)
              && s.meanAbsolute * n as real == LossSum(actuals, predictions, n)
              && s.minimum == ordered[0] && s.maximum == ordered[n - 1]
              && LiesAt(ordered, Along(0.1, n), s.q10) && LiesAt(ordered, Along(0.25, n), s.q25)
              && LiesAt(ordered, Along(0.5, n), s.median) && LiesAt(ordered, Along(0.75, n), s.q75)
              && LiesAt(ordered, Along(0.9, n), s.q90)
  {
    hide Quantile, Ascending, LiesAt, Sum, ErrorSum, LossSum, Mean, Along;
    if |actuals| == |predictions| && actuals != [] {
      var r, n := Residuals(actuals, predictions), |actuals|;
      AscendingSorts(r);
      ResidualSums(actuals, predictions, n);
      assert r[..n] == r && Absolutes(r)[..n] == Absolutes(r);
      MeanTimesCount(r);
      MeanTimesCount(Absolutes(r));
      QuantileMeaning(r, 0.1);
      QuantileMeaning(r, 0.25);
      QuantileMeaning(r, 0.5);
      QuantileMeaning(r, 0.75);
      QuantileMeaning(r, 0.9);
    }
  }

  // ---- the paired bootstrap ------------------------------------------------

  lemma {:induction false} ImprovementSums(actuals: seq<real>, reference: seq<real>, candidate: seq<real>, n: nat)
    requires |actuals| == |reference| == |candidate| && n <= |actuals|
    ensures Sum(Improvements(actuals, reference, candidate)[..n])
              == LossSum(actuals, reference, n) - LossSum(actuals, candidate, n)
  {
    if n > 0 {
      ImprovementSums(actuals, reference, candidate, n - 1);
      var values := Improvements(actuals, reference, candidate);
      assert values[..n][..n - 1] == values[..n - 1];
    }
  }

  function DrawnSum(values: seq<real>, draws: seq<nat>, n: nat): real
    requires n <= |draws| && forall i :: 0 <= i < n ==> draws[i] < |values|
  {
    if n == 0 then 0.0 else DrawnSum(values, draws, n - 1) + values[draws[n - 1]]
  }

  lemma {:induction false} ResampledSums(values: seq<real>, draws: seq<nat>, n: nat)
    requires Draws(draws, |values|) && n <= |draws|
    ensures Sum(Resampled(values, draws)[..n]) == DrawnSum(values, draws, n)
  {
    if n > 0 {
      ResampledSums(values, draws, n - 1);
      assert Resampled(values, draws)[..n][..n - 1] == Resampled(values, draws)[..n - 1];
    }
  }

  /** The mean of each resampling is the mean of the improvements it drew. */
  lemma ResampledMeaning(values: seq<real>, samples: seq<seq<nat>>, k: nat)
    requires values != [] && forall i :: 0 <= i < |samples| ==> Draws(samples[i], |values|)
    requires k < |samples|
    ensures |ResampledMeans(values, samples)| == |samples|
    ensures ResampledMeans(values, samples)[k] * |values| as real == DrawnSum(values, samples[k], |values|)
  {
    hide Sum, DrawnSum, Mean;
    var drawn := Resampled(values, samples[k]);
    ResampledSums(values, samples[k], |values|);
    assert drawn[..|values|] == drawn;
    MeanTimesCount(drawn);
  }

  /** The parts that lie outside the interval. With `m` resamplings, the position below which half of what the
      confidence leaves over lies is `x`. */
  predicate IntervalFits(means: seq<real>, confidence: real, c: Comparison) {
    var x := Along((1.0 - confidence) / 2.0, |means|);
    && CountWhere(means, (y: real) => y < c.lower) <= Ceiling(x)
    && CountWhere(means, (y: real) => y <= c.lower) >= x.Floor + 1
    && CountWhere(means, (y: real) => y > c.upper) <= Ceiling(x)
    && CountWhere(means, (y: real) => y >= c.upper) >= x.Floor + 1
  }

  lemma Mirrored(share: real, m: nat)
    requires m > 0
    ensures m - 1 - Along(1.0 - share, m).Floor == Ceiling(Along(share, m))
    ensures m - Ceiling(Along(1.0 - share, m)) == Along(share, m).Floor + 1
  {
    assert Along(1.0 - share, m) == (m - 1) as real - Along(share, m);
  }

  /** A comparison in terms of its inputs: the difference times the number of pairs is the loss of the reference less
      the loss of the candidate; the interval leaves half of what the confidence leaves over on either side; the bounds
      are exact positions among the resampled means; significance is a positive lower bound. It fails exactly for
      unpaired or missing inputs, without resamplings, or for a confidence not strictly between zero and one. */
  lemma BootstrapMeaning(actuals: seq<real>, reference: seq<real>, candidate: seq<real>, samples: seq<seq<nat>>,
                         confidence: real)
    requires forall i :: 0 <= i < |samples| ==> Draws(samples[i], |actuals|)
    ensures var result := PairedBootstrap(actuals, reference, candidate, samples, confidence);
            var paired := |actuals| == |reference| == |candidate| && actuals != [];
            && (result == Err(UnpairedInputs) <==> !paired)
            && (result == Err(NoIterations) <==> paired && samples == [])
            && (result == Err(ConfidenceOutOfRange) <==>
                  paired && samples != [] && (confidence <= 0.0 || 1.0 <= confidence))
            && (result.Ok? ==>
                  var c, n, means := result.value, |actuals|,
                                     ResampledMeans(Improvements(actuals, reference, candidate), samples);
                  && c.difference * n as real == LossSum(actuals, reference, n) - LossSum(actuals, candidate, n)
                  && |means| == |samples| && IntervalFits(means, confidence, c)
                  && LiesAt(Ascending(means), Along((1.0 - confidence) / 2.0, |means|), c.lower)
                  && LiesAt(Ascending(means), Along((1.0 + confidence) / 2.0, |means|), c.upper)
                  && (c.significant <==> c.lower > 0.0))
  {
    hide Quantile, Ascending, LiesAt, Sum, LossSum, Mean, CountWhere, IntervalFits, Along;
    if PairedBootstrap(actuals, reference, candidate, samples, confidence).Ok? {
      var improvements, n := Improvements(actuals, reference, candidate), |actuals|;
      var means := ResampledMeans(improvements, samples);
      ImprovementSums(actuals, reference, candidate, n);
      assert improvements[..n] == improvements;
      MeanTimesCount(improvements);
      assert |means| > 0 && 0.0 <= (1.0 - confidence) / 2.0 <= 1.0;
      QuantileMeaning(means, (1.0 - confidence) / 2.0);
      QuantileMeaning(means, 1.0 - (1.0 - confidence) / 2.0);
      IntervalMeaning(means, confidence,
                      PairedBootstrap(actuals, reference, candidate, samples, confidence).value);
    }
  }

  lemma IntervalMeaning(means: seq<real>, confidence: real, c: Comparison)
    requires means != [] && 0.0 < confidence < 1.0
    requires Quantile(means, (1.0 - confidence) / 2.0) == Ok(c.lower)
    requires Quantile(means, 1.0 - (1.0 - confidence) / 2.0) == Ok(c.upper)
    ensures IntervalFits(means, confidence, c)
    ensures LiesAt(Ascending(means), Along((1.0 - confidence) / 2.0, |means|), c.lower)
    ensures LiesAt(Ascending(means), Along((1.0 + confidence) / 2.0, |means|), c.upper)
  {
    hide Quantile, Ascending, LiesAt, CountWhere, Along;
    var half := (1.0 - confidence) / 2.0;
    assert 1.0 - half == (1.0 + confidence) / 2.0;
    QuantileShares(means, half);
    QuantileShares(means, 1.0 - half);
    Mirrored(half, |means|);
    QuantileMeaning(means, half);
    QuantileMeaning(means, 1.0 - half);
  }
}
