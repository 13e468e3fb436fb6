/** Linearly interpolated quantiles, residual summaries and the paired bootstrap interval. */
module Quantiles {
  import opened Foundations
  import opened Numerics
  import opened Ordering

  predicate Less(a: real, b: real) {
    a < b
  }

  function Ascending(values: seq<real>): seq<real> {
    Sort(values, Less)
  }

  lemma RealsAreOrdered(values: seq<real>)
    ensures Transitive(Less) && Asymmetric(Less) && Orders(values, Less)
  {
  }

  /** Sorting keeps the length and leaves the values in ascending order. */
  lemma AscendingSorts(values: seq<real>)
    ensures |Ascending(values)| == |values| && multiset(Ascending(values)) == multiset(values)
    ensures forall i, j :: 0 <= i <= j < |values| ==> Ascending(values)[i] <= Ascending(values)[j]
  {
    hide Sort;
    RealsAreOrdered(values);
    SortSorts(values, Less);
    hide Transitive, Asymmetric, Orders;
    var s := Ascending(values);
    assert |multiset(s)| == |multiset(values)|;
    forall i, j | 0 <= i < j < |s| ensures s[i] <= s[j] {
      assert !Less(s[j], s[i]);
    }
  }

  // ---- the quantile --------------------------------------------------------

  function Ceiling(x: real): int {
    if x.Floor as real == x then x.Floor else x.Floor + 1
  }

  /** The value at a fractional position of an ascending list. */
  function Interpolate(ordered: seq<real>, position: real): real
    requires 0.0 <= position <= (|ordered| - 1) as real
  {
    var lower, upper := position.Floor, Ceiling(position);
    if lower == upper then ordered[lower]
    else
      var weight := position - lower as real;
      ordered[lower] * (1.0 - weight) + ordered[upper] * weight
  }

  function Position(count: nat, probability: real): real {
    (count - 1) as real * probability
  }

  lemma PositionInRange(count: nat, probability: real)
    requires count > 0 && 0.0 <= probability <= 1.0
    ensures 0.0 <= Position(count, probability) <= (count - 1) as real
  {
    var n := (count - 1) as real;
    assert n >= 0.0;
    assert n * probability <= n * 1.0;
  }

  datatype QuantileError = NoValues | ProbabilityOutOfRange

  function Quantile(values: seq<real>, probability: real): Result<real, QuantileError> {
    if values == [] then Err(NoValues)
    else if !(0.0 <= probability <= 1.0) then Err(ProbabilityOutOfRange)
    else
      AscendingSorts(values);
      PositionInRange(|values|, probability);
      Ok(Interpolate(Ascending(values), Position(|values|, probability)))
  }

  /** Shuffling the data changes nothing. */
  lemma QuantileForgetsOrder(values: seq<real>, shuffled: seq<real>, probability: real)
    requires multiset(values) == multiset(shuffled)
    ensures Quantile(shuffled, probability) == Quantile(values, probability)
  {
    RealsAreOrdered(values);
    SortForgetsOrder(values, shuffled, Less);
    assert |multiset(values)| == |multiset(shuffled)|;
  }

  /** A weighted mean of two values lies between them and moves towards the upper one. */
  lemma WeightedBetween(a: real, b: real, w: real)
    requires a <= b && 0.0 <= w <= 1.0
    ensures a <= a * (1.0 - w) + b * w <= b
  {
    var gap := (b - a) * w;
    assert a * (1.0 - w) + b * w == a + gap;
    NonNegativeProduct(b - a, w, gap);
    NonNegativeProduct(b - a, 1.0 - w, (b - a) - gap);
  }

  lemma WeightedGrows(a: real, b: real, w: real, v: real)
    requires a <= b && w <= v
    ensures a * (1.0 - w) + b * w <= a * (1.0 - v) + b * v
  {
    var gap := (b - a) * (v - w);
    NonNegativeProduct(b - a, v - w, gap);
    assert a * (1.0 - v) + b * v == a * (1.0 - w) + b * w + gap;
  }

  lemma WeightedIsMonotone(a: real, b: real, c: real, d: real, w: real)
    requires a <= c && b <= d && 0.0 <= w <= 1.0
    ensures a * (1.0 - w) + b * w <= c * (1.0 - w) + d * w
  {
    NonNegativeProduct(c - a, 1.0 - w, (c - a) * (1.0 - w));
    NonNegativeProduct(d - b, w, (d - b) * w);
    assert c * (1.0 - w) + d * w == a * (1.0 - w) + b * w + (c - a) * (1.0 - w) + (d - b) * w;
  }

  ghost predicate IsAscending(s: seq<real>) {
    forall i, j :: 0 <= i <= j < |s| ==> s[i] <= s[j]
  }

  lemma InterpolateBetweenNeighbours(s: seq<real>, x: real)
    requires IsAscending(s) && 0.0 <= x <= (|s| - 1) as real
    ensures s[x.Floor] <= Interpolate(s, x) <= s[Ceiling(x)]
  {
    if x.Floor != Ceiling(x) {
      WeightedBetween(s[x.Floor], s[Ceiling(x)], x - x.Floor as real);
    }
  }

  lemma InterpolateIsMonotone(s: seq<real>, x: real, y: real)
    requires IsAscending(s) && 0.0 <= x <= y <= (|s| - 1) as real
    ensures Interpolate(s, x) <= Interpolate(s, y)
  {
    InterpolateBetweenNeighbours(s, x);
    InterpolateBetweenNeighbours(s, y);
    if Ceiling(x) <= y.Floor {
      assert s[Ceiling(x)] <= s[y.Floor];
    } else {
      assert x.Floor == y.Floor;
      if x.Floor as real != x {
        assert Ceiling(x) == Ceiling(y);
        WeightedGrows(s[x.Floor], s[Ceiling(x)], x - x.Floor as real, y - x.Floor as real);
      }
    }
  }

  /** A larger probability never gives a smaller quantile. */
  lemma QuantileGrowsWithProbability(values: seq<real>, p: real, q: real)
    requires values != [] && 0.0 <= p <= q <= 1.0
    ensures Quantile(values, p).Ok? && Quantile(values, q).Ok?
    ensures Quantile(values, p).value <= Quantile(values, q).value
  {
    hide Interpolate, Ascending;
    AscendingSorts(values);
    PositionInRange(|values|, p);
    PositionInRange(|values|, q);
    var n := (|values| - 1) as real;
    assert n * (q - p) >= 0.0;
    assert Position(|values|, q) == Position(|values|, p) + n * (q - p);
    InterpolateIsMonotone(Ascending(values), Position(|values|, p), Position(|values|, q));
  }

  /** Quantiles at zero and one are the extremes, and every quantile lies between them. */
  lemma QuantileIsBetweenExtremes(values: seq<real>, p: real, low: real, high: real)
    requires values != [] && 0.0 <= p <= 1.0 && forall i :: 0 <= i < |values| ==> low <= values[i] <= high
    ensures Quantile(values, p).Ok? && low <= Quantile(values, p).value <= high
    ensures Quantile(values, 0.0) == Ok(Ascending(values)[0])
    ensures |Ascending(values)| == |values| && Quantile(values, 1.0) == Ok(Ascending(values)[|values| - 1])
  {
    AscendingSorts(values);
    var s := Ascending(values);
    PositionInRange(|values|, p);
    var x := Position(|values|, p);
    InterpolateBetweenNeighbours(s, x);
    assert Position(|values|, 0.0) == 0.0 && Position(|values|, 1.0) == (|values| - 1) as real;
    InTheMultiset(s, values, s[x.Floor]);
    InTheMultiset(s, values, s[Ceiling(x)]);
  }

  // ---- monotone in the data ------------------------------------------------

  ghost predicate Pointwise(a: seq<real>, b: seq<real>) {
    |a| == |b| && forall i :: 0 <= i < |a| ==> a[i] <= b[i]
  }

  lemma {:induction false} InsertIsMonotone(x: real, y: real, a: seq<real>, b: seq<real>)
    requires x <= y && Pointwise(a, b) && IsAscending(a) && IsAscending(b)
    ensures Pointwise(Insert(x, a, Less), Insert(y, b, Less))
    decreases |a|
  {
    if a != [] {
      if x < a[0] {
        PrependIsBelow(x, y, a, b);
      } else if y < b[0] {
        InsertIsMonotone(x, b[0], a[1..], b[1..]);
        InsertSmaller(b);
      } else {
        InsertIsMonotone(x, y, a[1..], b[1..]);
      }
    }
  }

  /** Inserting the head of an ascending list into its tail gives the list back. */
  lemma {:induction false} InsertSmaller(b: seq<real>)
    requires b != [] && IsAscending(b)
    ensures Insert(b[0], b[1..], Less) == b
  {
    var rest := b[1..];
    if rest != [] && b[0] == rest[0] {
      InsertSmaller(rest);
      assert Insert(b[0], rest, Less) == [rest[0]] + Insert(b[0], rest[1..], Less);
    }
  }

  lemma {:induction false} PrependIsBelow(x: real, y: real, a: seq<real>, b: seq<real>)
    requires x <= y && Pointwise(a, b) && IsAscending(b) && IsAscending(a) && a != [] && x <= a[0]
    ensures Pointwise([x] + a, Insert(y, b, Less))
    decreases |a|
  {
    if y < b[0] {
    } else if |a| == 1 {
      assert Insert(y, b[1..], Less) == [y];
    } else {
      PrependIsBelow(a[0], y, a[1..], b[1..]);
    }
  }

  /** Raising data pointwise raises the sorted list pointwise. */
  lemma {:induction false} AscendingIsMonotone(a: seq<real>, b: seq<real>)
    requires Pointwise(a, b)
    ensures Pointwise(Ascending(a), Ascending(b))
  {
    if a != [] {
      var n := |a| - 1;
      AscendingIsMonotone(a[..n], b[..n]);
      AscendingSorts(a[..n]);
      AscendingSorts(b[..n]);
      InsertIsMonotone(a[n], b[n], Ascending(a[..n]), Ascending(b[..n]));
    }
  }

  lemma InterpolateGrowsWithData(s: seq<real>, t: seq<real>, x: real)
    requires Pointwise(s, t) && 0.0 <= x <= (|s| - 1) as real
    ensures Interpolate(s, x) <= Interpolate(t, x)
  {
    assert s[x.Floor] <= t[x.Floor] && s[Ceiling(x)] <= t[Ceiling(x)];
    WeightedIsMonotone(s[x.Floor], s[Ceiling(x)], t[x.Floor], t[Ceiling(x)], x - x.Floor as real);
  }

  /** Raising any of the data never lowers a quantile. */
  lemma QuantileGrowsWithData(a: seq<real>, b: seq<real>, p: real)
    requires a != [] && Pointwise(a, b) && 0.0 <= p <= 1.0
    ensures Quantile(a, p).Ok? && Quantile(b, p).Ok? && Quantile(a, p).value <= Quantile(b, p).value
  {
    hide Interpolate;
    AscendingIsMonotone(a, b);
    AscendingSorts(a);
    AscendingSorts(b);
    PositionInRange(|a|, p);
    var x := Position(|a|, p);
    InterpolateGrowsWithData(Ascending(a), Ascending(b), x);
  }

  // ---- residual summaries --------------------------------------------------

  function Mean(values: seq<real>): real
    requires values != []
  {
    Sum(values) / |values| as real
  }

  function Residuals(actuals: seq<real>, predictions: seq<real>): seq<real>
    requires |actuals| == |predictions|
  {
    seq(|actuals|, i requires 0 <= i < |actuals| => predictions[i] - actuals[i])
  }

  function Absolutes(values: seq<real>): seq<real> {
    seq(|values|, i requires 0 <= i < |values| => Abs(values[i]))
  }

  datatype Summary = Summary(
    sampleCount: nat, mean: real, minimum: real, q10: real, q25: real, median: real, q75: real, q90: real,
    maximum: real,
    meanAbsolute: real)

  datatype SummaryError = UnequalOrEmpty

  function Summarize(actuals: seq<real>, predictions: seq<real>): Result<Summary, SummaryError> {
    if |actuals| != |predictions| || actuals == [] then Err(UnequalOrEmpty)
    else
      var r := Residuals(actuals, predictions);
      AscendingSorts(r);
      Ok(Summary(
           |r|, Mean(r), Ascending(r)[0], Quantile(r, 0.1).value, Quantile(r, 0.25).value, Quantile(r, 0.5).value,
           Quantile(r, 0.75).value, Quantile(r, 0.9).value, Ascending(r)[|r| - 1], Mean(Absolutes(r))))
  }

  lemma {:induction false} TriangleInequality(values: seq<real>)
    ensures Abs(Sum(values)) <= Sum(Absolutes(values))
  {
    if values != [] {
      var n := |values| - 1;
      TriangleInequality(values[..n]);
      assert Absolutes(values)[..n] == Absolutes(values[..n]);
    }
  }

  lemma DivideAbs(a: real, b: real, n: real)
    requires n > 0.0 && Abs(a) <= b
    ensures Abs(a / n) <= b / n
  {
    DividedOrder(a, b, n);
    DividedOrder(-a, b, n);
    assert (-a) / n == -(a / n);
  }

  /** Every residual summary is ordered, its mean lies within the range, and the mean error never exceeds the mean
      absolute error. */
  lemma SummaryIsOrdered(actuals: seq<real>, predictions: seq<real>)
    requires |actuals| == |predictions| > 0
    ensures Summarize(actuals, predictions).Ok?
    ensures var s := Summarize(actuals, predictions).value;
            && s.minimum <= s.q10 <= s.q25 <= s.median <= s.q75 <= s.q90 <= s.maximum
            && s.minimum <= s.mean <= s.maximum
            && Abs(s.mean) <= s.meanAbsolute
            && (forall i :: 0 <= i < |actuals| ==> s.minimum <= predictions[i] - actuals[i] <= s.maximum)
  {
    var r := Residuals(actuals, predictions);
    hide Interpolate, Position;
    AscendingSorts(r);
    var low, high := Ascending(r)[0], Ascending(r)[|r| - 1];
    forall i | 0 <= i < |r| ensures low <= r[i] <= high {
      InTheMultiset(Ascending(r), r, r[i]);
    }
    hide Ascending;
    QuantileIsBetweenExtremes(r, 0.1, low, high);
    QuantileIsBetweenExtremes(r, 0.9, low, high);
    QuantileGrowsWithProbability(r, 0.1, 0.25);
    QuantileGrowsWithProbability(r, 0.25, 0.5);
    QuantileGrowsWithProbability(r, 0.5, 0.75);
    QuantileGrowsWithProbability(r, 0.75, 0.9);
    MeanIsBounded(r, Identity, low, high);
    TriangleInequality(r);
    DivideAbs(Sum(r), Sum(Absolutes(r)), |r| as real);
    assert forall i :: 0 <= i < |actuals| ==> r[i] == predictions[i] - actuals[i];
  }

  // ---- the paired bootstrap ------------------------------------------------

  function Improvements(actuals: seq<real>, reference: seq<real>, candidate: seq<real>): seq<real>
    requires |actuals| == |reference| == |candidate|
  {
    seq(|actuals|, i requires 0 <= i < |actuals| => Abs(actuals[i] - reference[i]) - Abs(actuals[i] - candidate[i]))
  }

  /** One resampling: as many draws with replacement as there are pairs. */
  predicate Draws(indices: seq<nat>, n: nat) {
    |indices| == n && forall i :: 0 <= i < |indices| ==> indices[i] < n
  }

  function Resampled(values: seq<real>, indices: seq<nat>): seq<real>
    requires Draws(indices, |values|)
  {
    seq(|indices|, i requires 0 <= i < |indices| => values[indices[i]])
  }

  function ResampledMeans(values: seq<real>, samples: seq<seq<nat>>): seq<real>
    requires values != [] && forall i :: 0 <= i < |samples| ==> Draws(samples[i], |values|)
  {
    seq(|samples|, i requires 0 <= i < |samples| => Mean(Resampled(values, samples[i])))
  }

  datatype Comparison = Comparison(difference: real, lower: real, upper: real, significant: bool)

  datatype BootstrapError = UnpairedInputs | NoIterations | ConfidenceOutOfRange

  /** The draws stand for the seeded generator. */
  function PairedBootstrap(actuals: seq<real>, reference: seq<real>, candidate: seq<real>, samples: seq<seq<nat>>,
                           confidence: real)
    : Result<Comparison, BootstrapError>
    requires forall i :: 0 <= i < |samples| ==> Draws(samples[i], |actuals|)
  {
    if actuals == [] || !(|actuals| == |reference| == |candidate|) then Err(UnpairedInputs)
    else if samples == [] then Err(NoIterations)
    else if !(0.0 < confidence < 1.0) then Err(ConfidenceOutOfRange)
    else
      var improvements := Improvements(actuals, reference, candidate);
      var means := ResampledMeans(improvements, samples);
      var alpha := 1.0 - confidence;
      var lower, upper := Quantile(means, alpha / 2.0).value, Quantile(means, 1.0 - alpha / 2.0).value;
      Ok(Comparison(Mean(improvements), lower, upper, lower > 0.0))
  }

  /** For any resampling the interval is ordered and lies within the range of the paired improvements; so a claim of
      significance needs some pair on which the candidate was better. */
  lemma BootstrapIntervalIsSound(actuals: seq<real>, reference: seq<real>, candidate: seq<real>, samples: seq<seq<nat>>,
                                 confidence: real, low: real, high: real)
    requires forall i :: 0 <= i < |samples| ==> Draws(samples[i], |actuals|)
    requires PairedBootstrap(actuals, reference, candidate, samples, confidence).Ok?
    requires forall i :: 0 <= i < |actuals| ==>
               low <= Abs(actuals[i] - reference[i]) - Abs(actuals[i] - candidate[i]) <= high
    ensures var c := PairedBootstrap(actuals, reference, candidate, samples, confidence).value;
            low <= c.lower <= c.upper <= high && low <= c.difference <= high && (c.significant ==> high > 0.0)
  {
    hide Quantile;
    var improvements := Improvements(actuals, reference, candidate);
    var means := ResampledMeans(improvements, samples);
    var alpha := 1.0 - confidence;
    MeanIsBounded(improvements, Identity, low, high);
    forall i | 0 <= i < |means| ensures low <= means[i] <= high {
      MeanIsBounded(Resampled(improvements, samples[i]), Identity, low, high);
    }
    QuantileIsBetweenExtremes(means, alpha / 2.0, low, high);
    QuantileIsBetweenExtremes(means, 1.0 - alpha / 2.0, low, high);
    QuantileGrowsWithProbability(means, alpha / 2.0, 1.0 - alpha / 2.0);
  }
}
