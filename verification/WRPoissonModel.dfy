/** The stateful estimator: standardised features in, one fitted state out. */
module WRPoissonModel {
  import opened Foundations
  import opened Numerics
  import opened LinearSystem
  import opened PoissonObjective
  import opened NewtonTheory
  import opened NewtonRefusal
  import opened NewtonFit

  // ---- standardisation -----------------------------------------------------

  function ColumnSum(rows: Matrix, j: nat, n: nat): real
    requires n <= |rows| && forall i :: 0 <= i < n ==> j < |rows[i]|
  {
    if n == 0 then 0.0 else ColumnSum(rows, j, n - 1) + rows[n - 1][j]
  }

  function SquaredDeviations(rows: Matrix, j: nat, centre: real, n: nat): real
    requires n <= |rows| && forall i :: 0 <= i < n ==> j < |rows[i]|
  {
    if n == 0 then 0.0 else SquaredDeviations(rows, j, centre, n - 1) + Square(rows[n - 1][j] - centre)
  }

  ghost predicate Rectangular(rows: Matrix, features: nat) {
    |rows| > 0 && forall i :: 0 <= i < |rows| ==> |rows[i]| == features
  }

  function Mean(rows: Matrix, j: nat): real
    requires |rows| > 0 && forall i :: 0 <= i < |rows| ==> j < |rows[i]|
  {
    ColumnSum(rows, j, |rows|) / |rows| as real
  }

  function Deviation(sqrt: real -> real, rows: Matrix, j: nat): real
    requires |rows| > 0 && forall i :: 0 <= i < |rows| ==> j < |rows[i]|
  {
    sqrt(SquaredDeviations(rows, j, Mean(rows, j), |rows|) / |rows| as real)
  }

  function Scale(sqrt: real -> real, rows: Matrix, j: nat, epsilon: real): real
    requires |rows| > 0 && forall i :: 0 <= i < |rows| ==> j < |rows[i]|
  {
    if Deviation(sqrt, rows, j) > epsilon then Deviation(sqrt, rows, j) else 1.0
  }

  function Standardized(row: Vector, means: Vector, scales: Vector): Vector
    requires |row| == |means| == |scales| && forall j :: 0 <= j < |scales| ==> scales[j] != 0.0
  {
    seq(|row|, j requires 0 <= j < |row| => (row[j] - means[j]) / scales[j])
  }

  function DesignRow(row: Vector, means: Vector, scales: Vector): Vector
    requires |row| == |means| == |scales| && forall j :: 0 <= j < |scales| ==> scales[j] != 0.0
  {
    [1.0] + Standardized(row, means, scales)
  }

  ghost predicate Standardizes(sqrt: real -> real, rows: Matrix, epsilon: real, means: Vector, scales: Vector,
                               design: Matrix) {
    && |means| == |scales| && Rectangular(rows, |means|) && |design| == |rows|
    && (forall j :: 0 <= j < |means| ==>
          means[j] == Mean(rows, j) && scales[j] == Scale(sqrt, rows, j, epsilon) && scales[j] > 0.0)
    && (forall i :: 0 <= i < |rows| ==> design[i] == DesignRow(rows[i], means, scales))
  }

  lemma {:induction false} ShiftedSum(rows: Matrix, design: Matrix, j: nat, centre: real, scale: real, n: nat)
    requires n <= |rows| && n <= |design| && scale != 0.0
    requires forall i :: 0 <= i < n ==>
               j < |rows[i]| && j + 1 < |design[i]| && design[i][j + 1] == (rows[i][j] - centre) / scale
    ensures ColumnSum(design, j + 1, n) == (ColumnSum(rows, j, n) - n as real * centre) / scale
  {
    if n > 0 {
      ShiftedSum(rows, design, j, centre, scale, n - 1);
      AddQuotients(ColumnSum(rows, j, n - 1) - (n - 1) as real * centre, rows[n - 1][j] - centre, scale);
      assert (n - 1) as real * centre + centre == n as real * centre;
    }
  }

  lemma AddQuotients(a: real, b: real, d: real)
    requires d != 0.0
    ensures a / d + b / d == (a + b) / d
  {
  }

  predicate IsQuotient(y: real, x: real, scale: real) {
    scale != 0.0 && y == x / scale
  }

  lemma {:induction false} ScaledSquares(rows: Matrix, design: Matrix, j: nat, centre: real, scale: real, n: nat)
    requires n <= |rows| && n <= |design| && forall i :: 0 <= i < n ==> j < |rows[i]| && j + 1 < |design[i]|
    requires forall i :: 0 <= i < n ==> IsQuotient(design[i][j + 1], rows[i][j] - centre, scale)
    ensures IsMultiple(Square(scale), SquaredDeviations(design, j + 1, 0.0, n), SquaredDeviations(rows, j, centre, n))
  {
    if n == 0 {
      assert Square(scale) * 0.0 == 0.0;
    } else {
      ScaledSquares(rows, design, j, centre, scale, n - 1);
      LastDeviation(rows, j, centre, n);
      LastDeviation(design, j + 1, 0.0, n);
      hide Square, SquaredDeviations, IsQuotient, IsMultiple;
      var x, y := rows[n - 1][j] - centre, design[n - 1][j + 1];
      QuotientSquare(x, y, scale);
      assert y - 0.0 == y;
      AddMultiples(Square(scale), SquaredDeviations(design, j + 1, 0.0, n - 1),
                   SquaredDeviations(rows, j, centre, n - 1),
                   Square(y), Square(x));
    }
  }

  predicate IsMultiple(factor: real, a: real, b: real) {
    factor * a == b
  }

  lemma LastDeviation(rows: Matrix, j: nat, centre: real, n: nat)
    requires 0 < n <= |rows| && forall i :: 0 <= i < n ==> j < |rows[i]|
    ensures SquaredDeviations(rows, j, centre, n)
              == SquaredDeviations(rows, j, centre, n - 1) + Square(rows[n - 1][j] - centre)
  {
  }

  lemma AddMultiples(factor: real, a: real, b: real, x: real, y: real)
    requires IsMultiple(factor, a, b) && IsMultiple(factor, x, y)
    ensures IsMultiple(factor, a + x, b + y)
  {
  }

  lemma QuotientSquare(x: real, y: real, scale: real)
    requires IsQuotient(y, x, scale)
    ensures IsMultiple(Square(scale), Square(y), Square(x))
  {
    assert x == y * scale;
  }

  ghost predicate SqrtLaws(sqrt: real -> real) {
    forall x :: x >= 0.0 ==> sqrt(x) >= 0.0 && sqrt(x) * sqrt(x) == x
  }

  lemma {:induction false} SquaredDeviationsAreNonNegative(rows: Matrix, j: nat, centre: real, n: nat)
    requires n <= |rows| && forall i :: 0 <= i < n ==> j < |rows[i]|
    ensures SquaredDeviations(rows, j, centre, n) >= 0.0
  {
    hide Square;
    if n > 0 {
      SquaredDeviationsAreNonNegative(rows, j, centre, n - 1);
      SquareIsPositive(1.0, rows[n - 1][j] - centre);
    }
  }

  /** Every feature column of the design sums to zero. */
  lemma DesignIsCentred(sqrt: real -> real, rows: Matrix, epsilon: real, means: Vector, scales: Vector, design: Matrix,
                        j: nat)
    requires Standardizes(sqrt, rows, epsilon, means, scales, design) && j < |means|
    ensures ColumnSum(design, j + 1, |design|) == 0.0
  {
    hide ColumnSum, Scale;
    ShiftedSum(rows, design, j, means[j], scales[j], |rows|);
    MultipliedMean(ColumnSum(rows, j, |rows|), |rows| as real);
  }

  lemma MultipliedMean(total: real, n: real)
    requires n > 0.0
    ensures n * (total / n) == total
  {
  }

  /** It has unit variance unless its deviation did not exceed the threshold. */
  lemma DesignHasUnitVariance(sqrt: real -> real, rows: Matrix, epsilon: real, means: Vector, scales: Vector,
                              design: Matrix, j: nat)
    requires SqrtLaws(sqrt) && Standardizes(sqrt, rows, epsilon, means, scales, design) && j < |means|
    requires Rectangular(rows, |means|) && Deviation(sqrt, rows, j) > epsilon >= 0.0
    ensures SquaredDeviations(design, j + 1, 0.0, |design|) == |design| as real
  {
    hide SquaredDeviations, SqrtLaws, Square, Mean, Scale, Standardizes, IsQuotient, IsMultiple;
    StandardizedEntries(sqrt, rows, epsilon, means, scales, design, j);
    var n, m, d := |rows|, means[j], scales[j];
    var total := SquaredDeviations(rows, j, m, n);
    SquaredDeviationsAreNonNegative(rows, j, m, n);
    RootOfVariance(sqrt, total, n);
    ScaledSquares(rows, design, j, m, d, n);
    ScaleIsPositive(d);
    CancelFactor(SquaredDeviations(design, j + 1, 0.0, n), n as real, Square(d), total);
  }

  lemma StandardizedEntries(sqrt: real -> real, rows: Matrix, epsilon: real, means: Vector, scales: Vector,
                            design: Matrix, j: nat)
    requires Standardizes(sqrt, rows, epsilon, means, scales, design) && j < |means|
    ensures |rows| == |design| > 0 && j < |scales| && scales[j] > 0.0
    ensures forall i :: 0 <= i < |rows| ==> j < |rows[i]| && j + 1 < |design[i]|
    ensures forall i :: 0 <= i < |rows| ==> IsQuotient(design[i][j + 1], rows[i][j] - means[j], scales[j])
    ensures means[j] == Mean(rows, j) && scales[j] == Scale(sqrt, rows, j, epsilon)
    ensures Deviation(sqrt, rows, j) > epsilon ==>
              scales[j] == sqrt(SquaredDeviations(rows, j, means[j], |rows|) / |rows| as real)
  {
    hide SquaredDeviations, Mean;
  }

  lemma ScaleIsPositive(d: real)
    requires d > 0.0
    ensures Square(d) > 0.0
  {
    ProductIsPositive(d, d, Square(d));
  }

  lemma RootOfVariance(sqrt: real -> real, total: real, n: nat)
    requires SqrtLaws(sqrt) && total >= 0.0 && n > 0
    ensures Square(sqrt(total / n as real)) == total / n as real
  {
    assert total / n as real >= 0.0;
  }

  lemma CancelFactor(a: real, b: real, factor: real, total: real)
    requires factor > 0.0 && b > 0.0 && IsMultiple(factor, a, total) && factor == total / b
    ensures a == b
  {
    assert b * factor == total;
    assert (a - b) * factor == 0.0;
  }

  function SquareSum(rows: Matrix, j: nat, n: nat): real
    requires n <= |rows| && forall i :: 0 <= i < n ==> j < |rows[i]|
  {
    if n == 0 then 0.0 else SquareSum(rows, j, n - 1) + rows[n - 1][j] * rows[n - 1][j]
  }

  lemma ExpandedSquare(x: real, c: real, product: real)
    requires product == c * x
    ensures Square(x - c) == x * x - 2.0 * product + c * c
  {
  }

  /** The squared deviations from a centre, from the sums of the values and of their squares. */
  lemma {:induction false} DeviationsExpand(rows: Matrix, j: nat, centre: real, n: nat)
    requires n <= |rows| && forall i :: 0 <= i < n ==> j < |rows[i]|
    ensures SquaredDeviations(rows, j, centre, n)
              == SquareSum(rows, j, n) - 2.0 * (centre * ColumnSum(rows, j, n)) + n as real * (centre * centre)
  {
    hide Square;
    if n > 0 {
      DeviationsExpand(rows, j, centre, n - 1);
      var x, earlier := rows[n - 1][j], ColumnSum(rows, j, n - 1);
      ExpandedSquare(x, centre, centre * x);
      DistributeSum(centre, earlier, x);
      DistributeSum(centre * centre, (n - 1) as real, 1.0);
      assert n as real == (n - 1) as real + 1.0;
    }
  }

  lemma DistributeSum(factor: real, a: real, b: real)
    ensures factor * (a + b) == factor * a + factor * b && (a + b) * factor == a * factor + b * factor
  {
  }

  lemma RootOrder(root: real, epsilon: real, variance: real)
    requires root >= 0.0 && epsilon >= 0.0 && variance == root * root
    ensures root > epsilon <==> variance > epsilon * epsilon
  {
    if root > epsilon {
      ProductIsPositive(root - epsilon, root + epsilon, variance - epsilon * epsilon);
    } else {
      NonNegativeProduct(epsilon - root, epsilon + root, epsilon * epsilon - variance);
    }
  }

  lemma VarianceOrder(total: real, n: real, bound: real)
    requires n > 0.0
    ensures total / n > bound <==> total > n * bound
  {
    var q := total / n;
    assert n * q == total;
    if q > bound {
      ScaledOrder(n, bound, q, n * bound, n * q);
    } else if q < bound {
      ScaledOrder(n, q, bound, n * q, n * bound);
    }
  }

  /** The scale of a feature is its population deviation when that exceeds the threshold, and one otherwise. */
  lemma ScaleMeaning(sqrt: real -> real, rows: Matrix, features: nat, j: nat, epsilon: real)
    requires SqrtLaws(sqrt) && Rectangular(rows, features) && j < features && epsilon >= 0.0
    ensures var total, scale := SquaredDeviations(rows, j, Mean(rows, j), |rows|), Scale(sqrt, rows, j, epsilon);
            if total > |rows| as real * Square(epsilon)
            then scale > epsilon && IsMultiple(|rows| as real, Square(scale), total)
            else scale == 1.0
  {
    hide SquaredDeviations, Mean, SqrtLaws;
    var total, n := SquaredDeviations(rows, j, Mean(rows, j), |rows|), |rows|;
    SquaredDeviationsAreNonNegative(rows, j, Mean(rows, j), n);
    RootOfVariance(sqrt, total, n);
    assert sqrt(total / n as real) >= 0.0 by { RootIsNonNegative(sqrt, total / n as real, total, n as real); }
    RootOrder(sqrt(total / n as real), epsilon, total / n as real);
    VarianceOrder(total, n as real, Square(epsilon));
    MultipliedMean(total, n as real);
  }

  lemma RootIsNonNegative(sqrt: real -> real, x: real, total: real, n: real)
    requires SqrtLaws(sqrt) && total >= 0.0 && n > 0.0 && x == total / n
    ensures sqrt(x) >= 0.0
  {
    assert x >= 0.0;
  }

  /** Every feature has one value throughout. */
  ghost predicate AllRowsEqual(rows: Matrix) {
    forall i :: 0 <= i < |rows| ==> rows[i] == rows[0]
  }

  lemma {:induction false} ConstantSum(rows: Matrix, j: nat, value: real, n: nat)
    requires n <= |rows| && forall i :: 0 <= i < n ==> j < |rows[i]| && rows[i][j] == value
    ensures ColumnSum(rows, j, n) == n as real * value
  {
    if n > 0 {
      ConstantSum(rows, j, value, n - 1);
      assert (n - 1) as real * value + value == n as real * value;
    }
  }

  lemma MeanOfConstant(rows: Matrix, features: nat, j: nat)
    requires Rectangular(rows, features) && AllRowsEqual(rows) && j < features
    ensures Mean(rows, j) == rows[0][j]
  {
    ConstantSum(rows, j, rows[0][j], |rows|);
    assert |rows| as real * rows[0][j] / |rows| as real == rows[0][j];
  }

  /** Constant features are standardised to zero. */
  lemma EqualRowsStandardizeToZero(sqrt: real -> real, rows: Matrix, epsilon: real, means: Vector, scales: Vector,
                                   design: Matrix, targets: Vector)
    requires Standardizes(sqrt, rows, epsilon, means, scales, design) && AllRowsEqual(rows)
    ensures ConstantFeatures(Sample(design, targets))
  {
    hide Mean, Scale;
    forall i, j | 0 <= i < |design| && 1 <= j < |design[i]| ensures design[i][j] == 0.0 {
      MeanOfConstant(rows, |means|, j - 1);
      assert rows[i] == rows[0];
      assert design[i][j] == (rows[i][j - 1] - means[j - 1]) / scales[j - 1];
    }
  }

  // ---- fit and predict -----------------------------------------------------

  datatype Fitted = Fitted(means: Vector, scales: Vector, intercept: real, coefficients: Vector, iterations: nat)

  function AsReals(targets: seq<nat>): Vector {
    seq(|targets|, i requires 0 <= i < |targets| => targets[i] as real)
  }

  method Standardize(sqrt: real -> real, rows: Matrix, features: nat, epsilon: real)
    returns (means: Vector, scales: Vector, design: Matrix)
    requires Rectangular(rows, features) && epsilon >= 0.0
    ensures |means| == features && Standardizes(sqrt, rows, epsilon, means, scales, design)
  {
    means := seq(features, j requires 0 <= j < features => Mean(rows, j));
    scales := [];
    for index := 0 to features
      invariant |scales| == index
      invariant forall j :: 0 <= j < index ==> scales[j] == Scale(sqrt, rows, j, epsilon) && scales[j] > 0.0
    {
      var scale := Deviation(sqrt, rows, index);
      scales := scales + [if scale > epsilon then scale else 1.0];
    }
    design := seq(|rows|, i requires 0 <= i < |rows| => DesignRow(rows[i], means, scales));
  }

  /** The starting point: the logarithm of the mean target, and no effect of any feature. */
  function Initial(log: real -> real, targets: Vector, features: nat, c: Config): Vector
    requires |targets| > 0
  {
    [log(Larger(Sum(targets) / |targets| as real, c.solverEpsilon))] + Zeros(features)
  }

  lemma InitialEta(log: real -> real, s: Sample, features: nat, c: Config, i: nat)
    requires ValidSample(s, features + 1) && HasIntercept(s) && i < |s.targets|
    ensures var p := Initial(log, s.targets, features, c); Eta(p, s.design[i]) == p[0]
  {
    var p := Initial(log, s.targets, features, c);
    DotSingle(p, s.design[i], |p|, 0);
  }

  lemma InitialPredictor(log: real -> real, s: Sample, features: nat, c: Config)
    requires ValidSample(s, features + 1) && HasIntercept(s) && |s.targets| > 0
    ensures var p := Initial(log, s.targets, features, c); Safe(s, p, c) <==> p[0] <= c.linearPredictorLimit
  {
    hide Eta;
    var p := Initial(log, s.targets, features, c);
    forall i | 0 <= i < |s.design| ensures Eta(p, s.design[i]) == p[0] {
      InitialEta(log, s, features, c, i);
    }
    assert Eta(p, s.design[0]) == p[0];
  }

  /** What the proofs use of the logarithm: the exponential undoes it. */
  ghost predicate LogLaws(exp: real -> real, log: real -> real) {
    forall x {:trigger log(x)} :: x > 0.0 ==> exp(log(x)) == x
  }

  /** The fit starts where every row is expected to have the mean target, or the threshold where that is larger. */
  lemma StartsAtMeanTarget(exp: real -> real, log: real -> real, s: Sample, features: nat, c: Config, i: nat)
    requires LogLaws(exp, log) && ValidConfig(c) && ValidSample(s, features + 1) && HasIntercept(s)
    requires i < |s.targets|
    ensures var expected := Expected(exp, s, Initial(log, s.targets, features, c))[i];
            && (Sum(s.targets) >= |s.targets| as real * c.solverEpsilon ==>
                  |s.targets| as real * expected == Sum(s.targets))
            && (Sum(s.targets) < |s.targets| as real * c.solverEpsilon ==> expected == c.solverEpsilon)
  {
    hide Sum;
    InitialEta(log, s, features, c, i);
    var n, total := |s.targets| as real, Sum(s.targets);
    var mean := total / n;
    MultipliedMean(total, n);
    if mean < c.solverEpsilon {
      ScaledOrder(n, mean, c.solverEpsilon, total, n * c.solverEpsilon);
    } else if mean > c.solverEpsilon {
      ScaledOrder(n, c.solverEpsilon, mean, n * c.solverEpsilon, total);
    }
  }

  predicate AllTargetsEqual(targets: seq<nat>) {
    |targets| > 0 && forall i :: 0 <= i < |targets| ==> targets[i] == targets[0]
  }

  /** The initial point of this sample is stationary and its Newton system is not refused. */
  ghost predicate StartsStationary(exp: real -> real, log: real -> real, c: Config, targets: seq<nat>, features: nat,
                                   design: Matrix)
    requires c.solverEpsilon >= 0.0
  {
    var s := Sample(design, AsReals(targets));
    && |targets| > 0 && c.solverEpsilon <= 1.0
    && Stationary(exp, s, c, Initial(log, s.targets, features, c))
    && !RefusedAt(exp, s, c, Initial(log, s.targets, features, c))
  }

  lemma {:induction false} NothingToCombine(design: Matrix, residuals: Vector, l: nat, n: nat)
    requires n <= |design| && n <= |residuals| && forall i :: 0 <= i < n ==> l < |design[i]|
    requires forall i :: 0 <= i < n ==> residuals[i] == 0.0
    ensures Combine(design, residuals, l, n) == 0.0
  {
    if n > 0 {
      NothingToCombine(design, residuals, l, n - 1);
    }
  }

  /** When all targets are equal the initial point already is the optimum. */
  lemma EqualTargetsAreStationary(exp: real -> real, log: real -> real, s: Sample, targets: seq<nat>, features: nat,
                                  c: Config)
    requires LogLaws(exp, log) && ValidConfig(c) && ValidSample(s, features + 1) && HasIntercept(s)
    requires s.targets == AsReals(targets) && AllTargetsEqual(targets) && targets[0] as real >= c.solverEpsilon
    ensures var p := Initial(log, s.targets, features, c); Stationary(exp, s, c, p) && p[0] == log(s.targets[0])
  {
    hide Eta, Combine;
    var p, t := Initial(log, s.targets, features, c), targets[0] as real;
    MeanIsBounded(s.targets, Identity, t, t);
    forall i | 0 <= i < |s.design| ensures Residuals(exp, s, p)[i] == 0.0 {
      InitialEta(log, s, features, c, i);
    }
    var g := Zeros(|p|);
    forall l | 0 <= l < |p| ensures GradientEntry(exp, s, p, c, l) == 0.0 {
      NothingToCombine(s.design, Residuals(exp, s, p), l, |s.design|);
    }
    assert IsGradient(exp, s, p, c, g) && IsZero(g);
  }

  /** The parameters of a fitted state, intercept first. */
  function Parameters(f: Fitted): Vector {
    [f.intercept] + f.coefficients
  }

  /** The fitted state is the point behind the first move within the tolerance on the Newton path that starts at the
      initial point of the standardised sample. */
  ghost predicate FittedOn(exp: real -> real, log: real -> real, sqrt: real -> real, c: Config, rows: Matrix,
                           targets: seq<nat>, f: Fitted, design: Matrix, path: seq<Vector>)
  {
    var s := Sample(design, AsReals(targets));
    && |rows| == |targets| && Standardizes(sqrt, rows, c.solverEpsilon, f.means, f.scales, design)
    && |path| == f.iterations + 1 >= 2 && f.iterations <= c.maxIterations
    && path[0] == Initial(log, s.targets, |f.means|, c)
    && ValidSample(s, |f.means| + 1) && NewtonPath(exp, s, c, path, |f.means| + 1)
    && SafePoint(s, c, path[|path| - 2], |f.means| + 1)
    && SmallMove(path[|path| - 2], path[|path| - 1], c.tolerance) && NeverSmall(path[..|path| - 1], c.tolerance)
    && Parameters(f) == path[|path| - 1] && |f.coefficients| == |f.means|
  }

  /** The iteration was started and gave up: its Newton path says why. */
  ghost predicate FailedOn(exp: real -> real, log: real -> real, sqrt: real -> real, c: Config, rows: Matrix,
                           targets: seq<nat>, features: nat, error: FitError, design: Matrix, path: seq<Vector>)
    requires c.solverEpsilon >= 0.0
  {
    var s := Sample(design, AsReals(targets));
    && |rows| == |targets| > 0 && |path| >= 1 && path[0] == Initial(log, s.targets, features, c)
    && (exists means, scales ::
          |means| == features && Standardizes(sqrt, rows, c.solverEpsilon, means, scales, design))
    && NewtonPath(exp, s, c, path, features + 1) && Explains(error, exp, s, c, path, features + 1)
  }

  class Model {
    const exp: real -> real
    const log: real -> real
    const sqrt: real -> real
    const config: Config
    var state: Option<Fitted>

    /** Whatever was fitted can be applied to a row. */
    ghost predicate Valid()
      reads this
    {
      ValidConfig(config) && (state.Some? ==> WellFormed(state.value))
    }

    constructor (exp: real -> real, log: real -> real, sqrt: real -> real, config: Config)
      requires ValidConfig(config)
      ensures Valid() && this.exp == exp && this.log == log && this.sqrt == sqrt && this.config == config
      ensures state == None
    {
      this.exp, this.log, this.sqrt, this.config, this.state := exp, log, sqrt, config, None;
    }

    /** A successful fit replaces the state by the end of a descending, safe Newton path; a failed one leaves it alone.
        The unsafe-predictor failure of the iteration can not happen. */
    method Fit(rows: Matrix, targets: seq<nat>, features: nat)
      returns (failure: Option<FitError>, ghost design: Matrix, ghost path: seq<Vector>)
      requires Valid() && |rows| == |targets|
      requires forall i :: 0 <= i < |rows| ==> |rows[i]| == features
      modifies this
      ensures Valid()
      ensures failure != Some(UnsafeLinearPredictor) && failure != Some(NotFitted)
      ensures failure == Some(TooFewRows) <==> |rows| < config.minimumTrainingRows
      ensures failure == Some(UnsafeInitialPredictor)
        <==> (&& |rows| >= config.minimumTrainingRows
              && Initial(log, AsReals(targets), features, config)[0] > config.linearPredictorLimit)
      ensures failure.Some? && !failure.value.TooFewRows? && !failure.value.UnsafeInitialPredictor? ==>
                FailedOn(exp, log, sqrt, config, rows, targets, features, failure.value, design, path)
      ensures ExpLaws(exp) && RidgeDominates(config, features + 1) ==> failure != Some(SingularNewtonSystem)
      ensures ExpLaws(exp) && AllRowsEqual(rows) && features >= 1 && config.l2Penalty <= config.solverEpsilon ==>
                failure == Some(TooFewRows) || failure == Some(UnsafeInitialPredictor)
                || failure == Some(SingularNewtonSystem)
      ensures failure.Some? ==> state == old(state)
      ensures failure.None? ==>
                && state.Some? && |state.value.means| == features
                && FittedOn(exp, log, sqrt, config, rows, targets, state.value, design, path)
      ensures StartsStationary(exp, log, config, targets, features, design) && |rows| >= config.minimumTrainingRows
              && failure != Some(UnsafeInitialPredictor) ==>
                && failure.None? && state.Some? && state.value.iterations == 1
                && Parameters(state.value) == Initial(log, AsReals(targets), features, config)
      ensures ExpLaws(exp) && LogLaws(exp, log) && RidgeDominates(config, features + 1) && config.solverEpsilon <= 1.0
              && |rows| >= config.minimumTrainingRows && failure != Some(UnsafeInitialPredictor)
              && AllTargetsEqual(targets) && targets[0] as real >= config.solverEpsilon ==>
                && failure.None? && state.Some? && state.value.iterations == 1
                && state.value.intercept == log(targets[0] as real) && IsZero(state.value.coefficients)
    {
      hide NewtonPath, SmallMove, NeverSmall, Stationary, Safe, Explains, Loss, Stuck, Scale, Mean, RefusedAt, ExpLaws,
           RidgeDominates;
      design, path := [], [];
      if |rows| < config.minimumTrainingRows {
        return Some(TooFewRows), design, path;
      }
      var means, scales, standardized := Standardize(sqrt, rows, features, config.solverEpsilon);
      design := standardized;
      var s := Sample(standardized, AsReals(targets));
      var initial := Initial(log, s.targets, features, config);
      if initial[0] > config.linearPredictorLimit {
        return Some(UnsafeInitialPredictor), design, path;
      }
      InitialPredictor(log, s, features, config);
      var result, steps := Iterate(exp, s, initial, config);
      path := steps;
      PathIsSafe(exp, s, config, path, |initial|);
      assert FitSample(s);
      if ExpLaws(exp) && AllRowsEqual(rows) && features >= 1 && config.l2Penalty <= config.solverEpsilon {
        EqualRowsStandardizeToZero(sqrt, rows, config.solverEpsilon, means, scales, design, s.targets);
        ConstantFeaturesAreRefusedAt(exp, s, config, initial);
      }
      if ExpLaws(exp) && LogLaws(exp, log) && RidgeDominates(config, features + 1) && config.solverEpsilon <= 1.0
         && AllTargetsEqual(targets) && targets[0] as real >= config.solverEpsilon {
        EqualTargetsAreStationary(exp, log, s, targets, features, config);
        DominatedIsNotRefused(exp, s, config, initial);
        assert StartsStationary(exp, log, config, targets, features, design);
      }
      if result.Err? {
        ExplainedFailure(result.error, exp, s, config, path, |initial|);
        return Some(result.error), design, path;
      }
      var (parameters, iterations) := result.value;
      state := Some(Fitted(means, scales, parameters[0], parameters[1..], iterations));
      assert [parameters[0]] + parameters[1..] == parameters;
      return None, design, path;
    }

    /** The prediction for one row of raw features: the exponential of its linear predictor, capped at the limit. */
    method Predict(row: Vector) returns (result: Result<real, FitError>)
      requires Valid() && (state.Some? ==> |row| == |state.value.means|)
      ensures result.Err? <==> state.None?
      ensures result.Ok? ==>
                result.value == exp(Smaller(Eta(Parameters(state.value),
                                                DesignRow(row, state.value.means, state.value.scales)),
                                            config.linearPredictorLimit))
      ensures result.Ok? && ExpLaws(exp) ==> 0.0 < result.value <= exp(config.linearPredictorLimit)
    {
      if state.None? {
        return Err(NotFitted);
      }
      var f := state.value;
      var standardized := Standardized(row, f.means, f.scales);
      var eta := f.intercept + Dot(f.coefficients, standardized, |standardized|);
      InterceptFirst(f.intercept, f.coefficients, standardized, |standardized|);
      if ExpLaws(exp) {
        PredictionIsBounded(exp, eta, config.linearPredictorLimit);
      }
      return Ok(exp(Smaller(eta, config.linearPredictorLimit)));
    }
  }

  predicate WellFormed(f: Fitted) {
    |f.means| == |f.scales| == |f.coefficients| && forall j :: 0 <= j < |f.scales| ==> f.scales[j] != 0.0
  }

  lemma {:induction false} InterceptFirst(a: real, coefficients: Vector, row: Vector, n: nat)
    requires n <= |coefficients| && n <= |row|
    ensures Dot([a] + coefficients, [1.0] + row, n + 1) == a + Dot(coefficients, row, n)
  {
    if n == 0 {
      assert Dot([a] + coefficients, [1.0] + row, 0 + 1) == Dot([a] + coefficients, [1.0] + row, 0) + a * 1.0;
    } else {
      InterceptFirst(a, coefficients, row, n - 1);
    }
  }

  lemma PathIsSafe(exp: real -> real, s: Sample, c: Config, path: seq<Vector>, dimension: nat)
    requires |path| >= 1 && NewtonPath(exp, s, c, path, dimension)
    ensures SafePoint(s, c, path[|path| - 1], dimension)
    ensures |path| >= 2 ==> SafePoint(s, c, path[|path| - 2], dimension)
  {
  }

  lemma ExplainedFailure(error: FitError, exp: real -> real, s: Sample, c: Config, path: seq<Vector>, dimension: nat)
    requires |path| >= 1 && NewtonPath(exp, s, c, path, dimension) && c.solverEpsilon >= 0.0
    requires Explains(error, exp, s, c, path, dimension)
    ensures error.NotConverged? || error.SingularNewtonSystem? || error.NoStableUpdate?
    ensures error.SingularNewtonSystem? ==> RefusedAt(exp, s, c, path[|path| - 1])
  {
    hide NewtonPath, Stuck, RefusedAt;
  }

  // ---- what a fitted model promises ----------------------------------------

  /** The fit is never worse than its starting point, and on a training row the cap of `predict` is never active:
      the prediction is the expected count the fit itself used. */
  lemma FittedModelDescends(exp: real -> real, log: real -> real, sqrt: real -> real, c: Config, rows: Matrix,
                            targets: seq<nat>, f: Fitted, design: Matrix, path: seq<Vector>, i: nat)
    requires FittedOn(exp, log, sqrt, c, rows, targets, f, design, path) && i < |rows|
    ensures var s := Sample(design, AsReals(targets));
            && Loss(exp, s, Parameters(f), c) <= Loss(exp, s, Initial(log, s.targets, |f.means|, c), c)
            && design[i] == DesignRow(rows[i], f.means, f.scales)
            && exp(Smaller(Eta(Parameters(f), design[i]), c.linearPredictorLimit)) == Expected(exp, s, Parameters(f))[i]
  {
    hide Loss, SmallMove, NeverSmall, OnlyMove, Eta;
    var s := Sample(design, AsReals(targets));
    PathDescends(exp, s, c, path, |f.means| + 1, 0, |path| - 1);
  }

  /** Predictions are positive and at most the exponential of the limit. */
  lemma PredictionIsBounded(exp: real -> real, eta: real, limit: real)
    requires ExpLaws(exp)
    ensures 0.0 < exp(Smaller(eta, limit)) <= exp(limit)
  {
    assert exp(Smaller(eta, limit)) > 0.0 && exp(limit) > 0.0;
    if eta < limit {
      ExpGrows(exp, eta, limit);
    }
  }
}
