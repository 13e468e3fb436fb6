/** The penalised Poisson objective, its gradient and its Hessian as `fit` accumulates them. */
module PoissonObjective {
  import opened Foundations
  import opened Numerics
  import opened LinearSystem

  datatype Config = Config(
    l2Penalty: real,
    maxIterations: nat,
    tolerance: real,
    linearPredictorLimit: real,
    solverEpsilon: real,
    minimumTrainingRows: nat)

  predicate ValidConfig(c: Config) {
    && c.l2Penalty > 0.0 && c.maxIterations >= 1 && c.tolerance > 0.0
    && c.linearPredictorLimit > 0.0 && c.solverEpsilon > 0.0 && c.minimumTrainingRows >= 2
  }

  /** A design matrix with one target for every row. */
  datatype Sample = Sample(design: Matrix, targets: Vector)

  ghost predicate ValidSample(s: Sample, dimension: nat) {
    && dimension >= 1 && |s.design| == |s.targets|
    && (forall i :: 0 <= i < |s.design| ==> |s.design[i]| == dimension)
  }

  function Eta(p: Vector, row: Vector): real
    requires |p| == |row|
  {
    Dot(p, row, |row|)
  }

  // ---- the objective -------------------------------------------------------

  function LogLoss(exp: real -> real, s: Sample, p: Vector, n: nat): real
    requires ValidSample(s, |p|) && n <= |s.design|
  {
    if n == 0 then 0.0
    else
      var eta := Eta(p, s.design[n - 1]);
      LogLoss(exp, s, p, n - 1) + exp(eta) - s.targets[n - 1] * eta
  }

  function Square(x: real): real {
    x * x
  }

  /** The squares of all but the first of the first `n` parameters. */
  function SquaredCoefficients(p: Vector, n: nat): real
    requires n <= |p|
  {
    if n <= 1 then 0.0 else SquaredCoefficients(p, n - 1) + Square(p[n - 1])
  }

  function Loss(exp: real -> real, s: Sample, p: Vector, c: Config): real
    requires ValidSample(s, |p|)
  {
    LogLoss(exp, s, p, |s.design|) + 0.5 * c.l2Penalty * SquaredCoefficients(p, |p|)
  }

  ghost predicate Safe(s: Sample, p: Vector, c: Config)
    requires ValidSample(s, |p|)
  {
    forall i :: 0 <= i < |s.design| ==> Eta(p, s.design[i]) <= c.linearPredictorLimit
  }

  datatype Objective = Finite(value: real) | Infinite

  predicate AtMost(a: Objective, b: Objective) {
    b.Infinite? || (a.Finite? && a.value <= b.value)
  }

  ghost function ObjectiveAt(exp: real -> real, s: Sample, p: Vector, c: Config): Objective
    requires ValidSample(s, |p|)
  {
    if Safe(s, p, c) then Finite(Loss(exp, s, p, c)) else Infinite
  }

  /** `_objective`: infinite as soon as one linear predictor leaves the safe range. */
  method ComputeObjective(exp: real -> real, s: Sample, p: Vector, c: Config) returns (objective: Objective)
    requires ValidSample(s, |p|)
    ensures objective == ObjectiveAt(exp, s, p, c)
  {
    var value := 0.0;
    for i := 0 to |s.design|
      invariant value == LogLoss(exp, s, p, i)
      invariant forall k :: 0 <= k < i ==> Eta(p, s.design[k]) <= c.linearPredictorLimit
    {
      var eta := Eta(p, s.design[i]);
      if eta > c.linearPredictorLimit {
        return Infinite;
      }
      value := value + (exp(eta) - s.targets[i] * eta);
    }
    return Finite(value + 0.5 * c.l2Penalty * SquaredCoefficients(p, |p|));
  }

  // ---- gradient and Hessian, entry by entry --------------------------------

  /** Column `l` of the design against one coefficient for each row. */
  function Combine(design: Matrix, s: Vector, l: nat, n: nat): real
    requires n <= |design| && n <= |s| && forall i :: 0 <= i < n ==> l < |design[i]|
  {
    if n == 0 then 0.0 else Combine(design, s, l, n - 1) + design[n - 1][l] * s[n - 1]
  }

  function Expected(exp: real -> real, s: Sample, p: Vector): (expected: Vector)
    requires ValidSample(s, |p|)
    ensures |expected| == |s.design|
  {
    seq(|s.design|, i requires 0 <= i < |s.design| => exp(Eta(p, s.design[i])))
  }

  function Residuals(exp: real -> real, s: Sample, p: Vector): Vector
    requires ValidSample(s, |p|)
  {
    seq(|s.design|, i requires 0 <= i < |s.design| => s.targets[i] - exp(Eta(p, s.design[i])))
  }

  function GradientEntry(exp: real -> real, s: Sample, p: Vector, c: Config, l: nat): real
    requires ValidSample(s, |p|) && l < |p|
  {
    Combine(s.design, Residuals(exp, s, p), l, |s.design|) - if l == 0 then 0.0 else c.l2Penalty * p[l]
  }

  function Gram(design: Matrix, weights: Vector, l: nat, r: nat, n: nat): real
    requires n <= |design| && n <= |weights| && forall i :: 0 <= i < n ==> l < |design[i]| && r < |design[i]|
  {
    if n == 0 then 0.0
    else Gram(design, weights, l, r, n - 1) + design[n - 1][l] * weights[n - 1] * design[n - 1][r]
  }

  function Ridge(c: Config, l: nat): real {
    if l == 0 then c.solverEpsilon else c.l2Penalty
  }

  function HessianEntry(exp: real -> real, s: Sample, p: Vector, c: Config, l: nat, r: nat): real
    requires ValidSample(s, |p|) && l < |p| && r < |p|
  {
    Gram(s.design, Expected(exp, s, p), l, r, |s.design|) + if l == r then Ridge(c, l) else 0.0
  }

  ghost predicate IsGradient(exp: real -> real, s: Sample, p: Vector, c: Config, g: Vector) {
    && ValidSample(s, |p|) && |g| == |p|
    && forall l :: 0 <= l < |p| ==> g[l] == GradientEntry(exp, s, p, c, l)
  }

  ghost predicate IsHessian(exp: real -> real, s: Sample, p: Vector, c: Config, h: Matrix) {
    && ValidSample(s, |p|) && Sized(h, |p|, |p|)
    && forall l, r {:trigger h[l][r]} :: 0 <= l < |p| && 0 <= r < |p| ==> h[l][r] == HessianEntry(exp, s, p, c, l, r)
  }

  /** The step `fit` would take: the solution of the Newton system. */
  ghost predicate NewtonDirection(exp: real -> real, s: Sample, p: Vector, c: Config, delta: Vector) {
    && |delta| == |p|
    && exists g, h :: IsGradient(exp, s, p, c, g) && IsHessian(exp, s, p, c, h) && Maps(h, delta, g)
  }

  // ---- exchanging the two sums ---------------------------------------------

  /** The rows' inner products with `u`, weighted by `s`. */
  function RowSum(design: Matrix, s: Vector, u: Vector, k: nat, n: nat): real
    requires n <= |design| && n <= |s| && k <= |u| && forall i :: 0 <= i < n ==> k <= |design[i]|
  {
    if n == 0 then 0.0 else RowSum(design, s, u, k, n - 1) + s[n - 1] * Dot(design[n - 1], u, k)
  }

  lemma {:induction false} RowSumStep(design: Matrix, s: Vector, u: Vector, k: nat, n: nat)
    requires n <= |design| && n <= |s| && 0 < k <= |u| && forall i :: 0 <= i < n ==> k <= |design[i]|
    ensures RowSum(design, s, u, k, n) == RowSum(design, s, u, k - 1, n) + u[k - 1] * Combine(design, s, k - 1, n)
  {
    if n > 0 {
      RowSumStep(design, s, u, k, n - 1);
      var row, a := design[n - 1], Combine(design, s, k - 1, n - 1);
      assert Dot(row, u, k) == Dot(row, u, k - 1) + row[k - 1] * u[k - 1];
      Distribute(s[n - 1], Dot(row, u, k - 1), row[k - 1], u[k - 1], a);
    }
  }

  lemma Distribute(s: real, d: real, x: real, u: real, a: real)
    ensures s * (d + x * u) + u * a == s * d + u * (a + x * s)
  {
    assert s * (d + x * u) == s * d + s * (x * u);
    assert u * (a + x * s) == u * a + u * (x * s);
    assert s * (x * u) == u * (x * s);
  }

  lemma {:induction false} RowSumIsEmpty(design: Matrix, s: Vector, u: Vector, n: nat)
    requires n <= |design| && n <= |s|
    ensures RowSum(design, s, u, 0, n) == 0.0
  {
    if n > 0 {
      RowSumIsEmpty(design, s, u, n - 1);
    }
  }

  /** Summing over rows or over columns first gives the same. */
  lemma {:induction false} Exchange(design: Matrix, s: Vector, u: Vector, columns: Vector, k: nat)
    requires |s| == |design| && k <= |u| && k <= |columns| && forall i :: 0 <= i < |design| ==> k <= |design[i]|
    requires forall l :: 0 <= l < k ==> columns[l] == Combine(design, s, l, |design|)
    ensures Dot(columns, u, k) == RowSum(design, s, u, k, |design|)
  {
    if k == 0 {
      RowSumIsEmpty(design, s, u, |design|);
    } else {
      Exchange(design, s, u, columns, k - 1);
      RowSumStep(design, s, u, k, |design|);
    }
  }
}
