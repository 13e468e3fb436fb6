/** Why the Newton step of `fit` exists and what a stationary point is. */
module NewtonTheory {
  import opened Numerics
  import opened LinearSystem
  import opened PoissonObjective

  // ---- the quadratic form of the Hessian -----------------------------------

  function Image(h: Matrix, v: Vector): Vector
    requires Sized(h, |v|, |v|)
  {
    seq(|v|, l requires 0 <= l < |v| => Dot(h[l], v, |v|))
  }

  function QuadraticForm(h: Matrix, v: Vector): real
    requires Sized(h, |v|, |v|)
  {
    Dot(Image(h, v), v, |v|)
  }

  function FisherEnergy(design: Matrix, weights: Vector, v: Vector, n: nat): real
    requires n <= |design| && n <= |weights| && forall i :: 0 <= i < n ==> |design[i]| == |v|
  {
    if n == 0 then 0.0
    else
      var x := Dot(design[n - 1], v, |v|);
      FisherEnergy(design, weights, v, n - 1) + weights[n - 1] * Square(x)
  }

  function RidgeEnergy(c: Config, v: Vector, n: nat): real
    requires n <= |v|
  {
    if n == 0 then 0.0 else RidgeEnergy(c, v, n - 1) + Ridge(c, n - 1) * Square(v[n - 1])
  }

  function Reweighted(design: Matrix, weights: Vector, v: Vector): (reweighted: Vector)
    requires |design| == |weights| && forall i :: 0 <= i < |design| ==> |design[i]| == |v|
    ensures |reweighted| == |design|
  {
    seq(|design|, i requires 0 <= i < |design| => weights[i] * Dot(design[i], v, |v|))
  }

  function ColumnWeights(design: Matrix, weights: Vector, l: nat): Vector
    requires |design| == |weights| && forall i :: 0 <= i < |design| ==> l < |design[i]|
  {
    seq(|design|, i requires 0 <= i < |design| => design[i][l] * weights[i])
  }

  lemma {:induction false} GramIsCombine(design: Matrix, weights: Vector, l: nat, r: nat, n: nat)
    requires |design| == |weights| && n <= |design|
    requires forall i :: 0 <= i < |design| ==> l < |design[i]| && r < |design[i]|
    ensures Gram(design, weights, l, r, n) == Combine(design, ColumnWeights(design, weights, l), r, n)
  {
    if n > 0 {
      GramIsCombine(design, weights, l, r, n - 1);
    }
  }

  lemma {:induction false} GramIsSymmetric(design: Matrix, weights: Vector, l: nat, r: nat, n: nat)
    requires n <= |design| && n <= |weights| && forall i :: 0 <= i < n ==> l < |design[i]| && r < |design[i]|
    ensures Gram(design, weights, l, r, n) == Gram(design, weights, r, l, n)
  {
    if n > 0 {
      GramIsSymmetric(design, weights, l, r, n - 1);
    }
  }

  lemma {:induction false} RegroupRows(design: Matrix, weights: Vector, v: Vector, l: nat, n: nat)
    requires |design| == |weights| && n <= |design| && l < |v| && forall i :: 0 <= i < |design| ==> |design[i]| == |v|
    ensures RowSum(design, ColumnWeights(design, weights, l), v, |v|, n)
              == Combine(design, Reweighted(design, weights, v), l, n)
  {
    if n > 0 {
      RegroupRows(design, weights, v, l, n - 1);
      Associate(design[n - 1][l], weights[n - 1], Dot(design[n - 1], v, |v|));
    }
  }

  lemma Associate(x: real, w: real, d: real)
    ensures (x * w) * d == x * (w * d)
  {
  }

  lemma {:induction false} RowSumIsFisherEnergy(design: Matrix, weights: Vector, v: Vector, n: nat)
    requires |design| == |weights| && n <= |design| && forall i :: 0 <= i < |design| ==> |design[i]| == |v|
    ensures RowSum(design, Reweighted(design, weights, v), v, |v|, n) == FisherEnergy(design, weights, v, n)
  {
    if n > 0 {
      RowSumIsFisherEnergy(design, weights, v, n - 1);
      var x := Dot(design[n - 1], v, |v|);
      Associate(weights[n - 1], x, x);
      assert x * x == Square(x);
    }
  }

  lemma {:induction false} DotBump(a: Vector, b: Vector, l: nat, x: real, v: Vector, n: nat)
    requires n <= |a| && n <= |b| && n <= |v|
    requires forall j :: 0 <= j < n ==> b[j] == a[j] + if j == l then x else 0.0
    ensures Dot(b, v, n) == Dot(a, v, n) + if l < n then x * v[l] else 0.0
  {
    if n > 0 {
      DotBump(a, b, l, x, v, n - 1);
    }
  }

  lemma GramRow(design: Matrix, weights: Vector, v: Vector, l: nat, gram: Vector)
    requires |design| == |weights| && l < |v| && |gram| == |v| && forall i :: 0 <= i < |design| ==> |design[i]| == |v|
    requires forall r :: 0 <= r < |v| ==> gram[r] == Gram(design, weights, l, r, |design|)
    ensures Dot(gram, v, |v|) == Combine(design, Reweighted(design, weights, v), l, |design|)
  {
    hide Gram, Combine, RowSum, Dot;
    forall r | 0 <= r < |v| ensures gram[r] == Combine(design, ColumnWeights(design, weights, l), r, |design|) {
      GramIsCombine(design, weights, l, r, |design|);
    }
    Exchange(design, ColumnWeights(design, weights, l), v, gram, |v|);
    RegroupRows(design, weights, v, l, |design|);
  }

  /** One row of the Hessian applied to a vector. */
  lemma HessianRow(exp: real -> real, s: Sample, p: Vector, c: Config, h: Matrix, v: Vector, l: nat)
    requires IsHessian(exp, s, p, c, h) && |v| == |p| && l < |p|
    ensures Dot(h[l], v, |v|)
              == Combine(s.design, Reweighted(s.design, Expected(exp, s, p), v), l, |s.design|) + Ridge(c, l) * v[l]
  {
    hide Gram, Combine, Dot, Ridge, Reweighted;
    var w := Expected(exp, s, p);
    var gram := seq(|p|, r requires 0 <= r < |p| => Gram(s.design, w, l, r, |s.design|));
    GramRow(s.design, w, v, l, gram);
    assert forall r :: 0 <= r < |p| ==> h[l][r] == HessianEntry(exp, s, p, c, l, r);
    DotBump(gram, h[l], l, Ridge(c, l), v, |v|);
  }

  lemma {:induction false} ImageEnergy(c: Config, image: Vector, columns: Vector, v: Vector, n: nat)
    requires n <= |image| && n <= |columns| && n <= |v|
    requires forall l :: 0 <= l < n ==> image[l] == columns[l] + Ridge(c, l) * v[l]
    ensures Dot(image, v, n) == Dot(columns, v, n) + RidgeEnergy(c, v, n)
  {
    if n > 0 {
      ImageEnergy(c, image, columns, v, n - 1);
      Associate(Ridge(c, n - 1), v[n - 1], v[n - 1]);
      assert v[n - 1] * v[n - 1] == Square(v[n - 1]);
    }
  }

  /** The accumulated Hessian is symmetric. */
  lemma HessianIsSymmetric(exp: real -> real, s: Sample, p: Vector, c: Config, h: Matrix, l: nat, r: nat)
    requires IsHessian(exp, s, p, c, h) && l < |p| && r < |p|
    ensures h[l][r] == h[r][l]
  {
    GramIsSymmetric(s.design, Expected(exp, s, p), l, r, |s.design|);
  }

  /** Its quadratic form is a weighted sum of squares: one for each row, one for each parameter. */
  lemma HessianIsSumOfSquares(exp: real -> real, s: Sample, p: Vector, c: Config, h: Matrix, v: Vector)
    requires IsHessian(exp, s, p, c, h) && |v| == |p|
    ensures QuadraticForm(h, v) == FisherEnergy(s.design, Expected(exp, s, p), v, |s.design|) + RidgeEnergy(c, v, |v|)
  {
    var w := Expected(exp, s, p);
    var t := Reweighted(s.design, w, v);
    var columns := seq(|v|, l requires 0 <= l < |v| => Combine(s.design, t, l, |s.design|));
    forall l | 0 <= l < |v| ensures Image(h, v)[l] == columns[l] + Ridge(c, l) * v[l] {
      HessianRow(exp, s, p, c, h, v, l);
    }
    ImageEnergy(c, Image(h, v), columns, v, |v|);
    Exchange(s.design, t, v, columns, |v|);
    RowSumIsFisherEnergy(s.design, w, v, |s.design|);
  }

  lemma SquareIsPositive(w: real, x: real)
    requires w > 0.0
    ensures w * Square(x) >= 0.0
    ensures w * Square(x) == 0.0 ==> x == 0.0
  {
    if x > 0.0 {
      ProductIsPositive(x, x, Square(x));
      ProductIsPositive(w, Square(x), w * Square(x));
    } else if x < 0.0 {
      ProductIsPositive(-x, -x, Square(x));
      ProductIsPositive(w, Square(x), w * Square(x));
    }
  }

  lemma {:induction false} FisherEnergyIsNonNegative(design: Matrix, weights: Vector, v: Vector, n: nat)
    requires n <= |design| && n <= |weights| && forall i :: 0 <= i < n ==> |design[i]| == |v|
    requires forall i :: 0 <= i < n ==> weights[i] > 0.0
    ensures FisherEnergy(design, weights, v, n) >= 0.0
  {
    if n > 0 {
      FisherEnergyIsNonNegative(design, weights, v, n - 1);
      SquareIsPositive(weights[n - 1], Dot(design[n - 1], v, |v|));
    }
  }

  lemma RidgeIsPositive(c: Config, l: nat)
    requires ValidConfig(c)
    ensures Ridge(c, l) > 0.0
  {
  }

  lemma {:induction false} RidgeEnergyIsPositive(c: Config, v: Vector, n: nat)
    requires ValidConfig(c) && n <= |v|
    ensures RidgeEnergy(c, v, n) >= 0.0
    ensures RidgeEnergy(c, v, n) == 0.0 ==> forall j :: 0 <= j < n ==> v[j] == 0.0
  {
    hide Square, Ridge;
    if n > 0 {
      RidgeIsPositive(c, n - 1);
      RidgeEnergyIsPositive(c, v, n - 1);
      SquareIsPositive(Ridge(c, n - 1), v[n - 1]);
      if RidgeEnergy(c, v, n) == 0.0 {
        assert Ridge(c, n - 1) * Square(v[n - 1]) == 0.0;
      }
    }
  }

  /** For every design and every parameter vector the Hessian is positive definite. */
  lemma HessianIsPositiveDefinite(exp: real -> real, s: Sample, p: Vector, c: Config, h: Matrix, v: Vector)
    requires ExpLaws(exp) && ValidConfig(c) && IsHessian(exp, s, p, c, h) && |v| == |p|
    ensures QuadraticForm(h, v) >= 0.0
    ensures QuadraticForm(h, v) == 0.0 <==> IsZero(v)
  {
    HessianIsSumOfSquares(exp, s, p, c, h, v);
    FisherEnergyIsNonNegative(s.design, Expected(exp, s, p), v, |s.design|);
    RidgeEnergyIsPositive(c, v, |v|);
    if IsZero(v) {
      DotZero(Image(h, v), v, |v|);
    }
  }

  /** So the Newton system is never singular: with threshold zero the solver could not refuse it. */
  lemma HessianIsNeverSingular(exp: real -> real, s: Sample, p: Vector, c: Config, h: Matrix)
    requires ExpLaws(exp) && ValidConfig(c) && IsHessian(exp, s, p, c, h)
    ensures !Singular(h)
  {
    forall v: Vector | |v| == |h| && Maps(h, v, Zeros(|v|)) ensures IsZero(v) {
      DotZero(Image(h, v), v, |v|);
      HessianIsPositiveDefinite(exp, s, p, c, h, v);
    }
  }

  /** The Newton direction climbs the log-likelihood: gradient times direction is the quadratic form of the
      direction. */
  lemma DirectionAscends(exp: real -> real, s: Sample, p: Vector, c: Config, g: Vector, h: Matrix, delta: Vector)
    requires ExpLaws(exp) && ValidConfig(c) && |delta| == |p|
    requires IsGradient(exp, s, p, c, g) && IsHessian(exp, s, p, c, h) && Maps(h, delta, g)
    ensures Dot(g, delta, |delta|) == QuadraticForm(h, delta)
    ensures Dot(g, delta, |delta|) >= 0.0
    ensures Dot(g, delta, |delta|) == 0.0 <==> IsZero(delta)
    ensures IsZero(delta) <==> IsZero(g)
  {
    hide Dot, IsHessian, IsGradient, ExpLaws;
    assert Image(h, delta) == g;
    HessianIsPositiveDefinite(exp, s, p, c, h, delta);
    if IsZero(delta) {
      forall l | 0 <= l < |g| ensures g[l] == 0.0 {
        DotZero(h[l], delta, |delta|);
      }
    }
    if IsZero(g) {
      DotZero(g, delta, |delta|);
    }
  }

  // ---- convexity -----------------------------------------------------------

  function Difference(q: Vector, p: Vector): Vector
    requires |q| == |p|
  {
    seq(|p|, j requires 0 <= j < |p| => q[j] - p[j])
  }

  lemma {:induction false} EtaDifference(q: Vector, p: Vector, row: Vector, n: nat)
    requires |q| == |p| == |row| && n <= |row|
    ensures Dot(q, row, n) - Dot(p, row, n) == Dot(row, Difference(q, p), n)
  {
    if n > 0 {
      EtaDifference(q, p, row, n - 1);
      assert q[n - 1] * row[n - 1] - p[n - 1] * row[n - 1] == row[n - 1] * (q[n - 1] - p[n - 1]);
    }
  }

  lemma TangentLine(exp: real -> real, target: real, x: real, y: real)
    requires ExpLaws(exp)
    ensures exp(y) - target * y >= exp(x) - target * x - (target - exp(x)) * (y - x)
    ensures x != y ==> exp(y) - target * y > exp(x) - target * x - (target - exp(x)) * (y - x)
  {
    assert (target - exp(x)) * (y - x) == target * y - target * x - exp(x) * (y - x);
    if x != y {
      assert exp(y) > exp(x) + exp(x) * (y - x);
    }
  }

  ghost predicate SameEtas(s: Sample, p: Vector, q: Vector, n: nat)
    requires ValidSample(s, |p|) && |q| == |p| && n <= |s.design|
  {
    forall i :: 0 <= i < n ==> Eta(p, s.design[i]) == Eta(q, s.design[i])
  }

  /** The log-loss at `q` is never below its tangent at `p`, and meets it only where no linear predictor differs. */
  ghost predicate AboveTangent(exp: real -> real, s: Sample, p: Vector, q: Vector, n: nat)
    requires ValidSample(s, |p|) && |q| == |p| && n <= |s.design|
  {
    var tangent := LogLoss(exp, s, p, n) - RowSum(s.design, Residuals(exp, s, p), Difference(q, p), |p|, n);
    && LogLoss(exp, s, q, n) >= tangent
    && (LogLoss(exp, s, q, n) == tangent ==> SameEtas(s, p, q, n))
  }

  lemma {:induction false} LogLossIsConvex(exp: real -> real, s: Sample, p: Vector, q: Vector, n: nat)
    requires ExpLaws(exp) && ValidSample(s, |p|) && |q| == |p| && n <= |s.design|
    ensures AboveTangent(exp, s, p, q, n)
  {
    if n > 0 {
      LogLossIsConvex(exp, s, p, q, n - 1);
      LogLossStep(exp, s, p, q, n);
    }
  }

  /** The contribution of the last row to the tangent. */
  lemma LastRow(exp: real -> real, s: Sample, p: Vector, q: Vector, n: nat)
    requires ValidSample(s, |p|) && |q| == |p| && 0 < n <= |s.design|
    ensures var x, y := Eta(p, s.design[n - 1]), Eta(q, s.design[n - 1]);
            var r, u := Residuals(exp, s, p), Difference(q, p);
            RowSum(s.design, r, u, |p|, n) == RowSum(s.design, r, u, |p|, n - 1) + (s.targets[n - 1] - exp(x)) * (y - x)
  {
    hide Dot;
    var row, u, r := s.design[n - 1], Difference(q, p), Residuals(exp, s, p);
    var x, y := Eta(p, row), Eta(q, row);
    EtaDifference(q, p, row, |row|);
    var d := Dot(row, u, |p|);
    assert d == y - x;
    assert r[n - 1] == s.targets[n - 1] - exp(x);
    assert RowSum(s.design, r, u, |p|, n) == RowSum(s.design, r, u, |p|, n - 1) + r[n - 1] * d;
  }

  lemma LogLossStep(exp: real -> real, s: Sample, p: Vector, q: Vector, n: nat)
    requires ExpLaws(exp) && ValidSample(s, |p|) && |q| == |p| && 0 < n <= |s.design|
    requires AboveTangent(exp, s, p, q, n - 1)
    ensures AboveTangent(exp, s, p, q, n)
  {
    hide Dot, RowSum, ExpLaws, Eta;
    LastRow(exp, s, p, q, n);
    TangentLine(exp, s.targets[n - 1], Eta(p, s.design[n - 1]), Eta(q, s.design[n - 1]));
  }

  /** The penalty at `q`, expanded around `p`. */
  ghost predicate PenaltyExpansion(p: Vector, q: Vector, columns: Vector, g: Vector, half: real, n: nat)
    requires |q| == |p| == |columns| == |g| && n <= |p|
  {
    var u := Difference(q, p);
    half * SquaredCoefficients(q, n)
      == half * SquaredCoefficients(p, n) + half * SquaredCoefficients(u, n) + Dot(columns, u, n) - Dot(g, u, n)
  }

  lemma {:induction false} PenaltyExpands(p: Vector, q: Vector, columns: Vector, g: Vector, half: real, n: nat)
    requires |q| == |p| == |columns| == |g| && n <= |p|
    requires forall l :: 0 <= l < n ==> g[l] == columns[l] - if l == 0 then 0.0 else 2.0 * half * p[l]
    ensures PenaltyExpansion(p, q, columns, g, half, n)
  {
    hide Square;
    if n > 1 {
      PenaltyExpands(p, q, columns, g, half, n - 1);
      PenaltyStep(p, q, columns, g, half, n);
    } else if n == 1 {
      var u := Difference(q, p);
      assert Dot(columns, u, 1) == Dot(columns, u, 0) + columns[0] * u[0];
      assert Dot(g, u, 1) == Dot(g, u, 0) + g[0] * u[0];
    }
  }

  lemma PenaltyStep(p: Vector, q: Vector, columns: Vector, g: Vector, half: real, n: nat)
    requires |q| == |p| == |columns| == |g| && 1 < n <= |p| && g[n - 1] == columns[n - 1] - 2.0 * half * p[n - 1]
    requires PenaltyExpansion(p, q, columns, g, half, n - 1)
    ensures PenaltyExpansion(p, q, columns, g, half, n)
  {
    hide Square;
    var m, u := n - 1, Difference(q, p);
    assert u[m] == q[m] - p[m];
    assert Dot(columns, u, n) == Dot(columns, u, m) + columns[m] * u[m] && Dot(g, u, n) == Dot(g, u, m) + g[m] * u[m];
    SquareExpands(half, p[m], q[m], columns[m], g[m], u[m]);
    Spread(half, SquaredCoefficients(q, m), Square(q[m]));
    Spread(half, SquaredCoefficients(p, m), Square(p[m]));
    Spread(half, SquaredCoefficients(u, m), Square(u[m]));
    hide Dot, SquaredCoefficients;
  }

  lemma Spread(half: real, a: real, b: real)
    ensures half * (a + b) == half * a + half * b
  {
  }

  lemma SquareExpands(half: real, p: real, q: real, column: real, g: real, u: real)
    requires g == column - 2.0 * half * p && u == q - p
    ensures half * Square(q) == half * Square(p) + half * Square(u) + column * u - g * u
  {
    assert Square(q) == Square(p) + 2.0 * (p * u) + Square(u) by {
      assert q == p + u;
    }
    assert (column - g) * u == (2.0 * half * p) * u;
  }

  function TangentBound(exp: real -> real, s: Sample, p: Vector, q: Vector, c: Config, g: Vector): real
    requires ValidSample(s, |p|) && |q| == |p| == |g|
  {
    var u := Difference(q, p);
    Loss(exp, s, p, c) - Dot(g, u, |p|) + 0.5 * c.l2Penalty * SquaredCoefficients(u, |p|)
  }

  /** Strong convexity: every point lies above the tangent plane by at least half the penalty times the squared
      distance of the coefficients, strictly when some linear predictor differs. */
  lemma LossIsConvex(exp: real -> real, s: Sample, p: Vector, q: Vector, c: Config, g: Vector)
    requires ExpLaws(exp) && ValidSample(s, |p|) && |q| == |p| && IsGradient(exp, s, p, c, g)
    ensures Loss(exp, s, q, c) >= TangentBound(exp, s, p, q, c, g)
    ensures Loss(exp, s, q, c) == TangentBound(exp, s, p, q, c, g) ==> SameEtas(s, p, q, |s.design|)
  {
    hide Combine, RowSum, Dot, LogLoss, SquaredCoefficients, ExpLaws, SameEtas;
    var u := Difference(q, p);
    var residuals := Residuals(exp, s, p);
    LogLossIsConvex(exp, s, p, q, |s.design|);
    var columns := Columns(s, p, residuals);
    Exchange(s.design, residuals, u, columns, |p|);
    PenaltyExpands(p, q, columns, g, 0.5 * c.l2Penalty, |p|);
  }

  function Columns(s: Sample, p: Vector, residuals: Vector): Vector
    requires ValidSample(s, |p|) && |residuals| == |s.design|
  {
    seq(|p|, l requires 0 <= l < |p| => Combine(s.design, residuals, l, |s.design|))
  }

  lemma {:induction false} SquaresVanish(v: Vector, n: nat)
    requires n <= |v|
    ensures SquaredCoefficients(v, n) >= 0.0
    ensures SquaredCoefficients(v, n) == 0.0 ==> forall j :: 1 <= j < n ==> v[j] == 0.0
  {
    hide Square;
    if n > 1 {
      SquaresVanish(v, n - 1);
      SquareIsPositive(1.0, v[n - 1]);
      if SquaredCoefficients(v, n) == 0.0 {
        assert 1.0 * Square(v[n - 1]) == 0.0;
      }
    }
  }

  /** The column of ones that `fit` puts in front of the standardised features. */
  ghost predicate HasIntercept(s: Sample) {
    forall i :: 0 <= i < |s.design| ==> |s.design[i]| > 0 && s.design[i][0] == 1.0
  }

  /** Where the gradient vanishes the objective has its one and only minimum. */
  lemma StationaryIsUniqueMinimum(exp: real -> real, s: Sample, p: Vector, c: Config, g: Vector, q: Vector)
    requires ExpLaws(exp) && ValidConfig(c) && ValidSample(s, |p|) && HasIntercept(s) && |s.design| > 0
    requires IsGradient(exp, s, p, c, g) && IsZero(g) && |q| == |p|
    ensures Loss(exp, s, p, c) <= Loss(exp, s, q, c)
    ensures Loss(exp, s, p, c) == Loss(exp, s, q, c) ==> p == q
  {
    var u := Difference(q, p);
    LossIsConvex(exp, s, p, q, c, g);
    DotZero(g, u, |p|);
    SquaresVanish(u, |p|);
    var half := 0.5 * c.l2Penalty;
    assert half * SquaredCoefficients(u, |p|) >= 0.0;
    if Loss(exp, s, p, c) == Loss(exp, s, q, c) {
      assert half * SquaredCoefficients(u, |p|) == 0.0;
      assert forall j :: 1 <= j < |p| ==> u[j] == 0.0;
      var row := s.design[0];
      EtaDifference(q, p, row, |row|);
      DotSingle(row, u, |row|, 0);
      assert u[0] == 0.0;
      forall j | 0 <= j < |p| ensures p[j] == q[j] {
        assert u[j] == q[j] - p[j];
      }
    }
  }

  /** If the solver's direction is zero, the current parameters are that minimum, and conversely. */
  lemma ZeroDirectionIsMinimum(exp: real -> real, s: Sample, p: Vector, c: Config, delta: Vector)
    requires ExpLaws(exp) && ValidConfig(c) && HasIntercept(s) && |s.design| > 0 && ValidSample(s, |p|)
    requires NewtonDirection(exp, s, p, c, delta)
    ensures IsZero(delta) ==> forall q: Vector | |q| == |p| && q != p :: Loss(exp, s, p, c) < Loss(exp, s, q, c)
    ensures !IsZero(delta) ==> exists g :: IsGradient(exp, s, p, c, g) && !IsZero(g)
  {
    var g, h :| IsGradient(exp, s, p, c, g) && IsHessian(exp, s, p, c, h) && Maps(h, delta, g);
    DirectionAscends(exp, s, p, c, g, h, delta);
    if IsZero(delta) {
      forall q: Vector | |q| == |p| && q != p ensures Loss(exp, s, p, c) < Loss(exp, s, q, c) {
        StationaryIsUniqueMinimum(exp, s, p, c, g, q);
      }
    }
  }
}
