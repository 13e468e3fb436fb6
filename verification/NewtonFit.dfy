/** `WRPoissonModel.fit` and `predict`: standardise, accumulate, solve, search along the direction, repeat. */
module NewtonFit {
  import opened Foundations
  import opened Numerics
  import opened LinearSystem
  import opened PoissonObjective
  import opened NewtonTheory
  import opened NewtonRefusal

  datatype FitError =
    | TooFewRows
    | UnsafeInitialPredictor
    | UnsafeLinearPredictor
    | SingularNewtonSystem
    | NoStableUpdate
    | NotConverged
    | NotFitted

  // ---- accumulating gradient and Hessian -----------------------------------

  method AddRow(gradient: Vector, hessian: Matrix, row: Vector, residual: real, expected: real)
    returns (gradient': Vector, hessian': Matrix)
    requires |gradient| == |row| && Sized(hessian, |row|, |row|)
    ensures |gradient'| == |row| && Sized(hessian', |row|, |row|)
    ensures forall l :: 0 <= l < |row| ==> gradient'[l] == gradient[l] + row[l] * residual
    ensures forall l, r {:trigger hessian'[l][r]} :: 0 <= l < |row| && 0 <= r < |row| ==>
              hessian'[l][r] == hessian[l][r] + row[l] * expected * row[r]
  {
    gradient', hessian' := gradient, hessian;
    for left := 0 to |row|
      invariant |gradient'| == |row| && Sized(hessian', |row|, |row|)
      invariant forall l :: 0 <= l < |row| ==>
                  gradient'[l] == if l < left then gradient[l] + row[l] * residual else gradient[l]
      invariant forall l, r {:trigger hessian'[l][r]} :: 0 <= l < left && 0 <= r < |row| ==>
                  hessian'[l][r] == hessian[l][r] + row[l] * expected * row[r]
      invariant forall l :: left <= l < |row| ==> hessian'[l] == hessian[l]
    {
      gradient' := gradient'[left := gradient'[left] + row[left] * residual];
      var entries := hessian'[left];
      for right := 0 to |row|
        invariant |entries| == |row|
        invariant forall r :: 0 <= r < right ==> entries[r] == hessian[left][r] + row[left] * expected * row[r]
        invariant forall r :: right <= r < |row| ==> entries[r] == hessian[left][r]
      {
        entries := entries[right := entries[right] + row[left] * expected * row[right]];
      }
      hessian' := hessian'[left := entries];
    }
  }

  method AddRidge(gradient: Vector, hessian: Matrix, p: Vector, c: Config) returns (gradient': Vector, hessian': Matrix)
    requires |p| >= 1 && |gradient| == |p| && Sized(hessian, |p|, |p|)
    ensures |gradient'| == |p| && Sized(hessian', |p|, |p|)
    ensures forall l :: 0 <= l < |p| ==> gradient'[l] == gradient[l] - if l == 0 then 0.0 else c.l2Penalty * p[l]
    ensures forall l, r {:trigger hessian'[l][r]} :: 0 <= l < |p| && 0 <= r < |p| ==>
              hessian'[l][r] == hessian[l][r] + if l == r then Ridge(c, l) else 0.0
  {
    gradient', hessian' := gradient, hessian[0 := hessian[0][0 := hessian[0][0] + c.solverEpsilon]];
    for index := 1 to |p|
      invariant |gradient'| == |p| && Sized(hessian', |p|, |p|)
      invariant forall l :: 0 <= l < |p| ==>
                  gradient'[l] == gradient[l] - if 0 < l < index then c.l2Penalty * p[l] else 0.0
      invariant forall l, r {:trigger hessian'[l][r]} :: 0 <= l < |p| && 0 <= r < |p| ==>
                  hessian'[l][r] == hessian[l][r] + if l == r && l < index then Ridge(c, l) else 0.0
    {
      gradient' := gradient'[index := gradient'[index] - c.l2Penalty * p[index]];
      hessian' := hessian'[index := hessian'[index][index := hessian'[index][index] + c.l2Penalty]];
    }
  }

  method AccumulateNewtonSystem(exp: real -> real, s: Sample, p: Vector, c: Config)
    returns (result: Result<(Vector, Matrix), FitError>)
    requires ValidSample(s, |p|)
    ensures result.Ok? <==> Safe(s, p, c)
    ensures result.Ok? ==> IsGradient(exp, s, p, c, result.value.0) && IsHessian(exp, s, p, c, result.value.1)
    ensures result.Err? ==> result.error == UnsafeLinearPredictor
  {
    hide Accumulated, IsGradient, IsHessian, Eta;
    var gradient, hessian := Zeros(|p|), seq(|p|, _ => Zeros(|p|));
    NothingAccumulated(exp, s, p, gradient, hessian);
    for i := 0 to |s.design|
      invariant forall k :: 0 <= k < i ==> Eta(p, s.design[k]) <= c.linearPredictorLimit
      invariant |gradient| == |p| && Sized(hessian, |p|, |p|) && Accumulated(exp, s, p, i, gradient, hessian)
    {
      var row := s.design[i];
      var eta := Eta(p, row);
      if eta > c.linearPredictorLimit {
        return Err(UnsafeLinearPredictor);
      }
      var expected := exp(eta);
      var gradient', hessian' := AddRow(gradient, hessian, row, s.targets[i] - expected, expected);
      AccumulatedStep(exp, s, p, i, gradient, hessian, gradient', hessian');
      gradient, hessian := gradient', hessian';
    }
    var g, h := AddRidge(gradient, hessian, p, c);
    RidgeCompletes(exp, s, p, c, gradient, hessian, g, h);
    return Ok((g, h));
  }

  /** The contributions of the first `n` rows. */
  ghost predicate Accumulated(exp: real -> real, s: Sample, p: Vector, n: nat, gradient: Vector, hessian: Matrix)
    requires ValidSample(s, |p|) && n <= |s.design|
  {
    && |gradient| == |p| && Sized(hessian, |p|, |p|)
    && (forall l :: 0 <= l < |p| ==> gradient[l] == Combine(s.design, Residuals(exp, s, p), l, n))
    && (forall l, r {:trigger hessian[l][r]} :: 0 <= l < |p| && 0 <= r < |p| ==>
          hessian[l][r] == Gram(s.design, Expected(exp, s, p), l, r, n))
  }

  lemma NothingAccumulated(exp: real -> real, s: Sample, p: Vector, gradient: Vector, hessian: Matrix)
    requires ValidSample(s, |p|) && |gradient| == |p| && Sized(hessian, |p|, |p|) && IsZero(gradient)
    requires forall l :: 0 <= l < |p| ==> IsZero(hessian[l])
    ensures Accumulated(exp, s, p, 0, gradient, hessian)
  {
  }

  lemma RidgeCompletes(exp: real -> real, s: Sample, p: Vector, c: Config, gradient: Vector, hessian: Matrix,
                       g: Vector, h: Matrix)
    requires ValidSample(s, |p|) && |gradient| == |p| && Sized(hessian, |p|, |p|)
    requires Accumulated(exp, s, p, |s.design|, gradient, hessian)
    requires |g| == |p| && Sized(h, |p|, |p|)
    requires forall l :: 0 <= l < |p| ==> g[l] == gradient[l] - if l == 0 then 0.0 else c.l2Penalty * p[l]
    requires forall l, r {:trigger h[l][r]} :: 0 <= l < |p| && 0 <= r < |p| ==>
               h[l][r] == hessian[l][r] + if l == r then Ridge(c, l) else 0.0
    ensures IsGradient(exp, s, p, c, g) && IsHessian(exp, s, p, c, h)
  {
    hide Combine, Gram, Ridge, Residuals, Eta;
  }

  lemma AccumulatedStep(exp: real -> real, s: Sample, p: Vector, n: nat, gradient: Vector, hessian: Matrix,
                        gradient': Vector, hessian': Matrix)
    requires ValidSample(s, |p|) && n < |s.design| && Accumulated(exp, s, p, n, gradient, hessian)
    requires |gradient'| == |p| && Sized(hessian', |p|, |p|)
    requires var row, expected := s.design[n], exp(Eta(p, s.design[n]));
             && (forall l :: 0 <= l < |p| ==> gradient'[l] == gradient[l] + row[l] * (s.targets[n] - expected))
             && (forall l, r {:trigger hessian'[l][r]} :: 0 <= l < |p| && 0 <= r < |p| ==>
                   hessian'[l][r] == hessian[l][r] + row[l] * expected * row[r])
    ensures Accumulated(exp, s, p, n + 1, gradient', hessian')
  {
    hide Eta;
    var row, w, residuals := s.design[n], Expected(exp, s, p), Residuals(exp, s, p);
    forall l | 0 <= l < |p| ensures gradient'[l] == Combine(s.design, residuals, l, n + 1) {
      assert residuals[n] == s.targets[n] - exp(Eta(p, row));
      hide Residuals, Expected, Gram;
    }
    forall l, r | 0 <= l < |p| && 0 <= r < |p| ensures hessian'[l][r] == Gram(s.design, w, l, r, n + 1) {
      assert w[n] == exp(Eta(p, row));
      hide Residuals, Expected, Combine;
      assert hessian[l][r] == Gram(s.design, w, l, r, n);
      assert hessian'[l][r] == hessian[l][r] + row[l] * w[n] * row[r];
    }
  }

  // ---- the line search -----------------------------------------------------

  function HalfPower(k: nat): (r: real)
    ensures 0.0 < r <= 1.0
  {
    if k == 0 then 1.0 else HalfPower(k - 1) / 2.0
  }

  function Advanced(p: Vector, step: real, delta: Vector): Vector
    requires |p| == |delta|
  {
    seq(|p|, j requires 0 <= j < |p| => p[j] + step * delta[j])
  }

  ghost predicate Accepts(exp: real -> real, s: Sample, p: Vector, c: Config, delta: Vector, step: real)
    requires ValidSample(s, |p|) && |delta| == |p|
  {
    AtMost(ObjectiveAt(exp, s, Advanced(p, step, delta), c), ObjectiveAt(exp, s, p, c))
  }

  /** `k` halvings lead to the first acceptable step not below the threshold. */
  ghost predicate FirstAccepted(exp: real -> real, s: Sample, p: Vector, c: Config, delta: Vector, k: nat)
    requires ValidSample(s, |p|) && |delta| == |p|
  {
    && HalfPower(k) >= c.solverEpsilon
    && Accepts(exp, s, p, c, delta, HalfPower(k))
    && forall j: nat :: j < k ==> !Accepts(exp, s, p, c, delta, HalfPower(j))
  }

  ghost predicate NoneAccepted(exp: real -> real, s: Sample, p: Vector, c: Config, delta: Vector)
    requires ValidSample(s, |p|) && |delta| == |p|
  {
    forall j: nat :: HalfPower(j) >= c.solverEpsilon ==> !Accepts(exp, s, p, c, delta, HalfPower(j))
  }

  lemma HalvingDecreases(step: real, epsilon: real)
    requires step >= epsilon > 0.0
    ensures 0 <= (step / 2.0 / epsilon).Floor < (step / epsilon).Floor
  {
    var x := step / epsilon;
    assert x >= 1.0;
    assert step / 2.0 / epsilon == x / 2.0;
  }

  lemma {:induction false} HalfPowersDescend(i: nat, j: nat)
    requires i <= j
    ensures HalfPower(j) <= HalfPower(i)
  {
    if i < j {
      HalfPowersDescend(i, j - 1);
    }
  }

  method SearchLine(exp: real -> real, s: Sample, p: Vector, c: Config, delta: Vector)
    returns (accepted: Option<(real, Vector)>, ghost halvings: nat)
    requires ValidSample(s, |p|) && |delta| == |p| && c.solverEpsilon > 0.0
    ensures accepted.None? ==> NoneAccepted(exp, s, p, c, delta)
    ensures accepted.Some? ==>
              && FirstAccepted(exp, s, p, c, delta, halvings)
              && accepted.value == (HalfPower(halvings), Advanced(p, HalfPower(halvings), delta))
  {
    hide ObjectiveAt, Advanced;
    var current := ComputeObjective(exp, s, p, c);
    var step := 1.0;
    halvings := 0;
    while step >= c.solverEpsilon
      invariant step == HalfPower(halvings)
      invariant forall j: nat :: j < halvings ==> !Accepts(exp, s, p, c, delta, HalfPower(j))
      decreases (step / c.solverEpsilon).Floor
    {
      var attempted := Advanced(p, step, delta);
      AdvancedIsSized(p, step, delta);
      var objective := ComputeObjective(exp, s, attempted, c);
      if AtMost(objective, current) {
        return Some((step, attempted)), halvings;
      }
      HalvingDecreases(step, c.solverEpsilon);
      step, halvings := step / 2.0, halvings + 1;
    }
    NothingLeftToTry(exp, s, p, c, delta, halvings);
    return None, halvings;
  }

  lemma AdvancedIsSized(p: Vector, step: real, delta: Vector)
    requires |p| == |delta|
    ensures |Advanced(p, step, delta)| == |p|
  {
  }

  lemma NothingLeftToTry(exp: real -> real, s: Sample, p: Vector, c: Config, delta: Vector, halvings: nat)
    requires ValidSample(s, |p|) && |delta| == |p| && HalfPower(halvings) < c.solverEpsilon
    requires forall j: nat :: j < halvings ==> !Accepts(exp, s, p, c, delta, HalfPower(j))
    ensures NoneAccepted(exp, s, p, c, delta)
  {
    hide Accepts;
    forall j: nat | HalfPower(j) >= c.solverEpsilon ensures !Accepts(exp, s, p, c, delta, HalfPower(j)) {
      if j >= halvings {
        HalfPowersDescend(halvings, j);
      }
    }
  }

  /** `HalfPower(k)` halved `k` times from one. */
  lemma {:induction false} HalfPowerIsPower(k: nat)
    ensures HalfPower(k) * TwoPower(k) == 1.0
  {
    if k > 0 {
      HalfPowerIsPower(k - 1);
      assert HalfPower(k) * TwoPower(k) == HalfPower(k - 1) / 2.0 * (2.0 * TwoPower(k - 1));
    }
  }

  function TwoPower(k: nat): real {
    if k == 0 then 1.0 else 2.0 * TwoPower(k - 1)
  }

  /** A direction that is zero is accepted at once and leaves the parameters where they are. */
  lemma ZeroIsAccepted(exp: real -> real, s: Sample, p: Vector, c: Config, delta: Vector)
    requires ValidSample(s, |p|) && |delta| == |p| && 1.0 >= c.solverEpsilon && IsZero(delta)
    ensures FirstAccepted(exp, s, p, c, delta, 0) && Advanced(p, HalfPower(0), delta) == p
  {
    assert Advanced(p, HalfPower(0), delta) == p;
  }

  // ---- the outer loop ------------------------------------------------------

  /** One iteration: the Newton direction, searched along until the objective does not increase. */
  ghost predicate Iteration(exp: real -> real, s: Sample, c: Config, p: Vector, delta: Vector, k: nat, next: Vector)
    requires ValidSample(s, |p|)
  {
    && NewtonDirection(exp, s, p, c, delta)
    && FirstAccepted(exp, s, p, c, delta, k)
    && next == Advanced(p, HalfPower(k), delta)
  }

  ghost predicate Follows(exp: real -> real, s: Sample, c: Config, p: Vector, next: Vector)
    requires ValidSample(s, |p|)
  {
    exists delta, k :: Iteration(exp, s, c, p, delta, k, next)
  }

  ghost predicate SafePoint(s: Sample, c: Config, p: Vector, dimension: nat) {
    |p| == dimension && ValidSample(s, |p|) && Safe(s, p, c)
  }

  /** The parameters after 0, 1, 2, ... iterations; every point keeps every linear predictor within the limit. */
  ghost predicate NewtonPath(exp: real -> real, s: Sample, c: Config, path: seq<Vector>, dimension: nat) {
    && (forall i :: 0 <= i < |path| ==> SafePoint(s, c, path[i], dimension))
    && (forall i {:trigger path[i + 1]} :: 0 <= i < |path| - 1 ==> OnlyMove(exp, s, c, path[i], path[i + 1]))
  }

  /** The start determines the path: two paths from one point agree as far as both go. */
  lemma {:induction false} PathsAgree(exp: real -> real, s: Sample, c: Config, a: seq<Vector>, b: seq<Vector>,
                                      dimension: nat, i: nat)
    requires NewtonPath(exp, s, c, a, dimension) && NewtonPath(exp, s, c, b, dimension)
    requires i < |a| && i < |b| && a[0] == b[0]
    ensures a[i] == b[i]
  {
    hide Follows, Safe;
    if i > 0 {
      PathsAgree(exp, s, c, a, b, dimension, i - 1);
      var m := i - 1;
      assert OnlyMove(exp, s, c, a[m], a[m + 1]) && OnlyMove(exp, s, c, b[m], b[m + 1]);
    }
  }

  /** The objective never increases along the path. */
  lemma {:induction false} PathDescends(exp: real -> real, s: Sample, c: Config, path: seq<Vector>, dimension: nat,
                                        i: nat, j: nat)
    requires NewtonPath(exp, s, c, path, dimension) && i <= j < |path|
    ensures SafePoint(s, c, path[i], dimension) && SafePoint(s, c, path[j], dimension)
    ensures Loss(exp, s, path[j], c) <= Loss(exp, s, path[i], c)
    decreases j
  {
    if i < j {
      PathDescends(exp, s, c, path, dimension, i, j - 1);
      var m := j - 1;
      assert OnlyMove(exp, s, c, path[m], path[m + 1]);
    }
  }

  /** A move that changes no parameter by more than the tolerance. */
  predicate SmallMove(p: Vector, next: Vector, tolerance: real) {
    |p| == |next| && forall j :: 0 <= j < |p| ==> Abs(next[j] - p[j]) <= tolerance
  }

  /** No move of the path stayed within the tolerance. */
  predicate NeverSmall(path: seq<Vector>, tolerance: real) {
    forall i {:trigger path[i + 1]} :: 0 <= i < |path| - 1 ==> !SmallMove(path[i], path[i + 1], tolerance)
  }

  /** The only point one iteration can lead to. */
  ghost predicate OnlyMove(exp: real -> real, s: Sample, c: Config, p: Vector, next: Vector)
    requires ValidSample(s, |p|)
  {
    Follows(exp, s, c, p, next) && forall other :: Follows(exp, s, c, p, other) ==> other == next
  }

  method WithinTolerance(p: Vector, step: real, delta: Vector, tolerance: real) returns (within: bool)
    requires |p| == |delta|
    ensures within <==> SmallMove(p, Advanced(p, step, delta), tolerance)
  {
    for j := 0 to |delta|
      invariant forall k :: 0 <= k < j ==> Abs(step * delta[k]) <= tolerance
    {
      assert Advanced(p, step, delta)[j] - p[j] == step * delta[j];
      if Abs(step * delta[j]) > tolerance {
        return false;
      }
    }
    return true;
  }

  /** No halving of the Newton direction above the threshold keeps the objective from increasing. */
  ghost predicate Stuck(exp: real -> real, s: Sample, c: Config, p: Vector)
    requires ValidSample(s, |p|)
  {
    exists delta :: NewtonDirection(exp, s, p, c, delta) && NoneAccepted(exp, s, p, c, delta)
  }

  /** The Newton system at this point meets a pivot that does not exceed the threshold. */
  ghost predicate RefusedAt(exp: real -> real, s: Sample, c: Config, p: Vector)
    requires c.solverEpsilon >= 0.0
  {
    exists g, h :: IsGradient(exp, s, p, c, g) && IsHessian(exp, s, p, c, h) && Refused(h, g, c.solverEpsilon)
  }

  /** Gradient and Hessian are determined by the point, so one system decides. */
  lemma OneSystem(exp: real -> real, s: Sample, c: Config, p: Vector, g: Vector, h: Matrix)
    requires ValidConfig(c) && IsGradient(exp, s, p, c, g) && IsHessian(exp, s, p, c, h)
    ensures RefusedAt(exp, s, c, p) <==> Refused(h, g, c.solverEpsilon)
  {
    hide Refused;
    forall g', h' | IsGradient(exp, s, p, c, g') && IsHessian(exp, s, p, c, h') ensures g' == g && h' == h {
      SameSystem(exp, s, c, p, g, h, g', h');
    }
  }

  lemma SameSystem(exp: real -> real, s: Sample, c: Config, p: Vector, g: Vector, h: Matrix, g': Vector, h': Matrix)
    requires IsGradient(exp, s, p, c, g) && IsHessian(exp, s, p, c, h) && IsGradient(exp, s, p, c, g')
    requires IsHessian(exp, s, p, c, h')
    ensures g' == g && h' == h
  {
    forall l | 0 <= l < |p| ensures h'[l] == h[l] {
      forall r | 0 <= r < |p| ensures h'[l][r] == h[l][r] {
      }
    }
  }

  /** The samples of `fit`: an intercept column and at least one row. */
  ghost predicate FitSample(s: Sample) {
    HasIntercept(s) && |s.design| > 0
  }

  /** When the penalty dominates the threshold, no point of any fit is refused. */
  lemma DominatedIsNotRefused(exp: real -> real, s: Sample, c: Config, p: Vector)
    requires ExpLaws(exp) && ValidConfig(c) && RidgeDominates(c, |p|) && FitSample(s)
    ensures !RefusedAt(exp, s, c, p)
  {
    hide ExpLaws, RidgeDominates, Refused, HasIntercept;
    if RefusedAt(exp, s, c, p) {
      var g, h :| IsGradient(exp, s, p, c, g) && IsHessian(exp, s, p, c, h) && Refused(h, g, c.solverEpsilon);
      DominatedIsNeverRefused(exp, s, p, c, g, h);
    }
  }

  /** With constant features and a penalty not above the threshold, every point is refused. */
  lemma ConstantFeaturesAreRefusedAt(exp: real -> real, s: Sample, c: Config, p: Vector)
    requires ExpLaws(exp) && ValidConfig(c) && ValidSample(s, |p|) && |p| >= 2
    requires ConstantFeatures(s) && c.l2Penalty <= c.solverEpsilon
    ensures RefusedAt(exp, s, c, p)
  {
    hide ExpLaws, Refused, IsGradient, IsHessian, ConstantFeatures;
    var system := SystemAt(exp, s, p, c);
    GradientIsSized(exp, s, p, c, system.0, system.1);
    ConstantFeaturesAreRefused(exp, s, p, c, system.0, system.1);
  }

  /** Why the loop gave up: no move so far stayed within the tolerance, and the last point allows no other. */
  ghost predicate Explains(error: FitError, exp: real -> real, s: Sample, c: Config, path: seq<Vector>, dimension: nat)
    requires |path| >= 1 && NewtonPath(exp, s, c, path, dimension) && c.solverEpsilon >= 0.0
  {
    var last := path[|path| - 1];
    && SafePoint(s, c, last, dimension) && NeverSmall(path, c.tolerance)
    && (error.NotConverged? || error.SingularNewtonSystem? || error.NoStableUpdate?)
    && (error.NotConverged? <==> |path| == c.maxIterations + 1)
    && (error.NoStableUpdate? ==> Stuck(exp, s, c, last) && !RefusedAt(exp, s, c, last))
    && (error.SingularNewtonSystem? ==> RefusedAt(exp, s, c, last))
  }

  /** The gradient of the penalised likelihood vanishes. */
  ghost predicate Stationary(exp: real -> real, s: Sample, c: Config, p: Vector) {
    exists g :: IsGradient(exp, s, p, c, g) && IsZero(g)
  }

  /** One turn of the loop. Exactly one of three things happens, decided by the point alone: the Newton system is
      refused, no halving of the direction is acceptable, or there is one next point. The flag says whether every
      parameter stayed within the tolerance. */
  method IterateOnce(exp: real -> real, s: Sample, p: Vector, c: Config)
    returns (result: Result<(Vector, bool), FitError>)
    requires ValidConfig(c) && SafePoint(s, c, p, |p|)
    ensures result.Ok? ==>
              && SafePoint(s, c, result.value.0, |p|) && OnlyMove(exp, s, c, p, result.value.0)
              && (result.value.1 <==> SmallMove(p, result.value.0, c.tolerance))
    ensures result.Err? ==> result.error.SingularNewtonSystem? || result.error.NoStableUpdate?
    ensures result == Err(SingularNewtonSystem) <==> RefusedAt(exp, s, c, p)
    ensures result == Err(NoStableUpdate) <==> Stuck(exp, s, c, p) && !RefusedAt(exp, s, c, p)
    ensures Stationary(exp, s, c, p) && c.solverEpsilon <= 1.0 && !RefusedAt(exp, s, c, p) ==> result == Ok((p, true))
  {
    hide Safe, RefusedAt, IsGradient, IsHessian, FirstAccepted, NoneAccepted, Dot, Maps, Singular, Refused,
         NearlySingular, Stuck, Stationary, OnlyMove, SmallMove;
    var system := AccumulateNewtonSystem(exp, s, p, c);
    var (gradient, hessian) := system.value;
    GradientIsSized(exp, s, p, c, gradient, hessian);
    OneSystem(exp, s, c, p, gradient, hessian);
    var solved := SolveLinearSystem(hessian, gradient, c.solverEpsilon);
    if solved.Err? {
      return Err(SingularNewtonSystem);
    }
    var delta := solved.value;
    OneDirection(exp, s, p, c, gradient, hessian, delta);
    if Stationary(exp, s, c, p) && c.solverEpsilon <= 1.0 {
      StationaryStays(exp, s, p, c, gradient, hessian, delta);
    }
    var found, k := SearchLine(exp, s, p, c, delta);
    if found.None? {
      assert Stuck(exp, s, c, p) by { StuckAlong(exp, s, p, c, delta); }
      return Err(NoStableUpdate);
    }
    var (step, candidate) := found.value;
    AcceptedIsSafe(exp, s, p, c, delta, k);
    OneMove(exp, s, p, c, delta, k);
    var small := WithinTolerance(p, step, delta, c.tolerance);
    return Ok((candidate, small));
  }

  /** The only direction there is. */
  ghost predicate OnlyDirection(exp: real -> real, s: Sample, p: Vector, c: Config, delta: Vector) {
    NewtonDirection(exp, s, p, c, delta) && forall other :: NewtonDirection(exp, s, p, c, other) ==> other == delta
  }

  lemma OneDirection(exp: real -> real, s: Sample, p: Vector, c: Config, g: Vector, h: Matrix, delta: Vector)
    requires IsGradient(exp, s, p, c, g) && IsHessian(exp, s, p, c, h) && Maps(h, delta, g)
    requires forall y :: Maps(h, y, g) ==> y == delta
    ensures |delta| == |p| && OnlyDirection(exp, s, p, c, delta)
  {
    hide Maps, IsGradient, IsHessian;
    SolvedIsDirection(exp, s, p, c, g, h, delta);
    forall other | NewtonDirection(exp, s, p, c, other) ensures other == delta {
      var g', h' :| IsGradient(exp, s, p, c, g') && IsHessian(exp, s, p, c, h') && Maps(h', other, g');
      SameSystem(exp, s, c, p, g, h, g', h');
    }
  }

  /** At a stationary point the direction is zero, so the first attempt is accepted and leads nowhere else. */
  lemma StationaryStays(exp: real -> real, s: Sample, p: Vector, c: Config, g: Vector, h: Matrix, delta: Vector)
    requires IsGradient(exp, s, p, c, g) && IsHessian(exp, s, p, c, h) && ValidSample(s, |p|) && |delta| == |p|
    requires forall y :: Maps(h, y, g) ==> y == delta
    requires Stationary(exp, s, c, p) && c.solverEpsilon <= 1.0 && ValidConfig(c)
    ensures forall k: nat :: FirstAccepted(exp, s, p, c, delta, k) ==>
              Advanced(p, HalfPower(k), delta) == p && SmallMove(p, p, c.tolerance)
    ensures !NoneAccepted(exp, s, p, c, delta)
  {
    hide FirstAccepted, NoneAccepted;
    var zeros := Zeros(|p|);
    assert delta == zeros by {
      GradientIsSized(exp, s, p, c, g, h);
      var g' :| IsGradient(exp, s, p, c, g') && IsZero(g');
      SameSystem(exp, s, c, p, g, h, g', h);
      hide IsGradient, IsHessian;
      forall l | 0 <= l < |h| ensures Dot(h[l], zeros, |p|) == g[l] {
        DotZero(h[l], zeros, |p|);
      }
      assert Maps(h, zeros, g);
    }
    ZeroIsAccepted(exp, s, p, c, delta);
    AcceptedOrNot(exp, s, p, c, delta, 0);
    forall k: nat | FirstAccepted(exp, s, p, c, delta, k)
      ensures Advanced(p, HalfPower(k), delta) == p && SmallMove(p, p, c.tolerance)
    {
      OneLength(exp, s, p, c, delta, k, 0);
      StayingIsSmall(p, c.tolerance);
    }
  }

  lemma StayingIsSmall(p: Vector, tolerance: real)
    requires tolerance > 0.0
    ensures SmallMove(p, p, tolerance)
  {
    assert Abs(0.0) == 0.0;
  }

  lemma OneLength(exp: real -> real, s: Sample, p: Vector, c: Config, delta: Vector, j: nat, k: nat)
    requires ValidSample(s, |p|) && |delta| == |p|
    requires FirstAccepted(exp, s, p, c, delta, j) && FirstAccepted(exp, s, p, c, delta, k)
    ensures j == k
  {
    hide Accepts;
  }

  lemma AcceptedOrNot(exp: real -> real, s: Sample, p: Vector, c: Config, delta: Vector, k: nat)
    requires ValidSample(s, |p|) && |delta| == |p| && FirstAccepted(exp, s, p, c, delta, k)
    ensures !NoneAccepted(exp, s, p, c, delta)
  {
    hide Accepts;
  }

  lemma OneMove(exp: real -> real, s: Sample, p: Vector, c: Config, delta: Vector, k: nat)
    requires ValidSample(s, |p|) && |delta| == |p| && OnlyDirection(exp, s, p, c, delta)
    requires FirstAccepted(exp, s, p, c, delta, k)
    ensures OnlyMove(exp, s, c, p, Advanced(p, HalfPower(k), delta)) && !Stuck(exp, s, c, p)
  {
    hide FirstAccepted, NoneAccepted, NewtonDirection, Advanced;
    var next := Advanced(p, HalfPower(k), delta);
    assert Iteration(exp, s, c, p, delta, k, next);
    AcceptedOrNot(exp, s, p, c, delta, k);
    forall other | Follows(exp, s, c, p, other) ensures other == next {
      var delta', k' :| Iteration(exp, s, c, p, delta', k', other);
      OneLength(exp, s, p, c, delta, k, k');
    }
  }

  lemma StuckAlong(exp: real -> real, s: Sample, p: Vector, c: Config, delta: Vector)
    requires ValidSample(s, |p|) && |delta| == |p| && OnlyDirection(exp, s, p, c, delta)
    requires NoneAccepted(exp, s, p, c, delta)
    ensures Stuck(exp, s, c, p)
  {
    hide NewtonDirection, NoneAccepted;
  }

  lemma SolvedIsDirection(exp: real -> real, s: Sample, p: Vector, c: Config, g: Vector, h: Matrix, delta: Vector)
    requires IsGradient(exp, s, p, c, g) && IsHessian(exp, s, p, c, h) && Maps(h, delta, g)
    ensures NewtonDirection(exp, s, p, c, delta)
  {
  }

  /** The loop stops at the first move within the tolerance; if it fails, no move was. A stationary start that is not
      refused ends it in one iteration with the parameters it began with. */
  method Iterate(exp: real -> real, s: Sample, initial: Vector, c: Config)
    returns (result: Result<(Vector, nat), FitError>, ghost path: seq<Vector>)
    requires ValidConfig(c) && ValidSample(s, |initial|) && Safe(s, initial, c)
    ensures |path| >= 1 && path[0] == initial && NewtonPath(exp, s, c, path, |initial|)
    ensures result.Err? ==> Explains(result.error, exp, s, c, path, |initial|)
    ensures result.Ok? ==>
              && 1 <= result.value.1 <= c.maxIterations && |path| == result.value.1 + 1
              && result.value.0 == path[|path| - 1]
              && SmallMove(path[|path| - 2], path[|path| - 1], c.tolerance)
              && NeverSmall(path[..|path| - 1], c.tolerance)
    ensures Stationary(exp, s, c, initial) && c.solverEpsilon <= 1.0 && !RefusedAt(exp, s, c, initial) ==>
              result == Ok((initial, 1))
    ensures result.Ok? ==>
              && SafePoint(s, c, result.value.0, |initial|)
              && Loss(exp, s, result.value.0, c) <= Loss(exp, s, initial, c)
    ensures RefusedAt(exp, s, c, initial) ==> result == Err(SingularNewtonSystem)
    ensures ExpLaws(exp) && RidgeDominates(c, |initial|) && FitSample(s) ==> result != Err(SingularNewtonSystem)
  {
    hide Safe, Stuck, SmallMove, Stationary, OnlyMove, Loss, RefusedAt, ExpLaws, RidgeDominates, FitSample;
    var parameters := initial;
    path := [initial];
    for iteration := 1 to c.maxIterations + 1
      invariant |path| == iteration && path[0] == initial && path[iteration - 1] == parameters
      invariant |parameters| == |initial| && NewtonPath(exp, s, c, path, |initial|)
      invariant NeverSmall(path, c.tolerance)
      invariant iteration > 1 ==> !RefusedAt(exp, s, c, initial)
      invariant iteration > 1 ==> !(Stationary(exp, s, c, initial) && c.solverEpsilon <= 1.0)
    {
      assert SafePoint(s, c, path[iteration - 1], |initial|);
      var turn := IterateOnce(exp, s, parameters, c);
      if turn.Err? {
        if ExpLaws(exp) && RidgeDominates(c, |initial|) && FitSample(s) {
          DominatedIsNotRefused(exp, s, c, parameters);
        }
        return Err(turn.error), path;
      }
      var (candidate, small) := turn.value;
      PathExtends(exp, s, c, path, candidate, |initial|);
      ghost var before := path;
      parameters, path := candidate, path + [candidate];
      if small {
        assert path[..|path| - 1] == before;
        PathDescends(exp, s, c, path, |initial|, 0, iteration);
        return Ok((parameters, iteration)), path;
      }
    }
    return Err(NotConverged), path;
  }

  lemma GradientIsSized(exp: real -> real, s: Sample, p: Vector, c: Config, g: Vector, h: Matrix)
    requires IsGradient(exp, s, p, c, g) && IsHessian(exp, s, p, c, h)
    ensures |g| == |p| && Sized(h, |p|, |p|)
  {
  }

  lemma AcceptedIsSafe(exp: real -> real, s: Sample, p: Vector, c: Config, delta: Vector, k: nat)
    requires ValidSample(s, |p|) && |delta| == |p| && Safe(s, p, c) && FirstAccepted(exp, s, p, c, delta, k)
    ensures SafePoint(s, c, Advanced(p, HalfPower(k), delta), |p|)
  {
    hide Safe, Dot;
  }

  lemma PathExtends(exp: real -> real, s: Sample, c: Config, path: seq<Vector>, next: Vector, dimension: nat)
    requires |path| >= 1 && NewtonPath(exp, s, c, path, dimension) && SafePoint(s, c, next, dimension)
    requires OnlyMove(exp, s, c, path[|path| - 1], next)
    ensures NewtonPath(exp, s, c, path + [next], dimension)
  {
    hide OnlyMove, Safe;
    var all := path + [next];
    forall i {:trigger all[i + 1]} | 0 <= i < |all| - 1
      ensures SafePoint(s, c, all[i], dimension) && OnlyMove(exp, s, c, all[i], all[i + 1])
    {
      assert SafePoint(s, c, path[i], dimension);
      if i < |path| - 1 {
        assert OnlyMove(exp, s, c, path[i], path[i + 1]);
      }
    }
  }
}
