/** Whether the Newton system of `fit` can be refused at the positive threshold that `fit` uses. */
module NewtonRefusal {
  import opened Foundations
  import opened Numerics
  import opened LinearSystem
  import opened PoissonObjective
  import opened NewtonTheory
  import opened SolverRefusal

  /** No sample with an intercept and no parameters give a Newton system the solver refuses. */
  ghost predicate NeverRefused(exp: real -> real, c: Config, dimension: nat)
    requires c.solverEpsilon >= 0.0
  {
    forall s, p, g, h ::
      SystemOf(exp, s, p, c, dimension, g, h) ==> !Refused(h, g, c.solverEpsilon)
  }

  /** `g` and `h` are the gradient and the Hessian accumulated at `p` over a sample with an intercept. */
  ghost predicate SystemOf(exp: real -> real, s: Sample, p: Vector, c: Config, dimension: nat, g: Vector, h: Matrix) {
    && |p| == dimension && ValidSample(s, dimension) && HasIntercept(s) && |s.design| > 0
    && IsGradient(exp, s, p, c, g) && IsHessian(exp, s, p, c, h)
  }

  // ---- a penalty that dominates the threshold ------------------------------

  /** How many rows can at worst keep the pivots of a column small: half of them, rounded up. */
  function Half(dimension: nat): nat {
    (dimension + 1) / 2
  }

  /** The penalty is large enough against the threshold for this many parameters, the intercept included. */
  predicate RidgeDominates(c: Config, dimension: nat) {
    var l, e := c.l2Penalty, c.solverEpsilon;
    dimension >= 2 ==> l > e && 4.0 * l * l >= 5.0 * l * e + (Half(dimension) as real - 2.0) * (e * e)
  }

  /** The threshold times the sizes of the active entries. */
  function Load(epsilon: real, v: Vector, active: set<nat>, n: nat): real
    requires n <= |v|
  {
    if n == 0 then 0.0
    else Load(epsilon, v, active, n - 1) + if n - 1 in active then epsilon * Abs(v[n - 1]) else 0.0
  }

  lemma {:induction false} DotIsLoaded(image: Vector, v: Vector, active: set<nat>, epsilon: real, n: nat)
    requires n <= |image| && n <= |v| && epsilon >= 0.0
    requires forall i :: 0 <= i < n ==> Abs(image[i]) <= epsilon
    requires forall i :: 0 <= i < n && i !in active ==> image[i] == 0.0 || v[i] == 0.0
    ensures Dot(image, v, n) <= Load(epsilon, v, active, n)
  {
    hide Abs;
    if n > 0 {
      DotIsLoaded(image, v, active, epsilon, n - 1);
      if n - 1 in active {
        ProductIsLoaded(image[n - 1], v[n - 1], epsilon, image[n - 1] * v[n - 1], epsilon * Abs(v[n - 1]));
      } else {
        assert image[n - 1] * v[n - 1] == 0.0;
      }
    }
  }

  lemma ProductIsLoaded(a: real, x: real, epsilon: real, product: real, load: real)
    requires Abs(a) <= epsilon && product == a * x && load == epsilon * Abs(x)
    ensures product <= load
  {
    if x >= 0.0 {
      NonNegativeProduct(epsilon - a, x, load - product);
    } else {
      NonNegativeProduct(epsilon + a, -x, load - product);
    }
  }

  /** What the ridge leaves over the load of one parameter is bounded below, four penalties scaled away. */
  lemma CoefficientSurplus(penalty: real, epsilon: real, x: real, surplus: real)
    requires surplus == penalty * Square(x) - epsilon * Abs(x)
    ensures 4.0 * penalty * surplus >= -(epsilon * epsilon)
  {
    var a := Abs(x);
    assert a * a == Square(x);
    var root := 2.0 * penalty * a - epsilon;
    assert root * root >= 0.0 by { SquareIsNonNegative(root, root * root); }
    assert root * root == 4.0 * penalty * (penalty * (a * a) - epsilon * a) + epsilon * epsilon;
  }

  lemma SquareIsNonNegative(x: real, square: real)
    requires square == x * x
    ensures square >= 0.0
  {
    if x >= 0.0 {
      NonNegativeProduct(x, x, square);
    } else {
      NonNegativeProduct(-x, -x, square);
    }
  }

  lemma InterceptSurplus(penalty: real, epsilon: real, x: real, surplus: real)
    requires penalty >= 0.0 && epsilon >= 0.0 && surplus == epsilon * Square(x) - epsilon * Abs(x)
    ensures 4.0 * penalty * surplus >= -(penalty * epsilon)
  {
    var a := Abs(x);
    var root := 2.0 * a - 1.0;
    SquareIsNonNegative(root, root * root);
    assert root * root == 4.0 * Square(x) - 4.0 * a + 1.0 by {
      assert a * a == Square(x);
    }
    NonNegativeProduct(penalty, epsilon, penalty * epsilon);
    NonNegativeProduct(penalty * epsilon, root * root, penalty * epsilon * (root * root));
    InterceptIdentity(penalty, epsilon, Square(x), a, root * root, surplus);
  }

  lemma InterceptIdentity(penalty: real, epsilon: real, square: real, a: real, root: real, surplus: real)
    requires root == 4.0 * square - 4.0 * a + 1.0 && surplus == epsilon * square - epsilon * a
    requires penalty * epsilon * root >= 0.0
    ensures 4.0 * penalty * surplus >= -(penalty * epsilon)
  {
    var k := penalty * epsilon;
    assert k * root == k * (4.0 * square) - k * (4.0 * a) + k;
    assert 4.0 * penalty * surplus == k * (4.0 * square) - k * (4.0 * a);
  }

  /** Ridge energy minus load, over the first `n` parameters. */
  function Surplus(c: Config, v: Vector, active: set<nat>, n: nat): real
    requires n <= |v|
  {
    RidgeEnergy(c, v, n) - Load(c.solverEpsilon, v, active, n)
  }

  function SurplusAt(c: Config, v: Vector, active: set<nat>, l: nat): real
    requires l < |v|
  {
    Ridge(c, l) * Square(v[l]) - if l in active then c.solverEpsilon * Abs(v[l]) else 0.0
  }

  lemma SurplusStep(c: Config, v: Vector, active: set<nat>, n: nat)
    requires 0 < n <= |v|
    ensures Surplus(c, v, active, n) == Surplus(c, v, active, n - 1) + SurplusAt(c, v, active, n - 1)
  {
    hide Abs, Square;
  }

  /** The active indices below `n`. */
  function Count(active: set<nat>, n: nat): nat {
    if n == 0 then 0 else Count(active, n - 1) + if n - 1 in active then 1 else 0
  }

  lemma {:induction false} CountIsSize(active: set<nat>, n: nat)
    ensures Count(active, n) == |active * Range(n)|
  {
    RangeHas(n);
    if n > 0 {
      CountIsSize(active, n - 1);
      RangeHas(n - 1);
      if n - 1 in active {
        assert active * Range(n) == active * Range(n - 1) + {n - 1};
      } else {
        assert active * Range(n) == active * Range(n - 1);
      }
    }
  }

  /** One parameter behind the intercept. */
  lemma CoefficientCosts(c: Config, v: Vector, active: set<nat>, l: nat)
    requires ValidConfig(c) && 1 <= l < |v|
    ensures 4.0 * c.l2Penalty * SurplusAt(c, v, active, l)
              >= if l in active then -(c.solverEpsilon * c.solverEpsilon) else 0.0
  {
    if l in active {
      CoefficientSurplus(c.l2Penalty, c.solverEpsilon, v[l], SurplusAt(c, v, active, l));
    } else {
      SquareIsNonNegative(v[l], Square(v[l]));
      NonNegativeProduct(c.l2Penalty, Square(v[l]), SurplusAt(c, v, active, l));
      NonNegativeProduct(4.0 * c.l2Penalty, SurplusAt(c, v, active, l), 4.0 * c.l2Penalty * SurplusAt(c, v, active, l));
    }
  }

  lemma InterceptCosts(c: Config, v: Vector, active: set<nat>)
    requires ValidConfig(c) && |v| > 0
    ensures 4.0 * c.l2Penalty * SurplusAt(c, v, active, 0)
              >= if 0 in active then -(c.l2Penalty * c.solverEpsilon) else 0.0
  {
    if 0 in active {
      InterceptSurplus(c.l2Penalty, c.solverEpsilon, v[0], SurplusAt(c, v, active, 0));
    } else {
      SquareIsNonNegative(v[0], Square(v[0]));
      NonNegativeProduct(c.solverEpsilon, Square(v[0]), SurplusAt(c, v, active, 0));
      NonNegativeProduct(4.0 * c.l2Penalty, SurplusAt(c, v, active, 0), 4.0 * c.l2Penalty * SurplusAt(c, v, active, 0));
    }
  }

  /** The active parameters before `n` cost at most this much. */
  lemma {:induction false} SurplusIsBounded(c: Config, v: Vector, active: set<nat>, n: nat)
    requires ValidConfig(c) && c.l2Penalty > c.solverEpsilon && 1 <= n <= |v|
    ensures var l, e := c.l2Penalty, c.solverEpsilon;
            4.0 * l * Surplus(c, v, active, n) >= -(l * e - e * e) - Count(active, n) as real * (e * e)
  {
    hide Abs, Square, Load, RidgeEnergy, SurplusAt;
    SurplusStep(c, v, active, n);
    hide Surplus;
    var l, e := c.l2Penalty, c.solverEpsilon;
    var square, product := e * e, l * e;
    NonNegativeProduct(l - e, e, product - square);
    NonNegativeProduct(e, e, square);
    Spread(4.0 * l, Surplus(c, v, active, n - 1), SurplusAt(c, v, active, n - 1));
    if n == 1 {
      NoSurplus(c, v, active);
      InterceptCosts(c, v, active);
      assert Count(active, 1) == if 0 in active then 1 else 0;
    } else {
      SurplusIsBounded(c, v, active, n - 1);
      CoefficientCosts(c, v, active, n - 1);
      assert (Count(active, n - 1) + 1) as real * square == Count(active, n - 1) as real * square + square;
    }
  }

  lemma NoSurplus(c: Config, v: Vector, active: set<nat>)
    ensures Surplus(c, v, active, 0) == 0.0
  {
  }

  lemma {:induction false} NoSurplusAfter(c: Config, v: Vector, active: set<nat>, k: nat, n: nat)
    requires k <= n <= |v| && forall j :: k <= j < n ==> v[j] == 0.0
    ensures Surplus(c, v, active, n) == Surplus(c, v, active, k)
    decreases n
  {
    if k < n {
      NoSurplusAfter(c, v, active, k, n - 1);
      SurplusStep(c, v, active, n);
      ZeroTimes(Ridge(c, n - 1), Square(v[n - 1]));
      ZeroTimes(c.solverEpsilon, Abs(v[n - 1]));
    }
  }

  lemma ZeroTimes(a: real, x: real)
    requires x == 0.0
    ensures a * x == 0.0
  {
  }

  /** A vector that ends in a one behind the intercept, with few enough active entries, has no negative surplus when the
      penalty dominates. */
  lemma DominatedSurplus(c: Config, v: Vector, active: set<nat>, k: nat)
    requires ValidConfig(c) && 1 <= k < |v| && RidgeDominates(c, |v|)
    requires v[k] == 1.0 && forall j :: k < j < |v| ==> v[j] == 0.0
    requires Count(active, k + 1) <= Half(|v|)
    ensures Surplus(c, v, active, |v|) >= 0.0
  {
    hide Load, RidgeEnergy, Surplus, Half;
    var l, e := c.l2Penalty, c.solverEpsilon;
    NoSurplusAfter(c, v, active, k + 1, |v|);
    SurplusStep(c, v, active, k + 1);
    SurplusIsBounded(c, v, active, k);
    assert SurplusAt(c, v, active, k) == if k in active then l - e else l;
    DominationArithmetic(l, e, k in active, Count(active, k), Half(|v|), Surplus(c, v, active, k),
                         Surplus(c, v, active, |v|));
  }

  lemma DominationArithmetic(l: real, e: real, last: bool, before: nat, half: nat, earlier: real, total: real)
    requires l > e > 0.0 && before + (if last then 1 else 0) <= half
    requires total == earlier + if last then l - e else l
    requires 4.0 * l * l >= 5.0 * l * e + (half as real - 2.0) * (e * e)
    requires 4.0 * l * earlier >= -(l * e - e * e) - before as real * (e * e)
    ensures total >= 0.0
  {
    var square, spare := e * e, half as real - before as real;
    NonNegativeProduct(e, e, square);
    NonNegativeProduct(l - e, e, l * e - square);
    var least := if last then 1.0 else 0.0;
    NonNegativeProduct(spare - least, square, spare * square - least * square);
    assert half as real * square == before as real * square + spare * square;
    assert (half as real - 2.0) * square == half as real * square - 2.0 * square;
    assert 4.0 * l * total == 4.0 * l * earlier + 4.0 * l * l - if last then 4.0 * l * e else 0.0;
    if total < 0.0 {
      ProductIsPositive(4.0 * l, -total, -(4.0 * l * total));
    }
  }

  // ---- the first column ----------------------------------------------------

  lemma {:induction false} InterceptWeighs(design: Matrix, weights: Vector, n: nat)
    requires 0 < n <= |design| && n <= |weights|
    requires forall i :: 0 <= i < n ==> |design[i]| > 0 && design[i][0] == 1.0 && weights[i] > 0.0
    ensures Gram(design, weights, 0, 0, n) > 0.0
  {
    if n > 1 {
      InterceptWeighs(design, weights, n - 1);
    } else {
      assert Gram(design, weights, 0, 0, 0) == 0.0;
    }
  }

  /** The corner of the Hessian always exceeds the threshold. */
  lemma CornerExceedsThreshold(exp: real -> real, s: Sample, p: Vector, c: Config, h: Matrix)
    requires ExpLaws(exp) && IsHessian(exp, s, p, c, h) && HasIntercept(s) && |s.design| > 0
    ensures h[0][0] > c.solverEpsilon
  {
    InterceptWeighs(s.design, Expected(exp, s, p), |s.design|);
  }

  // ---- never refused -------------------------------------------------------

  /** Without Fisher energy no row sees the vector. */
  lemma {:induction false} NoEnergyNoImage(design: Matrix, weights: Vector, v: Vector, n: nat, l: nat)
    requires |design| == |weights| && n <= |design| && l < |v| && forall i :: 0 <= i < |design| ==> |design[i]| == |v|
    requires forall i :: 0 <= i < |design| ==> weights[i] > 0.0
    requires FisherEnergy(design, weights, v, n) <= 0.0
    ensures Combine(design, Reweighted(design, weights, v), l, n) == 0.0
  {
    hide Square, Dot;
    if n > 0 {
      var x := Dot(design[n - 1], v, |v|);
      FisherEnergyIsNonNegative(design, weights, v, n - 1);
      SquareIsPositive(weights[n - 1], x);
      NoEnergyNoImage(design, weights, v, n - 1, l);
      ZeroTimes(weights[n - 1], x);
      ZeroTimes(design[n - 1][l], weights[n - 1] * x);
    }
  }

  /** The rows that may act on a near-kernel vector are at most half of all. */
  lemma FewAreActive(k: nat, dimension: nat, zeros: set<nat>) returns (active: set<nat>)
    requires k < dimension && |zeros| == k && forall i :: i in zeros ==> i < dimension
    ensures forall i :: 0 <= i <= k ==> i in active || i in zeros
    ensures Count(active, k + 1) <= Half(dimension)
  {
    RangeHas(k + 1);
    RangeHas(dimension);
    active := Range(k + 1) - zeros;
    CountIsSize(active, k + 1);
    assert active * Range(k + 1) == active;
    SubsetIsSmaller(active, Range(k + 1));
    assert |active + zeros| == |active| + |zeros|;
    SubsetIsSmaller(active + zeros, Range(dimension));
  }

  lemma NoNearKernel(exp: real -> real, s: Sample, p: Vector, c: Config, h: Matrix, v: Vector, k: nat, zeros: set<nat>)
    requires ExpLaws(exp) && ValidConfig(c) && RidgeDominates(c, |p|)
    requires IsHessian(exp, s, p, c, h) && HasIntercept(s) && |s.design| > 0
    requires |v| == |p|
    ensures !NearKernel(h, v, k, zeros, c.solverEpsilon)
  {
    if NearKernel(h, v, k, zeros, c.solverEpsilon) {
      if k == 0 {
        hide ExpLaws, IsHessian, HasIntercept, Dot;
        CornerExceedsThreshold(exp, s, p, c, h);
        FirstColumnOnly(h, v, zeros, c.solverEpsilon);
      } else {
        assert c.l2Penalty > c.solverEpsilon;
        hide RidgeDominates, ExpLaws, IsHessian, HasIntercept, NearKernel, Dot;
        NearKernelIsFlat(exp, s, p, c, h, v, k, zeros);
      }
      assert false;
    }
  }

  lemma FirstColumnOnly(h: Matrix, v: Vector, zeros: set<nat>, epsilon: real)
    requires NearKernel(h, v, 0, zeros, epsilon)
    ensures h[0][0] <= epsilon
  {
    DotSingle(h[0], v, |v|, 0);
    assert Abs(Dot(h[0], v, |v|)) <= epsilon;
  }

  /** The quadratic form of a near-kernel vector is at least the ridge energy and at most the load, which a dominating
      penalty forbids unless no row of the design sees the vector; but then row `k` maps it to the penalty. */
  lemma NearKernelIsFlat(exp: real -> real, s: Sample, p: Vector, c: Config, h: Matrix, v: Vector, k: nat,
                         zeros: set<nat>)
    requires ExpLaws(exp) && ValidConfig(c) && RidgeDominates(c, |p|) && IsHessian(exp, s, p, c, h) && |v| == |p|
    requires k > 0
    requires NearKernel(h, v, k, zeros, c.solverEpsilon)
    ensures c.l2Penalty <= c.solverEpsilon
  {
    hide RidgeEnergy, Load, FisherEnergy, Dot, Combine, Half, Count, RidgeDominates;
    var w := Expected(exp, s, p);
    HessianIsSumOfSquares(exp, s, p, c, h, v);
    var active := FewAreActive(k, |v|, zeros);
    DominatedSurplus(c, v, active, k);
    NearKernelIsLoaded(h, v, k, zeros, active, c.solverEpsilon);
    NoEnergyNoImage(s.design, w, v, |s.design|, k);
    HessianRow(exp, s, p, c, h, v, k);
    assert Abs(Dot(h[k], v, |v|)) <= c.solverEpsilon;
  }

  lemma NearKernelIsLoaded(h: Matrix, v: Vector, k: nat, zeros: set<nat>, active: set<nat>, epsilon: real)
    requires NearKernel(h, v, k, zeros, epsilon) && epsilon >= 0.0
    requires forall i :: 0 <= i <= k ==> i in active || i in zeros
    ensures QuadraticForm(h, v) <= Load(epsilon, v, active, |v|)
  {
    hide Load, Dot;
    forall i | 0 <= i < |v|
      ensures Abs(Image(h, v)[i]) <= epsilon && (i !in active ==> Image(h, v)[i] == 0.0 || v[i] == 0.0)
    {
      assert Abs(Dot(h[i], v, |v|)) <= epsilon;
    }
    DotIsLoaded(Image(h, v), v, active, epsilon, |v|);
  }

  /** When the penalty dominates, the solver refuses no Newton system whatever: for every sample, every parameter
      vector and every right-hand side. */
  lemma DominatedIsNeverRefused(exp: real -> real, s: Sample, p: Vector, c: Config, g: Vector, h: Matrix)
    requires ExpLaws(exp) && ValidConfig(c) && RidgeDominates(c, |p|)
    requires IsHessian(exp, s, p, c, h) && HasIntercept(s) && |s.design| > 0 && |g| == |p|
    ensures !Refused(h, g, c.solverEpsilon)
  {
    hide Refused, RidgeDominates, IsHessian, ExpLaws, NearKernel;
    HessianIsSized(exp, s, p, c, h);
    if Refused(h, g, c.solverEpsilon) {
      RefusedIsNearlySingular(h, g, c.solverEpsilon);
      var v, k, zeros :| |v| == |h| && NearKernel(h, v, k, zeros, c.solverEpsilon);
      NoNearKernel(exp, s, p, c, h, v, k, zeros);
    }
  }

  lemma HessianIsSized(exp: real -> real, s: Sample, p: Vector, c: Config, h: Matrix)
    requires IsHessian(exp, s, p, c, h)
    ensures Sized(h, |p|, |p|)
  {
  }

  /** The registered defaults, a penalty of one and a threshold of one ten-billionth, dominate for up to a million
      features. */
  lemma DefaultsDominate(c: Config, dimension: nat)
    requires c.l2Penalty == 1.0 && c.solverEpsilon == 0.0000000001 && dimension <= 1000001
    ensures RidgeDominates(c, dimension)
  {
    var e := c.solverEpsilon;
    assert Half(dimension) as real - 2.0 <= 999999.0;
    assert (Half(dimension) as real - 2.0) * (e * e) <= 999999.0 * (e * e);
  }

  // ---- refused -------------------------------------------------------------

  /** What standardisation makes of a sample whose features are all constant. */
  ghost predicate ConstantFeatures(s: Sample) {
    forall i, j :: 0 <= i < |s.design| && 1 <= j < |s.design[i]| ==> s.design[i][j] == 0.0
  }

  lemma {:induction false} ConstantGram(design: Matrix, weights: Vector, l: nat, r: nat, n: nat)
    requires n <= |design| && n <= |weights| && forall i :: 0 <= i < n ==> l < |design[i]| && r < |design[i]|
    requires forall i :: 0 <= i < n ==> design[i][l] == 0.0 || design[i][r] == 0.0
    ensures Gram(design, weights, l, r, n) == 0.0
  {
    if n > 0 {
      ConstantGram(design, weights, l, r, n - 1);
      ZeroTriple(design[n - 1][l], weights[n - 1], design[n - 1][r]);
    }
  }

  lemma ZeroTriple(a: real, w: real, b: real)
    requires a == 0.0 || b == 0.0
    ensures a * w * b == 0.0
  {
  }

  /** With constant features and a penalty not above the threshold, every Newton system is refused, although regular. */
  lemma ConstantFeaturesAreRefused(exp: real -> real, s: Sample, p: Vector, c: Config, g: Vector, h: Matrix)
    requires ExpLaws(exp) && ValidConfig(c) && |p| >= 2 && ConstantFeatures(s) && c.l2Penalty <= c.solverEpsilon
    requires IsHessian(exp, s, p, c, h) && |g| == |p|
    ensures Refused(h, g, c.solverEpsilon) && !Singular(h)
  {
    HessianIsNeverSingular(exp, s, p, c, h);
    hide Refused, ExpLaws, Singular, Gram;
    var w := Expected(exp, s, p);
    forall l, r | 0 <= l < |p| && 0 <= r < |p| && (l > 0 || r > 0) && l != r ensures h[l][r] == 0.0 {
      ConstantGram(s.design, w, l, r, |s.design|);
    }
    ConstantGram(s.design, w, 1, 1, |s.design|);
    assert h[1][1] == HessianEntry(exp, s, p, c, 1, 1) == c.l2Penalty;
    SmallDiagonalIsRefused(h, g, c.solverEpsilon);
  }

  /** Such systems exist for every number of features. */
  lemma RefusedSystemExists(exp: real -> real, c: Config, dimension: nat)
    returns (s: Sample, p: Vector, g: Vector, h: Matrix)
    requires ExpLaws(exp) && ValidConfig(c) && dimension >= 2 && c.l2Penalty <= c.solverEpsilon
    ensures SystemOf(exp, s, p, c, dimension, g, h) && Refused(h, g, c.solverEpsilon) && !Singular(h)
  {
    hide Refused, ExpLaws, Gram, Combine, Singular;
    s, p := Sample([[1.0] + Zeros(dimension - 1)], [0.0]), Zeros(dimension);
    var system := SystemAt(exp, s, p, c);
    g, h := system.0, system.1;
    ConstantFeaturesAreRefused(exp, s, p, c, g, h);
  }

  function SystemAt(exp: real -> real, s: Sample, p: Vector, c: Config): (system: (Vector, Matrix))
    requires ValidSample(s, |p|)
    ensures IsGradient(exp, s, p, c, system.0) && IsHessian(exp, s, p, c, system.1)
  {
    (seq(|p|, l requires 0 <= l < |p| => GradientEntry(exp, s, p, c, l)),
     seq(|p|, l requires 0 <= l < |p| => seq(|p|, r requires 0 <= r < |p| => HessianEntry(exp, s, p, c, l, r))))
  }
}
