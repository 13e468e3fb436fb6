/** Poisson probabilities: the factorial form of the projection service and the running product of the evaluation. */
module PoissonTails {
  import opened Foundations
  import opened Numerics

  function Power(x: real, n: nat): real {
    if n == 0 then 1.0 else Power(x, n - 1) * x
  }

  function Factorial(n: nat): (f: nat)
    ensures f > 0
  {
    if n == 0 then 1 else n * Factorial(n - 1)
  }

  function Pmf(exp: real -> real, value: nat, rate: real): real {
    exp(-rate) * Power(rate, value) / Factorial(value) as real
  }

  /** The sum of the probabilities of 0, ..., value; zero below zero. */
  function Cdf(exp: real -> real, value: int, rate: real): real
    decreases if value < 0 then 0 else value + 1
  {
    if value < 0 then 0.0 else Cdf(exp, value - 1, rate) + Pmf(exp, value, rate)
  }

  /** The exponential function: one at zero, positive, strictly above its tangents. */
  ghost predicate Exponential(exp: real -> real) {
    exp(0.0) == 1.0 && ExpLaws(exp)
  }

  lemma {:induction false} PmfIsNonNegative(exp: real -> real, value: nat, rate: real)
    requires Exponential(exp) && rate >= 0.0
    ensures Pmf(exp, value, rate) >= 0.0
  {
    PowerIsNonNegative(rate, value);
    assert exp(-rate) > 0.0;
    Quotient(exp(-rate), Power(rate, value), Factorial(value) as real);
  }

  lemma {:induction false} PowerIsNonNegative(x: real, n: nat)
    requires x >= 0.0
    ensures Power(x, n) >= 0.0
  {
    if n > 0 {
      PowerIsNonNegative(x, n - 1);
    }
  }

  lemma Quotient(a: real, b: real, c: real)
    requires a > 0.0 && b >= 0.0 && c > 0.0
    ensures a * b / c >= 0.0
  {
    var product := a * b;
    assert product >= 0.0;
  }

  lemma {:induction false} CdfGrows(exp: real -> real, i: int, j: int, rate: real)
    requires Exponential(exp) && rate >= 0.0 && i <= j
    ensures 0.0 <= Cdf(exp, i, rate) <= Cdf(exp, j, rate)
    decreases if j < 0 then 0 else j + 1, j - i
  {
    if j >= 0 {
      PmfIsNonNegative(exp, j, rate);
      if i < j {
        CdfGrows(exp, i, j - 1, rate);
      } else {
        CdfGrows(exp, j - 1, j - 1, rate);
      }
    }
  }

  // ---- the probabilities sum to at most one --------------------------------

  function Term(x: real, k: nat): real {
    Power(x, k) / Factorial(k) as real
  }

  /** The exponential series up to `n`. */
  function Series(x: real, n: nat): real {
    if n == 0 then Term(x, 0) else Series(x, n - 1) + Term(x, n)
  }

  lemma {:induction false} PowersGrow(a: real, b: real, k: nat)
    requires 0.0 <= a <= b
    ensures 0.0 <= Power(a, k) <= Power(b, k)
  {
    if k > 0 {
      PowersGrow(a, b, k - 1);
      var p, q := Power(a, k - 1), Power(b, k - 1);
      NonNegativeProduct(p, a, p * a);
      NonNegativeProduct(p, b - a, p * (b - a));
      NonNegativeProduct(q - p, b, (q - p) * b);
    }
  }

  lemma PowerUnfolds(x: real, k: nat)
    requires k > 0
    ensures Power(x, k) == Power(x, k - 1) * x
  {
  }

  function Slope(k: real, h: real, q: real): real {
    k * (h * q)
  }

  /** The mean value bound for powers. */
  lemma {:induction false} PowerStep(a: real, b: real, h: real, k: nat)
    requires 0.0 <= a <= b && b == a + h && k > 0
    ensures Power(b, k) - Power(a, k) <= Slope(k as real, h, Power(b, k - 1))
  {
    PowerUnfolds(a, k);
    PowerUnfolds(b, k);
    if k == 1 {
      assert Power(a, 0) == Power(b, 0) == 1.0;
    } else {
      hide *;
      PowersGrow(a, b, k - 1);
      PowerStep(a, b, h, k - 1);
      PowerUnfolds(b, k - 1);
      PowerArithmetic(k as real, h, Power(b, k - 2), a, b, Power(b, k - 1), Power(a, k - 1));
    }
  }

  lemma PowerArithmetic(k: real, h: real, r: real, a: real, b: real, q: real, p: real)
    requires q == r * b && b == a + h && b >= 0.0 && h >= 0.0 && q - p <= Slope(k - 1.0, h, r) && p <= q
    ensures q * b - p * a <= Slope(k, h, q)
  {
    var bound := Slope(k - 1.0, h, r);
    NonNegativeProduct(h, q - p, h * (q - p));
    NonNegativeProduct(bound - (q - p), b, (bound - (q - p)) * b);
    assert bound * b == (k - 1.0) * (h * q);
    assert (bound - (q - p)) * b == bound * b - (q * b - p * b);
    assert p * a == p * b - p * h;
    assert h * (q - p) == h * q - p * h;
  }

  predicate AreFactors(x: real, y: real, product: real) {
    x * y == product
  }

  lemma TermTimesFactorial(x: real, k: nat, f: real)
    requires f == Factorial(k) as real
    ensures AreFactors(Term(x, k), f, Power(x, k))
  {
    hide Power, Factorial;
    var p := Power(x, k);
    assert p / f * f == p;
  }

  lemma TermStep(a: real, b: real, h: real, k: nat)
    requires 0.0 <= a <= b && b == a + h && k > 0
    ensures Term(b, k) - Term(a, k) <= h * Term(b, k - 1)
  {
    hide *;
    PowerStep(a, b, h, k);
    var f, d := Factorial(k - 1) as real, Factorial(k) as real;
    FactorialFactors(k, f, d);
    TermTimesFactorial(b, k, d);
    TermTimesFactorial(a, k, d);
    TermTimesFactorial(b, k - 1, f);
    DivideStep(Power(b, k), Power(a, k), h, Power(b, k - 1), k as real, f, d, Term(b, k), Term(a, k), Term(b, k - 1));
  }

  lemma FactorialFactors(k: nat, f: real, d: real)
    requires k > 0 && f == Factorial(k - 1) as real && d == Factorial(k) as real
    ensures AreFactors(k as real, f, d)
  {
    FactorialStep(k);
  }

  lemma DivideStep(x: real, y: real, h: real, q: real, n: real, f: real, d: real, u: real, v: real, w: real)
    requires d > 0.0 && AreFactors(n, f, d) && x - y <= Slope(n, h, q)
    requires AreFactors(u, d, x) && AreFactors(v, d, y) && AreFactors(w, f, q)
    ensures u - v <= h * w
  {
    var gap := h * w - (u - v);
    assert gap * d == n * (h * q) - (x - y);
    if gap < 0.0 {
      ProductIsPositive(-gap, d, -(gap * d));
    }
  }

  lemma {:induction false} SeriesIsNonNegative(x: real, n: nat)
    requires x >= 0.0
    ensures Series(x, n) >= 0.0 && Term(x, n) >= 0.0
  {
    PowerIsNonNegative(x, n);
    if n > 0 {
      SeriesIsNonNegative(x, n - 1);
    }
  }

  /** Going a little further costs at most the step times the series itself. */
  lemma {:induction false} SeriesStep(a: real, b: real, n: nat)
    requires 0.0 <= a <= b
    ensures Series(b, n) - Series(a, n) <= (b - a) * (Series(b, n) - Term(b, n))
  {
    hide Term;
    if n == 0 {
      FirstTerm(a);
      FirstTerm(b);
      assert (b - a) * 0.0 == 0.0;
    } else {
      SeriesStep(a, b, n - 1);
      TermStep(a, b, b - a, n);
      SeriesIsNonNegative(b, n - 1);
      SeriesArithmetic(b - a, Series(b, n - 1), Series(a, n - 1), Term(b, n), Term(a, n), Term(b, n - 1));
    }
  }

  lemma SeriesArithmetic(h: real, s: real, t: real, next: real, other: real, last: real)
    requires s - t <= h * (s - last) && next - other <= h * last
    ensures (s + next) - (t + other) <= h * (s + next - next)
  {
    assert h * (s - last) + h * last == h * s;
  }

  lemma FirstTerm(x: real)
    ensures Term(x, 0) == 1.0
  {
  }

  lemma {:induction false} SeriesAtZero(n: nat)
    ensures Series(0.0, n) == 1.0
  {
    if n == 0 {
      FirstTerm(0.0);
    } else {
      SeriesAtZero(n - 1);
      assert Power(0.0, n) == Power(0.0, n - 1) * 0.0;
      assert Term(0.0, n) == 0.0;
    }
  }

  /** The probability of at most `n`, at rate `x`. */
  function Mass(exp: real -> real, x: real, n: nat): real {
    exp(-x) * Series(x, n)
  }

  lemma ExpStep(exp: real -> real, a: real, b: real, h: real)
    requires Exponential(exp) && b == a + h
    ensures exp(-b) > 0.0 && exp(-a) >= exp(-b) + exp(-b) * h
  {
    if h != 0.0 {
      assert exp(-a) > exp(-b) + exp(-b) * (-a - -b);
    }
  }

  lemma SeriesGap(a: real, b: real, h: real, n: nat)
    requires 0.0 <= a && 0.0 <= h && b == a + h
    ensures Series(b, n) >= 0.0 && Series(a, n) >= 0.0
    ensures Series(b, n) - Series(a, n) <= h * Series(b, n)
  {
    hide Series, Term;
    SeriesIsNonNegative(b, n);
    SeriesIsNonNegative(a, n);
    SeriesStep(a, b, n);
    NonNegativeProduct(h, Term(b, n), h * Term(b, n));
    assert h * (Series(b, n) - Term(b, n)) == h * Series(b, n) - h * Term(b, n);
  }

  /** Between two rates a step apart the probability shrinks, up to the square of the step. */
  lemma MassStep(exp: real -> real, a: real, b: real, h: real, shrink: real, n: nat)
    requires Exponential(exp) && 0.0 <= a && 0.0 <= h <= 1.0 && b == a + h && shrink == 1.0 - h * h
    ensures 0.0 <= Mass(exp, b, n)
    ensures Mass(exp, b, n) * shrink <= Mass(exp, a, n)
  {
    hide Series, Term, Exponential;
    ExpStep(exp, a, b, h);
    SeriesGap(a, b, h, n);
    StepArithmetic(exp(-b), exp(-a), Series(b, n), Series(a, n), h, shrink, Mass(exp, b, n), Mass(exp, a, n));
  }

  lemma StepArithmetic(e: real, f: real, s: real, t: real, h: real, shrink: real, after: real, before: real)
    requires shrink == 1.0 - h * h && e > 0.0 && f >= e + e * h && s >= 0.0 && t >= 0.0 && s - t <= h * s
    requires 0.0 <= h <= 1.0
    requires after == e * s && before == f * t
    ensures after >= 0.0 && after * shrink <= before
  {
    NonNegativeProduct(e, s, after);
    var x, y := e + e * h, s - h * s;
    NonNegativeProduct(f - x, t, (f - x) * t);
    NonNegativeProduct(e, h, e * h);
    NonNegativeProduct(x, t - y, x * (t - y));
    assert x * y == e * s * shrink by {
      assert x == e * (1.0 + h) && y == s * (1.0 - h);
      assert x * y == e * s * ((1.0 + h) * (1.0 - h));
    }
    assert (f - x) * t == f * t - x * t;
    assert x * (t - y) == x * t - x * y;
  }

  lemma {:induction false} Bernoulli(t: real, m: nat)
    requires 0.0 <= t <= 1.0
    ensures Power(1.0 - t, m) >= 1.0 - m as real * t
    ensures Power(1.0 - t, m) >= 0.0
  {
    if m > 0 {
      Bernoulli(t, m - 1);
      var p, q := Power(1.0 - t, m - 1), 1.0 - t;
      NonNegativeProduct(p, q, p * q);
      var bound := 1.0 - (m - 1) as real * t;
      NonNegativeProduct(p - bound, q, (p - bound) * q);
      NonNegativeProduct((m - 1) as real, t * t, (m - 1) as real * (t * t));
      assert bound * q == 1.0 - m as real * t + (m - 1) as real * (t * t);
      assert (p - bound) * q == p * q - bound * q;
    }
  }

  /** After `k` steps of size `h` from rate zero. */
  lemma {:induction false} MassAlong(exp: real -> real, h: real, square: real, k: nat, rate: real, n: nat)
    requires Exponential(exp) && 0.0 <= h <= 1.0 && square == h * h && 0.0 <= square <= 1.0 && rate == k as real * h
    ensures Mass(exp, rate, n) * Power(1.0 - square, k) <= 1.0
  {
    if k == 0 {
      SeriesAtZero(n);
      assert rate == 0.0 == -rate;
    } else {
      var a := (k - 1) as real * h;
      assert rate == a + h;
      NonNegativeProduct((k - 1) as real, h, a);
      PowerUnfolds(1.0 - square, k);
      hide Mass, Power, Exponential;
      MassAlong(exp, h, square, k - 1, a, n);
      MassStep(exp, a, rate, h, 1.0 - square, n);
      Bernoulli(square, k - 1);
      ChainArithmetic(Mass(exp, a, n), Mass(exp, rate, n), 1.0 - square, Power(1.0 - square, k - 1));
    }
  }

  lemma ChainArithmetic(x: real, y: real, q: real, p: real)
    requires y * q <= x && p >= 0.0 && x * p <= 1.0
    ensures y * (p * q) <= 1.0
  {
    NonNegativeProduct(x - y * q, p, (x - y * q) * p);
    assert (x - y * q) * p == x * p - y * (p * q);
  }

  /** Every probability is at most one: the series never overtakes the exponential. */
  lemma MassIsAtMostOne(exp: real -> real, x: real, n: nat)
    requires Exponential(exp) && x >= 0.0
    ensures 0.0 <= Mass(exp, x, n) <= 1.0
  {
    hide *;
    MassStep(exp, x, x, 0.0, 1.0, n);
    var mass := Mass(exp, x, n);
    if mass > 1.0 {
      var m, h := EnoughSteps(x, Needed(x, mass));
      StepIsSmall(x, m as real, h);
      var power := Power(1.0 - h * h, m);
      MassAlong(exp, h, h * h, m, x, n);
      Bernoulli(h * h, m);
      Overtaken(x, mass, m as real, h, h * h, power, mass * power);
    }
  }

  /** How many steps show an excess of `mass` over one. */
  function Needed(x: real, mass: real): real
    requires mass > 1.0
  {
    mass * (x * x) / (mass - 1.0)
  }

  /** Steps that are many and small. */
  lemma EnoughSteps(x: real, least: real) returns (m: nat, h: real)
    requires x >= 0.0
    ensures m as real > x && m as real > least && h * m as real == x == m as real * h
  {
    m := Larger(x, least).Floor + 1;
    h := x / m as real;
    assert m as real > Larger(x, least);
    assert h * m as real == x;
  }

  lemma StepIsSmall(x: real, size: real, h: real)
    requires 0.0 <= x < size && h * size == x
    ensures 0.0 <= h <= 1.0
    ensures 0.0 <= h * h <= 1.0
  {
    if h < 0.0 {
      ProductIsPositive(-h, size, -x);
    }
    if h > 1.0 {
      ProductIsPositive(h - 1.0, size, x - size);
    }
    NonNegativeProduct(h, h, h * h);
    NonNegativeProduct(h, 1.0 - h, h - h * h);
  }

  /** With enough steps an excess over one would show. */
  lemma Overtaken(x: real, mass: real, size: real, h: real, step: real, power: real, product: real)
    requires mass > 1.0 && size > 0.0 && size > Needed(x, mass) && x == h * size && step == h * h
    requires power >= 1.0 - size * step && product == mass * power
    ensures product > 1.0
  {
    var d, square, loss := mass - 1.0, x * x, size * step;
    assert loss * size == square;
    assert d * Needed(x, mass) == mass * square;
    ProductIsPositive(d, size - Needed(x, mass), d * size - mass * square);
    assert mass * square == mass * loss * size;
    if mass * loss >= d {
      NonNegativeProduct(mass * loss - d, size, mass * square - d * size);
    }
    NonNegativeProduct(mass, power - (1.0 - loss), mass * power - mass * (1.0 - loss));
    assert mass * (1.0 - loss) == mass - mass * loss;
  }

  lemma {:induction false} CdfIsMass(exp: real -> real, value: nat, rate: real)
    ensures Cdf(exp, value, rate) == Mass(exp, rate, value)
  {
    PmfIsTerm(exp, value, rate);
    hide Pmf, Term;
    if value == 0 {
      assert Cdf(exp, -1, rate) == 0.0;
    } else {
      CdfIsMass(exp, value - 1, rate);
      assert exp(-rate) * (Series(rate, value - 1) + Term(rate, value))
          == exp(-rate) * Series(rate, value - 1) + exp(-rate) * Term(rate, value);
    }
  }

  lemma PmfIsTerm(exp: real -> real, value: nat, rate: real)
    ensures Pmf(exp, value, rate) == exp(-rate) * Term(rate, value)
  {
    hide Power, Factorial;
    var e, p, f := exp(-rate), Power(rate, value), Factorial(value) as real;
    var t := p / f;
    assert t * f == p;
    assert e * p / f == e * t;
  }

  /** A distribution function: between zero and one. */
  lemma CdfIsProper(exp: real -> real, value: int, rate: real)
    requires Exponential(exp) && rate >= 0.0
    ensures 0.0 <= Cdf(exp, value, rate) <= 1.0
  {
    if value >= 0 {
      CdfIsMass(exp, value, rate);
      MassIsAtMostOne(exp, rate, value);
    }
  }

  // ---- the running product -------------------------------------------------

  /** One factor more gives the next probability. */
  lemma NextProbability(exp: real -> real, k: nat, rate: real)
    requires k > 0
    ensures Pmf(exp, k - 1, rate) * (rate / k as real) == Pmf(exp, k, rate)
  {
    FactorialStep(k);
    var e, p, f, n := exp(-rate), Power(rate, k - 1), Factorial(k - 1) as real, k as real;
    assert Power(rate, k) == p * rate;
    hide Power, Factorial;
    ScaledFraction(e, p, f, rate, n);
  }

  lemma FactorialStep(k: nat)
    requires k > 0
    ensures Factorial(k) as real == k as real * Factorial(k - 1) as real
  {
    var f := Factorial(k - 1);
    assert (k * f) as real == k as real * f as real;
  }

  lemma ScaledFraction(e: real, p: real, f: real, rate: real, n: real)
    requires f > 0.0 && n > 0.0
    ensures n * f > 0.0
    ensures e * p / f * (rate / n) == e * (p * rate) / (n * f)
  {
    MultiplyFractions(e * p, f, rate, n);
    assert e * (p * rate) == (e * p) * rate;
  }

  lemma MultiplyFractions(a: real, b: real, c: real, d: real)
    requires b > 0.0 && d > 0.0
    ensures a / b * (c / d) == a * c / (d * b)
  {
    var x, y := a / b, c / d;
    assert x * b == a && y * d == c;
    var product := d * b;
    assert product > 0.0;
    assert (x * y) * product == a * c;
  }

  predicate IsProbability(x: real) {
    0.0 <= x <= 1.0
  }

  datatype TailError = InvalidRate | InvalidLine

  /** `poisson_over_probability`: the running product is one minus the factorial-form distribution, and the final clamp
      to the unit interval has nothing to do. */
  method OverProbability(exp: real -> real, rate: real, line: real) returns (result: Result<real, TailError>)
    requires Exponential(exp)
    ensures rate < 0.0 ==> result == Err(InvalidRate)
    ensures rate >= 0.0 && line < 0.0 ==> result == Err(InvalidLine)
    ensures rate >= 0.0 && line >= 0.0 ==>
              result == Ok(1.0 - Cdf(exp, line.Floor, rate)) && IsProbability(1.0 - Cdf(exp, line.Floor, rate))
  {
    if rate < 0.0 {
      return Err(InvalidRate);
    }
    if line < 0.0 {
      return Err(InvalidLine);
    }
    var cutoff := line.Floor;
    CdfIsProper(exp, cutoff, rate);
    if rate == 0.0 {
      CertainZero(exp, cutoff);
      return Ok(0.0);
    }
    var probability := exp(-rate);
    var cumulative := probability;
    FirstProbability(exp, rate);
    hide Pmf, Power, Factorial, ExpLaws;
    for count := 1 to cutoff + 1
      invariant probability == Pmf(exp, count - 1, rate)
      invariant cumulative == Cdf(exp, count - 1, rate)
    {
      NextProbability(exp, count, rate);
      probability := probability * (rate / count as real);
      cumulative := cumulative + probability;
    }
    var complement := 1.0 - cumulative;
    return Ok(Smaller(1.0, Larger(0.0, complement)));
  }

  lemma FirstProbability(exp: real -> real, rate: real)
    ensures Pmf(exp, 0, rate) == exp(-rate) == Cdf(exp, 0, rate)
  {
    assert Factorial(0) as real == 1.0;
    assert Cdf(exp, 0, rate) == Cdf(exp, -1, rate) + Pmf(exp, 0, rate);
  }

  /** At rate zero the count is zero with certainty. */
  lemma {:induction false} CertainZero(exp: real -> real, value: nat)
    requires exp(0.0) == 1.0
    ensures Cdf(exp, value, 0.0) == 1.0
  {
    if value == 0 {
      FirstProbability(exp, 0.0);
    } else {
      CertainZero(exp, value - 1);
      assert Power(0.0, value) == Power(0.0, value - 1) * 0.0 == 0.0;
      assert Pmf(exp, value, 0.0) == exp(-0.0) * 0.0 / Factorial(value) as real == 0.0;
    }
  }

  // ---- the quantile loop ---------------------------------------------------

  const SEARCH_LIMIT: nat := 1000

  /** The least count whose distribution reaches the probability, or the search limit. */
  ghost predicate LeastReaching(exp: real -> real, probability: real, rate: real, k: nat) {
    && k <= SEARCH_LIMIT
    && (forall j: nat :: j < k ==> Cdf(exp, j, rate) < probability)
    && (k < SEARCH_LIMIT ==> Cdf(exp, k, rate) >= probability)
  }

  method PoissonQuantile(exp: real -> real, probability: real, rate: real) returns (value: nat)
    requires Exponential(exp) && rate >= 0.0
    ensures LeastReaching(exp, probability, rate, value)
    ensures value <= 1000 && (Cdf(exp, value, rate) >= probability || value == 1000)
  {
    hide Pmf;
    var cumulative := 0.0;
    value := 0;
    CdfGrows(exp, 0, 0, rate);
    while cumulative < probability && value < SEARCH_LIMIT
      invariant value <= SEARCH_LIMIT && cumulative == Cdf(exp, value - 1, rate)
      invariant forall j: nat :: j < value ==> Cdf(exp, j, rate) < probability
      invariant cumulative < probability || value == 0
      decreases SEARCH_LIMIT - value
    {
      cumulative := cumulative + Pmf(exp, value, rate);
      if cumulative >= probability {
        return value;
      }
      value := value + 1;
    }
  }

  /** The answer grows with the probability, so each probability has only one. */
  lemma QuantilesAreOrdered(exp: real -> real, p: real, q: real, rate: real, i: nat, j: nat)
    requires p <= q && LeastReaching(exp, p, rate, i) && LeastReaching(exp, q, rate, j)
    ensures i <= j && (p == q ==> i == j)
  {
    hide Cdf;
    assert j < i ==> Cdf(exp, j, rate) < p;
    assert i < j ==> Cdf(exp, i, rate) < q;
  }

  // ---- the projection ------------------------------------------------------

  datatype Projection = Projection(
    targets: real, receptions: real, floor: nat, median: nat, ceiling: nat, over: real, under: real, push: real)

  datatype ProjectionError = NegativeAttempts | RateOutOfRange | NegativeLine | NonPositiveMultiplier

  function Product(values: seq<real>): real {
    if values == [] then 1.0 else Product(values[..|values| - 1]) * values[|values| - 1]
  }

  predicate AllPositive(multipliers: seq<real>) {
    forall i :: 0 <= i < |multipliers| ==> multipliers[i] > 0.0
  }

  function ProjectionFailure(attempts: real, route: real, perRoute: real, catchRate: real, line: real,
                             multipliers: seq<real>)
    : Option<ProjectionError>
  {
    if attempts < 0.0 then Some(NegativeAttempts)
    else if !(IsProbability(route) && IsProbability(perRoute) && IsProbability(catchRate)) then Some(RateOutOfRange)
    else if line < 0.0 then Some(NegativeLine)
    else if !AllPositive(multipliers) then Some(NonPositiveMultiplier)
    else None
  }

  lemma {:induction false} MultipliersArePositive(values: seq<real>)
    requires AllPositive(values)
    ensures Product(values) > 0.0
  {
    if values != [] {
      MultipliersArePositive(values[..|values| - 1]);
    }
  }

  /** The context multiplies up: one for none, and whatever is put together multiplies. */
  lemma {:induction false} ProductMultiplies(a: seq<real>, x: real, b: seq<real>)
    ensures Product([]) == 1.0 && Product([x]) == x && Product(a + b) == Product(a) * Product(b)
  {
    assert Product([x]) == Product([x][..0]) * x && [x][..0] == [];
    if b == [] {
      assert a + b == a;
    } else {
      var n := |b| - 1;
      ProductMultiplies(a, x, b[..n]);
      assert (a + b)[..|a| + n] == a + b[..n];
      RegroupProduct(Product(a), Product(b[..n]), b[n]);
    }
  }

  lemma RegroupProduct(x: real, y: real, z: real)
    ensures (x * y) * z == x * (y * z)
  {
  }

  /** Which inputs are refused, the first applicable reason being given. */
  lemma ProjectionFailureMeaning(attempts: real, route: real, perRoute: real, catchRate: real, line: real,
                                 multipliers: seq<real>)
    ensures var failure := ProjectionFailure(attempts, route, perRoute, catchRate, line, multipliers);
            var rated := 0.0 <= route <= 1.0 && 0.0 <= perRoute <= 1.0 && 0.0 <= catchRate <= 1.0;
            && (failure == Some(NegativeAttempts) <==> attempts < 0.0)
            && (failure == Some(RateOutOfRange) <==> attempts >= 0.0 && !rated)
            && (failure == Some(NegativeLine) <==> attempts >= 0.0 && rated && line < 0.0)
            && (failure == Some(NonPositiveMultiplier) <==>
                  attempts >= 0.0 && rated && line >= 0.0 && exists i :: 0 <= i < |multipliers|
                                                               && multipliers[i] <= 0.0)
  {
  }

  /** Over, under and push always add up to one, and the three quantiles are in order. */
  method Project(exp: real -> real, attempts: real, route: real, perRoute: real, catchRate: real, line: real,
                 multipliers: seq<real>)
    returns (result: Result<Projection, ProjectionError>)
    requires Exponential(exp)
    ensures var failure := ProjectionFailure(attempts, route, perRoute, catchRate, line, multipliers);
            if failure.Some? then result == Err(failure.value) else result.Ok?
    ensures result.Ok? ==>
              var p := result.value;
              && p.over + p.under + p.push == 1.0
              && IsProbability(p.over) && IsProbability(p.under) && IsProbability(p.push)
              && p.over == 1.0 - Cdf(exp, line.Floor, p.receptions)
              && p.push == (if line.Floor as real == line then Pmf(exp, line.Floor, p.receptions) else 0.0)
              && p.targets == attempts * route * perRoute * Product(multipliers)
              && p.receptions == p.targets * catchRate >= 0.0
              && LeastReaching(exp, 0.1, p.receptions, p.floor)
              && LeastReaching(exp, 0.5, p.receptions, p.median)
              && LeastReaching(exp, 0.9, p.receptions, p.ceiling)
              && p.floor <= p.median <= p.ceiling
  {
    hide Pmf, LeastReaching, ExpLaws;
    var failure := ProjectionFailure(attempts, route, perRoute, catchRate, line, multipliers);
    if failure.Some? {
      return Err(failure.value);
    }
    var targets := attempts * route * perRoute * Product(multipliers);
    MultipliersArePositive(multipliers);
    NonNegativeProduct(attempts, route, attempts * route);
    NonNegativeProduct(attempts * route, perRoute, attempts * route * perRoute);
    NonNegativeProduct(attempts * route * perRoute, Product(multipliers), targets);
    var receptions := targets * catchRate;
    NonNegativeProduct(targets, catchRate, receptions);
    var lower := line.Floor;
    var over := 1.0 - Cdf(exp, lower, receptions);
    var push, under := 0.0, Cdf(exp, lower, receptions);
    CdfIsProper(exp, lower, receptions);
    PmfIsNonNegative(exp, lower, receptions);
    CdfGrows(exp, lower - 1, lower, receptions);
    if lower as real == line {
      push, under := Pmf(exp, lower, receptions), Cdf(exp, lower - 1, receptions);
    }
    var floor := PoissonQuantile(exp, 0.1, receptions);
    var median := PoissonQuantile(exp, 0.5, receptions);
    var ceiling := PoissonQuantile(exp, 0.9, receptions);
    QuantilesAreOrdered(exp, 0.1, 0.5, receptions, floor, median);
    QuantilesAreOrdered(exp, 0.5, 0.9, receptions, median, ceiling);
    return Ok(Projection(targets, receptions, floor, median, ceiling, over, under, push));
  }

  /** The tail shrinks as the line rises. */
  lemma OverShrinksWithLine(exp: real -> real, rate: real, line: real, higher: real)
    requires Exponential(exp) && rate >= 0.0 && 0.0 <= line <= higher
    ensures 0.0 <= 1.0 - Cdf(exp, higher.Floor, rate) <= 1.0 - Cdf(exp, line.Floor, rate) <= 1.0
  {
    hide Pmf, Exponential;
    CdfGrows(exp, line.Floor, higher.Floor, rate);
    CdfIsProper(exp, higher.Floor, rate);
  }
}
