/** Sums, bounds and the few laws of real arithmetic the numeric components share. */
module Numerics {

  function Abs(x: real): real {
    if x < 0.0 then -x else x
  }

  function Larger(a: real, b: real): real {
    if b > a then b else a
  }

  function Smaller(a: real, b: real): real {
    if b < a then b else a
  }

  // ---- signs and order -----------------------------------------------------

  lemma ProductIsPositive(a: real, b: real, product: real)
    requires a > 0.0 && b > 0.0 && product == a * b
    ensures product > 0.0
  {
  }

  lemma NonNegativeProduct(a: real, b: real, product: real)
    requires a >= 0.0 && b >= 0.0 && product == a * b
    ensures product >= 0.0
  {
  }

  lemma ScaledOrder(k: real, x: real, y: real, kx: real, ky: real)
    requires k > 0.0 && x < y && kx == k * x && ky == k * y
    ensures kx < ky
  {
    ProductIsPositive(k, y - x, ky - kx);
  }

  lemma DividedOrder(a: real, b: real, n: real)
    requires n > 0.0 && a <= b
    ensures a / n <= b / n
  {
    assert (b - a) / n >= 0.0;
    assert b / n == a / n + (b - a) / n;
  }

  lemma QuotientIsBounded(total: real, n: real, low: real, high: real)
    requires n > 0.0 && n * low <= total <= n * high
    ensures low <= total / n <= high
  {
    var q := total / n;
    assert n * q == total;
    if q < low {
      ScaledOrder(n, q, low, n * q, n * low);
    }
    if q > high {
      ScaledOrder(n, high, q, n * high, n * q);
    }
  }

  // ---- counting ------------------------------------------------------------

  function Range(n: nat): set<nat> {
    if n == 0 then {} else Range(n - 1) + {n - 1}
  }

  lemma {:induction false} RangeHas(n: nat)
    ensures |Range(n)| == n && forall i :: i in Range(n) <==> 0 <= i < n
  {
    if n > 0 {
      RangeHas(n - 1);
    }
  }

  lemma {:induction false} SubsetIsSmaller(a: set<nat>, b: set<nat>)
    requires a <= b
    ensures |a| <= |b|
  {
    if a != {} {
      var x :| x in a;
      SubsetIsSmaller(a - {x}, b - {x});
    }
  }

  // ---- sums ----------------------------------------------------------------

  function Total<T>(items: seq<T>, f: T -> real): real {
    if items == [] then 0.0 else Total(items[..|items| - 1], f) + f(items[|items| - 1])
  }

  function Identity(x: real): real {
    x
  }

  function Sum(values: seq<real>): real {
    Total(values, Identity)
  }

  lemma {:induction false} TotalIsBounded<T>(items: seq<T>, f: T -> real, low: real, high: real)
    requires forall i :: 0 <= i < |items| ==> low <= f(items[i]) <= high
    ensures |items| as real * low <= Total(items, f) <= |items| as real * high
  {
    if items != [] {
      var n := |items| - 1;
      TotalIsBounded(items[..n], f, low, high);
      assert |items| as real == n as real + 1.0;
      assert |items| as real * low == n as real * low + low;
      assert |items| as real * high == n as real * high + high;
    }
  }

  /** A mean lies within any bounds of what is averaged. */
  lemma MeanIsBounded<T>(items: seq<T>, f: T -> real, low: real, high: real)
    requires items != [] && forall i :: 0 <= i < |items| ==> low <= f(items[i]) <= high
    ensures low <= Total(items, f) / |items| as real <= high
  {
    TotalIsBounded(items, f, low, high);
    QuotientIsBounded(Total(items, f), |items| as real, low, high);
  }

  // ---- the exponential -----------------------------------------------------

  /** What the proofs use of the exponential: it is positive and lies strictly above its tangents. */
  ghost predicate ExpLaws(exp: real -> real) {
    forall x, y {:trigger exp(x), exp(y)} :: exp(x) > 0.0 && (x != y ==> exp(y) > exp(x) + exp(x) * (y - x))
  }

  /** The exponential grows. */
  lemma ExpGrows(exp: real -> real, x: real, y: real)
    requires ExpLaws(exp) && x < y
    ensures exp(x) < exp(y)
  {
    assert exp(y) > exp(x) + exp(x) * (y - x);
    ProductIsPositive(exp(x), y - x, exp(x) * (y - x));
  }
}
