/** Exactly which penalties keep every Newton system from being refused. */
module NewtonThreshold {
  import opened Foundations
  import opened Numerics
  import opened LinearSystem
  import opened PoissonObjective
  import opened NewtonTheory
  import opened SolverRefusal
  import opened NewtonRefusal
  import opened SolverTrap

  // ---- a sample that leads elimination into a trap -------------------------

  /** The middle entries of the vector below: where ridge and load balance best. */
  function Middle(c: Config): real
    requires c.l2Penalty > 0.0
  {
    c.solverEpsilon / (2.0 * c.l2Penalty)
  }

  function ProbeEntry(c: Config, k: nat, j: nat): real
    requires c.l2Penalty > 0.0
  {
    if j == 0 then 0.5 else if j < k then Middle(c) else if j == k then 1.0 else 0.0
  }

  /** The vector no row maps to more than the threshold. */
  function Probe(c: Config, d: nat, k: nat): (v: Vector)
    requires c.l2Penalty > 0.0
    ensures |v| == d
  {
    seq(d, j requires 0 <= j < d => ProbeEntry(c, k, j))
  }

  function FlatEntry(c: Config, k: nat, t: real, j: nat): real
    requires c.l2Penalty > 0.0 && c.solverEpsilon > 0.0
  {
    var scale := 2.0 / c.solverEpsilon;
    if j == 0 then 1.0
    else if j < k then (t - c.l2Penalty * Middle(c)) * scale
    else if j == k then (t - c.l2Penalty) * scale
    else 0.0
  }

  /** A row that sees the probe a little; `t` is where the features' rows of the Hessian will take the probe. */
  function Flat(c: Config, d: nat, k: nat, t: real): (row: Vector)
    requires c.l2Penalty > 0.0 && c.solverEpsilon > 0.0
    ensures |row| == d
  {
    seq(d, j requires 0 <= j < d => FlatEntry(c, k, t, j))
  }

  /** A row that does not see the probe, with a large entry far right. */
  function Steep(c: Config, d: nat, k: nat, r: nat, x: real): (row: Vector)
    requires c.l2Penalty > 0.0
    ensures |row| == d
  {
    seq(d, j requires 0 <= j < d =>
      if j == 0 then 1.0
      else if j < k then if j == r then 1.0 else 0.0
      else if j == k then -0.5 - if r == 0 then 0.0 else Middle(c)
      else if j == k + 1 + r then x
      else if r == 0 && j <= 2 * k then -x
      else 0.0)
  }

  function TrapRow(c: Config, d: nat, k: nat, t: real, n: nat, x: real, i: nat): (row: Vector)
    requires c.l2Penalty > 0.0 && c.solverEpsilon > 0.0
    ensures |row| == d
  {
    if i < n then Flat(c, d, k, t) else Steep(c, d, k, i - n, x)
  }

  function TrapDesign(c: Config, d: nat, k: nat, t: real, n: nat, x: real): (design: Matrix)
    requires c.l2Penalty > 0.0 && c.solverEpsilon > 0.0
    ensures |design| == n + k
    ensures forall i :: 0 <= i < n + k ==> design[i] == TrapRow(c, d, k, t, n, x, i) && |design[i]| == d
  {
    seq(n + k, i requires 0 <= i < n + k => TrapRow(c, d, k, t, n, x, i))
  }

  function TrapSample(c: Config, d: nat, k: nat, t: real, n: nat, x: real): Sample
    requires c.l2Penalty > 0.0 && c.solverEpsilon > 0.0
  {
    Sample(TrapDesign(c, d, k, t, n, x), Zeros(n + k))
  }

  // ---- what the rows make of the probe -------------------------------------

  lemma {:induction false} NothingBeyond(row: Vector, v: Vector, k: nat, n: nat)
    requires k < n <= |row| && n <= |v| && forall j :: k < j < n ==> v[j] == 0.0
    ensures Dot(row, v, n) == Dot(row, v, k) + row[k] * v[k]
  {
    if n > k + 1 {
      NothingBeyond(row, v, k, n - 1);
      assert row[n - 1] * v[n - 1] == 0.0;
    }
  }

  lemma {:induction false} FlatPrefix(row: Vector, v: Vector, k: nat, middle: real, entry: real)
    requires 1 <= k <= |row| && k <= |v| && row[0] == 1.0 && v[0] == 0.5
    requires forall j :: 1 <= j < k ==> row[j] == entry && v[j] == middle
    ensures Dot(row, v, k) == 0.5 + (k - 1) as real * (entry * middle)
  {
    if k == 1 {
      assert Dot(row, v, 1) == Dot(row, v, 0) + row[0] * v[0];
    } else {
      FlatPrefix(row, v, k - 1, middle, entry);
      assert (k - 1) as real * (entry * middle) == (k - 2) as real * (entry * middle) + entry * middle;
    }
  }

  lemma {:induction false} SteepPrefix(row: Vector, v: Vector, k: nat, r: nat, middle: real)
    requires 1 <= k <= |row| && k <= |v| && row[0] == 1.0 && v[0] == 0.5
    requires forall j :: 1 <= j < k ==> row[j] == (if j == r then 1.0 else 0.0) && v[j] == middle
    ensures Dot(row, v, k) == 0.5 + if 1 <= r < k then middle else 0.0
  {
    if k == 1 {
      assert Dot(row, v, 1) == Dot(row, v, 0) + row[0] * v[0];
    } else {
      SteepPrefix(row, v, k - 1, r, middle);
      assert row[k - 1] * v[k - 1] == if k - 1 == r then middle else 0.0;
    }
  }

  /** What a flat row makes of the probe. */
  function Glimpse(c: Config, k: nat, t: real): real
    requires c.l2Penalty > 0.0 && c.solverEpsilon > 0.0 && k >= 1
  {
    var scale := 2.0 / c.solverEpsilon;
    0.5 + (k - 1) as real * ((t - c.l2Penalty * Middle(c)) * scale * Middle(c)) + (t - c.l2Penalty) * scale
  }

  lemma FlatSees(c: Config, d: nat, k: nat, t: real)
    requires c.l2Penalty > 0.0 && c.solverEpsilon > 0.0 && 1 <= k < d
    ensures Dot(Flat(c, d, k, t), Probe(c, d, k), d) == Glimpse(c, k, t)
  {
    var row, v, scale := Flat(c, d, k, t), Probe(c, d, k), 2.0 / c.solverEpsilon;
    NothingBeyond(row, v, k, d);
    FlatPrefix(row, v, k, Middle(c), (t - c.l2Penalty * Middle(c)) * scale);
  }

  lemma SteepIsBlind(c: Config, d: nat, k: nat, r: nat, x: real)
    requires c.l2Penalty > 0.0 && 1 <= k < d && r < k
    ensures Dot(Steep(c, d, k, r, x), Probe(c, d, k), d) == 0.0
  {
    var row, v := Steep(c, d, k, r, x), Probe(c, d, k);
    NothingBeyond(row, v, k, d);
    SteepPrefix(row, v, k, r, Middle(c));
  }

  // ---- the weights ---------------------------------------------------------

  lemma WeightsAreEqual(exp: real -> real, s: Sample, d: nat)
    requires ValidSample(s, d)
    ensures Expected(exp, s, Zeros(d)) == seq(|s.design|, _ => exp(0.0))
  {
    forall i | 0 <= i < |s.design| ensures Eta(Zeros(d), s.design[i]) == 0.0 {
      DotZero(Zeros(d), s.design[i], d);
    }
  }

  // ---- the image of the probe ----------------------------------------------

  /** The first `n` rows contribute alike, the others nothing. */
  lemma {:induction false} CombineCopies(design: Matrix, seen: Vector, l: nat, n: nat, i: nat, entry: real,
                                         glimpse: real)
    requires i <= |design| && |design| == |seen| && forall j :: 0 <= j < |design| ==> l < |design[j]|
    requires forall j :: 0 <= j < |design| ==>
               if j < n then design[j][l] == entry && seen[j] == glimpse else seen[j] == 0.0
    ensures Combine(design, seen, l, i) == (if i <= n then i else n) as real * (entry * glimpse)
  {
    if i > 0 {
      CombineCopies(design, seen, l, n, i - 1, entry, glimpse);
      if i <= n {
        assert i as real * (entry * glimpse) == (i - 1) as real * (entry * glimpse) + entry * glimpse;
      } else {
        assert design[i - 1][l] * seen[i - 1] == 0.0;
      }
    }
  }

  /** What every row makes of the probe, weighted. */
  lemma RowsSee(exp: real -> real, c: Config, d: nat, k: nat, t: real, n: nat, x: real, j: nat)
    requires ValidConfig(c) && 1 <= k < d && j < n + k
    ensures var s := TrapSample(c, d, k, t, n, x);
            Reweighted(s.design, Expected(exp, s, Zeros(d)), Probe(c, d, k))[j]
              == if j < n then exp(0.0) * Glimpse(c, k, t) else 0.0
  {
    hide Flat, Steep, TrapDesign, Dot, Glimpse, Probe;
    var s := TrapSample(c, d, k, t, n, x);
    WeightsAreEqual(exp, s, d);
    if j < n {
      FlatSees(c, d, k, t);
    } else {
      SteepIsBlind(c, d, k, j - n, x);
      ZeroTimes(exp(0.0), Dot(s.design[j], Probe(c, d, k), d));
    }
  }

  /** Where each row of the Hessian takes the probe. */
  lemma ProbeImage(exp: real -> real, c: Config, d: nat, k: nat, t: real, n: nat, x: real, h: Matrix, l: nat)
    requires ValidConfig(c) && 1 <= k < d && l < d && Tuned(c, k, exp(0.0), n, t)
    requires IsHessian(exp, TrapSample(c, d, k, t, n, x), Zeros(d), c, h)
    ensures Dot(h[l], Probe(c, d, k), d) == if l == 0 then c.solverEpsilon else if l <= k then t else 0.0
  {
    hide Dot, Glimpse, FlatEntry, ProbeEntry, Steep, TrapDesign, IsHessian, Reweighted, Expected, Combine;
    var s, v := TrapSample(c, d, k, t, n, x), Probe(c, d, k);
    var design, glimpse := s.design, exp(0.0) * Glimpse(c, k, t);
    var seen := Reweighted(design, Expected(exp, s, Zeros(d)), v);
    forall j | 0 <= j < |design|
      ensures if j < n then design[j][l] == FlatEntry(c, k, t, l) && seen[j] == glimpse else seen[j] == 0.0
    {
      RowsSee(exp, c, d, k, t, n, x, j);
    }
    CombineCopies(design, seen, l, n, |design|, FlatEntry(c, k, t, l), glimpse);
    HessianRow(exp, s, Zeros(d), c, h, v, l);
    Rescale(n as real, FlatEntry(c, k, t, l), glimpse, c.solverEpsilon);
    ImageArithmetic(c, t, l, k);
  }

  lemma Rescale(n: real, entry: real, glimpse: real, e: real)
    requires n * glimpse == e / 2.0
    ensures n * (entry * glimpse) == entry * (e / 2.0)
  {
    assert n * (entry * glimpse) == entry * (n * glimpse);
  }

  lemma ImageArithmetic(c: Config, t: real, l: nat, k: nat)
    requires c.l2Penalty > 0.0 && c.solverEpsilon > 0.0 && 1 <= k
    ensures FlatEntry(c, k, t, l) * (c.solverEpsilon / 2.0) + Ridge(c, l) * ProbeEntry(c, k, l)
              == if l == 0 then c.solverEpsilon else if l <= k then t else 0.0
  {
    var e := c.solverEpsilon;
    assert 2.0 / e * (e / 2.0) == 1.0;
    Unscale(t - c.l2Penalty * Middle(c), e);
    Unscale(t - c.l2Penalty, e);
  }

  lemma Unscale(a: real, e: real)
    requires e > 0.0
    ensures a * (2.0 / e) * (e / 2.0) == a
  {
    var scale := 2.0 / e;
    assert scale * e == 2.0;
    assert a * scale * (e / 2.0) == a * (scale * e) / 2.0;
  }

  // ---- the entries of the Hessian ------------------------------------------

  function Lead(r: nat, l: nat, size: real): real {
    if l == r then size else 0.0
  }

  /** What one steep row adds to a leading row of the Hessian. */
  function SteepTerm(r: nat, row: nat, l: nat, size: real): real {
    if row == 0 then if r == 0 then Lead(0, l, size) else -Lead(0, l, size)
    else if row == r then Lead(0, l, size) + Lead(r, l, size)
    else 0.0
  }

  lemma SteepAdds(c: Config, d: nat, k: nat, r: nat, x: real, w: real, size: real, row: nat, l: nat)
    requires c.l2Penalty > 0.0 && 1 <= k && 2 * k < d && r < k && row < k && l < k && size == x * w
    ensures Steep(c, d, k, row, x)[k + 1 + r] * w * Steep(c, d, k, row, x)[l] == SteepTerm(r, row, l, size)
  {
    var large, entry := Steep(c, d, k, row, x)[k + 1 + r], Steep(c, d, k, row, x)[l];
    assert large == if row == r then x else if row == 0 then -x else 0.0;
    assert entry == if l == 0 || l == row then 1.0 else 0.0;
    assert -x * w == -size;
  }

  /** The large entries add up to one for each leading row. */
  lemma {:induction false} LeadingGram(c: Config, d: nat, k: nat, t: real, n: nat, x: real, w: real, size: real,
                                       weights: Vector, r: nat, l: nat, j: nat)
    requires c.l2Penalty > 0.0 && c.solverEpsilon > 0.0 && 1 <= k && 2 * k < d && r < k && l < k && j <= k
    requires |weights| == n + k && (forall i :: 0 <= i < n + k ==> weights[i] == w) && size == x * w
    ensures Gram(TrapDesign(c, d, k, t, n, x), weights, k + 1 + r, l, n + j)
              == if j == 0 then 0.0 else if r == 0 || j > r then Lead(r, l, size) else -Lead(0, l, size)
  {
    hide Steep, TrapDesign, Flat, Lead, Gram;
    if j == 0 {
      FlatIsShort(c, d, k, t, k + 1 + r);
      ConstantGram(TrapDesign(c, d, k, t, n, x), weights, k + 1 + r, l, n);
    } else {
      LeadingGram(c, d, k, t, n, x, w, size, weights, r, l, j - 1);
      LeadingStep(c, d, k, t, n, x, w, size, weights, r, l, j);
    }
  }

  lemma LeadingStep(c: Config, d: nat, k: nat, t: real, n: nat, x: real, w: real, size: real, weights: Vector,
                    r: nat, l: nat, j: nat)
    requires c.l2Penalty > 0.0 && c.solverEpsilon > 0.0 && 1 <= k && 2 * k < d && r < k && l < k && 1 <= j <= k
    requires |weights| == n + k && weights[n + j - 1] == w && size == x * w
    ensures Gram(TrapDesign(c, d, k, t, n, x), weights, k + 1 + r, l, n + j)
              == Gram(TrapDesign(c, d, k, t, n, x), weights, k + 1 + r, l, n + j - 1) + SteepTerm(r, j - 1, l, size)
  {
    hide Steep, TrapDesign, Flat, SteepTerm;
    SteepAdds(c, d, k, r, x, w, size, j - 1, l);
    assert TrapDesign(c, d, k, t, n, x)[n + j - 1] == Steep(c, d, k, j - 1, x);
  }

  lemma FlatIsShort(c: Config, d: nat, k: nat, t: real, j: nat)
    requires c.l2Penalty > 0.0 && c.solverEpsilon > 0.0 && 1 <= k < j < d
    ensures Flat(c, d, k, t)[j] == 0.0
  {
  }

  lemma {:induction false} GramAgrees(a: Matrix, b: Matrix, weights: Vector, l: nat, r: nat, n: nat)
    requires n <= |a| && n <= |b| && n <= |weights|
    requires forall i :: 0 <= i < n ==> l < |a[i]| && r < |a[i]| && l < |b[i]| && r < |b[i]|
    requires forall i :: 0 <= i < n ==> a[i][l] == b[i][l] && a[i][r] == b[i][r]
    ensures Gram(a, weights, l, r, n) == Gram(b, weights, l, r, n)
  {
    if n > 0 {
      GramAgrees(a, b, weights, l, r, n - 1);
    }
  }

  lemma RowsAgree(c: Config, d: nat, k: nat, t: real, n: nat, x: real, y: real, row: nat, j: nat)
    requires c.l2Penalty > 0.0 && c.solverEpsilon > 0.0 && 1 <= k && j <= k < d
    ensures TrapRow(c, d, k, t, n, x, row)[j] == TrapRow(c, d, k, t, n, y, row)[j]
  {
    hide Flat;
  }

  /** The large entries do not show in the first rows and columns. */
  lemma CornerIsFixed(exp: real -> real, c: Config, d: nat, k: nat, t: real, n: nat, x: real, y: real, h: Matrix,
                      m: Matrix, i: nat, l: nat)
    requires ValidConfig(c) && 1 <= k && 2 * k < d && i <= k && l <= k
    requires IsHessian(exp, TrapSample(c, d, k, t, n, x), Zeros(d), c, h)
    requires IsHessian(exp, TrapSample(c, d, k, t, n, y), Zeros(d), c, m)
    ensures h[i][l] == m[i][l]
  {
    var a, b := TrapSample(c, d, k, t, n, x), TrapSample(c, d, k, t, n, y);
    WeightsAreEqual(exp, a, d);
    WeightsAreEqual(exp, b, d);
    hide TrapDesign, TrapRow, Gram, Expected;
    forall row | 0 <= row < n + k ensures a.design[row][i] == b.design[row][i] && a.design[row][l] == b.design[row][l] {
      RowsAgree(c, d, k, t, n, x, y, row, i);
      RowsAgree(c, d, k, t, n, x, y, row, l);
    }
    GramAgrees(a.design, b.design, Expected(exp, a, Zeros(d)), i, l, n + k);
    assert h[i][l] == HessianEntry(exp, a, Zeros(d), c, i, l);
    assert m[i][l] == HessianEntry(exp, b, Zeros(d), c, i, l);
  }

  /** Right of the leading rows there is nothing but the ridge. */
  lemma MarginIsEmpty(exp: real -> real, c: Config, d: nat, k: nat, t: real, n: nat, x: real, h: Matrix, i: nat, l: nat)
    requires ValidConfig(c) && 1 <= k && 2 * k < i < d && l < k
    requires IsHessian(exp, TrapSample(c, d, k, t, n, x), Zeros(d), c, h)
    ensures h[i][l] == 0.0
  {
    var s := TrapSample(c, d, k, t, n, x);
    ConstantGram(s.design, Expected(exp, s, Zeros(d)), i, l, n + k);
    hide TrapDesign, Gram, Expected;
    assert h[i][l] == HessianEntry(exp, s, Zeros(d), c, i, l);
  }

  lemma LeadingRow(exp: real -> real, c: Config, d: nat, k: nat, t: real, n: nat, x: real, h: Matrix, r: nat, l: nat)
    requires ValidConfig(c) && 1 <= k && 2 * k < d && r < k && l < k
    requires IsHessian(exp, TrapSample(c, d, k, t, n, x), Zeros(d), c, h)
    ensures h[k + 1 + r][l] == Lead(r, l, x * exp(0.0))
  {
    var s := TrapSample(c, d, k, t, n, x);
    WeightsAreEqual(exp, s, d);
    hide TrapDesign, TrapRow, Gram, Lead, Expected;
    LeadingGram(c, d, k, t, n, x, exp(0.0), x * exp(0.0), Expected(exp, s, Zeros(d)), r, l, k);
    assert h[k + 1 + r][l] == HessianEntry(exp, s, Zeros(d), c, k + 1 + r, l);
  }

  // ---- how large the large entries must be ---------------------------------

  function RowCeiling(row: Vector, n: nat): (ceiling: real)
    requires n <= |row|
    ensures ceiling >= 0.0
  {
    if n == 0 then 0.0 else RowCeiling(row, n - 1) + Abs(row[n - 1])
  }

  function Ceiling(m: Matrix, n: nat): (ceiling: real)
    requires n <= |m|
    ensures ceiling >= 0.0
  {
    if n == 0 then 0.0 else Ceiling(m, n - 1) + RowCeiling(m[n - 1], |m[n - 1]|)
  }

  lemma {:induction false} RowIsBelow(row: Vector, n: nat, l: nat)
    requires l < n <= |row|
    ensures Abs(row[l]) <= RowCeiling(row, n)
  {
    if l < n - 1 {
      RowIsBelow(row, n - 1, l);
    }
  }

  lemma {:induction false} EntryIsBelow(m: Matrix, n: nat, i: nat, l: nat)
    requires i < n <= |m| && l < |m[i]|
    ensures Abs(m[i][l]) <= Ceiling(m, n)
  {
    if i < n - 1 {
      EntryIsBelow(m, n - 1, i, l);
    } else {
      RowIsBelow(m[i], |m[i]|, l);
    }
  }

  // ---- the parameters of the sample ----------------------------------------

  /** The penalty falls short for `m` middle entries. */
  predicate FallsShort(l: real, e: real, m: real) {
    l > e > 0.0 && m >= 0.0 && 4.0 * l * l < 5.0 * l * e + m * (e * e)
  }

  /** The middle entry balances, and `balance` is what all of them leave. */
  predicate Balanced(l: real, e: real, m: real, b: real, balance: real) {
    l * b == e / 2.0 && b > 0.0 && balance == m * (e / 2.0 * b)
  }

  /** `n` rows of weight `w` share what the intercept leaves. */
  predicate Shares(n: nat, w: real, q: real, e: real) {
    n >= 1 && q > 0.0 && n as real * w * q == e * e / 4.0
  }

  predicate Takes(t: real, l: real, e: real, m: real, b: real, balance: real, q: real) {
    t * (m * b + 1.0) == q - e / 4.0 + balance + l
  }

  /** With these parameters the flat rows together take the probe to half the threshold. */
  predicate Tuned(c: Config, k: nat, w: real, n: nat, t: real)
    requires c.l2Penalty > 0.0 && c.solverEpsilon > 0.0 && k >= 1
  {
    n >= 1 && Abs(t) <= c.solverEpsilon && n as real * (w * Glimpse(c, k, t)) == c.solverEpsilon / 2.0
  }

  /** While the penalty falls short there is room for a glimpse of the probe, however small. */
  lemma Parameters(c: Config, k: nat, w: real) returns (n: nat, t: real)
    requires ValidConfig(c) && k >= 1 && w > 0.0 && FallsShort(c.l2Penalty, c.solverEpsilon, (k - 1) as real)
    ensures Tuned(c, k, w, n, t)
  {
    hide FallsShort, Balanced, Shares, Takes, Glimpse, Middle, Tuned;
    var l, e, m, b := c.l2Penalty, c.solverEpsilon, (k - 1) as real, Middle(c);
    var balance := MiddleBalances(c, m);
    var room := RoomForAGlimpse(l, e, m, b, balance);
    var q: real;
    n, q := SmallShare(e, w, room);
    t := TakesWithinThreshold(l, e, m, b, balance, q, room);
    GlimpseIsHalf(c, k, t, m, balance, n, w, q);
  }

  lemma MiddleBalances(c: Config, m: real) returns (balance: real)
    requires ValidConfig(c)
    ensures Balanced(c.l2Penalty, c.solverEpsilon, m, Middle(c), balance)
  {
    var l, e, b := c.l2Penalty, c.solverEpsilon, Middle(c);
    balance := m * (e / 2.0 * b);
    assert b * (2.0 * l) == e;
    if b <= 0.0 {
      NonNegativeProduct(-b, 2.0 * l, -e);
    }
  }

  lemma RoomForAGlimpse(l: real, e: real, m: real, b: real, balance: real) returns (room: real)
    requires FallsShort(l, e, m) && Balanced(l, e, m, b, balance)
    ensures room > 0.0 && room == 1.25 * e - l + balance && m >= 0.0 && l > e > 0.0
  {
    room := 1.25 * e - l + balance;
    assert l * balance == m * (e / 2.0 * (l * b));
    assert 4.0 * (l * balance) == m * (e * e);
    assert 4.0 * l * room == 5.0 * l * e - 4.0 * l * l + 4.0 * (l * balance);
    if room <= 0.0 {
      NonNegativeProduct(4.0 * l, -room, -(4.0 * l * room));
    }
  }

  /** Enough copies make each share as small as wanted. */
  lemma SmallShare(e: real, w: real, room: real) returns (n: nat, q: real)
    requires e > 0.0 && w > 0.0 && room > 0.0
    ensures Shares(n, w, q, e) && n >= 1 && 0.0 < q <= room
  {
    var top, wr := e * e / 4.0, w * room;
    ProductIsPositive(e, e, e * e);
    ProductIsPositive(w, room, wr);
    var least := top / wr;
    assert least * wr == top;
    if least <= 0.0 {
      NonNegativeProduct(-least, wr, -top);
    }
    n := least.Floor + 1;
    var nw := n as real * w;
    ProductIsPositive(n as real, w, nw);
    q := top / nw;
    assert q * nw == top;
    if q <= 0.0 {
      NonNegativeProduct(-q, nw, -top);
    }
    NonNegativeProduct(n as real - least, wr, n as real * wr - top);
    assert n as real * wr == nw * room;
    if q > room {
      ProductIsPositive(q - room, nw, top - nw * room);
    }
  }

  lemma TakesWithinThreshold(l: real, e: real, m: real, b: real, balance: real, q: real, room: real) returns (t: real)
    requires l > e > 0.0 && m >= 0.0 && Balanced(l, e, m, b, balance)
    requires 0.0 < q <= room && room == 1.25 * e - l + balance
    ensures Takes(t, l, e, m, b, balance, q) && -e <= t <= e
  {
    var sum := m * b + 1.0;
    NonNegativeProduct(m, b, m * b);
    NonNegativeProduct(e, m * b, e * (m * b));
    assert balance == e * (m * b) / 2.0;
    assert e * sum == e * (m * b) + e;
    t := (q - e / 4.0 + balance + l) / sum;
    assert t * sum == q - e / 4.0 + balance + l;
    if t > e {
      ProductIsPositive(t - e, sum, t * sum - e * sum);
    }
    if t < -e {
      ProductIsPositive(-e - t, sum, -(e * sum) - t * sum);
    }
  }

  lemma GlimpseIsHalf(c: Config, k: nat, t: real, m: real, balance: real, n: nat, w: real, q: real)
    requires ValidConfig(c) && k >= 1 && m == (k - 1) as real
    requires Balanced(c.l2Penalty, c.solverEpsilon, m, Middle(c), balance)
    requires Takes(t, c.l2Penalty, c.solverEpsilon, m, Middle(c), balance, q) && Shares(n, w, q, c.solverEpsilon)
    requires n >= 1 && -c.solverEpsilon <= t <= c.solverEpsilon
    ensures Tuned(c, k, w, n, t)
  {
    hide Middle, Balanced, Shares, Takes;
    var e, scale := c.solverEpsilon, 2.0 / c.solverEpsilon;
    assert scale * e == 2.0;
    GlimpseArithmetic(t, c.l2Penalty, e, m, Middle(c), balance, q, scale);
    hide Glimpse;
    assert Glimpse(c, k, t) == scale * q;
    ShareIsHalf(n, w, q, e, scale);
  }

  lemma GlimpseArithmetic(t: real, l: real, e: real, m: real, b: real, balance: real, q: real, scale: real)
    requires scale * e == 2.0 && Balanced(l, e, m, b, balance) && Takes(t, l, e, m, b, balance, q)
    ensures 0.5 + m * ((t - l * b) * scale * b) + (t - l) * scale == scale * q
  {
    assert m * ((t - l * b) * scale * b) == scale * (t * (m * b) - balance) by {
      assert (t - e / 2.0) * scale * b == scale * (t * b - e / 2.0 * b);
      assert m * (scale * (t * b - e / 2.0 * b)) == scale * (t * (m * b) - m * (e / 2.0 * b));
    }
    var sum := m * b + 1.0;
    assert t * sum == t * (m * b) + t;
    assert scale * (t * (m * b) - balance) + (t - l) * scale == scale * (t * sum - balance - l);
    assert scale * (q - e / 4.0) == scale * q - 0.5;
  }

  lemma ShareIsHalf(n: nat, w: real, q: real, e: real, scale: real)
    requires e > 0.0 && Shares(n, w, q, e) && scale * e == 2.0
    ensures n as real * (w * (scale * q)) == e / 2.0
  {
    assert n as real * (w * (scale * q)) == scale * (n as real * w * q);
    assert scale * (e * e / 4.0) == scale * e * e / 4.0;
  }

  // ---- the condition is necessary ------------------------------------------

  /** The sample is a trap. */
  lemma SampleIsTrap(exp: real -> real, c: Config, d: nat, k: nat, t: real, n: nat, x: real, m: Matrix, h: Matrix,
                     size: real)
    requires ValidConfig(c) && 1 <= k && 2 * k < d && Tuned(c, k, exp(0.0), n, t)
    requires IsHessian(exp, TrapSample(c, d, k, t, n, 1.0), Zeros(d), c, m)
    requires IsHessian(exp, TrapSample(c, d, k, t, n, x), Zeros(d), c, h)
    requires Sized(m, d, d) && Sized(h, d, d)
    requires size == x * exp(0.0) && size > Ceiling(m, d) && size > c.solverEpsilon
    ensures Trap(h, Probe(c, d, k), k, size, c.solverEpsilon)
  {
    var v := Probe(c, d, k);
    ProbeEnds(c, d, k);
    hide IsHessian, Dot, Tuned, TrapSample, Ceiling, Probe, LeadsTo, Abs;
    forall i {:trigger h[i]} | 0 <= i < d ensures Abs(Dot(h[i], v, d)) <= c.solverEpsilon {
      ProbeIsKeptSmall(exp, c, d, k, t, n, x, h, i);
    }
    forall i {:trigger h[i]} | k < i <= 2 * k ensures LeadsTo(h[i], v, k, i - k - 1, size) {
      LeaderLeads(exp, c, d, k, t, n, x, h, i, size);
    }
    forall i, l {:trigger h[i][l]} | 0 <= i < d && !(k < i <= 2 * k) && 0 <= l < k ensures Abs(h[i][l]) < size {
      OthersAreSmall(exp, c, d, k, t, n, x, m, h, i, l);
    }
  }

  lemma ProbeEnds(c: Config, d: nat, k: nat)
    requires c.l2Penalty > 0.0 && 1 <= k < d
    ensures Probe(c, d, k)[k] == 1.0 && forall j :: k < j < d ==> Probe(c, d, k)[j] == 0.0
  {
  }

  lemma ProbeIsKeptSmall(exp: real -> real, c: Config, d: nat, k: nat, t: real, n: nat, x: real, h: Matrix, i: nat)
    requires ValidConfig(c) && 1 <= k < d && i < d && Tuned(c, k, exp(0.0), n, t) && Sized(h, d, d)
    requires IsHessian(exp, TrapSample(c, d, k, t, n, x), Zeros(d), c, h)
    ensures Abs(Dot(h[i], Probe(c, d, k), d)) <= c.solverEpsilon
    ensures i > k ==> Dot(h[i], Probe(c, d, k), d) == 0.0
  {
    assert Abs(t) <= c.solverEpsilon;
    hide IsHessian, Dot, Tuned, TrapSample, Probe;
    ProbeImage(exp, c, d, k, t, n, x, h, i);
  }

  lemma LeaderLeads(exp: real -> real, c: Config, d: nat, k: nat, t: real, n: nat, x: real, h: Matrix, i: nat,
                    size: real)
    requires ValidConfig(c) && 1 <= k && k < i <= 2 * k < d && size == x * exp(0.0) && Sized(h, d, d)
    requires Tuned(c, k, exp(0.0), n, t) && IsHessian(exp, TrapSample(c, d, k, t, n, x), Zeros(d), c, h)
    ensures LeadsTo(h[i], Probe(c, d, k), k, i - k - 1, size)
  {
    hide IsHessian, Dot, Tuned, TrapSample, Probe;
    ProbeIsKeptSmall(exp, c, d, k, t, n, x, h, i);
    forall l | 0 <= l < k ensures h[i][l] == if l == i - k - 1 then size else 0.0 {
      LeadingRow(exp, c, d, k, t, n, x, h, i - k - 1, l);
    }
  }

  lemma OthersAreSmall(exp: real -> real, c: Config, d: nat, k: nat, t: real, n: nat, x: real, m: Matrix, h: Matrix,
                       i: nat, l: nat)
    requires ValidConfig(c) && 1 <= k && 2 * k < d && i < d && !(k < i <= 2 * k) && l < k && Sized(m, d, d)
    requires Sized(h, d, d)
    requires IsHessian(exp, TrapSample(c, d, k, t, n, 1.0), Zeros(d), c, m)
    requires IsHessian(exp, TrapSample(c, d, k, t, n, x), Zeros(d), c, h)
    ensures Abs(h[i][l]) <= Ceiling(m, d)
  {
    hide IsHessian, TrapSample, Ceiling;
    if i <= k {
      CornerIsFixed(exp, c, d, k, t, n, x, 1.0, h, m, i, l);
      EntryIsBelow(m, d, i, l);
    } else {
      MarginIsEmpty(exp, c, d, k, t, n, x, h, i, l);
    }
  }

  lemma TrapSampleIsValid(c: Config, d: nat, k: nat, t: real, n: nat, x: real)
    requires ValidConfig(c) && 1 <= k < d && n >= 1
    ensures var s := TrapSample(c, d, k, t, n, x); ValidSample(s, d) && HasIntercept(s) && |s.design| > 0
  {
  }

  /** A penalty that falls short is refused somewhere. */
  lemma TrappedSystemExists(exp: real -> real, c: Config, d: nat, k: nat)
    returns (s: Sample, p: Vector, g: Vector, h: Matrix)
    requires ExpLaws(exp) && ValidConfig(c) && 1 <= k && 2 * k < d
    requires FallsShort(c.l2Penalty, c.solverEpsilon, (k - 1) as real)
    ensures SystemOf(exp, s, p, c, d, g, h) && Refused(h, g, c.solverEpsilon)
  {
    assert exp(0.0) > 0.0;
    var n, t := Parameters(c, k, exp(0.0));
    p := Zeros(d);
    var x := LargeEnough(exp, c, d, k, t, n);
    TrapSampleIsValid(c, d, k, t, n, x);
    s := TrapSample(c, d, k, t, n, x);
    hide ExpLaws, TrapSample, IsGradient, IsHessian, ValidSample, HasIntercept, Refused, Tuned, FallsShort;
    var system := SystemAt(exp, s, p, c);
    g, h := system.0, system.1;
    SystemIsSized(exp, s, p, c, g, h);
    TrapCloses(exp, c, d, k, t, n, x, g, h);
  }

  /** The large entries exceed whatever the small ones add up to. */
  ghost predicate Towers(exp: real -> real, c: Config, d: nat, k: nat, t: real, n: nat, x: real)
    requires c.l2Penalty > 0.0 && c.solverEpsilon > 0.0
  {
    exists m :: Sized(m, d, d) && IsHessian(exp, TrapSample(c, d, k, t, n, 1.0), Zeros(d), c, m)
                && x * exp(0.0) == Ceiling(m, d) + c.solverEpsilon + 1.0
  }

  lemma LargeEnough(exp: real -> real, c: Config, d: nat, k: nat, t: real, n: nat) returns (x: real)
    requires ValidConfig(c) && 1 <= k < d && n >= 1 && exp(0.0) > 0.0
    ensures Towers(exp, c, d, k, t, n, x)
  {
    hide TrapSample, IsGradient, IsHessian, ValidSample, HasIntercept, Ceiling;
    TrapSampleIsValid(c, d, k, t, n, 1.0);
    var trial := SystemAt(exp, TrapSample(c, d, k, t, n, 1.0), Zeros(d), c);
    SystemIsSized(exp, TrapSample(c, d, k, t, n, 1.0), Zeros(d), c, trial.0, trial.1);
    var size := Ceiling(trial.1, d) + c.solverEpsilon + 1.0;
    x := size / exp(0.0);
    QuotientBack(size, exp(0.0), x);
  }

  lemma QuotientBack(a: real, d: real, q: real)
    requires d > 0.0 && q == a / d
    ensures q * d == a
  {
  }

  lemma TrapCloses(exp: real -> real, c: Config, d: nat, k: nat, t: real, n: nat, x: real, g: Vector, h: Matrix)
    requires ValidConfig(c) && 1 <= k && 2 * k < d && Tuned(c, k, exp(0.0), n, t) && Towers(exp, c, d, k, t, n, x)
    requires IsGradient(exp, TrapSample(c, d, k, t, n, x), Zeros(d), c, g)
    requires IsHessian(exp, TrapSample(c, d, k, t, n, x), Zeros(d), c, h)
    requires |g| == d && Sized(h, d, d)
    ensures Refused(h, g, c.solverEpsilon)
  {
    hide TrapSample, IsGradient, IsHessian, Tuned, Ceiling, Trap, Refused, Probe;
    var m :| Sized(m, d, d) && IsHessian(exp, TrapSample(c, d, k, t, n, 1.0), Zeros(d), c, m)
             && x * exp(0.0) == Ceiling(m, d) + c.solverEpsilon + 1.0;
    var size := x * exp(0.0);
    SampleIsTrap(exp, c, d, k, t, n, x, m, h, size);
    TrapIsRefused(h, g, Probe(c, d, k), k, size, c.solverEpsilon);
  }

  lemma SystemIsSized(exp: real -> real, s: Sample, p: Vector, c: Config, g: Vector, h: Matrix)
    requires IsGradient(exp, s, p, c, g) && IsHessian(exp, s, p, c, h)
    ensures |g| == |p| && Sized(h, |p|, |p|)
  {
  }

  /** The exact condition, for every number of features: no sample, no parameters and no exponential weights give a
      Newton system that the solver refuses if and only if the penalty dominates the threshold. */
  lemma NeverRefusedCondition(exp: real -> real, c: Config, dimension: nat)
    requires ExpLaws(exp) && ValidConfig(c)
    ensures NeverRefused(exp, c, dimension) <==> RidgeDominates(c, dimension)
  {
    if RidgeDominates(c, dimension) {
      hide RidgeDominates, Refused, IsHessian, ExpLaws;
      forall s, p, g, h | SystemOf(exp, s, p, c, dimension, g, h) ensures !Refused(h, g, c.solverEpsilon) {
        DominatedIsNeverRefused(exp, s, p, c, g, h);
      }
    } else if c.l2Penalty <= c.solverEpsilon {
      hide Refused, ExpLaws, SystemOf;
      var s, p, g, h := RefusedSystemExists(exp, c, dimension);
    } else {
      TwoParametersAreDominated(c.l2Penalty, c.solverEpsilon);
      var k := Half(dimension) - 1;
      assert FallsShort(c.l2Penalty, c.solverEpsilon, (k - 1) as real);
      hide Refused, ExpLaws, SystemOf, FallsShort;
      var s, p, g, h := TrappedSystemExists(exp, c, dimension, k);
    }
  }

  lemma TwoParametersAreDominated(l: real, e: real)
    requires l > e > 0.0
    ensures 4.0 * l * l >= 5.0 * l * e - e * e
  {
    NonNegativeProduct(4.0 * l - e, l - e, (4.0 * l - e) * (l - e));
    assert (4.0 * l - e) * (l - e) == 4.0 * l * l - 5.0 * l * e + e * e;
  }
}
