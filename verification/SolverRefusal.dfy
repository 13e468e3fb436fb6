/** Which matrices the solver refuses at a positive threshold. */
module SolverRefusal {
  import opened Foundations
  import opened Numerics
  import opened LinearSystem

  // ---- two by two ----------------------------------------------------------

  lemma FirstPivotOfTwo(m: Matrix)
    requires Sized(m, 2, 3)
    ensures FirstLargest(m, 0, 2) == if Abs(m[1][0]) > Abs(m[0][0]) then 1 else 0
    ensures Abs(PivotEntry(m, 2, 0)) == Larger(Abs(m[0][0]), Abs(m[1][0]))
    ensures FirstLargest(m, 1, 2) == 1 && PivotEntry(m, 2, 1) == m[1][1]
  {
    assert FirstLargest(m, 0, 1) == 0;
  }

  function Determinant(m: Matrix): real
    requires |m| == 2 && |m[0]| >= 2 && |m[1]| >= 2
  {
    m[0][0] * m[1][1] - m[0][1] * m[1][0]
  }

  lemma ArrangedDeterminant(m: Matrix)
    requires Sized(m, 2, 3)
    ensures Abs(Determinant(Arranged(m, 2, 0))) == Abs(Determinant(m))
  {
    FirstPivotOfTwo(m);
    hide FirstLargest;
    var s := Arranged(m, 2, 0);
    if FirstLargest(m, 0, 2) == 1 {
      assert s[0] == m[1] && s[1] == m[0];
      Opposite(m[0][0], m[0][1], m[1][0], m[1][1]);
    } else {
      assert s == m;
    }
  }

  lemma Opposite(a: real, b: real, c: real, d: real)
    ensures c * b - d * a == -(a * d - b * c)
  {
  }

  lemma SecondEntry(m: Matrix)
    requires Sized(m, 2, 3) && PivotEntry(m, 2, 0) != 0.0
    ensures var s, next := Arranged(m, 2, 0), Processed(m, 2, 0);
            && s[0][0] == PivotEntry(m, 2, 0)
            && next[1][1] == s[1][1] - s[1][0] * (s[0][1] / s[0][0])
  {
    hide FirstLargest;
  }

  lemma DeterminantOf(s: Matrix)
    requires Sized(s, 2, 3)
    ensures Determinant(s) == s[0][0] * s[1][1] - s[0][1] * s[1][0]
  {
  }

  lemma PivotProduct(d: real, b: real, c: real, e: real, x: real, determinant: real, product: real)
    requires d != 0.0 && x == e - c * (b / d) && determinant == d * e - b * c && product == Abs(x) * Abs(d)
    ensures product == Abs(determinant)
  {
    hide Abs;
    SchurComplement(d, b, c, e, x);
    AbsOfProduct(x, d);
    assert x * d == determinant;
  }

  /** The second pivot is the determinant over the first, up to sign. */
  lemma SecondPivotOfTwo(m: Matrix)
    requires Sized(m, 2, 3) && PivotEntry(m, 2, 0) != 0.0
    ensures Abs(PivotEntry(Processed(m, 2, 0), 2, 1)) * Abs(PivotEntry(m, 2, 0)) == Abs(Determinant(m))
  {
    hide Processed, PivotEntry, FirstLargest, Arranged, Abs, Determinant;
    FirstPivotOfTwo(Processed(m, 2, 0));
    ArrangedDeterminant(m);
    SecondEntry(m);
    var s, x := Arranged(m, 2, 0), Processed(m, 2, 0)[1][1];
    DeterminantOf(s);
    var product := Abs(PivotEntry(Processed(m, 2, 0), 2, 1)) * Abs(PivotEntry(m, 2, 0));
    PivotProduct(s[0][0], s[0][1], s[1][0], s[1][1], x, Determinant(s), product);
  }

  lemma SchurComplement(d: real, b: real, c: real, e: real, x: real)
    requires d != 0.0 && x == e - c * (b / d)
    ensures x * d == d * e - b * c
  {
    var q := b / d;
    assert q * d == b;
    assert x * d == e * d - c * (q * d);
  }

  lemma AbsOfProduct(x: real, y: real)
    ensures Abs(x * y) == Abs(x) * Abs(y)
  {
    if x < 0.0 {
      assert x * y == -((-x) * y);
    }
    if y < 0.0 {
      assert x * y == -(x * (-y));
      assert Abs(x) * Abs(y) == Abs(x) * (-y);
    }
    SignOfProduct(Abs(x), Abs(y));
  }

  lemma SignOfProduct(a: real, b: real)
    requires a >= 0.0 && b >= 0.0
    ensures a * b >= 0.0
  {
  }

  /** A two-by-two system is refused exactly when its first column or, relative to it, its determinant is too small. */
  lemma TwoByTwoIsRefused(matrix: Matrix, vector: Vector, epsilon: real)
    requires |vector| == 2 && Sized(matrix, 2, 2) && epsilon >= 0.0
    ensures var largest := Larger(Abs(matrix[0][0]), Abs(matrix[1][0]));
            Refused(matrix, vector, epsilon) <==> largest <= epsilon || Abs(Determinant(matrix)) <= epsilon * largest
  {
    hide Processed, PivotEntry, FirstLargest, Determinant, Stage, Abs;
    var m := Augmented(matrix, vector);
    FirstPivotOfTwo(m);
    StagesOfTwo(m, epsilon);
    SameDeterminant(matrix, m);
    var largest := Abs(PivotEntry(m, 2, 0));
    if largest > epsilon {
      SecondPivotOfTwo(m);
      ScaleBoth(Abs(PivotEntry(Processed(m, 2, 0), 2, 1)), epsilon, largest);
    }
  }

  lemma SameDeterminant(a: Matrix, b: Matrix)
    requires Sized(a, 2, 2) && Sized(b, 2, 3) && forall i, j :: 0 <= i < 2 && 0 <= j < 2 ==> b[i][j] == a[i][j]
    ensures Determinant(a) == Determinant(b)
  {
  }

  lemma StagesOfTwo(m: Matrix, epsilon: real)
    requires Sized(m, 2, 3) && epsilon >= 0.0
    ensures Abs(PivotEntry(m, 2, 0)) > epsilon ==> PivotEntry(m, 2, 0) != 0.0
    ensures Abs(PivotEntry(m, 2, 0)) <= epsilon ==> Stage(m, 2, 2, epsilon).None?
    ensures Abs(PivotEntry(m, 2, 0)) > epsilon ==>
              (Stage(m, 2, 2, epsilon).None? <==> Abs(PivotEntry(Processed(m, 2, 0), 2, 1)) <= epsilon)
  {
    hide Processed, PivotEntry;
    assert Stage(m, 2, 0, epsilon) == Some(m);
    if Abs(PivotEntry(m, 2, 0)) > epsilon {
      assert Stage(m, 2, 1, epsilon) == Some(Processed(m, 2, 0));
    } else {
      assert Stage(m, 2, 1, epsilon).None?;
    }
  }

  lemma ScaleBoth(x: real, y: real, k: real)
    requires k > 0.0
    ensures x <= y <==> x * k <= y * k
  {
    if x < y {
      assert (y - x) * k > 0.0;
    } else if y < x {
      assert (x - y) * k > 0.0;
    }
  }

  // ---- a small second pivot ------------------------------------------------

  /** Row and column zero are empty off the diagonal, and so is column one below it. */
  ghost predicate SplitsOff(m: Matrix, n: nat)
    requires Sized(m, n, n)
  {
    n >= 2 && forall i :: 1 <= i < n ==> m[i][0] == 0.0 && m[0][i] == 0.0 && (i >= 2 ==> m[i][1] == 0.0)
  }

  /** Where the second column has only its diagonal entry, and that does not exceed the threshold, the matrix is
      refused. */
  lemma SmallDiagonalIsRefused(matrix: Matrix, vector: Vector, epsilon: real)
    requires Sized(matrix, |vector|, |vector|) && SplitsOff(matrix, |vector|) && epsilon >= 0.0
    requires Abs(matrix[1][1]) <= epsilon
    ensures Refused(matrix, vector, epsilon)
  {
    hide FirstLargest;
    var n, m := |vector|, Augmented(matrix, vector);
    assert Stage(m, n, 0, epsilon) == Some(m);
    if Abs(PivotEntry(m, n, 0)) <= epsilon {
      assert Stage(m, n, 1, epsilon).None?;
      RefusalStays(m, n, 1, n, epsilon);
    } else {
      FirstLargestIsLargest(m, 0, n);
      var next := Processed(m, n, 0);
      assert Stage(m, n, 1, epsilon) == Some(next);
      forall i | 1 <= i < n ensures next[i][1] == m[i][1] {
        ZeroMultiple(m[i][0], next[0][1]);
      }
      assert Abs(PivotEntry(next, n, 1)) <= epsilon;
      hide Processed, PivotEntry;
      assert Stage(m, n, 2, epsilon).None?;
      RefusalStays(m, n, 2, n, epsilon);
    }
  }
}
