/** `_solve_linear_system`: in-place Gauss-Jordan elimination with partial pivoting, over the reals. */
module LinearSystem {
  import opened Foundations
  import opened Numerics

  type Vector = seq<real>
  type Matrix = seq<seq<real>>

  datatype SolverError = SingularHessian

  function Dot(a: Vector, b: Vector, n: nat): real
    requires n <= |a| && n <= |b|
  {
    if n == 0 then 0.0 else Dot(a, b, n - 1) + a[n - 1] * b[n - 1]
  }

  ghost predicate Sized(m: Matrix, rows: nat, columns: nat) {
    |m| == rows && forall i :: 0 <= i < |m| ==> |m[i]| == columns
  }

  // ---- what a solution is --------------------------------------------------

  /** `m` maps `v` to `image`, row by row. */
  ghost predicate Maps(m: Matrix, v: Vector, image: Vector) {
    && Sized(m, |v|, |v|) && |image| == |v|
    && forall i {:trigger m[i]} :: 0 <= i < |m| ==> Dot(m[i], v, |v|) == image[i]
  }

  function Zeros(n: nat): (v: Vector)
    ensures |v| == n
  {
    seq(n, _ => 0.0)
  }

  ghost predicate IsZero(v: Vector) {
    forall i :: 0 <= i < |v| ==> v[i] == 0.0
  }

  /** Some non-zero vector is mapped to zero. */
  ghost predicate Singular(m: Matrix) {
    exists v: Vector :: |v| == |m| && !IsZero(v) && Maps(m, v, Zeros(|v|))
  }

  // ---- the solution space of an augmented matrix ---------------------------

  ghost predicate RowVanishes(row: Vector, w: Vector) {
    |row| == |w| && Dot(row, w, |w|) == 0.0
  }

  ghost predicate Annihilates(m: Matrix, w: Vector) {
    forall i {:trigger RowVanishes(m[i], w)} :: 0 <= i < |m| ==> RowVanishes(m[i], w)
  }

  /** Row operations keep exactly the vectors the augmented matrix annihilates. */
  ghost predicate SameKernel(a: Matrix, b: Matrix, columns: nat) {
    forall w: Vector {:trigger Annihilates(b, w)} :: |w| == columns ==> (Annihilates(a, w) <==> Annihilates(b, w))
  }

  lemma {:induction false} DotPrefix(a: Vector, b: Vector, a': Vector, b': Vector, n: nat)
    requires n <= |a| && n <= |b| && n <= |a'| && n <= |b'|
    requires forall j :: 0 <= j < n ==> a[j] == a'[j] && b[j] == b'[j]
    ensures Dot(a, b, n) == Dot(a', b', n)
  {
    if n > 0 {
      DotPrefix(a, b, a', b', n - 1);
    }
  }

  lemma {:induction false} DotScales(row: Vector, scaled: Vector, divisor: real, w: Vector, n: nat)
    requires n <= |row| && n <= |scaled| && n <= |w| && divisor != 0.0
    requires forall j :: 0 <= j < n ==> scaled[j] == row[j] / divisor
    ensures Dot(scaled, w, n) == Dot(row, w, n) / divisor
  {
    if n > 0 {
      DotScales(row, scaled, divisor, w, n - 1);
      assert scaled[n - 1] * w[n - 1] == (row[n - 1] * w[n - 1]) / divisor;
    }
  }

  lemma {:induction false} DotSubtracts(row: Vector, pivot: Vector, factor: real, reduced: Vector, w: Vector, n: nat)
    requires n <= |row| && n <= |pivot| && n <= |reduced| && n <= |w|
    requires forall j :: 0 <= j < n ==> reduced[j] == row[j] - factor * pivot[j]
    ensures Dot(reduced, w, n) == Dot(row, w, n) - factor * Dot(pivot, w, n)
  {
    if n > 0 {
      DotSubtracts(row, pivot, factor, reduced, w, n - 1);
      assert reduced[n - 1] * w[n - 1] == row[n - 1] * w[n - 1] - factor * (pivot[n - 1] * w[n - 1]);
    }
  }

  lemma {:induction false} DotZero(row: Vector, w: Vector, n: nat)
    requires n <= |row| && n <= |w|
    requires forall j :: 0 <= j < n ==> row[j] * w[j] == 0.0
    ensures Dot(row, w, n) == 0.0
  {
    if n > 0 {
      DotZero(row, w, n - 1);
    }
  }

  /** All but two of the products vanish. */
  lemma {:induction false} DotPair(row: Vector, w: Vector, n: nat, p: nat, q: nat)
    requires p < q < n && n <= |row| && n <= |w|
    requires forall j :: 0 <= j < n && j != p && j != q ==> row[j] * w[j] == 0.0
    ensures Dot(row, w, n) == row[p] * w[p] + row[q] * w[q]
  {
    if q == n - 1 {
      DotSingle(row, w, n - 1, p);
    } else {
      DotPair(row, w, n - 1, p, q);
    }
  }

  lemma {:induction false} DotSingle(row: Vector, w: Vector, n: nat, p: nat)
    requires p < n && n <= |row| && n <= |w|
    requires forall j :: 0 <= j < n && j != p ==> row[j] * w[j] == 0.0
    ensures Dot(row, w, n) == row[p] * w[p]
  {
    if p == n - 1 {
      DotZero(row, w, n - 1);
    } else {
      DotSingle(row, w, n - 1, p);
    }
  }

  // ---- processed columns ---------------------------------------------------

  predicate UnitAt(m: Matrix, i: nat, j: nat)
    requires i < |m| && j < |m[i]|
  {
    m[i][j] == if i == j then 1.0 else 0.0
  }

  /** The first `c` columns are unit columns. */
  ghost predicate UnitColumns(m: Matrix, n: nat, c: nat)
    requires Sized(m, n, n + 1) && c <= n
  {
    forall i, j {:trigger UnitAt(m, i, j)} :: 0 <= i < n && 0 <= j < c ==> UnitAt(m, i, j)
  }

  /** Once every column is processed, the last column is the one and only solution. */
  lemma SolvedForm(m: Matrix, n: nat, w: Vector)
    requires Sized(m, n, n + 1) && UnitColumns(m, n, n) && |w| == n + 1
    ensures Annihilates(m, w) <==> forall i :: 0 <= i < n ==> w[i] + m[i][n] * w[n] == 0.0
  {
    forall i | 0 <= i < n ensures RowVanishes(m[i], w) <==> w[i] + m[i][n] * w[n] == 0.0 {
      forall j | 0 <= j < n + 1 && j != i && j != n ensures m[i][j] * w[j] == 0.0 {
        assert UnitAt(m, i, j);
      }
      assert UnitAt(m, i, i);
      DotPair(m[i], w, n + 1, i, n);
    }
    if Annihilates(m, w) {
      forall i | 0 <= i < n ensures w[i] + m[i][n] * w[n] == 0.0 {
        assert RowVanishes(m[i], w);
      }
    }
  }

  /** The vector read off column `l`: each processed row cancels it, each other row maps it to that row's entry. */
  lemma ColumnVector(m: Matrix, n: nat, c: nat, l: nat, w: Vector)
    requires c <= l < n && Sized(m, n, n + 1) && UnitColumns(m, n, c)
    requires |w| == n + 1 && w[l] == 1.0
    requires forall j :: 0 <= j < c ==> w[j] == -m[j][l]
    requires forall j :: c <= j <= n && j != l ==> w[j] == 0.0
    ensures forall i :: 0 <= i < n ==> Dot(m[i], w, n + 1) == if i < c then 0.0 else m[i][l]
  {
    forall i | 0 <= i < n ensures Dot(m[i], w, n + 1) == if i < c then 0.0 else m[i][l] {
      forall j | 0 <= j < n + 1 && j != l && (j != i || i >= c) ensures m[i][j] * w[j] == 0.0 {
        assert j < c ==> UnitAt(m, i, j);
      }
      if i < c {
        assert UnitAt(m, i, i);
        DotPair(m[i], w, n + 1, i, l);
      } else {
        DotSingle(m[i], w, n + 1, l);
      }
    }
  }

  // ---- the augmented matrix ------------------------------------------------

  function Augmented(matrix: Matrix, vector: Vector): Matrix
    requires |matrix| == |vector|
  {
    seq(|matrix|, i requires 0 <= i < |matrix| => matrix[i] + [vector[i]])
  }

  /** Appending `scale` to `v` asks whether `m` maps `v` to minus `scale` times the right-hand side. */
  lemma AugmentedMeaning(m: Matrix, b: Vector, v: Vector, scale: real, image: Vector)
    requires Sized(m, |v|, |v|) && |b| == |v| == |image|
    requires forall i :: 0 <= i < |v| ==> image[i] == -(b[i] * scale)
    ensures Annihilates(Augmented(m, b), v + [scale]) <==> Maps(m, v, image)
  {
    var n, a, w := |v|, Augmented(m, b), v + [scale];
    forall i | 0 <= i < n ensures RowVanishes(a[i], w) <==> Dot(m[i], v, n) == image[i] {
      DotPrefix(a[i], w, m[i], v, n);
    }
    if Annihilates(a, w) {
      forall i | 0 <= i < n ensures Dot(m[i], v, n) == image[i] {
        assert RowVanishes(a[i], w);
      }
    }
  }

  // ---- elimination as a function -------------------------------------------

  /** The first of the rows `column`, ..., `k - 1` whose entry at `column` is largest in absolute value. */
  function FirstLargest(m: Matrix, column: nat, k: nat): (p: nat)
    requires column < k <= |m| && forall i :: 0 <= i < |m| ==> column < |m[i]|
    ensures column <= p < k
  {
    if k == column + 1 then column
    else
      var p := FirstLargest(m, column, k - 1);
      if Abs(m[k - 1][column]) > Abs(m[p][column]) then k - 1 else p
  }

  /** It is what it says. */
  lemma {:induction false} FirstLargestIsLargest(m: Matrix, column: nat, k: nat)
    requires column < k <= |m| && forall i :: 0 <= i < |m| ==> column < |m[i]|
    ensures var p := FirstLargest(m, column, k);
            && (forall row :: column <= row < k ==> Abs(m[row][column]) <= Abs(m[p][column]))
            && (forall row :: column <= row < p ==> Abs(m[row][column]) < Abs(m[p][column]))
  {
    if k > column + 1 {
      FirstLargestIsLargest(m, column, k - 1);
    }
  }

  function Swapped(m: Matrix, p: nat, q: nat): Matrix
    requires p < |m| && q < |m|
  {
    m[p := m[q]][q := m[p]]
  }

  function Divided(row: Vector, divisor: real): Vector
    requires divisor != 0.0
  {
    seq(|row|, j requires 0 <= j < |row| => row[j] / divisor)
  }

  function Reduced(row: Vector, pivot: Vector, factor: real): Vector
    requires |row| == |pivot|
  {
    seq(|row|, j requires 0 <= j < |row| => row[j] - factor * pivot[j])
  }

  /** Rows with the pivot row in place. */
  function Arranged(m: Matrix, n: nat, column: nat): (arranged: Matrix)
    requires column < n && Sized(m, n, n + 1)
    ensures Sized(arranged, n, n + 1)
  {
    Swapped(m, column, FirstLargest(m, column, n))
  }

  function PivotEntry(m: Matrix, n: nat, column: nat): real
    requires column < n && Sized(m, n, n + 1)
  {
    m[FirstLargest(m, column, n)][column]
  }

  /** One column processed: the pivot row swapped into place, divided by its entry, and subtracted from the others. */
  function Processed(m: Matrix, n: nat, column: nat): (processed: Matrix)
    requires column < n && Sized(m, n, n + 1) && PivotEntry(m, n, column) != 0.0
    ensures Sized(processed, n, n + 1)
  {
    var s := Arranged(m, n, column);
    var pivot := Divided(s[column], s[column][column]);
    seq(n, i requires 0 <= i < n => if i == column then pivot else Reduced(s[i], pivot, s[i][column]))
  }

  /** The matrix after `c` columns, or nothing once a pivot did not exceed the threshold. */
  function Stage(m: Matrix, n: nat, c: nat, epsilon: real): (stage: Option<Matrix>)
    requires c <= n && Sized(m, n, n + 1) && epsilon >= 0.0
    ensures stage.Some? ==> Sized(stage.value, n, n + 1)
  {
    if c == 0 then Some(m)
    else
      var earlier := Stage(m, n, c - 1, epsilon);
      if earlier.None? || Abs(PivotEntry(earlier.value, n, c - 1)) <= epsilon then None
      else Some(Processed(earlier.value, n, c - 1))
  }

  /** Elimination meets a pivot that does not exceed the threshold. */
  predicate Refused(matrix: Matrix, vector: Vector, epsilon: real)
    requires Sized(matrix, |vector|, |vector|) && epsilon >= 0.0
  {
    Stage(Augmented(matrix, vector), |vector|, |vector|, epsilon).None?
  }

  /** A refusal is final. */
  lemma {:induction false} RefusalStays(m: Matrix, n: nat, c: nat, k: nat, epsilon: real)
    requires c <= k <= n && Sized(m, n, n + 1) && epsilon >= 0.0 && Stage(m, n, c, epsilon).None?
    ensures Stage(m, n, k, epsilon).None?
    decreases k
  {
    if c < k {
      RefusalStays(m, n, c, k - 1, epsilon);
    }
  }

  // ---- what one column does ------------------------------------------------

  /** Every row's product with `w`, before and after. */
  lemma ProcessedDots(m: Matrix, n: nat, c: nat, w: Vector)
    requires c < n && Sized(m, n, n + 1) && PivotEntry(m, n, c) != 0.0 && |w| == n + 1
    ensures var s, next := Arranged(m, n, c), Processed(m, n, c);
            && Dot(next[c], w, n + 1) == Dot(s[c], w, n + 1) / s[c][c]
            && forall i :: 0 <= i < n && i != c ==>
                 Dot(next[i], w, n + 1) == Dot(s[i], w, n + 1) - s[i][c] * Dot(next[c], w, n + 1)
  {
    hide Dot, FirstLargest;
    var s, next := Arranged(m, n, c), Processed(m, n, c);
    DotScales(s[c], next[c], s[c][c], w, n + 1);
    forall i | 0 <= i < n && i != c
      ensures Dot(next[i], w, n + 1) == Dot(s[i], w, n + 1) - s[i][c] * Dot(next[c], w, n + 1)
    {
      DotSubtracts(s[i], next[c], s[i][c], next[i], w, n + 1);
    }
  }

  /** Processing a column turns it into a unit column and leaves the processed ones alone. */
  lemma ProcessedIsUnit(m: Matrix, n: nat, c: nat)
    requires c < n && Sized(m, n, n + 1) && UnitColumns(m, n, c) && PivotEntry(m, n, c) != 0.0
    ensures UnitColumns(Processed(m, n, c), n, c + 1)
  {
    hide FirstLargest;
    var p, s, next := FirstLargest(m, c, n), Arranged(m, n, c), Processed(m, n, c);
    forall i, j | 0 <= i < n && 0 <= j < c ensures UnitAt(s, i, j) {
      assert UnitAt(m, i, j) && UnitAt(m, p, j) && UnitAt(m, c, j);
    }
    forall i, j | 0 <= i < n && 0 <= j < c + 1 ensures UnitAt(next, i, j) {
      if j < c {
        assert UnitAt(s, c, j) && UnitAt(s, i, j);
        ClearedEntry(s[i][c], s[i][j], next[c][j]);
      } else {
        SelfQuotient(s[c][c]);
        ClearedEntry(s[i][c], s[i][c], next[c][c]);
      }
    }
  }

  /** Subtracting a multiple of zero changes nothing; subtracting once clears. */
  lemma ClearedEntry(factor: real, entry: real, pivot: real)
    ensures pivot == 0.0 ==> entry - factor * pivot == entry
    ensures pivot == 1.0 ==> entry - factor * pivot == entry - factor
  {
  }

  lemma SelfQuotient(d: real)
    requires d != 0.0
    ensures d / d == 1.0
  {
  }

  /** It keeps exactly the vectors the augmented matrix annihilates. */
  lemma ProcessedKeepsKernel(m: Matrix, n: nat, c: nat)
    requires c < n && Sized(m, n, n + 1) && PivotEntry(m, n, c) != 0.0
    ensures SameKernel(m, Processed(m, n, c), n + 1)
  {
    hide FirstLargest, Dot;
    var p, s, next := FirstLargest(m, c, n), Arranged(m, n, c), Processed(m, n, c);
    forall w: Vector | |w| == n + 1 ensures Annihilates(m, w) <==> Annihilates(next, w) {
      ProcessedDots(m, n, c, w);
      hide Processed;
      if Annihilates(m, w) {
        forall i | 0 <= i < n ensures RowVanishes(next[i], w) {
          assert RowVanishes(m[i], w) && RowVanishes(m[p], w) && RowVanishes(m[c], w);
        }
      }
      if Annihilates(next, w) {
        forall i | 0 <= i < n ensures RowVanishes(s[i], w) {
          assert RowVanishes(next[i], w) && RowVanishes(next[c], w);
        }
        forall i | 0 <= i < n ensures RowVanishes(m[i], w) {
          assert RowVanishes(s[i], w) && RowVanishes(s[p], w) && RowVanishes(s[c], w);
        }
      }
    }
  }

  // ---- where the original rows go ------------------------------------------

  ghost predicate FirstVanish(m: Matrix, c: nat, w: Vector)
    requires c <= |m|
  {
    forall i {:trigger RowVanishes(m[i], w)} :: 0 <= i < c ==> RowVanishes(m[i], w)
  }

  predicate SameDot(a: Vector, b: Vector, w: Vector) {
    |a| == |b| == |w| && Dot(a, w, |w|) == Dot(b, w, |w|)
  }

  /** Which original row is where after `c` columns. */
  ghost function Origins(start: Matrix, n: nat, c: nat, epsilon: real): (origins: seq<nat>)
    requires c <= n && Sized(start, n, n + 1) && epsilon >= 0.0 && Stage(start, n, c, epsilon).Some?
    ensures |origins| == n
  {
    if c == 0 then seq(n, i => i)
    else
      var earlier, p := Origins(start, n, c - 1, epsilon),
                        FirstLargest(Stage(start, n, c - 1, epsilon).value, c - 1, n);
      earlier[c - 1 := earlier[p]][p := earlier[c - 1]]
  }

  ghost predicate IsPermutation(origins: seq<nat>, n: nat) {
    && |origins| == n && (forall i :: 0 <= i < n ==> origins[i] < n)
    && (forall i, j :: 0 <= i < j < n ==> origins[i] != origins[j])
  }

  lemma {:induction false} OriginsPermute(start: Matrix, n: nat, c: nat, epsilon: real)
    requires c <= n && Sized(start, n, n + 1) && epsilon >= 0.0 && Stage(start, n, c, epsilon).Some?
    ensures IsPermutation(Origins(start, n, c, epsilon), n)
  {
    hide FirstLargest, Processed, PivotEntry;
    if c > 0 {
      OriginsPermute(start, n, c - 1, epsilon);
    }
  }

  /** On vectors the processed rows cancel, every row acts as the original row it comes from. */
  ghost predicate RowsFollow(start: Matrix, m: Matrix, n: nat, c: nat, origins: seq<nat>)
    requires Sized(start, n, n + 1) && Sized(m, n, n + 1) && c <= n && IsPermutation(origins, n)
  {
    forall w: Vector, k {:trigger FirstVanish(m, c, w), m[k]} ::
      |w| == n + 1 && FirstVanish(m, c, w) && 0 <= k < n ==> SameDot(start[origins[k]], m[k], w)
  }

  lemma ProcessedFollows(start: Matrix, m: Matrix, n: nat, c: nat, origins: seq<nat>, next: seq<nat>)
    requires Sized(start, n, n + 1) && c < n && Sized(m, n, n + 1) && PivotEntry(m, n, c) != 0.0
    requires IsPermutation(origins, n) && IsPermutation(next, n) && RowsFollow(start, m, n, c, origins)
    requires var p := FirstLargest(m, c, n); next == origins[c := origins[p]][p := origins[c]]
    ensures RowsFollow(start, Processed(m, n, c), n, c + 1, next)
  {
    hide FirstLargest, Dot, RowsFollow;
    var processed, s := Processed(m, n, c), Arranged(m, n, c);
    hide Processed, IsPermutation;
    forall w: Vector, k | |w| == n + 1 && FirstVanish(processed, c + 1, w) && 0 <= k < n
      ensures SameDot(start[next[k]], processed[k], w)
    {
      EarlierRowsVanish(m, n, c, w);
      ArrangedActs(m, n, c, w, k);
      ArrangedFollows(start, m, n, c, origins, next, w, k);
    }
    RowsFollowFrom(start, processed, n, c + 1, next);
  }

  lemma RowsFollowFrom(start: Matrix, m: Matrix, n: nat, c: nat, origins: seq<nat>)
    requires Sized(start, n, n + 1) && Sized(m, n, n + 1) && c <= n && IsPermutation(origins, n)
    requires forall w: Vector, k {:trigger FirstVanish(m, c, w), m[k]} ::
               |w| == n + 1 && FirstVanish(m, c, w) && 0 <= k < n ==> SameDot(start[origins[k]], m[k], w)
    ensures RowsFollow(start, m, n, c, origins)
  {
  }

  /** The swap moves rows and origins alike. */
  lemma ArrangedFollows(start: Matrix, m: Matrix, n: nat, c: nat, origins: seq<nat>, next: seq<nat>, w: Vector, k: nat)
    requires Sized(start, n, n + 1) && c < n && Sized(m, n, n + 1) && k < n && |w| == n + 1
    requires IsPermutation(origins, n) && IsPermutation(next, n) && RowsFollow(start, m, n, c, origins)
    requires FirstVanish(m, c, w)
    requires var p := FirstLargest(m, c, n); next == origins[c := origins[p]][p := origins[c]]
    ensures SameDot(start[next[k]], Arranged(m, n, c)[k], w)
  {
    hide FirstLargest, Dot, FirstVanish;
    var p := FirstLargest(m, c, n);
    assert SameDot(start[origins[k]], m[k], w) && SameDot(start[origins[c]], m[c], w)
           && SameDot(start[origins[p]], m[p], w);
  }

  /** Where the processed row vanishes, elimination changes no product. */
  lemma ArrangedActs(m: Matrix, n: nat, c: nat, w: Vector, k: nat)
    requires c < n && Sized(m, n, n + 1) && PivotEntry(m, n, c) != 0.0 && |w| == n + 1 && k < n
    requires FirstVanish(Processed(m, n, c), c + 1, w)
    ensures SameDot(Arranged(m, n, c)[k], Processed(m, n, c)[k], w)
  {
    hide FirstLargest, Dot;
    ProcessedDots(m, n, c, w);
    var s, next := Arranged(m, n, c), Processed(m, n, c);
    hide Processed;
    assert RowVanishes(next[c], w);
    if k == c {
      QuotientVanishes(Dot(s[c], w, n + 1), s[c][c]);
    } else {
      ZeroMultiple(Dot(next[c], w, n + 1), s[k][c]);
    }
  }

  lemma EarlierRowsVanish(m: Matrix, n: nat, c: nat, w: Vector)
    requires c < n && Sized(m, n, n + 1) && PivotEntry(m, n, c) != 0.0 && |w| == n + 1
    requires FirstVanish(Processed(m, n, c), c + 1, w)
    ensures FirstVanish(m, c, w)
  {
    hide FirstLargest, Dot;
    ProcessedDots(m, n, c, w);
    var s, next := Arranged(m, n, c), Processed(m, n, c);
    hide Processed;
    forall i | 0 <= i < c ensures RowVanishes(m[i], w) {
      assert RowVanishes(next[i], w) && RowVanishes(next[c], w) && s[i] == m[i];
    }
  }

  lemma QuotientVanishes(a: real, d: real)
    requires d != 0.0 && a / d == 0.0
    ensures a == 0.0
  {
    assert a == a / d * d;
  }

  /** What holds after every stage. */
  ghost predicate StageInvariant(start: Matrix, m: Matrix, n: nat, c: nat, origins: seq<nat>)
    requires Sized(start, n, n + 1) && Sized(m, n, n + 1) && c <= n
  {
    UnitColumns(m, n, c) && SameKernel(start, m, n + 1) && IsPermutation(origins, n)
    && RowsFollow(start, m, n, c, origins)
  }

  lemma {:induction false} StageKeeps(start: Matrix, n: nat, c: nat, epsilon: real)
    requires c <= n && Sized(start, n, n + 1) && epsilon >= 0.0 && Stage(start, n, c, epsilon).Some?
    ensures StageInvariant(start, Stage(start, n, c, epsilon).value, n, c, Origins(start, n, c, epsilon))
  {
    hide Processed, SameKernel, UnitColumns, RowsFollow, PivotEntry, IsPermutation, FirstLargest;
    OriginsPermute(start, n, c, epsilon);
    if c == 0 {
      NothingProcessed(start, n, Origins(start, n, c, epsilon));
    } else {
      StageKeeps(start, n, c - 1, epsilon);
      var m := Stage(start, n, c - 1, epsilon).value;
      ProcessedIsUnit(m, n, c - 1);
      ProcessedKeepsKernel(m, n, c - 1);
      ProcessedFollows(start, m, n, c - 1, Origins(start, n, c - 1, epsilon), Origins(start, n, c, epsilon));
      SameKernelIsTransitive(start, m, Processed(m, n, c - 1), n + 1);
    }
  }

  lemma NothingProcessed(m: Matrix, n: nat, origins: seq<nat>)
    requires Sized(m, n, n + 1) && IsPermutation(origins, n) && forall i :: 0 <= i < n ==> origins[i] == i
    ensures UnitColumns(m, n, 0) && SameKernel(m, m, n + 1) && RowsFollow(m, m, n, 0, origins)
  {
  }

  lemma SameKernelIsTransitive(a: Matrix, b: Matrix, c: Matrix, columns: nat)
    requires SameKernel(a, b, columns) && SameKernel(b, c, columns)
    ensures SameKernel(a, c, columns)
  {
    forall w: Vector | |w| == columns ensures Annihilates(a, w) <==> Annihilates(c, w) {
      assert Annihilates(b, w) <==> Annihilates(c, w);
    }
  }

  // ---- the solver ----------------------------------------------------------

  /** The first of the rows from `column` on whose entry is largest in absolute value. */
  method ChoosePivot(m: Matrix, n: nat, column: nat) returns (pivot: nat)
    requires column < n && Sized(m, n, n + 1)
    ensures pivot == FirstLargest(m, column, n)
    ensures forall row :: column <= row < n ==> Abs(m[row][column]) <= Abs(m[pivot][column])
    ensures forall row :: column <= row < pivot ==> Abs(m[row][column]) < Abs(m[pivot][column])
  {
    pivot := column;
    for row := column + 1 to n
      invariant pivot == FirstLargest(m, column, row)
    {
      if Abs(m[row][column]) > Abs(m[pivot][column]) {
        pivot := row;
      }
    }
    FirstLargestIsLargest(m, column, n);
  }

  /** Divide a row by its entry at `column`; the entries before it are already zero. */
  method ScaleRow(row: Vector, column: nat) returns (scaled: Vector)
    requires column < |row| && row[column] != 0.0
    requires forall j :: 0 <= j < column ==> row[j] == 0.0
    ensures scaled == Divided(row, row[column])
  {
    var divisor := row[column];
    scaled := row;
    for index := column to |row|
      invariant |scaled| == |row|
      invariant forall j :: 0 <= j < index ==> scaled[j] == row[j] / divisor
      invariant forall j :: index <= j < |row| ==> scaled[j] == row[j]
    {
      scaled := scaled[index := scaled[index] / divisor];
    }
  }

  lemma ZeroMultiple(factor: real, x: real)
    requires factor == 0.0
    ensures factor * x == 0.0
  {
  }

  /** Subtract the multiple of the pivot row that clears `column`; before it the pivot row is already zero. */
  method EliminateRow(row: Vector, pivot: Vector, column: nat) returns (reduced: Vector)
    requires |row| == |pivot| && column < |row|
    requires forall j :: 0 <= j < column ==> pivot[j] == 0.0
    ensures reduced == Reduced(row, pivot, row[column])
  {
    var factor := row[column];
    reduced := row;
    if factor != 0.0 {
      for index := column to |row|
        invariant |reduced| == |row|
        invariant forall j :: 0 <= j < index ==> reduced[j] == row[j] - factor * pivot[j]
        invariant forall j :: index <= j < |row| ==> reduced[j] == row[j]
      {
        reduced := reduced[index := reduced[index] - factor * pivot[index]];
      }
    } else {
      forall j | 0 <= j < |row| ensures row[j] == row[j] - factor * pivot[j] {
        ZeroMultiple(factor, pivot[j]);
      }
    }
    ghost var expected := Reduced(row, pivot, factor);
    forall j | 0 <= j < |row| ensures reduced[j] == expected[j] {
      assert reduced[j] == row[j] - factor * pivot[j];
    }
  }

  /** Swap the pivot row into place, divide it, and clear `column` from every other row. */
  method ProcessColumn(m: Matrix, n: nat, column: nat, pivot: nat) returns (processed: Matrix)
    requires column < n && Sized(m, n, n + 1) && UnitColumns(m, n, column)
    requires pivot == FirstLargest(m, column, n) && PivotEntry(m, n, column) != 0.0
    ensures processed == Processed(m, n, column)
  {
    hide FirstLargest, Dot;
    var swapped := m[column := m[pivot]][pivot := m[column]];
    forall j | 0 <= j < column ensures swapped[column][j] == 0.0 {
      assert UnitAt(m, pivot, j);
    }
    var scaled := ScaleRow(swapped[column], column);
    processed := swapped[column := scaled];
    for row := 0 to n
      invariant Sized(processed, n, n + 1) && processed[column] == scaled
      invariant forall i :: 0 <= i < row && i != column ==>
                  processed[i] == Reduced(swapped[i], scaled, swapped[i][column])
      invariant forall i :: row <= i < n && i != column ==> processed[i] == swapped[i]
    {
      if row != column {
        var reduced := EliminateRow(processed[row], scaled, column);
        processed := processed[row := reduced];
      }
    }
  }

  /** A vector that ends in a one at `c`, that every row maps to no more than the threshold and `c` rows map to zero. */
  ghost predicate NearKernel(matrix: Matrix, v: Vector, c: nat, zeros: set<nat>, epsilon: real) {
    && Sized(matrix, |v|, |v|) && c < |v|
    && v[c] == 1.0 && (forall j :: c < j < |v| ==> v[j] == 0.0)
    && (forall i {:trigger matrix[i]} :: 0 <= i < |v| ==> Abs(Dot(matrix[i], v, |v|)) <= epsilon)
    && |zeros| == c && (forall i :: i in zeros ==> i < |v| && Dot(matrix[i], v, |v|) == 0.0)
  }

  ghost predicate NearlySingular(matrix: Matrix, epsilon: real) {
    exists v, c, zeros :: |v| == |matrix| && NearKernel(matrix, v, c, zeros, epsilon)
  }

  /** The failure is exactly that elimination meets too small a pivot, and then the matrix is within the threshold of
      being singular; a returned vector is the only solution and the matrix is then regular; at threshold zero the
      failure is exactly singularity. */
  method SolveLinearSystem(matrix: Matrix, vector: Vector, epsilon: real) returns (result: Result<Vector, SolverError>)
    requires Sized(matrix, |vector|, |vector|) && epsilon >= 0.0
    ensures result.Err? <==> Refused(matrix, vector, epsilon)
    ensures result.Err? ==> NearlySingular(matrix, epsilon)
    ensures result.Ok? ==> Maps(matrix, result.value, vector) && !Singular(matrix)
    ensures result.Ok? ==> forall y :: Maps(matrix, y, vector) ==> y == result.value
    ensures epsilon == 0.0 ==> (result.Err? <==> Singular(matrix))
  {
    hide UnitColumns, Processed, NearlySingular, Singular, Maps, FirstLargest, Dot;
    var size := |vector|;
    var augmented := Augmented(matrix, vector);
    ghost var start := augmented;
    for column := 0 to size
      invariant Sized(augmented, size, size + 1) && Stage(start, size, column, epsilon) == Some(augmented)
    {
      StageKeeps(start, size, column, epsilon);
      var pivot := ChoosePivot(augmented, size, column);
      if Abs(augmented[pivot][column]) <= epsilon {
        RefusalStays(start, size, column + 1, size, epsilon);
        RefusedIsNearlySingular(matrix, vector, epsilon);
        return Err(SingularHessian);
      }
      augmented := ProcessColumn(augmented, size, column, pivot);
    }
    StageKeeps(start, size, size, epsilon);
    var solution := seq(size, i requires 0 <= i < size => augmented[i][size]);
    SolvedIsUnique(matrix, vector, augmented, solution);
    return Ok(solution);
  }

  /** Where elimination stopped. */
  lemma {:induction false} RefusalPoint(m: Matrix, n: nat, c: nat, epsilon: real) returns (k: nat)
    requires c <= n && Sized(m, n, n + 1) && epsilon >= 0.0 && Stage(m, n, c, epsilon).None?
    ensures k < c && Stage(m, n, k, epsilon).Some? && Abs(PivotEntry(Stage(m, n, k, epsilon).value, n, k)) <= epsilon
  {
    if Stage(m, n, c - 1, epsilon).None? {
      k := RefusalPoint(m, n, c - 1, epsilon);
    } else {
      k := c - 1;
    }
  }

  /** At every threshold a refused matrix is within the threshold of being singular, and at zero it is singular. */
  lemma RefusedIsNearlySingular(matrix: Matrix, vector: Vector, epsilon: real)
    requires Sized(matrix, |vector|, |vector|) && epsilon >= 0.0 && Refused(matrix, vector, epsilon)
    ensures NearlySingular(matrix, epsilon)
    ensures epsilon == 0.0 ==> Singular(matrix)
  {
    hide NearlySingular, Singular, Processed, UnitColumns, RowsFollow, SameKernel, IsPermutation;
    var n, start := |vector|, Augmented(matrix, vector);
    var c := RefusalPoint(start, n, n, epsilon);
    var m := Stage(start, n, c, epsilon).value;
    StageKeeps(start, n, c, epsilon);
    FirstLargestIsLargest(m, c, n);
    SmallPivotIsNearlySingular(matrix, vector, m, c, Origins(start, n, c, epsilon), epsilon);
  }

  /** The vector that the `c` processed rows cancel and that picks out column `l` of the others. */
  function KernelVector(m: Matrix, n: nat, c: nat, l: nat): Vector
    requires Sized(m, n, n + 1) && c <= l < n
  {
    seq(n, j requires 0 <= j < n => if j < c then -m[j][l] else if j == l then 1.0 else 0.0)
  }

  /** What each original row does to it. */
  lemma KernelVectorActs(matrix: Matrix, vector: Vector, m: Matrix, c: nat, l: nat, origins: seq<nat>, k: nat)
    requires Sized(matrix, |vector|, |vector|) && c <= l < |vector| && k < |vector|
    requires Sized(m, |vector|, |vector| + 1) && UnitColumns(m, |vector|, c) && IsPermutation(origins, |vector|)
    requires RowsFollow(Augmented(matrix, vector), m, |vector|, c, origins)
    ensures Dot(matrix[origins[k]], KernelVector(m, |vector|, c, l), |vector|) == if k < c then 0.0 else m[k][l]
  {
    hide UnitColumns, Dot, RowsFollow;
    var n, v := |vector|, KernelVector(m, |vector|, c, l);
    var w := v + [0.0];
    ColumnVector(m, n, c, l, w);
    ProcessedRowsVanish(m, n, c, w);
    hide KernelVector, IsPermutation;
    RowFollows(Augmented(matrix, vector), m, n, c, origins, w, k);
    AugmentedRow(matrix[origins[k]], vector[origins[k]], v);
  }

  lemma ProcessedRowsVanish(m: Matrix, n: nat, c: nat, w: Vector)
    requires Sized(m, n, n + 1) && c <= n && |w| == n + 1 && forall i :: 0 <= i < c ==> Dot(m[i], w, n + 1) == 0.0
    ensures FirstVanish(m, c, w)
  {
    hide Dot;
  }

  lemma RowFollows(start: Matrix, m: Matrix, n: nat, c: nat, origins: seq<nat>, w: Vector, k: nat)
    requires Sized(start, n, n + 1) && Sized(m, n, n + 1) && c <= n && k < n && |w| == n + 1
    requires IsPermutation(origins, n) && RowsFollow(start, m, n, c, origins)
    requires FirstVanish(m, c, w)
    ensures Dot(start[origins[k]], w, n + 1) == Dot(m[k], w, n + 1)
  {
    hide Dot, FirstVanish;
    assert SameDot(start[origins[k]], m[k], w);
  }

  lemma SmallPivotIsNearlySingular(matrix: Matrix, vector: Vector, m: Matrix, c: nat, origins: seq<nat>, epsilon: real)
    requires Sized(matrix, |vector|, |vector|) && c < |vector| && epsilon >= 0.0
    requires Sized(m, |vector|, |vector| + 1) && UnitColumns(m, |vector|, c) && IsPermutation(origins, |vector|)
    requires RowsFollow(Augmented(matrix, vector), m, |vector|, c, origins)
    requires forall i :: c <= i < |vector| ==> Abs(m[i][c]) <= epsilon
    ensures NearlySingular(matrix, epsilon)
    ensures epsilon == 0.0 ==> Singular(matrix)
  {
    hide RowsFollow, UnitColumns, Dot;
    var n, v := |vector|, KernelVector(m, |vector|, c, c);
    forall k | 0 <= k < n ensures Dot(matrix[origins[k]], v, n) == if k < c then 0.0 else m[k][c] {
      KernelVectorActs(matrix, vector, m, c, c, origins, k);
    }
    forall i | 0 <= i < n ensures Abs(Dot(matrix[i], v, n)) <= epsilon {
      var k := Placed(origins, n, i);
    }
    var zeros := FirstOrigins(origins, n, c);
    assert NearKernel(matrix, v, c, zeros, epsilon);
    if epsilon == 0.0 {
      NearIsSingular(matrix, v, c, zeros);
    }
  }

  /** The original rows of the first `c` positions. */
  lemma {:induction false} FirstOrigins(origins: seq<nat>, n: nat, c: nat) returns (rows: set<nat>)
    requires IsPermutation(origins, n) && c <= n
    ensures |rows| == c && forall i :: i in rows <==> exists k :: 0 <= k < c && origins[k] == i
  {
    if c == 0 {
      rows := {};
    } else {
      var earlier := FirstOrigins(origins, n, c - 1);
      rows := earlier + {origins[c - 1]};
    }
  }

  /** Every row is somewhere. */
  lemma Placed(origins: seq<nat>, n: nat, i: nat) returns (k: nat)
    requires IsPermutation(origins, n) && i < n
    ensures k < n && origins[k] == i
  {
    var rows := FirstOrigins(origins, n, n);
    RangeHas(n);
    if i !in rows {
      SubsetIsSmaller(rows, Range(n) - {i});
    }
    k :| 0 <= k < n && origins[k] == i;
  }

  lemma AugmentedRow(row: Vector, entry: real, v: Vector)
    requires |row| == |v|
    ensures Dot(row + [entry], v + [0.0], |v| + 1) == Dot(row, v, |v|)
  {
    DotPrefix(row + [entry], v + [0.0], row, v, |v|);
  }

  lemma NearIsSingular(matrix: Matrix, v: Vector, c: nat, zeros: set<nat>)
    requires NearKernel(matrix, v, c, zeros, 0.0)
    ensures Singular(matrix)
  {
    hide Dot;
    assert !IsZero(v);
    forall i | 0 <= i < |v| ensures Dot(matrix[i], v, |v|) == 0.0 {
      assert Abs(Dot(matrix[i], v, |v|)) <= 0.0;
    }
    assert Maps(matrix, v, Zeros(|v|));
  }

  lemma SolvedIsUnique(matrix: Matrix, vector: Vector, m: Matrix, x: Vector)
    requires Sized(matrix, |vector|, |vector|) && |x| == |vector|
    requires Sized(m, |vector|, |vector| + 1) && UnitColumns(m, |vector|, |vector|)
    requires SameKernel(Augmented(matrix, vector), m, |vector| + 1)
    requires forall i :: 0 <= i < |x| ==> x[i] == m[i][|x|]
    ensures Maps(matrix, x, vector) && !Singular(matrix)
    ensures forall y :: Maps(matrix, y, vector) ==> y == x
  {
    hide Augmented, SameKernel, Annihilates, UnitColumns;
    var n := |vector|;
    KernelIsSolvedForm(Augmented(matrix, vector), m, n, x + [-1.0]);
    AugmentedMeaning(matrix, vector, x, -1.0, vector);
    forall y | Maps(matrix, y, vector) ensures y == x {
      KernelIsSolvedForm(Augmented(matrix, vector), m, n, y + [-1.0]);
      AugmentedMeaning(matrix, vector, y, -1.0, vector);
      forall i | 0 <= i < n ensures y[i] == x[i] {
        assert (y + [-1.0])[i] == y[i] && (y + [-1.0])[n] == -1.0;
      }
    }
    forall v: Vector | |v| == n && Maps(matrix, v, Zeros(n)) ensures IsZero(v) {
      var w := v + [0.0];
      KernelIsSolvedForm(Augmented(matrix, vector), m, n, w);
      AugmentedMeaning(matrix, vector, v, 0.0, Zeros(n));
      forall i | 0 <= i < n ensures v[i] == 0.0 {
        assert v[i] == w[i] && m[i][n] * w[n] == 0.0;
      }
    }
  }

  lemma KernelIsSolvedForm(a: Matrix, m: Matrix, n: nat, w: Vector)
    requires Sized(m, n, n + 1) && UnitColumns(m, n, n) && SameKernel(a, m, n + 1) && |w| == n + 1
    ensures Annihilates(a, w) <==> forall i :: 0 <= i < n ==> w[i] + m[i][n] * w[n] == 0.0
  {
    SolvedForm(m, n, w);
    assert Annihilates(a, w) <==> Annihilates(m, w);
  }
}
