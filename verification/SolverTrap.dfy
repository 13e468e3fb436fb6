/** A family of matrices whose elimination is led into a small pivot by rows far below the columns it processes. */
module SolverTrap {
  import opened Foundations
  import opened Numerics
  import opened LinearSystem

  /** Rows `k + 1`, ..., `2k` have one entry `size` in the first `k` columns, each in its own column and larger than
      anything else there; they map `v` to zero, and no row maps it to more than the threshold. */
  ghost predicate Trap(h: Matrix, v: Vector, k: nat, size: real, epsilon: real) {
    && 1 <= k && 2 * k < |v| && Sized(h, |v|, |v|) && 0.0 <= epsilon < size
    && v[k] == 1.0 && (forall j :: k < j < |v| ==> v[j] == 0.0)
    && (forall i {:trigger h[i]} :: 0 <= i < |v| ==> Abs(Dot(h[i], v, |v|)) <= epsilon)
    && (forall i {:trigger h[i]} :: k < i <= 2 * k ==> LeadsTo(h[i], v, k, i - k - 1, size))
    && (forall i, l {:trigger h[i][l]} :: 0 <= i < |v| && !(k < i <= 2 * k) && 0 <= l < k ==> Abs(h[i][l]) < size)
  }

  /** The row that elimination is led to for column `r`. */
  ghost predicate LeadsTo(row: Vector, v: Vector, k: nat, r: nat, size: real) {
    && r < k < |v| && |row| == |v| && Dot(row, v, |v|) == 0.0
    && forall l :: 0 <= l < k ==> row[l] == if l == r then size else 0.0
  }

  /** After `j` of the columns the leading rows are in place, and what they say of the columns up to `k`. */
  ghost predicate Led(m: Matrix, v: Vector, k: nat, j: nat, origins: seq<nat>) {
    && j <= k < |v| && Sized(m, |v|, |v| + 1) && |origins| == |v|
    && (forall q :: 0 <= q < j ==> origins[q] == k + 1 + q)
    && (forall q {:trigger m[q]} :: 0 <= q < j ==> m[q][k] == -v[q] && forall l :: j <= l < k ==> m[q][l] == 0.0)
  }

  /** The entry of a leading row at column `k` is fixed by its mapping `v` to zero. */
  lemma LeadingEntry(row: Vector, v: Vector, k: nat, r: nat, size: real)
    requires LeadsTo(row, v, k, r, size) && v[k] == 1.0 && forall j :: k < j < |v| ==> v[j] == 0.0
    ensures row[k] == -(size * v[r])
  {
    hide Dot;
    DotPair(row, v, |v|, r, k);
  }

  /** Unprocessed rows still have their original entries in the columns before `k`. */
  lemma EntriesStay(h: Matrix, g: Vector, m: Matrix, v: Vector, k: nat, j: nat, l: nat, origins: seq<nat>, i: nat)
    requires Sized(h, |v|, |v|) && |g| == |v| && Led(m, v, k, j, origins) && j <= l < k && j <= i < |v|
    requires StageInvariant(Augmented(h, g), m, |v|, j, origins)
    ensures m[i][l] == h[origins[i]][l]
  {
    hide Dot, UnitColumns, RowsFollow, SameKernel;
    var n, w := |v|, KernelVector(m, |v|, j, l);
    KernelVectorActs(h, g, m, j, l, origins, i);
    assert forall q :: 0 <= q < n && q != l ==> w[q] == 0.0;
    DotSingle(h[origins[i]], w, n, l);
  }

  /** The leading row of column `j`, wherever it is, still has its original entry at column `k`. */
  lemma LeadingEntryStays(h: Matrix, g: Vector, m: Matrix, v: Vector, k: nat, j: nat, origins: seq<nat>, i: nat,
                          size: real)
    requires Sized(h, |v|, |v|) && |g| == |v| && Led(m, v, k, j, origins) && j <= i < |v|
    requires StageInvariant(Augmented(h, g), m, |v|, j, origins)
    requires LeadsTo(h[origins[i]], v, k, j, size) && v[k] == 1.0 && forall l :: k < l < |v| ==> v[l] == 0.0
    ensures m[i][k] == -(size * v[j])
  {
    hide Dot, UnitColumns, RowsFollow, SameKernel;
    var n, row, w := |v|, h[origins[i]], KernelVector(m, |v|, j, k);
    KernelVectorActs(h, g, m, j, k, origins, i);
    forall q | 0 <= q < n && q != k ensures row[q] * w[q] == 0.0 {
    }
    DotSingle(row, w, n, k);
    LeadingEntry(row, v, k, j, size);
  }

  /** At column `k` the unprocessed rows have the entries to which their originals map `v`. */
  lemma LastEntries(h: Matrix, g: Vector, m: Matrix, v: Vector, k: nat, origins: seq<nat>, i: nat)
    requires Sized(h, |v|, |v|) && |g| == |v| && Led(m, v, k, k, origins) && k <= i < |v|
    requires StageInvariant(Augmented(h, g), m, |v|, k, origins)
    requires v[k] == 1.0 && forall l :: k < l < |v| ==> v[l] == 0.0
    ensures m[i][k] == Dot(h[origins[i]], v, |v|)
  {
    hide Dot, UnitColumns, RowsFollow, SameKernel;
    KernelVectorActs(h, g, m, k, k, origins, i);
    assert KernelVector(m, |v|, k, k) == v;
  }

  /** Only the leading row of a column has so large an entry there. */
  lemma OnlyTheLeader(h: Matrix, v: Vector, k: nat, j: nat, o: nat, size: real, epsilon: real)
    requires Trap(h, v, k, size, epsilon) && j < k && o < |v|
    ensures k + 1 + j < |v| && h[k + 1 + j][j] == size > 0.0
    ensures Abs(h[o][j]) >= size ==> o == k + 1 + j
  {
    hide Dot;
    assert LeadsTo(h[k + 1 + j], v, k, j, size);
    if k < o <= 2 * k {
      assert LeadsTo(h[o], v, k, o - k - 1, size);
    }
  }

  /** The next pivot is the leading row of the column. */
  lemma PivotLeads(h: Matrix, g: Vector, m: Matrix, v: Vector, k: nat, j: nat, origins: seq<nat>, size: real,
                   epsilon: real)
    requires Trap(h, v, k, size, epsilon) && Sized(h, |v|, |v|) && |g| == |v| && j < k && Led(m, v, k, j, origins)
    requires StageInvariant(Augmented(h, g), m, |v|, j, origins)
    ensures var p := FirstLargest(m, j, |v|); origins[p] == k + 1 + j && m[p][j] == size
  {
    hide Trap, UnitColumns, RowsFollow, SameKernel;
    var n, p := |v|, FirstLargest(m, j, |v|);
    FirstLargestIsLargest(m, j, n);
    hide FirstLargest;
    OnlyTheLeader(h, v, k, j, origins[p], size, epsilon);
    var i := Placed(origins, n, k + 1 + j);
    assert i >= j;
    EntriesStay(h, g, m, v, k, j, j, origins, i);
    EntriesStay(h, g, m, v, k, j, j, origins, p);
  }

  lemma SimpleRow(h: Matrix, v: Vector, k: nat, size: real, epsilon: real, i: nat)
    requires Trap(h, v, k, size, epsilon) && i < |v|
    ensures Abs(Dot(h[i], v, |v|)) <= epsilon
  {
    hide Dot;
  }

  /** One column further. */
  lemma LedFurther(h: Matrix, g: Vector, m: Matrix, v: Vector, k: nat, j: nat, origins: seq<nat>, next: seq<nat>,
                   size: real, epsilon: real)
    requires Trap(h, v, k, size, epsilon) && Sized(h, |v|, |v|) && |g| == |v| && j < k && Led(m, v, k, j, origins)
    requires StageInvariant(Augmented(h, g), m, |v|, j, origins)
    requires var p := FirstLargest(m, j, |v|); next == origins[j := origins[p]][p := origins[j]]
    requires PivotEntry(m, |v|, j) != 0.0
    ensures Led(Processed(m, |v|, j), v, k, j + 1, next)
  {
    var n, p := |v|, FirstLargest(m, j, |v|);
    PivotLeads(h, g, m, v, k, j, origins, size, epsilon);
    LeaderLeads(h, v, k, j, size, epsilon);
    LeadingEntryStays(h, g, m, v, k, j, origins, p, size);
    forall l | j < l < k ensures m[p][l] == 0.0 {
      EntriesStay(h, g, m, v, k, j, l, origins, p);
    }
    hide FirstLargest, Trap, StageInvariant, Dot, LeadsTo;
    LedRows(m, v, k, j, p, origins, next, size);
  }

  lemma LeaderLeads(h: Matrix, v: Vector, k: nat, j: nat, size: real, epsilon: real)
    requires Trap(h, v, k, size, epsilon) && j < k
    ensures k + 1 + j < |v| && LeadsTo(h[k + 1 + j], v, k, j, size) && size > 0.0
    ensures v[k] == 1.0 && forall l :: k < l < |v| ==> v[l] == 0.0
  {
    hide Dot;
  }

  lemma LedRows(m: Matrix, v: Vector, k: nat, j: nat, p: nat, origins: seq<nat>, next: seq<nat>, size: real)
    requires Led(m, v, k, j, origins) && j < k && p == FirstLargest(m, j, |v|) && size > 0.0 && m[p][j] == size
    requires origins[p] == k + 1 + j && next == origins[j := origins[p]][p := origins[j]]
    requires m[p][k] == -(size * v[j]) && forall l :: j < l < k ==> m[p][l] == 0.0
    ensures Led(Processed(m, |v|, j), v, k, j + 1, next)
  {
    LedPivotRow(m, v, k, j, size);
    hide FirstLargest;
    var n, processed := |v|, Processed(m, |v|, j);
    forall q | 0 <= q < j ensures processed[q] == m[q] {
      ClearRowStays(m, n, j, q);
    }
    hide Processed, PivotEntry;
    forall q | 0 <= q < j + 1
      ensures processed[q][k] == -v[q] && forall l :: j + 1 <= l < k ==> processed[q][l] == 0.0
    {
      if q < j {
        assert m[q][k] == -v[q];
      }
    }
  }

  lemma LedPivotRow(m: Matrix, v: Vector, k: nat, j: nat, size: real)
    requires j < k < |v| && Sized(m, |v|, |v| + 1) && size > 0.0 && m[FirstLargest(m, j, |v|)][j] == size
    requires m[FirstLargest(m, j, |v|)][k] == -(size * v[j])
    requires forall l :: j < l < k ==> m[FirstLargest(m, j, |v|)][l] == 0.0
    ensures Processed(m, |v|, j)[j][k] == -v[j] && forall l :: j < l < k ==> Processed(m, |v|, j)[j][l] == 0.0
  {
    PivotRowIsDivided(m, |v|, j);
    hide Processed, FirstLargest;
    CancelSize(m[FirstLargest(m, j, |v|)][k], size, v[j]);
  }

  lemma PivotRowIsDivided(m: Matrix, n: nat, j: nat)
    requires j < n && Sized(m, n, n + 1) && PivotEntry(m, n, j) != 0.0
    ensures var p := FirstLargest(m, j, n); Processed(m, n, j)[j] == Divided(m[p], m[p][j])
  {
    hide FirstLargest;
  }

  /** Elimination leaves a row alone whose entry is zero already. */
  lemma ClearRowStays(m: Matrix, n: nat, j: nat, q: nat)
    requires q < j < n && Sized(m, n, n + 1) && PivotEntry(m, n, j) != 0.0 && m[q][j] == 0.0
    ensures Processed(m, n, j)[q] == m[q]
  {
    hide FirstLargest;
    var processed := Processed(m, n, j);
    forall l | 0 <= l < n + 1 ensures processed[q][l] == m[q][l] {
      ClearedByNothing(m[q][j], m[q][l], processed[j][l]);
    }
  }

  lemma CancelSize(entry: real, size: real, x: real)
    requires size > 0.0 && entry == -(size * x)
    ensures entry / size == -x
  {
    var q := entry / size;
    assert q * size == entry;
    assert (q + x) * size == 0.0;
  }

  lemma ClearedByNothing(factor: real, entry: real, pivot: real)
    requires factor == 0.0
    ensures entry - factor * pivot == entry
  {
  }

  lemma {:induction false} IsLed(h: Matrix, g: Vector, v: Vector, k: nat, j: nat, size: real, epsilon: real)
    requires Trap(h, v, k, size, epsilon) && Sized(h, |v|, |v|) && |g| == |v| && j <= k < |v| && epsilon >= 0.0
    ensures Stage(Augmented(h, g), |v|, j, epsilon).Some?
    ensures Led(Stage(Augmented(h, g), |v|, j, epsilon).value, v, k, j, Origins(Augmented(h, g), |v|, j, epsilon))
  {
    hide Trap, Processed, FirstLargest, StageInvariant, Augmented;
    var start := Augmented(h, g);
    if j > 0 {
      AugmentedIsSized(h, g);
      IsLed(h, g, v, k, j - 1, size, epsilon);
      StageKeeps(start, |v|, j - 1, epsilon);
      var m, origins := Stage(start, |v|, j - 1, epsilon).value, Origins(start, |v|, j - 1, epsilon);
      PivotLeads(h, g, m, v, k, j - 1, origins, size, epsilon);
      SizeExceeds(h, v, k, size, epsilon);
      hide Led;
      LedFurther(h, g, m, v, k, j - 1, origins, Origins(start, |v|, j, epsilon), size, epsilon);
    }
  }

  lemma AugmentedIsSized(h: Matrix, g: Vector)
    requires Sized(h, |g|, |g|)
    ensures Sized(Augmented(h, g), |g|, |g| + 1)
  {
  }

  lemma SizeExceeds(h: Matrix, v: Vector, k: nat, size: real, epsilon: real)
    requires Trap(h, v, k, size, epsilon)
    ensures 0.0 <= epsilon < size && k < |v| && Sized(h, |v|, |v|)
    ensures v[k] == 1.0 && forall l :: k < l < |v| ==> v[l] == 0.0
  {
  }

  /** The trap closes: whatever the right-hand side, the matrix is refused. */
  lemma TrapIsRefused(h: Matrix, g: Vector, v: Vector, k: nat, size: real, epsilon: real)
    requires Trap(h, v, k, size, epsilon) && Sized(h, |v|, |v|) && |g| == |v| && epsilon >= 0.0
    ensures Refused(h, g, epsilon)
  {
    hide Trap, StageInvariant, Origins, Led, Augmented, FirstLargest, Dot;
    var n, start := |v|, Augmented(h, g);
    AugmentedIsSized(h, g);
    SizeExceeds(h, v, k, size, epsilon);
    IsLed(h, g, v, k, k, size, epsilon);
    StageKeeps(start, n, k, epsilon);
    var m, origins := Stage(start, n, k, epsilon).value, Origins(start, n, k, epsilon);
    var p := FirstLargest(m, k, n);
    LastEntries(h, g, m, v, k, origins, p);
    OriginIsRow(start, m, n, k, origins, p);
    SimpleRow(h, v, k, size, epsilon, origins[p]);
    RefusalStays(start, n, k + 1, n, epsilon);
  }

  lemma OriginIsRow(start: Matrix, m: Matrix, n: nat, c: nat, origins: seq<nat>, i: nat)
    requires Sized(start, n, n + 1) && Sized(m, n, n + 1) && c <= n && StageInvariant(start, m, n, c, origins) && i < n
    ensures |origins| == n && origins[i] < n
  {
    hide UnitColumns, SameKernel, RowsFollow;
  }
}
