/** LU decomposition with partial pivoting, rewritten in place, and the linear solver built on it. */
module LinearSolve {
  import opened Determinants
  import opened Vectors
  import opened Options

  /** n entries naming every index below n: a permutation. */
  ghost predicate IsPermutation(perm: seq<nat>, n: nat) {
    && |perm| == n && (forall i | 0 <= i < n :: perm[i] < n)
    && (forall r | 0 <= r < n :: r in perm)
  }

  ghost function Position(perm: seq<nat>, n: nat, r: nat): (i: nat)
    requires IsPermutation(perm, n) && r < n
    ensures i < n && perm[i] == r
  {
    assert r in perm;
    var i :| 0 <= i < n && perm[i] == r;
    i
  }

  /**
   After k elimination stages, row s of the part still playing the role of U: stored entries left of
   column min(s, k) are multipliers of L and count as zero here.
   */
  function URow(M: Matrix, n: nat, k: nat, s: nat): (u: Vec)
    requires Rect(M, n, n) && s < n
    ensures |u| == n
  {
    seq(n, j requires 0 <= j < n => if j < s && j < k then 0.0 else M[s][j])
  }

  function AddScaled(c: Vec, f: real, u: Vec): (r: Vec)
    requires |c| == |u|
    ensures |r| == |c|
  {
    seq(|c|, j requires 0 <= j < |c| => c[j] + f * u[j])
  }

  /** The combination of the first t rows of U with the multipliers stored in row i. */
  function Combined(M: Matrix, n: nat, k: nat, i: nat, t: nat): (c: Vec)
    requires Rect(M, n, n) && i < n && t <= n
    ensures |c| == n
  {
    if t == 0 then seq(n, _ => 0.0)
    else AddScaled(Combined(M, n, k, i, t - 1), M[i][t - 1], URow(M, n, k, t - 1))
  }

  function Min(a: nat, b: nat): nat { if a < b then a else b }

  /** Row i of the product L * U represented by M after k stages; L has a unit diagonal. */
  function ProductRow(M: Matrix, n: nat, k: nat, i: nat): (p: Vec)
    requires Rect(M, n, n) && i < n
    ensures |p| == n
  {
    var c, u := Combined(M, n, k, i, Min(i, k)), URow(M, n, k, i);
    seq(n, j requires 0 <= j < n => c[j] + u[j])
  }

  /** The rows of A, taken in the order perm, are the rows of L * U. */
  ghost predicate Factored(A: Matrix, M: Matrix, perm: seq<nat>, n: nat, k: nat) {
    && Rect(A, n, n) && Rect(M, n, n) && IsPermutation(perm, n)
    && forall i | 0 <= i < n :: RowFactored(A, M, perm, n, k, i)
  }

  ghost predicate RowFactored(A: Matrix, M: Matrix, perm: seq<nat>, n: nat, k: nat, i: nat)
    requires Rect(A, n, n) && Rect(M, n, n) && |perm| == n && i < n && perm[i] < n
  {
    A[perm[i]] == ProductRow(M, n, k, i)
  }

  ghost predicate NonzeroDiagonal(M: Matrix, n: nat, k: nat)
    requires Rect(M, n, n) && k <= n
  {
    forall i | 0 <= i < k :: M[i][i] != 0.0
  }

  // ---- What the in-place steps do to the represented product ----

  lemma {:induction false} CombinedSwap(M: Matrix, n: nat, k: nat, p: nat, i: nat, t: nat)
    requires Rect(M, n, n) && k <= p < n && i < n && t <= k
    ensures Combined(SwapAt(M, k, p), n, k, i, t) == Combined(M, n, k, if i == k then p else if i == p then k else i, t)
  {
    if t > 0 {
      CombinedSwap(M, n, k, p, i, t - 1);
      assert URow(SwapAt(M, k, p), n, k, t - 1) == URow(M, n, k, t - 1);
    }
  }

  /** Swapping two rows not yet eliminated, in M and in perm alike, keeps the factorisation. */
  lemma SwapKeepsFactored(A: Matrix, M: Matrix, perm: seq<nat>, n: nat, k: nat, p: nat)
    requires Factored(A, M, perm, n, k) && k <= p < n
    ensures Factored(A, SwapAt(M, k, p), SwapAt(perm, k, p), n, k)
  {
    var M', perm' := SwapAt(M, k, p), SwapAt(perm, k, p);
    forall r | 0 <= r < n ensures r in perm' {
      var i := Position(perm, n, r);
      assert perm'[if i == k then p else if i == p then k else i] == r;
    }
    forall i | 0 <= i < n ensures RowFactored(A, M', perm', n, k, i) {
      var i0 := if i == k then p else if i == p then k else i;
      CombinedSwap(M, n, k, p, i, Min(i, k));
      assert RowFactored(A, M, perm, n, k, i0);
      assert URow(M', n, k, i) == URow(M, n, k, i0);
    }
  }

  /** M after eliminating column k below its pivot, multipliers stored in place. */
  function EliminatedRow(M: Matrix, n: nat, k: nat, i: nat): (row: Vec)
    requires Rect(M, n, n) && k < n && i < n && M[k][k] != 0.0
    ensures |row| == n
  {
    if i <= k then M[i]
    else
      var factor := M[i][k] / M[k][k];
      seq(n, j requires 0 <= j < n => if j < k then M[i][j] else if j == k then factor else M[i][j] - factor * M[k][j])
  }

  function Eliminated(M: Matrix, n: nat, k: nat): (M': Matrix)
    requires Rect(M, n, n) && k < n && M[k][k] != 0.0
    ensures Rect(M', n, n)
  {
    seq(n, i requires 0 <= i < n => EliminatedRow(M, n, k, i))
  }

  lemma {:induction false} CombinedEliminated(M: Matrix, n: nat, k: nat, i: nat, t: nat)
    requires Rect(M, n, n) && k < n && i < n && M[k][k] != 0.0 && t <= k && t <= i
    ensures Combined(Eliminated(M, n, k), n, k + 1, i, t) == Combined(M, n, k, i, t)
  {
    if t > 0 {
      CombinedEliminated(M, n, k, i, t - 1);
      assert URow(Eliminated(M, n, k), n, k + 1, t - 1) == URow(M, n, k, t - 1);
    }
  }

  lemma EliminatedEntry(M: Matrix, n: nat, k: nat, i: nat, j: nat)
    requires Rect(M, n, n) && k < i < n && j < n && M[k][k] != 0.0
    ensures (M[i][k] / M[k][k]) * URow(M, n, k, k)[j] + URow(Eliminated(M, n, k), n, k + 1, i)[j] == URow(M, n, k, i)[j]
  {
    var f := M[i][k] / M[k][k];
    if j < k {
      assert URow(M, n, k, k)[j] == 0.0;
    } else if j == k {
      assert f * M[k][k] == M[i][k];
    } else {
      assert URow(Eliminated(M, n, k), n, k + 1, i)[j] == M[i][j] - f * M[k][j];
    }
  }

  lemma EliminatedProduct(M: Matrix, n: nat, k: nat, i: nat)
    requires Rect(M, n, n) && k < n && i < n && M[k][k] != 0.0
    ensures ProductRow(Eliminated(M, n, k), n, k + 1, i) == ProductRow(M, n, k, i)
  {
    var M' := Eliminated(M, n, k);
    CombinedEliminated(M, n, k, i, Min(i, k));
    if i <= k {
      assert URow(M', n, k + 1, i) == URow(M, n, k, i);
    } else {
      var c, c' := Combined(M, n, k, i, k), Combined(M', n, k + 1, i, k + 1);
      assert URow(M', n, k + 1, k) == URow(M, n, k, k);
      assert M'[i][k] == M[i][k] / M[k][k];
      forall j | 0 <= j < n ensures c'[j] + URow(M', n, k + 1, i)[j] == c[j] + URow(M, n, k, i)[j] {
        assert c'[j] == c[j] + (M[i][k] / M[k][k]) * URow(M, n, k, k)[j];
        EliminatedEntry(M, n, k, i, j);
      }
    }
  }

  /** An elimination stage keeps the represented product. */
  lemma EliminationKeepsFactored(A: Matrix, M: Matrix, perm: seq<nat>, n: nat, k: nat)
    requires Factored(A, M, perm, n, k) && k < n && M[k][k] != 0.0
    ensures Factored(A, Eliminated(M, n, k), perm, n, k + 1)
  {
    var M', k' := Eliminated(M, n, k), k + 1;
    forall i | 0 <= i < n ensures RowFactored(A, M', perm, n, k', i) {
      assert RowFactored(A, M, perm, n, k, i);
      EliminatedProduct(M, n, k, i);
    }
  }

  // ---- Products with a vector ----

  /** U * x, row by row. */
  function UTimes(M: Matrix, n: nat, k: nat, x: Vec): (w: Vec)
    requires Rect(M, n, n) && |x| == n
    ensures |w| == n
  {
    seq(n, s requires 0 <= s < n => DotTo(URow(M, n, k, s), x, n))
  }

  lemma {:induction false} CombinedTimes(M: Matrix, n: nat, k: nat, i: nat, t: nat, x: Vec)
    requires Rect(M, n, n) && i < n && t <= n && |x| == n
    ensures DotTo(Combined(M, n, k, i, t), x, n) == DotTo(M[i], UTimes(M, n, k, x), t)
  {
    if t == 0 {
      DotZero(Combined(M, n, k, i, 0), x, n);
    } else {
      CombinedTimes(M, n, k, i, t - 1, x);
      CombinedStep(M, n, k, i, t, x);
    }
  }

  lemma AddScaledDot(c: Vec, f: real, u: Vec, x: Vec, n: nat)
    requires |c| == |u| == |x| == n
    ensures DotTo(AddScaled(c, f, u), x, n) == DotTo(c, x, n) + f * DotTo(u, x, n)
  {
    DotAddScaled(AddScaled(c, f, u), c, f, u, x, n);
  }

  lemma CombinedStep(M: Matrix, n: nat, k: nat, i: nat, t: nat, x: Vec)
    requires Rect(M, n, n) && i < n && 0 < t <= n && |x| == n
    ensures DotTo(Combined(M, n, k, i, t), x, n) ==
            DotTo(Combined(M, n, k, i, t - 1), x, n) + M[i][t - 1] * UTimes(M, n, k, x)[t - 1]
  {
    AddScaledDot(Combined(M, n, k, i, t - 1), M[i][t - 1], URow(M, n, k, t - 1), x, n);
  }

  /** (L * U) x = L (U x), for one row. */
  lemma ProductTimes(M: Matrix, n: nat, k: nat, i: nat, x: Vec)
    requires Rect(M, n, n) && i < n && |x| == n
    ensures DotTo(ProductRow(M, n, k, i), x, n) ==
            DotTo(M[i], UTimes(M, n, k, x), Min(i, k)) + UTimes(M, n, k, x)[i]
  {
    var c, u := Combined(M, n, k, i, Min(i, k)), URow(M, n, k, i);
    CombinedTimes(M, n, k, i, Min(i, k), x);
    DotAdd(ProductRow(M, n, k, i), c, u, x, n);
  }

  ghost predicate SolvesSystem(A: Matrix, n: nat, b: Vec, x: Vec)
    requires Rect(A, n, n) && |b| == n
  {
    |x| == n && forall r | 0 <= r < n :: DotTo(A[r], x, n) == b[r]
  }

  ghost predicate OnlySolution(A: Matrix, n: nat, b: Vec, x: Vec)
    requires Rect(A, n, n) && |b| == n
  {
    SolvesSystem(A, n, b, x) && forall z: Vec | SolvesSystem(A, n, b, z) :: z == x
  }

  predicate Zero(v: Vec) {
    forall i | 0 <= i < |v| :: v[i] == 0.0
  }

  function Zeros(n: nat): (v: Vec)
    ensures |v| == n && Zero(v)
  {
    seq(n, _ => 0.0)
  }

  /** The matrix maps some nonzero vector to zero. */
  ghost predicate Singular(A: Matrix, n: nat)
    requires Rect(A, n, n)
  {
    exists v: Vec :: KernelVector(A, n, v)
  }

  ghost predicate KernelVector(A: Matrix, n: nat, v: Vec)
    requires Rect(A, n, n)
  {
    |v| == n && !Zero(v) && forall r | 0 <= r < n :: DotTo(A[r], v, n) == 0.0
  }

  /** Forward substitution has only one outcome. */
  lemma {:induction false} ForwardUnique(M: Matrix, n: nat, w: Vec, w': Vec, i: nat)
    requires Rect(M, n, n) && |w| == |w'| == n && i < n
    requires forall r | 0 <= r < n :: DotTo(M[r], w, r) + w[r] == DotTo(M[r], w', r) + w'[r]
    ensures forall r | 0 <= r <= i :: w[r] == w'[r]
  {
    if i > 0 {
      ForwardUnique(M, n, w, w', i - 1);
    }
    DotCong(M[i], w, M[i], w', i);
  }

  lemma SameExtract(u: Vec, x: Vec, x': Vec, i: nat, n: nat)
    requires |u| == |x| == |x'| == n && i < n && DotTo(u, x, n) == DotTo(u, x', n)
    requires DotTo(u, x[i := 0.0], n) == DotTo(u, x'[i := 0.0], n)
    ensures u[i] * x[i] == u[i] * x'[i]
  {
    DotExtract(u, x, i, n);
    DotExtract(u, x', i, n);
  }

  /** The U-equations from row i on determine the unknowns from i on. */
  lemma {:induction false} BackwardUnique(M: Matrix, n: nat, x: Vec, x': Vec, i: nat)
    requires Rect(M, n, n) && |x| == |x'| == n && i <= n && NonzeroDiagonal(M, n, n)
    requires forall r | i <= r < n :: DotTo(URow(M, n, n, r), x, n) == DotTo(URow(M, n, n, r), x', n)
    ensures forall r | i <= r < n :: x[r] == x'[r]
    decreases n - i
  {
    if i < n {
      BackwardUnique(M, n, x, x', i + 1);
      var u := URow(M, n, n, i);
      assert DotTo(u, x, n) == DotTo(u, x', n);
      forall j | 0 <= j < n ensures u[j] * x[i := 0.0][j] == u[j] * x'[i := 0.0][j] {
        assert j < i ==> u[j] == 0.0;
      }
      DotCong(u, x[i := 0.0], u, x'[i := 0.0], n);
      SameExtract(u, x, x', i, n);
      CancelLeft(u[i], x[i], x'[i]);
    }
  }

  lemma CancelLeft(p: real, a: real, b: real)
    requires p != 0.0 && p * a == p * b
    ensures a == b
  {
    assert p * (a - b) == 0.0;
  }

  /** A complete factorisation has at most one solution for each right-hand side. */
  lemma FactoredUnique(A: Matrix, M: Matrix, perm: seq<nat>, n: nat, b: Vec, x: Vec, x': Vec)
    requires Factored(A, M, perm, n, n) && NonzeroDiagonal(M, n, n) && |b| == n
    requires SolvesSystem(A, n, b, x) && SolvesSystem(A, n, b, x')
    ensures x == x'
  {
    var w, w' := UTimes(M, n, n, x), UTimes(M, n, n, x');
    forall r | 0 <= r < n ensures DotTo(M[r], w, r) + w[r] == DotTo(M[r], w', r) + w'[r] {
      ProductTimes(M, n, n, r, x);
      ProductTimes(M, n, n, r, x');
      assert RowFactored(A, M, perm, n, n, r);
    }
    if n > 0 {
      ForwardUnique(M, n, w, w', n - 1);
      forall r | 0 <= r < n ensures DotTo(URow(M, n, n, r), x, n) == DotTo(URow(M, n, n, r), x', n) {
        assert w[r] == w'[r];
      }
      BackwardUnique(M, n, x, x', 0);
    }
  }

  /** A complete factorisation rules out a kernel. */
  lemma FactoredNonsingular(A: Matrix, M: Matrix, perm: seq<nat>, n: nat)
    requires Factored(A, M, perm, n, n) && NonzeroDiagonal(M, n, n)
    ensures !Singular(A, n)
  {
    if Singular(A, n) {
      var v :| KernelVector(A, n, v);
      var zero := Zeros(n);
      forall r | 0 <= r < n ensures DotTo(A[r], zero, n) == zero[r] {
        DotZero(A[r], zero, n);
      }
      assert Zero(zero);
      FactoredUnique(A, M, perm, n, zero, v, zero);
      assert false;
    }
  }

  /** Back substitution above a zero pivot column: a vector with a one at k that the first k
      rows of U annihilate from i on. */
  lemma {:induction false} KernelAbove(M: Matrix, n: nat, k: nat, i: nat) returns (v: Vec)
    requires Rect(M, n, n) && i <= k < n && NonzeroDiagonal(M, n, k)
    ensures |v| == n && v[k] == 1.0 && (forall j | k < j < n :: v[j] == 0.0) && (forall j | 0 <= j < i :: v[j] == 0.0)
    ensures forall s | i <= s < k :: DotTo(URow(M, n, k, s), v, n) == 0.0
    decreases k - i
  {
    if i == k {
      v := Zeros(n)[k := 1.0];
    } else {
      var w := KernelAbove(M, n, k, i + 1);
      var u := URow(M, n, k, i);
      v := w[i := -DotTo(u, w, n) / M[i][i]];
      DotExtract(u, v, i, n);
      DotExtract(u, w, i, n);
      assert v[i := 0.0] == w[i := 0.0];
      forall s | i < s < k ensures DotTo(URow(M, n, k, s), v, n) == 0.0 {
        DotCong(URow(M, n, k, s), v, URow(M, n, k, s), w, n);
      }
    }
  }

  /** A zero column among the rows still to be eliminated exposes a nonzero kernel vector. */
  lemma ZeroColumnSingular(A: Matrix, M: Matrix, perm: seq<nat>, n: nat, k: nat)
    requires Factored(A, M, perm, n, k) && k < n && NonzeroDiagonal(M, n, k)
    requires forall i | k <= i < n :: M[i][k] == 0.0
    ensures Singular(A, n)
  {
    var v := KernelAbove(M, n, k, 0);
    var w := UTimes(M, n, k, v);
    forall s | 0 <= s < n ensures w[s] == 0.0 {
      if s >= k {
        DotZero(URow(M, n, k, s), v, n);
      }
    }
    forall r | 0 <= r < n ensures DotTo(A[r], v, n) == 0.0 {
      var i := Position(perm, n, r);
      assert RowFactored(A, M, perm, n, k, i);
      ProductTimes(M, n, k, i, v);
      DotZero(M[i], w, Min(i, k));
    }
    assert KernelVector(A, n, v);
  }

  lemma StartFactored(A: Matrix, perm: seq<nat>, n: nat)
    requires Rect(A, n, n) && |perm| == n && forall i | 0 <= i < n :: perm[i] == i
    ensures Factored(A, A, perm, n, 0)
  {
    forall r | 0 <= r < n ensures r in perm {
      assert perm[r] == r;
    }
    forall i | 0 <= i < n ensures RowFactored(A, A, perm, n, 0, i) {
      assert URow(A, n, 0, i) == A[i];
    }
  }

  function Permuted(b: Vec, perm: seq<nat>): (y: Vec)
    requires |b| == |perm| && forall i | 0 <= i < |perm| :: perm[i] < |b|
    ensures |y| == |b| && forall i | 0 <= i < |b| :: y[i] == b[perm[i]]
  {
    seq(|b|, i requires 0 <= i < |b| => b[perm[i]])
  }

  /** The first k forward equations hold. */
  ghost predicate ForwardSolved(M: Matrix, y: Vec, pb: Vec, k: nat)
    requires Rect(M, |y|, |y|) && |pb| == |y| && k <= |y|
  {
    forall i | 0 <= i < k :: ForwardRow(M, y, pb, i)
  }

  ghost predicate ForwardRow(M: Matrix, y: Vec, pb: Vec, i: nat)
    requires Rect(M, |y|, |y|) && |pb| == |y| && i < |y|
  {
    DotTo(M[i], y, i) + y[i] == pb[i]
  }

  lemma ForwardStep(M: Matrix, y: Vec, pb: Vec, i: nat, s: real)
    requires Rect(M, |y|, |y|) && |pb| == |y| && i < |y| && ForwardSolved(M, y, pb, i)
    requires s == pb[i] - DotTo(M[i], y, i)
    ensures ForwardSolved(M, y[i := s], pb, i + 1)
  {
    var y' := y[i := s];
    forall r | 0 <= r <= i ensures ForwardRow(M, y', pb, r) {
      assert r < i ==> ForwardRow(M, y, pb, r);
      DotCong(M[r], y', M[r], y, r);
    }
  }

  ghost predicate BackRow(M: Matrix, x: Vec, y: Vec, r: nat)
    requires Rect(M, |y|, |y|) && |x| == |y| && r < |y|
  {
    DotTo(URow(M, |y|, |y|, r), x, |y|) == y[r]
  }

  lemma BackStep(M: Matrix, x0: Vec, x: Vec, y: Vec, i: nat, s: real)
    requires Rect(M, |y|, |y|) && |x0| == |y| && i < |y| && x0[i] == 0.0 && M[i][i] != 0.0
    requires s == y[i] - DotTo(URow(M, |y|, |y|, i), x0, |y|) && x == x0[i := s / M[i][i]]
    requires forall r | i < r < |y| :: BackRow(M, x0, y, r)
    ensures forall r | i <= r < |y| :: BackRow(M, x, y, r)
  {
    assert x[i := 0.0] == x0;
    DotExtract(URow(M, |y|, |y|, i), x, i, |y|);
    assert M[i][i] * (s / M[i][i]) == s;
    forall r | i < r < |y| ensures BackRow(M, x, y, r) {
      var u := URow(M, |y|, |y|, r);
      assert BackRow(M, x0, y, r);
      DotCong(u, x, u, x0, |y|);
    }
  }

  /** Forward then backward substitution solves the original system. */
  lemma SubstitutionsSolve(A: Matrix, M: Matrix, perm: seq<nat>, n: nat, b: Vec, y: Vec, x: Vec)
    requires Factored(A, M, perm, n, n) && |b| == |y| == |x| == n
    requires ForwardSolved(M, y, Permuted(b, perm), n) && UTimes(M, n, n, x) == y
    ensures SolvesSystem(A, n, b, x)
  {
    forall r | 0 <= r < n ensures DotTo(A[r], x, n) == b[r] {
      var i := Position(perm, n, r);
      ProductTimes(M, n, n, i, x);
      assert ForwardRow(M, y, Permuted(b, perm), i) && RowFactored(A, M, perm, n, n, i);
    }
  }

  // ---- The determinant during elimination ----

  /** The part of M playing the role of U after k stages. */
  function UPart(M: Matrix, n: nat, k: nat): (U: Matrix)
    requires Rect(M, n, n)
    ensures Rect(U, n, n) && forall i | 0 <= i < n :: U[i] == URow(M, n, k, i)
  {
    seq(n, i requires 0 <= i < n => URow(M, n, k, i))
  }

  /** The sign is that of the permutation, and accounts for what the exchanges did to the determinant. */
  ghost predicate Signed(A: Matrix, M: Matrix, perm: seq<nat>, sign: int, n: nat, k: nat) {
    && Rect(A, n, n) && Rect(M, n, n) && |perm| == n
    && sign as real == Det(UnitRows(perm), 0) && (sign == 1 || sign == -1)
    && Det(A, 0) == sign as real * Det(UPart(M, n, k), 0)
  }

  lemma StartSigned(A: Matrix, perm: seq<nat>, n: nat)
    requires Rect(A, n, n) && |perm| == n && forall i | 0 <= i < n :: perm[i] == i
    ensures Signed(A, A, perm, 1, n, 0)
  {
    forall i | 0 <= i < n ensures UPart(A, n, 0)[i] == A[i] {}
    assert UPart(A, n, 0) == A;
    IdentityDet(UnitRows(perm), 0);
  }

  lemma SwapSigned(A: Matrix, M: Matrix, perm: seq<nat>, sign: int, n: nat, k: nat, p: nat)
    requires Signed(A, M, perm, sign, n, k) && k < p < n
    ensures Signed(A, SwapAt(M, k, p), SwapAt(perm, k, p), -sign, n, k)
  {
    var U := UPart(M, n, k);
    SwappedUnitRows(perm, k, p);
    SwapFlips(U, 0, k, p);
    var U' := UPart(SwapAt(M, k, p), n, k);
    forall i | 0 <= i < n ensures U'[i] == SwapAt(U, k, p)[i] {}
    assert U' == SwapAt(U, k, p);
  }

  /** What elimination subtracts from each row. */
  function Multipliers(M: Matrix, n: nat, k: nat): (f: Vec)
    requires Rect(M, n, n) && k < n && M[k][k] != 0.0
    ensures |f| == n && forall i | 0 <= i < n :: f[i] == if i > k then -(M[i][k] / M[k][k]) else 0.0
  {
    seq(n, i requires 0 <= i < n => if i > k then -(M[i][k] / M[k][k]) else 0.0)
  }

  lemma EliminationSigned(A: Matrix, M: Matrix, perm: seq<nat>, sign: int, n: nat, k: nat)
    requires Signed(A, M, perm, sign, n, k) && k < n && M[k][k] != 0.0
    ensures Signed(A, Eliminated(M, n, k), perm, sign, n, k + 1)
  {
    var U, U', f := UPart(M, n, k), UPart(Eliminated(M, n, k), n, k + 1), Multipliers(M, n, k);
    forall j | 0 <= j < n ensures U'[k][j] == U[k][j] {}
    assert U'[k] == U[k];
    forall i | 0 <= i < n && i != k ensures IsSum(U'[i], U[i], f[i], U'[k]) {
      forall j | 0 <= j < n ensures U'[i][j] == U[i][j] + f[i] * U'[k][j] {
        if i > k {
          EliminatedEntry(M, n, k, i, j);
          NegatedProduct(M[i][k] / M[k][k], U[k][j]);
        }
      }
    }
    RowStepsDet(U, U', 0, k, 1.0, f);
  }

  lemma NegatedProduct(a: real, b: real)
    ensures (-a) * b == -(a * b)
  {}

  /** At the end the determinant is the signed product of the diagonal, which is not zero. */
  lemma SignedEnd(A: Matrix, M: Matrix, perm: seq<nat>, sign: int, n: nat)
    requires Signed(A, M, perm, sign, n, n) && NonzeroDiagonal(M, n, n)
    ensures Det(A, 0) == sign as real * DiagonalProduct(M, 0) && Det(A, 0) != 0.0
  {
    var U := UPart(M, n, n);
    UpperDet(U, 0);
    SameDiagonal(U, M, 0);
    DiagonalZero(M, 0);
    ProductZero(sign as real, DiagonalProduct(M, 0));
  }

  lemma {:induction false} SameDiagonal(U: Matrix, M: Matrix, c: nat)
    requires |U| == |M| && Rect(U, |M|, c + |M|) && Rect(M, |M|, c + |M|)
    requires forall i | 0 <= i < |M| :: At(U, c, i, i) == At(M, c, i, i)
    ensures DiagonalProduct(U, c) == DiagonalProduct(M, c)
  {
    if M != [] {
      var d := c + 1;
      forall i | 0 <= i < |M| - 1 ensures At(U[1..], d, i, i) == At(M[1..], d, i, i) {
        assert At(U, c, i + 1, i + 1) == At(M, c, i + 1, i + 1);
      }
      assert At(U, c, 0, 0) == At(M, c, 0, 0);
      SameDiagonal(U[1..], M[1..], c + 1);
    }
  }

  /** A pivot column of zeros makes the determinant zero. */
  lemma SignedZero(A: Matrix, M: Matrix, perm: seq<nat>, sign: int, n: nat, k: nat)
    requires Signed(A, M, perm, sign, n, k) && k < n && forall i | k <= i < n :: M[i][k] == 0.0
    ensures Det(A, 0) == 0.0
  {
    ZeroColumnDet(UPart(M, n, k), 0, k);
  }

  // ---- The methods ----

  datatype LU = LU(combined: array2<real>, perm: seq<nat>, sign: int, singular: bool)

  function Abs(r: real): real { if r < 0.0 then -r else r }

  method FindPivot(M: array2<real>, n: nat, k: nat) returns (pivotRow: nat, pivotVal: real)
    requires M.Length0 == M.Length1 == n && k < n
    ensures k <= pivotRow < n && pivotVal == Abs(M[pivotRow, k])
    ensures forall i | k <= i < n :: Abs(M[i, k]) <= pivotVal
  {
    pivotRow, pivotVal := k, Abs(M[k, k]);
    for i := k + 1 to n
      invariant k <= pivotRow < n && pivotVal == Abs(M[pivotRow, k])
      invariant forall i' | k <= i' < i :: Abs(M[i', k]) <= pivotVal
    {
      var v := Abs(M[i, k]);
      if v > pivotVal {
        pivotVal, pivotRow := v, i;
      }
    }
  }

  method SwapRows(M: array2<real>, k: nat, p: nat)
    requires k < M.Length0 && p < M.Length0
    modifies M
    ensures Rows(M) == SwapAt(old(Rows(M)), k, p)
  {
    ghost var S := SwapAt(Rows(M), k, p);
    for j := 0 to M.Length1
      invariant forall i, j' | 0 <= i < M.Length0 && 0 <= j' < M.Length1 ::
          M[i, j'] == if j' < j then S[i][j'] else old(M[i, j'])
    {
      M[k, j], M[p, j] := M[p, j], M[k, j];
    }
    MatrixExt(Rows(M), S, M.Length0, M.Length1);
  }

  method EliminateBelow(M: array2<real>, n: nat, k: nat)
    requires M.Length0 == M.Length1 == n && k < n && M[k, k] != 0.0
    modifies M
    ensures Rows(M) == Eliminated(old(Rows(M)), n, k)
  {
    ghost var M0 := Rows(M);
    ghost var E := Eliminated(M0, n, k);
    for i := k + 1 to n
      invariant forall i', j | 0 <= i' < n && 0 <= j < n :: M[i', j] == if i' < i then E[i'][j] else M0[i'][j]
    {
      var factor := M[i, k] / M[k, k];
      assert factor == M0[i][k] / M0[k][k];
      M[i, k] := factor;
      for j := k + 1 to n
        invariant forall i', j' | 0 <= i' < n && 0 <= j' < n ::
            M[i', j'] == if i' < i || (i' == i && j' < j) then E[i'][j'] else M0[i'][j']
      {
        M[i, j] := M[i, j] - factor * M[k, j];
      }
    }
    MatrixExt(Rows(M), E, n, n);
  }

  method Copy(A: array2<real>) returns (M: array2<real>)
    ensures fresh(M) && M.Length0 == A.Length0 && M.Length1 == A.Length1 && Rows(M) == Rows(A)
  {
    M := new real[A.Length0, A.Length1]((i, j) requires 0 <= i < A.Length0 && 0 <= j < A.Length1 reads A => A[i, j]);
    MatrixExt(Rows(M), Rows(A), A.Length0, A.Length1);
  }

  /** Either singular, with determinant zero, or permuted and factorised, with the signed product of a
      nonzero diagonal as determinant. */
  ghost predicate Decomposed(A: Matrix, M: Matrix, perm: seq<nat>, sign: int, singular: bool, n: nat) {
    && Rect(A, n, n) && Rect(M, n, n) && (singular <==> Singular(A, n)) && (singular <==> Det(A, 0) == 0.0)
    && (!singular ==> Factored(A, M, perm, n, n) && NonzeroDiagonal(M, n, n))
    && (!singular ==> sign as real == Det(UnitRows(perm), 0) && Det(A, 0) == sign as real * DiagonalProduct(M, 0))
  }

  method LuDecompose(A: array2<real>) returns (lu: LU)
    requires A.Length0 == A.Length1
    ensures fresh(lu.combined) && lu.combined.Length0 == lu.combined.Length1 == A.Length0
    ensures Decomposed(Rows(A), Rows(lu.combined), lu.perm, lu.sign, lu.singular, A.Length0)
  {
    var M := Copy(A);
    var perm, sign, singular := Factorise(M, A.Length0);
    lu := LU(M, perm, sign, singular);
  }

  method Factorise(M: array2<real>, n: nat) returns (perm: seq<nat>, sign: int, singular: bool)
    requires M.Length0 == M.Length1 == n
    modifies M
    ensures Decomposed(old(Rows(M)), Rows(M), perm, sign, singular, n)
  {
    ghost var A := Rows(M);
    perm, sign, singular := seq(n, i => i), 1, false;
    StartFactored(A, perm, n);
    StartSigned(A, perm, n);
    hide Decomposed, Factored, Signed, NonzeroDiagonal;
    for k := 0 to n
      invariant Factored(A, Rows(M), perm, n, k) && NonzeroDiagonal(Rows(M), n, k)
      invariant Signed(A, Rows(M), perm, sign, n, k)
    {
      var pivotRow, pivotVal := FindPivot(M, n, k);
      if pivotVal == 0.0 {
        forall i | k <= i < n ensures Rows(M)[i][k] == 0.0 {
          assert Abs(M[i, k]) <= 0.0;
        }
        EndSingular(A, Rows(M), perm, sign, n, k);
        singular := true;
        return;
      }
      perm, sign := Stage(M, perm, sign, n, k, pivotRow, A);
    }
    EndRegular(A, Rows(M), perm, sign, n);
  }

  lemma EndSingular(A: Matrix, M: Matrix, perm: seq<nat>, sign: int, n: nat, k: nat)
    requires Factored(A, M, perm, n, k) && k < n && NonzeroDiagonal(M, n, k) && Signed(A, M, perm, sign, n, k)
    requires forall i | k <= i < n :: M[i][k] == 0.0
    ensures Decomposed(A, M, perm, sign, true, n)
  {
    ZeroColumnSingular(A, M, perm, n, k);
    SignedZero(A, M, perm, sign, n, k);
  }

  lemma EndRegular(A: Matrix, M: Matrix, perm: seq<nat>, sign: int, n: nat)
    requires Factored(A, M, perm, n, n) && NonzeroDiagonal(M, n, n) && Signed(A, M, perm, sign, n, n)
    ensures Decomposed(A, M, perm, sign, false, n)
  {
    FactoredNonsingular(A, M, perm, n);
    SignedEnd(A, M, perm, sign, n);
  }

  /** Swaps the pivot row into place and eliminates below it. */
  method Stage(M: array2<real>, perm: seq<nat>, sign: int, n: nat, k: nat, pivotRow: nat, ghost A0: Matrix)
    returns (perm': seq<nat>, sign': int)
    requires M.Length0 == M.Length1 == n && k <= pivotRow < n && M[pivotRow, k] != 0.0
    requires Factored(A0, Rows(M), perm, n, k) && NonzeroDiagonal(Rows(M), n, k)
    requires Signed(A0, Rows(M), perm, sign, n, k)
    modifies M
    ensures Factored(A0, Rows(M), perm', n, k + 1) && NonzeroDiagonal(Rows(M), n, k + 1)
    ensures Signed(A0, Rows(M), perm', sign', n, k + 1)
  {
    ghost var M0 := Rows(M);
    SwapKeepsFactored(A0, M0, perm, n, k, pivotRow);
    perm', sign' := perm, sign;
    if pivotRow != k {
      SwapSigned(A0, M0, perm, sign, n, k, pivotRow);
      perm', sign' := perm[k := perm[pivotRow]][pivotRow := perm[k]], -sign;
      SwapRows(M, k, pivotRow);
    }
    assert Rows(M) == SwapAt(M0, k, pivotRow) && perm' == SwapAt(perm, k, pivotRow);
    EliminationKeepsFactored(A0, Rows(M), perm', n, k);
    EliminationSigned(A0, Rows(M), perm', sign', n, k);
    EliminateBelow(M, n, k);
  }

  /** Permutes b and solves L z = P b in place. */
  method ForwardSubstitute(M: array2<real>, perm: seq<nat>, b: Vec) returns (y: Vec)
    requires M.Length0 == M.Length1 == |b| && IsPermutation(perm, |b|)
    ensures |y| == |b| && ForwardSolved(Rows(M), y, Permuted(b, perm), |b|)
  {
    var n := |b|;
    ghost var pb := Permuted(b, perm);
    y := Permuted(b, perm);
    for i := 0 to n
      invariant |y| == n && (forall r | i <= r < n :: y[r] == pb[r])
      invariant ForwardSolved(Rows(M), y, pb, i)
    {
      var s := y[i];
      for j := 0 to i
        invariant s == pb[i] - DotTo(Rows(M)[i], y, j)
      {
        s := s - M[i, j] * y[j];
      }
      ForwardStep(Rows(M), y, pb, i, s);
      y := y[i := s];
    }
  }

  /** Solves U x = y from the last unknown back. */
  method BackSubstitute(M: array2<real>, y: Vec) returns (x: Vec)
    requires M.Length0 == M.Length1 == |y| && NonzeroDiagonal(Rows(M), |y|, |y|)
    ensures |x| == |y| && UTimes(Rows(M), |y|, |y|, x) == y
  {
    var n := |y|;
    x := Zeros(n);
    var i: nat := n;
    while i > 0
      invariant i <= n && |x| == n && (forall j | 0 <= j < i :: x[j] == 0.0)
      invariant forall r | i <= r < n :: BackRow(Rows(M), x, y, r)
    {
      i := i - 1;
      ghost var u := URow(Rows(M), n, n, i);
      var s := y[i];
      DotZero(u, x, i + 1);
      for j := i + 1 to n
        invariant s == y[i] - DotTo(u, x, j)
      {
        s := s - M[i, j] * x[j];
      }
      ghost var x0 := x;
      x := x[i := s / M[i, i]];
      BackStep(Rows(M), x0, x, y, i, s);
    }
    forall r | 0 <= r < n ensures UTimes(Rows(M), n, n, x)[r] == y[r] {
      assert BackRow(Rows(M), x, y, r);
    }
  }

  lemma DiagonalStep(M: Matrix, n: nat, i: nat)
    requires Rect(M, n, n) && i < n
    ensures DiagonalProduct(M[i..], i) == M[i][i] * DiagonalProduct(M[i + 1..], i + 1)
  {
    assert M[i..][1..] == M[i + 1..] && M[i..][0] == M[i];
  }

  /** The determinant, from the factorisation. */
  method Determinant(A: array2<real>) returns (det: real)
    requires A.Length0 == A.Length1
    ensures det == Det(Rows(A), 0) && (det == 0.0 <==> Singular(Rows(A), A.Length0))
  {
    var lu := LuDecompose(A);
    if lu.singular {
      return 0.0;
    }
    var n := A.Length0;
    ghost var M := Rows(lu.combined);
    assert M[0..] == M && M[n..] == [];
    det := lu.sign as real;
    assert DiagonalProduct(M[n..], n) == 1.0;
    hide DiagonalProduct, Singular, Decomposed;
    for i := 0 to n
      invariant Rows(lu.combined) == M && det * DiagonalProduct(M[i..], i) == lu.sign as real * DiagonalProduct(M, 0)
    {
      DiagonalStep(M, n, i);
      MulAssoc(det, M[i][i], DiagonalProduct(M[i + 1..], i + 1));
      assert lu.combined[i, i] == Rows(lu.combined)[i][i];
      det := det * lu.combined[i, i];
    }
  }

  method LuSolve(lu: LU, b: Vec, ghost A: Matrix) returns (x: Vec)
    requires lu.combined.Length0 == lu.combined.Length1 == |b|
    requires Factored(A, Rows(lu.combined), lu.perm, |b|, |b|) && NonzeroDiagonal(Rows(lu.combined), |b|, |b|)
    ensures SolvesSystem(A, |b|, b, x)
  {
    var y := ForwardSubstitute(lu.combined, lu.perm, b);
    x := BackSubstitute(lu.combined, y);
    SubstitutionsSolve(A, Rows(lu.combined), lu.perm, |b|, b, y, x);
  }

  /** The unique solution of A x = b, or None exactly when A is singular. */
  method Solve(A: array2<real>, b: Vec) returns (x: Option<Vec>)
    requires A.Length0 == A.Length1 == |b|
    ensures x.None? <==> Singular(Rows(A), |b|)
    ensures x.Some? ==> OnlySolution(Rows(A), |b|, b, x.value)
  {
    var lu := LuDecompose(A);
    if lu.singular {
      return None;
    }
    ghost var A0 := Rows(A);
    var sol := LuSolve(lu, b, A0);
    forall z: Vec | SolvesSystem(A0, |b|, b, z) ensures z == sol {
      FactoredUnique(A0, Rows(lu.combined), lu.perm, |b|, b, z, sol);
    }
    return Some(sol);
  }
}
