/** The null space of a rectangular matrix by row reduction in place with full pivoting. */
module NullSpaces {
  import opened Finite
  import opened LinearSolve
  import opened Vectors

  /** A maps x to zero. */
  ghost predicate InKernel(A: Matrix, n: nat, x: Vec)
    requires Rect(A, |A|, n)
  {
    |x| == n && forall i | 0 <= i < |A| :: RowKills(A[i], n, x)
  }

  ghost predicate RowKills(u: Vec, n: nat, x: Vec)
    requires |u| == n && |x| == n
  {
    DotTo(u, x, n) == 0.0
  }

  /** The entries of x in the order the columns stand in. */
  function Gathered(x: Vec, cols: seq<nat>): (y: Vec)
    requires forall j | 0 <= j < |cols| :: cols[j] < |x|
    ensures |y| == |cols| && forall j | 0 <= j < |cols| :: y[j] == x[cols[j]]
  {
    seq(|cols|, j requires 0 <= j < |cols| => x[cols[j]])
  }

  ghost predicate KernelAgrees(A: Matrix, R: Matrix, cols: seq<nat>, n: nat, x: Vec)
    requires Rect(A, |A|, n) && Rect(R, |R|, n) && IsPermutation(cols, n)
  {
    |x| == n ==> (InKernel(A, n, x) <==> InKernel(R, n, Gathered(x, cols)))
  }

  /** R, its columns standing in the order cols, has the kernel of A. */
  ghost predicate SameKernel(A: Matrix, R: Matrix, cols: seq<nat>, n: nat) {
    && Rect(A, |A|, n) && Rect(R, |R|, n) && IsPermutation(cols, n)
    && forall x: Vec :: KernelAgrees(A, R, cols, n, x)
  }

  /** The first k columns are unit columns. */
  ghost predicate UnitColumns(R: Matrix, n: nat, k: nat)
    requires Rect(R, |R|, n) && k <= n
  {
    k <= |R| && forall i, j | 0 <= i < |R| && 0 <= j < k :: R[i][j] == if i == j then 1.0 else 0.0
  }

  /** After k stages: R still has the kernel of A, and its first k columns are unit columns. */
  ghost predicate Reducing(A: Matrix, R: Matrix, cols: seq<nat>, n: nat, k: nat) {
    SameKernel(A, R, cols, n) && k <= n && UnitColumns(R, n, k)
  }

  // ---- What each step does to the kernel ----

  lemma KernelSwapRows(R: Matrix, n: nat, k: nat, p: nat, y: Vec)
    requires Rect(R, |R|, n) && k < |R| && p < |R|
    ensures InKernel(SwapAt(R, k, p), n, y) <==> InKernel(R, n, y)
  {
    var S := SwapAt(R, k, p);
    if |y| == n {
      forall i | 0 <= i < |R| ensures S[i] == R[if i == k then p else if i == p then k else i] {}
      if InKernel(R, n, y) {
        forall i | 0 <= i < |S| ensures RowKills(S[i], n, y) {
          assert RowKills(R[if i == k then p else if i == p then k else i], n, y);
        }
      }
      if InKernel(S, n, y) {
        forall i | 0 <= i < |R| ensures RowKills(R[i], n, y) {
          assert RowKills(S[if i == k then p else if i == p then k else i], n, y);
        }
      }
    }
  }

  lemma DotSwap(u: Vec, w: Vec, n: nat, k: nat, p: nat)
    requires |u| == n == |w| && k < n && p < n && k != p
    ensures DotTo(SwapAt(u, k, p), SwapAt(w, k, p), n) == DotTo(u, w, n)
  {
    var u', w' := SwapAt(u, k, p), SwapAt(w, k, p);
    DotExtract(u, w, k, n);
    DotExtract(u, w[k := 0.0], p, n);
    DotExtract(u', w', k, n);
    DotExtract(u', w'[k := 0.0], p, n);
    var z, z' := w[k := 0.0][p := 0.0], w'[k := 0.0][p := 0.0];
    forall j | 0 <= j < n ensures u[j] * z[j] == u'[j] * z'[j] {
      if j != k && j != p {
        assert u[j] == u'[j] && z[j] == z'[j];
      }
    }
    DotCong(u, z, u', z', n);
  }

  /** Every row with entries k and p exchanged. */
  function SwapColumns(R: Matrix, n: nat, k: nat, p: nat): (S: Matrix)
    requires Rect(R, |R|, n) && k < n && p < n
    ensures Rect(S, |R|, n)
  {
    seq(|R|, i requires 0 <= i < |R| => SwapAt(R[i], k, p))
  }

  lemma KernelSwapColumns(R: Matrix, n: nat, k: nat, p: nat, y: Vec)
    requires Rect(R, |R|, n) && k < n && p < n && k != p && |y| == n
    ensures InKernel(SwapColumns(R, n, k, p), n, SwapAt(y, k, p)) <==> InKernel(R, n, y)
  {
    var S := SwapColumns(R, n, k, p);
    forall i | 0 <= i < |R| ensures RowKills(S[i], n, SwapAt(y, k, p)) <==> RowKills(R[i], n, y) {
      DotSwap(R[i], y, n, k, p);
    }
  }

  lemma GatheredSwap(x: Vec, cols: seq<nat>, k: nat, p: nat)
    requires (forall j | 0 <= j < |cols| :: cols[j] < |x|) && k < |cols| && p < |cols|
    ensures forall j | 0 <= j < |cols| :: SwapAt(cols, k, p)[j] < |x|
    ensures Gathered(x, SwapAt(cols, k, p)) == SwapAt(Gathered(x, cols), k, p)
  {}

  /** Row i with the multiple of row k taken away that clears its entry k. */
  function ClearedRow(R: Matrix, n: nat, k: nat, i: nat): (row: Vec)
    requires Rect(R, |R|, n) && k < n && k < |R| && i < |R| && R[k][k] != 0.0
    ensures |row| == n
  {
    var factor := R[i][k] / R[k][k];
    seq(n, j requires 0 <= j < n => if j == k then 0.0 else if j < k then R[i][j] else R[i][j] - factor * R[k][j])
  }

  function NormalRow(R: Matrix, n: nat, k: nat): (row: Vec)
    requires Rect(R, |R|, n) && k < n && k < |R| && R[k][k] != 0.0
    ensures |row| == n
  {
    seq(n, j requires 0 <= j < n => if j < k then R[k][j] else R[k][j] / R[k][k])
  }

  /** Column k cleared except for a one in row k. */
  function Reduced(R: Matrix, n: nat, k: nat): (S: Matrix)
    requires Rect(R, |R|, n) && k < n && k < |R| && R[k][k] != 0.0
    ensures Rect(S, |R|, n)
  {
    seq(|R|, i requires 0 <= i < |R| => if i == k then NormalRow(R, n, k) else ClearedRow(R, n, k, i))
  }

  lemma DivisionClears(a: real, p: real)
    requires p != 0.0
    ensures a - (a / p) * p == 0.0
  {}

  lemma TimesZero(c: real, d: real)
    requires c != 0.0 && c * d == 0.0
    ensures d == 0.0
  {}

  /** Row k of S is c times that of R, and every other row of S differs from that of R by a multiple of row k. */
  ghost predicate RowSteps(R: Matrix, S: Matrix, n: nat, k: nat, c: real, factors: Vec)
    requires Rect(R, |R|, n) && Rect(S, |R|, n) && k < |R|
  {
    && c != 0.0 && |factors| == |R| && (forall j | 0 <= j < n :: S[k][j] == c * R[k][j])
    && forall i, j | 0 <= i < |R| && i != k && 0 <= j < n :: S[i][j] == R[i][j] - factors[i] * R[k][j]
  }

  /** Such steps keep the kernel. */
  lemma KernelSteps(R: Matrix, S: Matrix, n: nat, k: nat, c: real, factors: Vec, y: Vec)
    requires Rect(R, |R|, n) && Rect(S, |R|, n) && k < |R| && |y| == n && RowSteps(R, S, n, k, c, factors)
    ensures InKernel(S, n, y) <==> InKernel(R, n, y)
  {
    DotScaled(S[k], c, R[k], y, n);
    assert RowKills(S[k], n, y) <==> RowKills(R[k], n, y) by {
      if RowKills(S[k], n, y) {
        TimesZero(c, DotTo(R[k], y, n));
      }
    }
    if RowKills(R[k], n, y) {
      forall i | 0 <= i < |R| && i != k ensures RowKills(S[i], n, y) <==> RowKills(R[i], n, y) {
        DotSubScaled(S[i], R[i], factors[i], R[k], y, n);
        assert factors[i] * DotTo(R[k], y, n) == 0.0;
      }
    }
  }

  lemma DivIsTimes(a: real, p: real)
    requires p != 0.0
    ensures a / p == (1.0 / p) * a
  {}

  lemma InverseNonzero(p: real)
    requires p != 0.0
    ensures 1.0 / p != 0.0
  {}

  lemma NormalEntries(R: Matrix, n: nat, k: nat, c: real)
    requires Rect(R, |R|, n) && k < n && k < |R| && R[k][k] != 0.0 && c == 1.0 / R[k][k]
    requires forall j | 0 <= j < k :: R[k][j] == 0.0
    ensures forall j | 0 <= j < n :: NormalRow(R, n, k)[j] == c * R[k][j]
  {
    forall j | 0 <= j < n ensures NormalRow(R, n, k)[j] == c * R[k][j] {
      DivIsTimes(R[k][j], R[k][k]);
    }
  }

  lemma ReducedSteps(R: Matrix, n: nat, k: nat) returns (c: real, factors: Vec)
    requires Rect(R, |R|, n) && k < n && k < |R| && R[k][k] != 0.0
    requires forall j | 0 <= j < k :: R[k][j] == 0.0
    ensures RowSteps(R, Reduced(R, n, k), n, k, c, factors)
  {
    c := 1.0 / R[k][k];
    InverseNonzero(R[k][k]);
    NormalEntries(R, n, k, c);
    factors := seq(|R|, i requires 0 <= i < |R| => R[i][k] / R[k][k]);
    var S := Reduced(R, n, k);
    assert S[k] == NormalRow(R, n, k);
    forall i | 0 <= i < |R| && i != k ensures forall j | 0 <= j < n :: S[i][j] == R[i][j] - factors[i] * R[k][j] {
      ClearedEntries(R, n, k, i, factors[i]);
      assert S[i] == ClearedRow(R, n, k, i);
    }
    hide Reduced, ClearedRow, NormalRow;
  }

  lemma ClearedEntries(R: Matrix, n: nat, k: nat, i: nat, f: real)
    requires Rect(R, |R|, n) && k < n && k < |R| && i < |R| && R[k][k] != 0.0 && f == R[i][k] / R[k][k]
    requires forall j | 0 <= j < k :: R[k][j] == 0.0
    ensures forall j | 0 <= j < n :: ClearedRow(R, n, k, i)[j] == R[i][j] - f * R[k][j]
  {
    DivisionClears(R[i][k], R[k][k]);
  }

  lemma KernelReduced(R: Matrix, n: nat, k: nat, y: Vec)
    requires Rect(R, |R|, n) && k < n && k < |R| && R[k][k] != 0.0 && |y| == n
    requires forall j | 0 <= j < k :: R[k][j] == 0.0
    ensures InKernel(Reduced(R, n, k), n, y) <==> InKernel(R, n, y)
  {
    var c, factors := ReducedSteps(R, n, k);
    KernelSteps(R, Reduced(R, n, k), n, k, c, factors, y);
  }

  lemma DivSelf(p: real)
    requires p != 0.0
    ensures p / p == 1.0
  {}

  lemma ReducedUnits(R: Matrix, n: nat, k: nat)
    requires Rect(R, |R|, n) && k < n && k < |R| && R[k][k] != 0.0 && UnitColumns(R, n, k)
    ensures UnitColumns(Reduced(R, n, k), n, k + 1)
  {
    var S := Reduced(R, n, k);
    DivSelf(R[k][k]);
    assert NormalRow(R, n, k)[k] == 1.0;
    forall i, j | 0 <= i < |R| && 0 <= j < k + 1 ensures S[i][j] == if i == j then 1.0 else 0.0 {
      if i == k {
        assert S[i] == NormalRow(R, n, k);
      } else {
        assert S[i] == ClearedRow(R, n, k, i);
      }
    }
  }

  lemma SwapRowsKeeps(A: Matrix, R: Matrix, cols: seq<nat>, n: nat, k: nat, p: nat)
    requires SameKernel(A, R, cols, n) && k <= n && k <= p < |R| && UnitColumns(R, n, k)
    ensures SameKernel(A, SwapAt(R, k, p), cols, n) && UnitColumns(SwapAt(R, k, p), n, k)
  {
    var S := SwapAt(R, k, p);
    forall x: Vec ensures KernelAgrees(A, S, cols, n, x) {
      assert KernelAgrees(A, R, cols, n, x);
      if |x| == n {
        KernelSwapRows(R, n, k, p, Gathered(x, cols));
      }
    }
  }

  lemma SwapPermutation(cols: seq<nat>, n: nat, k: nat, p: nat)
    requires IsPermutation(cols, n) && k < n && p < n
    ensures IsPermutation(SwapAt(cols, k, p), n)
  {
    var cols' := SwapAt(cols, k, p);
    forall r | 0 <= r < n ensures r in cols' {
      var i := Position(cols, n, r);
      assert cols'[if i == k then p else if i == p then k else i] == r;
    }
  }

  lemma SwapColumnsKeeps(A: Matrix, R: Matrix, cols: seq<nat>, n: nat, k: nat, p: nat)
    requires SameKernel(A, R, cols, n) && k < p < n && UnitColumns(R, n, k)
    ensures SameKernel(A, SwapColumns(R, n, k, p), SwapAt(cols, k, p), n) && UnitColumns(SwapColumns(R, n, k, p), n, k)
  {
    var S, cols' := SwapColumns(R, n, k, p), SwapAt(cols, k, p);
    SwapPermutation(cols, n, k, p);
    forall x: Vec ensures KernelAgrees(A, S, cols', n, x) {
      assert KernelAgrees(A, R, cols, n, x);
      if |x| == n {
        GatheredSwap(x, cols, k, p);
        KernelSwapColumns(R, n, k, p, Gathered(x, cols));
      }
    }
  }

  lemma ReducedKeeps(A: Matrix, R: Matrix, cols: seq<nat>, n: nat, k: nat)
    requires SameKernel(A, R, cols, n) && k < n && k < |R| && R[k][k] != 0.0 && UnitColumns(R, n, k)
    ensures SameKernel(A, Reduced(R, n, k), cols, n) && UnitColumns(Reduced(R, n, k), n, k + 1)
  {
    ReducedUnits(R, n, k);
    forall x: Vec ensures KernelAgrees(A, Reduced(R, n, k), cols, n, x) {
      assert KernelAgrees(A, R, cols, n, x);
      if |x| == n {
        KernelReduced(R, n, k, Gathered(x, cols));
      }
    }
  }

  // ---- Reading off the kernel ----

  /** Everything right of the first `rank` columns is gone from the rows below them. */
  ghost predicate Exhausted(R: Matrix, n: nat, rank: nat)
    requires Rect(R, |R|, n) && rank <= n
  {
    forall i, j | rank <= i < |R| && rank <= j < n :: R[i][j] == 0.0
  }

  /** The kernel vector whose free coordinate is column rank + f, in the order the columns stand in. */
  function FreeVector(R: Matrix, n: nat, rank: nat, f: nat): (y: Vec)
    requires Rect(R, |R|, n) && rank <= |R| && rank + f < n
    ensures |y| == n
  {
    seq(n, j requires 0 <= j < n => if j < rank then -R[j][rank + f] else if j == rank + f then 1.0 else 0.0)
  }

  lemma {:induction false} DotSplit(u: Vec, w: Vec, a: nat, n: nat)
    requires a <= n <= |u| && n <= |w|
    ensures DotTo(u, w, n) == DotTo(u, w, a) + DotTo(u[a..n], w[a..n], n - a)
  {
    if n == a {
    } else {
      DotSplit(u, w, a, n - 1);
      DotCong(u[a..n], w[a..n], u[a..n - 1], w[a..n - 1], n - 1 - a);
    }
  }

  /** A row of the reduced matrix: its pivot coordinate plus its combination of the free ones. */
  lemma PivotRowDot(R: Matrix, n: nat, rank: nat, i: nat, y: Vec)
    requires Rect(R, |R|, n) && rank <= n && UnitColumns(R, n, rank) && i < rank && |y| == n
    ensures DotTo(R[i], y, n) == y[i] + DotTo(R[i][rank..], y[rank..], n - rank)
  {
    DotSplit(R[i], y, rank, n);
    DotExtract(R[i], y, i, rank);
    DotZero(R[i], y[i := 0.0], rank);
    assert R[i][rank..n] == R[i][rank..] && y[rank..n] == y[rank..];
  }

  lemma LowerRowDot(R: Matrix, n: nat, rank: nat, i: nat, y: Vec)
    requires Rect(R, |R|, n) && rank <= n && UnitColumns(R, n, rank) && Exhausted(R, n, rank) && rank <= i < |R|
    requires |y| == n
    ensures DotTo(R[i], y, n) == 0.0
  {
    DotZero(R[i], y, n);
  }

  /** y is in the kernel exactly when its pivot coordinates follow from its free ones. */
  ghost predicate Follows(R: Matrix, n: nat, rank: nat, y: Vec)
    requires Rect(R, |R|, n) && rank <= n && rank <= |R| && |y| == n
  {
    forall i | 0 <= i < rank :: y[i] == -DotTo(R[i][rank..], y[rank..], n - rank)
  }

  lemma KernelFollows(R: Matrix, n: nat, rank: nat, y: Vec)
    requires Rect(R, |R|, n) && rank <= n && UnitColumns(R, n, rank) && Exhausted(R, n, rank) && |y| == n
    ensures InKernel(R, n, y) <==> Follows(R, n, rank, y)
  {
    forall i | 0 <= i < rank ensures RowKills(R[i], n, y) <==> y[i] == -DotTo(R[i][rank..], y[rank..], n - rank) {
      PivotRowDot(R, n, rank, i, y);
    }
    forall i | rank <= i < |R| ensures RowKills(R[i], n, y) {
      LowerRowDot(R, n, rank, i, y);
    }
  }

  lemma FreeVectorFollows(R: Matrix, n: nat, rank: nat, f: nat)
    requires Rect(R, |R|, n) && rank <= |R| && rank + f < n
    ensures Follows(R, n, rank, FreeVector(R, n, rank, f))
  {
    var y := FreeVector(R, n, rank, f);
    forall i | 0 <= i < rank ensures y[i] == -DotTo(R[i][rank..], y[rank..], n - rank) {
      var u, w := R[i][rank..], y[rank..];
      DotExtract(u, w, f, n - rank);
      DotZero(u, w[f := 0.0], n - rank);
    }
  }

  // ---- The basis of the kernel ----

  function Column(basis: Matrix, n: nat, j: nat): (c: Vec)
    requires Rect(basis, |basis|, n) && j < n
    ensures |c| == |basis|
  {
    seq(|basis|, f requires 0 <= f < |basis| => basis[f][j])
  }

  /** The linear combination of the vectors with coefficients c. */
  function Combination(basis: Matrix, n: nat, c: Vec): (x: Vec)
    requires Rect(basis, |basis|, n) && |c| == |basis|
    ensures |x| == n
  {
    seq(n, j requires 0 <= j < n => DotTo(Column(basis, n, j), c, |basis|))
  }

  ghost predicate Independent(basis: Matrix, n: nat)
    requires Rect(basis, |basis|, n)
  {
    forall c: Vec :: OnlyTrivially(basis, n, c)
  }

  /** If these coefficients combine the vectors to zero, they are all zero. */
  ghost predicate OnlyTrivially(basis: Matrix, n: nat, c: Vec)
    requires Rect(basis, |basis|, n)
  {
    |c| == |basis| && Zero(Combination(basis, n, c)) ==> Zero(c)
  }

  /** Every kernel vector of A is a combination of the vectors. */
  ghost predicate Spans(basis: Matrix, n: nat, A: Matrix)
    requires Rect(basis, |basis|, n) && Rect(A, |A|, n)
  {
    forall x: Vec | InKernel(A, n, x) :: IsCombination(basis, n, x)
  }

  ghost predicate IsCombination(basis: Matrix, n: nat, x: Vec)
    requires Rect(basis, |basis|, n)
  {
    exists c: Vec :: |c| == |basis| && x == Combination(basis, n, c)
  }

  ghost predicate IsKernelBasis(basis: Matrix, n: nat, A: Matrix)
    requires Rect(A, |A|, n)
  {
    && Rect(basis, |basis|, n) && (forall f | 0 <= f < |basis| :: InKernel(A, n, basis[f]))
    && Independent(basis, n) && Spans(basis, n, A)
  }

  /** The vectors are the free vectors of R, entries put back where the columns came from. */
  ghost predicate ReadOff(basis: Matrix, R: Matrix, cols: seq<nat>, n: nat, rank: nat) {
    && Rect(R, |R|, n) && rank <= n && rank <= |R| && IsPermutation(cols, n)
    && |basis| == n - rank && Rect(basis, n - rank, n)
    && forall f | 0 <= f < n - rank :: Gathered(basis[f], cols) == FreeVector(R, n, rank, f)
  }

  /** Where column j stood, the vectors hold the entries j of the free vectors. */
  lemma ColumnAt(basis: Matrix, R: Matrix, cols: seq<nat>, n: nat, rank: nat, j: nat, f: nat)
    requires ReadOff(basis, R, cols, n, rank) && j < n && f < n - rank
    ensures Column(basis, n, cols[j])[f] == if j >= rank then (if f == j - rank then 1.0 else 0.0) else -R[j][rank + f]
  {
    assert Gathered(basis[f], cols)[j] == basis[f][cols[j]];
  }

  lemma PickDot(u: Vec, c: Vec, k: nat, n: nat)
    requires |u| == |c| == n && k < n && forall f | 0 <= f < n :: u[f] == if f == k then 1.0 else 0.0
    ensures DotTo(u, c, n) == c[k]
  {
    DotExtract(u, c, k, n);
    DotZero(u, c[k := 0.0], n);
  }

  lemma NegatedDot(u: Vec, v: Vec, c: Vec, n: nat)
    requires |u| == |v| == |c| == n && forall f | 0 <= f < n :: u[f] == -v[f]
    ensures DotTo(u, c, n) == -DotTo(v, c, n)
  {
    DotScaled(u, -1.0, v, c, n);
  }

  /** The free coordinates of a combination are its coefficients; its pivot coordinates follow from them. */
  lemma CombinationAt(basis: Matrix, R: Matrix, cols: seq<nat>, n: nat, rank: nat, c: Vec, j: nat)
    requires ReadOff(basis, R, cols, n, rank) && |c| == n - rank && j < n
    ensures Combination(basis, n, c)[cols[j]] == if j >= rank then c[j - rank] else -DotTo(R[j][rank..], c, n - rank)
  {
    var u := Column(basis, n, cols[j]);
    forall f | 0 <= f < n - rank
      ensures u[f] == if j >= rank then (if f == j - rank then 1.0 else 0.0) else -R[j][rank + f]
    {
      ColumnAt(basis, R, cols, n, rank, j, f);
    }
    if j >= rank {
      PickDot(u, c, j - rank, n - rank);
    } else {
      NegatedDot(u, R[j][rank..], c, n - rank);
    }
  }

  lemma BasisIndependent(basis: Matrix, R: Matrix, cols: seq<nat>, n: nat, rank: nat)
    requires ReadOff(basis, R, cols, n, rank)
    ensures Independent(basis, n)
  {
    forall c: Vec ensures OnlyTrivially(basis, n, c) {
      if |c| == |basis| && Zero(Combination(basis, n, c)) {
        forall f | 0 <= f < |c| ensures c[f] == 0.0 {
          CombinationAt(basis, R, cols, n, rank, c, rank + f);
        }
      }
    }
  }

  lemma GatheredOnto(x: Vec, y: Vec, cols: seq<nat>, n: nat)
    requires IsPermutation(cols, n) && |x| == |y| == n && forall j | 0 <= j < n :: x[cols[j]] == y[cols[j]]
    ensures x == y
  {
    forall r | 0 <= r < n ensures x[r] == y[r] {
      var i := Position(cols, n, r);
    }
  }

  /** A kernel vector is the combination whose coefficients are its own free coordinates. */
  lemma KernelIsCombination(A: Matrix, basis: Matrix, R: Matrix, cols: seq<nat>, n: nat, rank: nat, x: Vec)
    requires ReadOff(basis, R, cols, n, rank) && UnitColumns(R, n, rank) && Exhausted(R, n, rank)
    requires Rect(A, |A|, n) && InKernel(A, n, x) && KernelAgrees(A, R, cols, n, x)
    ensures IsCombination(basis, n, x)
  {
    var y := Gathered(x, cols);
    var c := y[rank..];
    KernelFollows(R, n, rank, y);
    CombinationOf(basis, R, cols, n, rank, x);
    assert x == Combination(basis, n, c);
  }

  lemma CombinationOf(basis: Matrix, R: Matrix, cols: seq<nat>, n: nat, rank: nat, x: Vec)
    requires ReadOff(basis, R, cols, n, rank) && |x| == n && Follows(R, n, rank, Gathered(x, cols))
    ensures Combination(basis, n, Gathered(x, cols)[rank..]) == x
  {
    var y, z := Gathered(x, cols), Combination(basis, n, Gathered(x, cols)[rank..]);
    forall j | 0 <= j < n ensures x[cols[j]] == z[cols[j]] {
      CombinationAt(basis, R, cols, n, rank, y[rank..], j);
      assert y[j] == x[cols[j]];
    }
    GatheredOnto(x, z, cols, n);
  }

  /** The vectors read off a fully reduced matrix are a basis of the kernel. */
  lemma ReadOffIsBasis(A: Matrix, basis: Matrix, R: Matrix, cols: seq<nat>, n: nat, rank: nat)
    requires SameKernel(A, R, cols, n) && ReadOff(basis, R, cols, n, rank) && UnitColumns(R, n, rank)
    requires Exhausted(R, n, rank)
    ensures IsKernelBasis(basis, n, A)
  {
    forall f | 0 <= f < |basis| ensures InKernel(A, n, basis[f]) {
      assert KernelAgrees(A, R, cols, n, basis[f]);
      FreeVectorFollows(R, n, rank, f);
      KernelFollows(R, n, rank, FreeVector(R, n, rank, f));
    }
    BasisIndependent(basis, R, cols, n, rank);
    forall x: Vec | InKernel(A, n, x) ensures IsCombination(basis, n, x) {
      assert KernelAgrees(A, R, cols, n, x);
      KernelIsCombination(A, basis, R, cols, n, rank, x);
    }
  }

  // ---- The reduction in place ----

  /** The largest entry not yet reduced, in absolute value. */
  method FindLargest(R: array2<real>, k: nat) returns (best: real, bestRow: nat, bestCol: nat)
    requires k < R.Length0 && k < R.Length1
    ensures k <= bestRow < R.Length0 && k <= bestCol < R.Length1 && (best > 0.0 ==> best == Abs(R[bestRow, bestCol]))
    ensures best >= 0.0 && forall i, j | k <= i < R.Length0 && k <= j < R.Length1 :: Abs(R[i, j]) <= best
  {
    best, bestRow, bestCol := 0.0, k, k;
    for i := k to R.Length0
      invariant best >= 0.0 && k <= bestRow < R.Length0 && k <= bestCol < R.Length1
      invariant best > 0.0 ==> best == Abs(R[bestRow, bestCol])
      invariant forall i', j | k <= i' < i && k <= j < R.Length1 :: Abs(R[i', j]) <= best
    {
      for j := k to R.Length1
        invariant best >= 0.0 && k <= bestRow < R.Length0 && k <= bestCol < R.Length1
        invariant best > 0.0 ==> best == Abs(R[bestRow, bestCol])
        invariant forall i', j' | k <= i' < i && k <= j' < R.Length1 :: Abs(R[i', j']) <= best
        invariant forall j' | k <= j' < j :: Abs(R[i, j']) <= best
      {
        var v := Abs(R[i, j]);
        if v > best {
          best, bestRow, bestCol := v, i, j;
        }
      }
    }
  }

  method SwapColumnPair(R: array2<real>, k: nat, p: nat)
    requires k < R.Length1 && p < R.Length1
    modifies R
    ensures Rows(R) == SwapColumns(old(Rows(R)), R.Length1, k, p)
  {
    ghost var S := SwapColumns(Rows(R), R.Length1, k, p);
    for i := 0 to R.Length0
      invariant forall i', j | 0 <= i' < R.Length0 && 0 <= j < R.Length1 ::
          R[i', j] == if i' < i then S[i'][j] else old(R[i', j])
    {
      R[i, k], R[i, p] := R[i, p], R[i, k];
    }
    MatrixExt(Rows(R), S, R.Length0, R.Length1);
  }

  /** Clears column k from one row. */
  method ClearRow(R: array2<real>, k: nat, i: nat)
    requires k < R.Length0 && k < R.Length1 && i < R.Length0 && i != k && R[k, k] != 0.0
    modifies R
    ensures Rows(R) == old(Rows(R))[i := ClearedRow(old(Rows(R)), R.Length1, k, i)]
  {
    ghost var R0 := Rows(R);
    ghost var S := R0[i := ClearedRow(R0, R.Length1, k, i)];
    var factor := R[i, k] / R[k, k];
    assert factor == R0[i][k] / R0[k][k];
    R[i, k] := 0.0;
    for j := k + 1 to R.Length1
      invariant forall i', j' | 0 <= i' < R.Length0 && 0 <= j' < R.Length1 ::
          R[i', j'] == if i' == i && j' < j then S[i'][j'] else R0[i'][j']
    {
      R[i, j] := R[i, j] - factor * R[k, j];
    }
    MatrixExt(Rows(R), S, R.Length0, R.Length1);
  }

  /** Clears column k from rows lo to hi. */
  method ClearRows(R: array2<real>, k: nat, lo: nat, hi: nat)
    requires k < R.Length0 && k < R.Length1 && lo <= hi <= R.Length0 && !(lo <= k < hi) && R[k, k] != 0.0
    modifies R
    ensures forall i | 0 <= i < R.Length0 ::
              Rows(R)[i] == if lo <= i < hi then ClearedRow(old(Rows(R)), R.Length1, k, i) else old(Rows(R))[i]
  {
    ghost var R0 := Rows(R);
    for i := lo to hi
      invariant forall i' | 0 <= i' < R.Length0 ::
          Rows(R)[i'] == if lo <= i' < i then ClearedRow(R0, R.Length1, k, i') else R0[i']
    {
      assert R[k, k] == Rows(R)[k][k];
      ghost var R1 := Rows(R);
      ClearRow(R, k, i);
      SameCleared(R0, R1, R.Length1, k, i);
    }
  }

  lemma SameCleared(R: Matrix, S: Matrix, n: nat, k: nat, i: nat)
    requires Rect(R, |R|, n) && Rect(S, |R|, n) && k < n && k < |R| && i < |R| && R[k][k] != 0.0 && S[k] == R[k]
    requires S[i] == R[i]
    ensures ClearedRow(S, n, k, i) == ClearedRow(R, n, k, i)
  {}

  method NormalizePivotRow(R: array2<real>, k: nat)
    requires k < R.Length0 && k < R.Length1 && R[k, k] != 0.0
    modifies R
    ensures Rows(R) == old(Rows(R))[k := NormalRow(old(Rows(R)), R.Length1, k)]
  {
    ghost var R0 := Rows(R);
    ghost var S := R0[k := NormalRow(R0, R.Length1, k)];
    var d := R[k, k];
    for j := k to R.Length1
      invariant forall i, j' | 0 <= i < R.Length0 && 0 <= j' < R.Length1 ::
          R[i, j'] == if i == k && j' < j then S[i][j'] else R0[i][j']
    {
      R[k, j] := R[k, j] / d;
    }
    MatrixExt(Rows(R), S, R.Length0, R.Length1);
  }

  /** Eliminates below the pivot, then above it, then normalises its row. */
  method ReduceColumn(R: array2<real>, k: nat)
    requires k < R.Length0 && k < R.Length1 && R[k, k] != 0.0
    modifies R
    ensures Rows(R) == Reduced(old(Rows(R)), R.Length1, k)
  {
    ghost var R0 := Rows(R);
    ClearRows(R, k, k + 1, R.Length0);
    ghost var R1 := Rows(R);
    assert R[k, k] == R1[k][k];
    ClearRows(R, k, 0, k);
    ghost var R2 := Rows(R);
    assert R[k, k] == R2[k][k];
    NormalizePivotRow(R, k);
    forall i | 0 <= i < |R0| ensures Rows(R)[i] == Reduced(R0, R.Length1, k)[i] {
      if i < k {
        SameCleared(R0, R1, R.Length1, k, i);
      } else if i == k {
        SameNormal(R0, R2, R.Length1, k);
      }
    }
  }

  lemma SameNormal(R: Matrix, S: Matrix, n: nat, k: nat)
    requires Rect(R, |R|, n) && Rect(S, |R|, n) && k < n && k < |R| && R[k][k] != 0.0 && S[k] == R[k]
    ensures NormalRow(S, n, k) == NormalRow(R, n, k)
  {}

  /** Brings the pivot to the diagonal; the columns' new order. */
  method BringPivot(R: array2<real>, cols: seq<nat>, k: nat, bestRow: nat, bestCol: nat, ghost A: Matrix)
    returns (cols': seq<nat>)
    requires k <= bestRow < R.Length0 && k <= bestCol < R.Length1 && R[bestRow, bestCol] != 0.0
    requires Reducing(A, Rows(R), cols, R.Length1, k)
    modifies R
    ensures Reducing(A, Rows(R), cols', R.Length1, k) && R[k, k] != 0.0
  {
    cols' := cols;
    ghost var n, R0 := R.Length1, Rows(R);
    assert R0[bestRow][bestCol] != 0.0;
    if bestRow != k {
      SwapRowsKeeps(A, R0, cols, n, k, bestRow);
      SwapRows(R, k, bestRow);
    }
    ghost var R1 := Rows(R);
    assert R1[k][bestCol] == R0[bestRow][bestCol];
    if bestCol != k {
      SwapColumnsKeeps(A, R1, cols, n, k, bestCol);
      cols' := cols[k := cols[bestCol]][bestCol := cols[k]];
      SwapColumnPair(R, k, bestCol);
      assert Rows(R)[k] == SwapAt(R1[k], k, bestCol);
    }
    assert R[k, k] == Rows(R)[k][k] == R1[k][bestCol];
  }

  /** One stage: the pivot is brought to the diagonal and its column reduced. */
  method PivotStage(R: array2<real>, cols: seq<nat>, k: nat, bestRow: nat, bestCol: nat, ghost A: Matrix)
    returns (cols': seq<nat>)
    requires k <= bestRow < R.Length0 && k <= bestCol < R.Length1 && R[bestRow, bestCol] != 0.0
    requires Reducing(A, Rows(R), cols, R.Length1, k)
    modifies R
    ensures Reducing(A, Rows(R), cols', R.Length1, k + 1)
  {
    cols' := BringPivot(R, cols, k, bestRow, bestCol, A);
    assert Rows(R)[k][k] == R[k, k];
    ReducedKeeps(A, Rows(R), cols', R.Length1, k);
    ReduceColumn(R, k);
  }

  /** The kernel vector of one free column. */
  method FreeColumnVector(R: array2<real>, cols: seq<nat>, rank: nat, f: nat) returns (v: Vec)
    requires rank <= R.Length0 && rank + f < R.Length1 && IsPermutation(cols, R.Length1)
    ensures |v| == R.Length1 && Gathered(v, cols) == FreeVector(Rows(R), R.Length1, rank, f)
  {
    var n := R.Length1;
    v := seq(n, _ => 0.0);
    v := v[cols[rank + f] := 1.0];
    PermutationInjective(cols, n);
    for k := 0 to rank
      invariant |v| == n
      invariant forall j | 0 <= j < n ::
          v[cols[j]] == if j < k then -R[j, rank + f] else if j == rank + f then 1.0 else 0.0
    {
      v := v[cols[k] := -R[k, rank + f]];
    }
  }

  /** Entries naming every index name each of them once. */
  lemma PermutationInjective(cols: seq<nat>, n: nat)
    requires IsPermutation(cols, n)
    ensures forall i, j | 0 <= i < j < n :: cols[i] != cols[j]
  {
    assert SetOf(cols) == Below(n);
    DistinctBySize(cols);
  }

  lemma {:induction false} DistinctBySize(s: seq<nat>)
    ensures |SetOf(s)| <= |s|
    ensures |SetOf(s)| == |s| ==> forall i, j | 0 <= i < j < |s| :: s[i] != s[j]
  {
    if s != [] {
      var t, x := s[..|s| - 1], s[|s| - 1];
      DistinctBySize(t);
      assert s == t + [x];
      assert SetOf(s) == SetOf(t) + {x};
      if |SetOf(s)| == |s| {
        assert x !in SetOf(t);
        assert x !in t;
      }
    }
  }

  // ---- Scaling to length one ----

  /** What the square root is needed for: it squares back. */
  ghost predicate SquaresBack(root: real -> real) {
    forall v | v > 0.0 :: root(v) > 0.0 && root(v) * root(v) == v
  }

  /** Every vector of t is the one of s times its factor, which is not zero. */
  ghost predicate ScaledBy(s: Matrix, t: Matrix, n: nat, factors: Vec) {
    && Rect(s, |s|, n) && Rect(t, |s|, n) && |factors| == |s|
    && (forall f | 0 <= f < |s| :: factors[f] != 0.0)
    && forall f, j | 0 <= f < |s| && 0 <= j < n :: t[f][j] == factors[f] * s[f][j]
  }

  function Products(a: Vec, b: Vec): (c: Vec)
    requires |a| == |b|
    ensures |c| == |a| && forall f | 0 <= f < |c| :: c[f] == a[f] * b[f]
  {
    seq(|a|, f requires 0 <= f < |a| => a[f] * b[f])
  }

  lemma CombinationScaled(s: Matrix, t: Matrix, n: nat, factors: Vec, c: Vec)
    requires ScaledBy(s, t, n, factors) && |c| == |s|
    ensures Combination(t, n, c) == Combination(s, n, Products(factors, c))
  {
    var d := Products(factors, c);
    forall j | 0 <= j < n ensures Combination(t, n, c)[j] == Combination(s, n, d)[j] {
      var u, v := Column(t, n, j), Column(s, n, j);
      forall f | 0 <= f < |s| ensures u[f] * c[f] == v[f] * d[f] {
        assert u[f] == factors[f] * v[f];
        Regroup(factors[f], v[f], c[f]);
      }
      DotCong(u, c, v, d, |s|);
    }
  }

  lemma Regroup(a: real, b: real, c: real)
    ensures (a * b) * c == b * (a * c)
  {}

  lemma UndoFactor(a: real, b: real)
    requires a != 0.0
    ensures a * (b / a) == b && (a * b == 0.0 ==> b == 0.0)
  {}

  /** Scaling the vectors of a basis gives a basis. */
  lemma ScaledIsBasis(A: Matrix, s: Matrix, t: Matrix, n: nat, factors: Vec)
    requires Rect(A, |A|, n) && IsKernelBasis(s, n, A) && ScaledBy(s, t, n, factors)
    ensures IsKernelBasis(t, n, A)
  {
    forall f | 0 <= f < |t| ensures InKernel(A, n, t[f]) {
      assert InKernel(A, n, s[f]);
      KernelScaled(A, n, s[f], factors[f], t[f]);
    }
    forall c: Vec ensures OnlyTrivially(t, n, c) {
      if |c| == |t| && Zero(Combination(t, n, c)) {
        CombinationScaled(s, t, n, factors, c);
        var d := Products(factors, c);
        assert OnlyTrivially(s, n, d);
        forall f | 0 <= f < |c| ensures c[f] == 0.0 {
          UndoFactor(factors[f], c[f]);
          assert d[f] == 0.0;
        }
      }
    }
    forall x: Vec | InKernel(A, n, x) ensures IsCombination(t, n, x) {
      assert IsCombination(s, n, x);
      var d: Vec :| |d| == |s| && x == Combination(s, n, d);
      var c := seq(|s|, f requires 0 <= f < |s| => d[f] / factors[f]);
      forall f | 0 <= f < |s| ensures Products(factors, c)[f] == d[f] {
        UndoFactor(factors[f], d[f]);
      }
      assert Products(factors, c) == d;
      CombinationScaled(s, t, n, factors, c);
    }
  }

  lemma KernelScaled(A: Matrix, n: nat, x: Vec, factor: real, y: Vec)
    requires Rect(A, |A|, n) && InKernel(A, n, x) && |y| == n && forall j | 0 <= j < n :: y[j] == factor * x[j]
    ensures InKernel(A, n, y)
  {
    forall i | 0 <= i < |A| ensures RowKills(A[i], n, y) {
      assert RowKills(A[i], n, x);
      DotScaled(y, factor, x, A[i], n);
      DotComm(y, A[i], n);
      DotComm(x, A[i], n);
    }
  }

  /** Dividing a vector by its length gives one of length one. */
  lemma UnitLength(v: Vec, u: Vec, n: nat, length: real)
    requires |v| == |u| == n && length > 0.0 && length * length == DotTo(v, v, n)
    requires forall j | 0 <= j < n :: u[j] == (1.0 / length) * v[j]
    ensures DotTo(u, u, n) == 1.0
  {
    var c := 1.0 / length;
    DotScaled(u, c, v, u, n);
    DotComm(v, u, n);
    DotScaled(u, c, v, v, n);
    assert DotTo(u, u, n) == c * (c * DotTo(v, v, n));
    assert c * length == 1.0;
    assert c * (c * (length * length)) == (c * length) * (c * length);
  }

  lemma HasOne(v: Vec, n: nat, k: nat)
    requires |v| == n && k < n && v[k] == 1.0
    ensures DotTo(v, v, n) > 0.0
  {
    var squares := Products(v, v);
    assert forall j | 0 <= j < n :: v[j] * v[j] >= 0.0;
    SumDominates(squares, n, k);
    DotIsSum(v, n);
  }

  lemma {:induction false} DotIsSum(v: Vec, n: nat)
    requires n <= |v|
    ensures DotTo(v, v, n) == SumTo(Products(v, v), n)
  {
    if n > 0 {
      DotIsSum(v, n - 1);
    }
  }

  /** Divides a vector by its length. */
  method Normalize(v: Vec, n: nat, root: real -> real) returns (u: Vec, ghost factor: real)
    requires |v| == n && DotTo(v, v, n) > 0.0 && SquaresBack(root)
    ensures |u| == n && factor != 0.0 && (forall j | 0 <= j < n :: u[j] == factor * v[j]) && DotTo(u, u, n) == 1.0
  {
    var square := 0.0;
    for j := 0 to n
      invariant square == DotTo(v, v, j)
    {
      square := square + v[j] * v[j];
    }
    var length := root(square);
    u := v;
    for j := 0 to n
      invariant |u| == n && forall i | 0 <= i < n :: u[i] == if i < j then v[i] / length else v[i]
    {
      u := u[j := u[j] / length];
    }
    factor := 1.0 / length;
    forall j | 0 <= j < n ensures u[j] == factor * v[j] {
      Reciprocal(v[j], length);
    }
    UnitLength(v, u, n, length);
  }

  lemma Reciprocal(a: real, b: real)
    requires b != 0.0
    ensures a / b == (1.0 / b) * a
  {}

  /** Reduces R, a copy of A, as far as it goes: the columns' order and the number of pivots. */
  method ReduceFully(R: array2<real>, ghost A: Matrix) returns (cols: seq<nat>, rank: nat)
    requires Rows(R) == A
    modifies R
    ensures rank <= R.Length0 && rank <= R.Length1
    ensures Reducing(A, Rows(R), cols, R.Length1, rank) && Exhausted(Rows(R), R.Length1, rank)
  {
    var m, n := R.Length0, R.Length1;
    cols := seq(n, i => i);
    StartKernel(A, cols, n);
    rank := 0;
    var done := false;
    while rank < m && rank < n && !done
      invariant rank <= m && rank <= n
      invariant Reducing(A, Rows(R), cols, n, rank)
      invariant done ==> Exhausted(Rows(R), n, rank)
      decreases m - rank, !done
    {
      var best, bestRow, bestCol := FindLargest(R, rank);
      if best == 0.0 {
        forall i, j | rank <= i < m && rank <= j < n ensures Rows(R)[i][j] == 0.0 {
          assert Abs(R[i, j]) <= 0.0;
        }
        done := true;
      } else {
        cols := PivotStage(R, cols, rank, bestRow, bestCol, A);
        rank := rank + 1;
      }
    }
  }

  /** The kernel vector of one free column, divided by its length. */
  method UnitVector(R: array2<real>, cols: seq<nat>, rank: nat, f: nat, root: real -> real)
    returns (u: Vec, ghost v: Vec, ghost factor: real)
    requires rank <= R.Length0 && rank + f < R.Length1 && IsPermutation(cols, R.Length1) && SquaresBack(root)
    ensures |v| == |u| == R.Length1 && Gathered(v, cols) == FreeVector(Rows(R), R.Length1, rank, f)
    ensures factor != 0.0 && (forall j | 0 <= j < R.Length1 :: u[j] == factor * v[j]) && DotTo(u, u, R.Length1) == 1.0
  {
    var x := FreeColumnVector(R, cols, rank, f);
    assert x[cols[rank + f]] == Gathered(x, cols)[rank + f] == 1.0;
    HasOne(x, R.Length1, cols[rank + f]);
    v := x;
    u, factor := Normalize(x, R.Length1, root);
  }

  lemma ScaledMore(s: Matrix, t: Matrix, n: nat, factors: Vec, v: Vec, u: Vec, factor: real)
    requires ScaledBy(s, t, n, factors)
    requires |v| == |u| == n && factor != 0.0 && forall j | 0 <= j < n :: u[j] == factor * v[j]
    ensures ScaledBy(s + [v], t + [u], n, factors + [factor])
  {}

  /** The vectors read off the reduced matrix, each divided by its length. */
  method ReadVectors(R: array2<real>, cols: seq<nat>, rank: nat, root: real -> real)
    returns (basis: seq<Vec>, ghost raw: Matrix, ghost factors: Vec)
    requires rank <= R.Length0 && rank <= R.Length1 && IsPermutation(cols, R.Length1) && SquaresBack(root)
    ensures ReadOff(raw, Rows(R), cols, R.Length1, rank) && ScaledBy(raw, basis, R.Length1, factors)
    ensures forall f | 0 <= f < |basis| :: DotTo(basis[f], basis[f], R.Length1) == 1.0
  {
    var n := R.Length1;
    basis, raw, factors := [], [], [];
    hide FreeVector, Gathered, SquaresBack, DotTo;
    for f := 0 to n - rank
      invariant |raw| == f && Rect(raw, f, n)
      invariant forall f' | 0 <= f' < f :: Gathered(raw[f'], cols) == FreeVector(Rows(R), n, rank, f')
      invariant ScaledBy(raw, basis, n, factors)
      invariant forall f' | 0 <= f' < f :: DotTo(basis[f'], basis[f'], n) == 1.0
    {
      var u; ghost var v, factor;
      u, v, factor := UnitVector(R, cols, rank, f, root);
      ScaledMore(raw, basis, n, factors, v, u, factor);
      raw, basis, factors := raw + [v], basis + [u], factors + [factor];
    }
  }

  /** A basis of the kernel of A, one vector of length one for every column without a pivot. */
  method NullSpace(A: array2<real>, root: real -> real) returns (basis: seq<Vec>, rank: nat)
    requires SquaresBack(root)
    ensures rank <= A.Length0 && rank + |basis| == A.Length1
    ensures IsKernelBasis(basis, A.Length1, Rows(A))
    ensures forall f | 0 <= f < |basis| :: DotTo(basis[f], basis[f], A.Length1) == 1.0
  {
    var R := Copy(A);
    ghost var A0, n := Rows(A), A.Length1;
    var cols;
    cols, rank := ReduceFully(R, A0);
    ghost var raw, factors;
    basis, raw, factors := ReadVectors(R, cols, rank, root);
    ReadOffIsBasis(A0, raw, Rows(R), cols, n, rank);
    ScaledIsBasis(A0, raw, basis, n, factors);
  }

  lemma StartKernel(A: Matrix, cols: seq<nat>, n: nat)
    requires Rect(A, |A|, n) && |cols| == n && forall i | 0 <= i < n :: cols[i] == i
    ensures Reducing(A, A, cols, n, 0)
  {
    forall r | 0 <= r < n ensures r in cols {
      assert cols[r] == r;
    }
    forall x: Vec ensures KernelAgrees(A, A, cols, n, x) {
      assert |x| == n ==> Gathered(x, cols) == x;
    }
  }
}
