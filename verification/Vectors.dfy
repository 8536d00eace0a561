/** Exact-real vectors and matrices, and the algebra of inner products that the solvers rest on. */
module Vectors {

  type Vec = seq<real>
  type Matrix = seq<seq<real>>

  predicate Rect(m: Matrix, rows: nat, cols: nat) {
    |m| == rows && forall i | 0 <= i < rows :: |m[i]| == cols
  }

  /** The abstract value of a matrix that is rewritten in place. */
  ghost function Rows(a: array2<real>): (m: Matrix)
    reads a
    ensures Rect(m, a.Length0, a.Length1)
    ensures forall i, j | 0 <= i < a.Length0 && 0 <= j < a.Length1 :: m[i][j] == a[i, j]
  {
    seq(a.Length0, i requires 0 <= i < a.Length0 reads a =>
      seq(a.Length1, j requires 0 <= j < a.Length1 reads a => a[i, j]))
  }

  function SwapAt<T>(s: seq<T>, k: nat, p: nat): (t: seq<T>)
    requires k < |s| && p < |s|
    ensures |t| == |s|
    ensures forall i | 0 <= i < |s| :: t[i] == if i == k then s[p] else if i == p then s[k] else s[i]
  {
    s[k := s[p]][p := s[k]]
  }

  /** Two rectangular matrices with equal entries are equal. */
  lemma MatrixExt(a: Matrix, b: Matrix, rows: nat, cols: nat)
    requires Rect(a, rows, cols) && Rect(b, rows, cols)
    requires forall i, j | 0 <= i < rows && 0 <= j < cols :: a[i][j] == b[i][j]
    ensures a == b
  {
    forall i | 0 <= i < rows ensures a[i] == b[i] {}
  }

  function Transposed(m: Matrix, rows: nat, cols: nat): (t: Matrix)
    requires Rect(m, rows, cols)
    ensures Rect(t, cols, rows)
    ensures forall i, j | 0 <= i < rows && 0 <= j < cols :: t[j][i] == m[i][j]
  {
    seq(cols, j requires 0 <= j < cols => seq(rows, i requires 0 <= i < rows => m[i][j]))
  }

  /** The inner product of the first n entries. */
  function DotTo(u: Vec, w: Vec, n: nat): real
    requires n <= |u| && n <= |w|
  {
    if n == 0 then 0.0 else DotTo(u, w, n - 1) + u[n - 1] * w[n - 1]
  }

  /** The sum of the first n entries. */
  function SumTo(u: Vec, n: nat): real
    requires n <= |u|
  {
    if n == 0 then 0.0 else SumTo(u, n - 1) + u[n - 1]
  }

  function MatVec(m: Matrix, x: Vec, cols: nat): (y: Vec)
    requires Rect(m, |m|, cols) && cols <= |x|
    ensures |y| == |m|
  {
    seq(|m|, i requires 0 <= i < |m| => DotTo(m[i], x, cols))
  }

  lemma {:induction false} DotCong(u: Vec, w: Vec, u': Vec, w': Vec, n: nat)
    requires n <= |u| && n <= |w| && n <= |u'| && n <= |w'|
    requires forall k | 0 <= k < n :: u[k] * w[k] == u'[k] * w'[k]
    ensures DotTo(u, w, n) == DotTo(u', w', n)
  {
    if n > 0 {
      DotCong(u, w, u', w', n - 1);
    }
  }

  lemma {:induction false} DotZero(u: Vec, w: Vec, n: nat)
    requires n <= |u| && n <= |w|
    requires forall k | 0 <= k < n :: u[k] * w[k] == 0.0
    ensures DotTo(u, w, n) == 0.0
  {
    if n > 0 {
      DotZero(u, w, n - 1);
    }
  }

  lemma {:induction false} DotComm(u: Vec, w: Vec, n: nat)
    requires n <= |u| && n <= |w|
    ensures DotTo(u, w, n) == DotTo(w, u, n)
  {
    if n > 0 {
      DotComm(u, w, n - 1);
    }
  }

  lemma MulSubDistrib(a: real, f: real, b: real, w: real)
    ensures (a - f * b) * w == a * w - f * (b * w)
  {}

  lemma MulAssoc(a: real, b: real, c: real)
    ensures (a * b) * c == a * (b * c)
  {}

  /** t = u - f * v entrywise, so the products with w differ by the same combination. */
  lemma {:induction false} DotSubScaled(t: Vec, u: Vec, f: real, v: Vec, w: Vec, n: nat)
    requires n <= |t| && n <= |u| && n <= |v| && n <= |w|
    requires forall k | 0 <= k < n :: t[k] == u[k] - f * v[k]
    ensures DotTo(t, w, n) == DotTo(u, w, n) - f * DotTo(v, w, n)
  {
    if n > 0 {
      DotSubScaled(t, u, f, v, w, n - 1);
      MulSubDistrib(u[n - 1], f, v[n - 1], w[n - 1]);
      assert f * DotTo(v, w, n) == f * DotTo(v, w, n - 1) + f * (v[n - 1] * w[n - 1]);
    }
  }

  lemma MulAddDistrib(a: real, f: real, b: real, w: real)
    ensures (a + f * b) * w == a * w + f * (b * w)
  {}

  /** t = u + f * v entrywise. */
  lemma {:induction false} DotAddScaled(t: Vec, u: Vec, f: real, v: Vec, w: Vec, n: nat)
    requires n <= |t| && n <= |u| && n <= |v| && n <= |w|
    requires forall k | 0 <= k < n :: t[k] == u[k] + f * v[k]
    ensures DotTo(t, w, n) == DotTo(u, w, n) + f * DotTo(v, w, n)
  {
    if n > 0 {
      DotAddScaled(t, u, f, v, w, n - 1);
      MulAddDistrib(u[n - 1], f, v[n - 1], w[n - 1]);
      assert f * DotTo(v, w, n) == f * DotTo(v, w, n - 1) + f * (v[n - 1] * w[n - 1]);
    }
  }

  lemma {:induction false} DotAdd(t: Vec, u: Vec, v: Vec, w: Vec, n: nat)
    requires n <= |t| && n <= |u| && n <= |v| && n <= |w|
    requires forall k | 0 <= k < n :: t[k] == u[k] + v[k]
    ensures DotTo(t, w, n) == DotTo(u, w, n) + DotTo(v, w, n)
  {
    if n > 0 {
      DotAdd(t, u, v, w, n - 1);
      assert t[n - 1] * w[n - 1] == u[n - 1] * w[n - 1] + v[n - 1] * w[n - 1];
    }
  }

  lemma {:induction false} DotScaled(t: Vec, c: real, u: Vec, w: Vec, n: nat)
    requires n <= |t| && n <= |u| && n <= |w|
    requires forall k | 0 <= k < n :: t[k] == c * u[k]
    ensures DotTo(t, w, n) == c * DotTo(u, w, n)
  {
    if n > 0 {
      DotScaled(t, c, u, w, n - 1);
      MulAssoc(c, u[n - 1], w[n - 1]);
      assert c * DotTo(u, w, n) == c * DotTo(u, w, n - 1) + c * (u[n - 1] * w[n - 1]);
    }
  }

  /** One coordinate can be taken out of an inner product. */
  lemma {:induction false} DotExtract(u: Vec, w: Vec, k: nat, n: nat)
    requires k < n <= |u| && n <= |w|
    ensures DotTo(u, w, n) == u[k] * w[k] + DotTo(u, w[k := 0.0], n)
  {
    if k == n - 1 {
      DotCong(u, w, u, w[k := 0.0], n - 1);
    } else {
      DotExtract(u, w, k, n - 1);
    }
  }

  lemma {:induction false} DotNonneg(u: Vec, w: Vec, n: nat)
    requires n <= |u| && n <= |w|
    requires forall k | 0 <= k < n :: u[k] >= 0.0 && w[k] >= 0.0
    ensures DotTo(u, w, n) >= 0.0
  {
    if n > 0 {
      DotNonneg(u, w, n - 1);
    }
  }

  lemma WeightedAtMost(x: real, v: real, top: real)
    requires x >= 0.0 && v <= top
    ensures x * v <= top * x
  {
    assert x * (top - v) >= 0.0;
  }

  /** A weighted average never exceeds a common upper bound, weight by weight. */
  lemma {:induction false} DotUpper(x: Vec, v: Vec, top: real, n: nat)
    requires n <= |x| && n <= |v|
    requires forall k | 0 <= k < n :: x[k] >= 0.0 && v[k] <= top
    ensures DotTo(x, v, n) <= top * SumTo(x, n)
  {
    if n > 0 {
      DotUpper(x, v, top, n - 1);
      WeightedAtMost(x[n - 1], v[n - 1], top);
      assert top * SumTo(x, n) == top * SumTo(x, n - 1) + top * x[n - 1];
    }
  }

  /** When every weighted entry attains the bound, so does the average. */
  lemma {:induction false} DotTight(x: Vec, v: Vec, top: real, n: nat)
    requires n <= |x| && n <= |v|
    requires forall k | 0 <= k < n :: x[k] == 0.0 || v[k] == top
    ensures DotTo(x, v, n) == top * SumTo(x, n)
  {
    if n > 0 {
      DotTight(x, v, top, n - 1);
      assert x[n - 1] * v[n - 1] == x[n - 1] * top;
      assert top * SumTo(x, n) == top * SumTo(x, n - 1) + top * x[n - 1];
    }
  }

  /** Adding a constant to every entry adds that constant times the total weight. */
  lemma {:induction false} DotShift(v: Vec, v': Vec, shift: real, x: Vec, n: nat)
    requires n <= |x| && n <= |v| && n <= |v'|
    requires forall k | 0 <= k < n :: v'[k] == v[k] + shift
    ensures DotTo(v', x, n) == DotTo(v, x, n) + shift * SumTo(x, n)
  {
    if n > 0 {
      DotShift(v, v', shift, x, n - 1);
      assert v'[n - 1] * x[n - 1] == v[n - 1] * x[n - 1] + shift * x[n - 1];
      assert shift * SumTo(x, n) == shift * SumTo(x, n - 1) + shift * x[n - 1];
    }
  }

  lemma {:induction false} SumScaled(t: Vec, c: real, u: Vec, n: nat)
    requires n <= |t| && n <= |u|
    requires forall k | 0 <= k < n :: t[k] == c * u[k]
    ensures SumTo(t, n) == c * SumTo(u, n)
  {
    if n > 0 {
      SumScaled(t, c, u, n - 1);
      assert c * SumTo(u, n) == c * SumTo(u, n - 1) + c * u[n - 1];
    }
  }

  lemma {:induction false} SumCong(u: Vec, u': Vec, n: nat)
    requires n <= |u| && n <= |u'|
    requires forall k | 0 <= k < n :: u[k] == u'[k]
    ensures SumTo(u, n) == SumTo(u', n)
  {
    if n > 0 {
      SumCong(u, u', n - 1);
    }
  }

  /** A sum of nonnegative entries dominates each of them. */
  lemma {:induction false} SumDominates(u: Vec, n: nat, k: nat)
    requires k < n <= |u|
    requires forall i | 0 <= i < n :: u[i] >= 0.0
    ensures SumTo(u, n) >= u[k] >= 0.0
  {
    if k == n - 1 {
      SumNonneg(u, n - 1);
    } else {
      SumDominates(u, n - 1, k);
    }
  }

  lemma {:induction false} SumNonneg(u: Vec, n: nat)
    requires n <= |u|
    requires forall i | 0 <= i < n :: u[i] >= 0.0
    ensures SumTo(u, n) >= 0.0
  {
    if n > 0 {
      SumNonneg(u, n - 1);
    }
  }

  /** An inner product of nonnegative factors dominates each of its terms. */
  lemma DotDominates(u: Vec, w: Vec, n: nat, k: nat)
    requires k < n <= |u| && n <= |w|
    requires forall i | 0 <= i < n :: u[i] >= 0.0 && w[i] >= 0.0
    ensures DotTo(u, w, n) >= u[k] * w[k]
  {
    DotExtract(u, w, k, n);
    DotNonneg(u, w[k := 0.0], n);
  }
}
