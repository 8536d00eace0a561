/** Determinants by expansion along the first column, and what row operations do to them. */
module Determinants {
  import opened Vectors

  function Drop(M: Matrix, i: nat): (D: Matrix)
    requires i < |M|
    ensures |D| == |M| - 1
  {
    M[..i] + M[i + 1..]
  }

  function Alternate(i: nat): real { if i % 2 == 0 then 1.0 else -1.0 }

  /** The determinant of the square part of M that begins at column c. */
  function Det(M: Matrix, c: nat): real
    requires Rect(M, |M|, c + |M|)
    decreases |M|, |M| + 2
  {
    if M == [] then 1.0 else ExpandTo(M, c, |M|)
  }

  /** What row i contributes to the expansion along column c. */
  function Term(M: Matrix, c: nat, i: nat): real
    requires Rect(M, |M|, c + |M|) && i < |M|
    decreases |M|, 0
  {
    Alternate(i) * M[i][c] * Det(Drop(M, i), c + 1)
  }

  /** The first k terms of the expansion along column c. */
  function ExpandTo(M: Matrix, c: nat, k: nat): real
    requires Rect(M, |M|, c + |M|) && k <= |M|
    decreases |M|, k + 1
  {
    if k == 0 then 0.0 else ExpandTo(M, c, k - 1) + Term(M, c, k - 1)
  }

  /** Where row r stands once row i has been dropped. */
  function Moved(r: nat, i: nat): nat
    requires r != i
  {
    if r < i then r else r - 1
  }

  lemma DropOther(M: Matrix, r: nat, row: Vec, i: nat)
    requires r < |M| && i < |M| && i != r
    ensures Drop(M[r := row], i) == Drop(M, i)[Moved(r, i) := row]
  {}

  lemma DropSame(M: Matrix, r: nat, row: Vec)
    requires r < |M|
    ensures Drop(M[r := row], r) == Drop(M, r)
  {}

  // ---- Linearity in each row ----

  ghost predicate IsSum(t: Vec, u: Vec, f: real, v: Vec) {
    |t| == |u| == |v| && forall j | 0 <= j < |t| :: t[j] == u[j] + f * v[j]
  }

  lemma TermSum(s: real, a: real, f: real, b: real, d: real)
    ensures s * (a + f * b) * d == s * a * d + f * (s * b * d)
  {}

  lemma TermSplit(s: real, x: real, d: real, f: real, e: real)
    ensures s * x * (d + f * e) == s * x * d + f * (s * x * e)
  {}

  lemma {:induction false} LinearTerm(T: Matrix, U: Matrix, f: real, V: Matrix, c: nat, r: nat, i: nat)
    requires SumInRow(T, U, f, V, c, r) && i < |T|
    ensures Term(T, c, i) == Term(U, c, i) + f * Term(V, c, i)
    decreases |T|, 0
  {
    var t, u, v := T[r], U[r], V[r];
    assert T[r := t] == T;
    if i == r {
      DropSame(T, r, u);
      DropSame(T, r, v);
      TermSum(Alternate(i), u[c], f, v[c], Det(Drop(T, i), c + 1));
    } else {
      DropOther(T, r, t, i);
      DropOther(T, r, u, i);
      DropOther(T, r, v, i);
      var D, q := Drop(T, i), Moved(r, i);
      Linear(D, c + 1, q, t, u, f, v);
      TermSplit(Alternate(i), T[i][c], Det(D[q := u], c + 1), f, Det(D[q := v], c + 1));
    }
  }

  lemma SumsAdd(a: real, b: real, c: real, x: real, y: real, z: real, f: real)
    requires a == b + f * c && x == y + f * z
    ensures a + x == b + y + f * (c + z)
  {}

  /** The matrices T, U and V differ in row r, where T is the sum of U and f times V. */
  ghost predicate SumInRow(T: Matrix, U: Matrix, f: real, V: Matrix, c: nat, r: nat) {
    && r < |T| && |T| == |U| == |V| && Rect(T, |T|, c + |T|) && Rect(U, |U|, c + |U|) && Rect(V, |V|, c + |V|)
    && IsSum(T[r], U[r], f, V[r]) && U == T[r := U[r]] && V == T[r := V[r]]
  }

  ghost predicate TermsAdd(T: Matrix, U: Matrix, f: real, V: Matrix, c: nat, i: nat)
    requires Rect(T, |T|, c + |T|) && Rect(U, |T|, c + |T|) && Rect(V, |T|, c + |T|) && i < |T|
  {
    Term(T, c, i) == Term(U, c, i) + f * Term(V, c, i)
  }

  lemma {:induction false} LinearTo(T: Matrix, U: Matrix, f: real, V: Matrix, c: nat, k: nat)
    requires Rect(T, |T|, c + |T|) && Rect(U, |T|, c + |T|) && Rect(V, |T|, c + |T|) && k <= |T|
    requires forall i | 0 <= i < |T| :: TermsAdd(T, U, f, V, c, i)
    ensures ExpandTo(T, c, k) == ExpandTo(U, c, k) + f * ExpandTo(V, c, k)
  {
    if k > 0 {
      var i := k - 1;
      LinearTo(T, U, f, V, c, i);
      assert TermsAdd(T, U, f, V, c, i);
      SumsAdd(ExpandTo(T, c, i), ExpandTo(U, c, i), ExpandTo(V, c, i), Term(T, c, i), Term(U, c, i), Term(V, c, i), f);
    }
  }

  /** The determinant is linear in row r. */
  lemma {:induction false} Linear(M: Matrix, c: nat, r: nat, t: Vec, u: Vec, f: real, v: Vec)
    requires Rect(M, |M|, c + |M|) && r < |M| && |t| == c + |M| && IsSum(t, u, f, v)
    ensures Det(M[r := t], c) == Det(M[r := u], c) + f * Det(M[r := v], c)
    decreases |M|, |M| + 2
  {
    var T, U, V := M[r := t], M[r := u], M[r := v];
    forall i | 0 <= i < |T| ensures TermsAdd(T, U, f, V, c, i) {
      LinearTerm(T, U, f, V, c, r, i);
    }
    LinearTo(T, U, f, V, c, |T|);
  }

  /** Scaling a row scales the determinant. */
  lemma Scaled(M: Matrix, c: nat, r: nat, t: Vec, f: real)
    requires Rect(M, |M|, c + |M|) && r < |M| && |t| == c + |M| && forall j | 0 <= j < |t| :: t[j] == f * M[r][j]
    ensures Det(M[r := t], c) == f * Det(M, c)
  {
    assert M[r := M[r]] == M;
    assert IsSum(t, M[r], f - 1.0, M[r]);
    Linear(M, c, r, t, M[r], f - 1.0, M[r]);
  }

  // ---- Equal rows ----

  /** Two equal neighbouring rows make the determinant zero: their terms cancel, all others vanish. */
  lemma {:induction false} NeighboursEqual(M: Matrix, c: nat, r: nat)
    requires Rect(M, |M|, c + |M|) && r + 1 < |M| && M[r] == M[r + 1]
    ensures Det(M, c) == 0.0
    decreases |M|, |M| + 2
  {
    NeighboursTo(M, c, r, |M|);
  }

  lemma {:induction false} NeighboursTo(M: Matrix, c: nat, r: nat, k: nat)
    requires Rect(M, |M|, c + |M|) && r + 1 < |M| && M[r] == M[r + 1] && k <= |M|
    ensures ExpandTo(M, c, k) == if k == r + 1 then Term(M, c, r) else 0.0
    decreases |M|, k + 1
  {
    if k > 0 {
      var i := k - 1;
      NeighboursTo(M, c, r, i);
      if i == r + 1 {
        NeighbourTerms(M, c, r);
      } else if i != r {
        ElsewhereZero(M, c, r, i);
      }
    }
  }

  lemma NeighbourTerms(M: Matrix, c: nat, r: nat)
    requires Rect(M, |M|, c + |M|) && r + 1 < |M| && M[r] == M[r + 1]
    ensures Term(M, c, r + 1) == -Term(M, c, r)
  {
    assert Drop(M, r + 1) == Drop(M, r);
    assert Alternate(r + 1) == -Alternate(r);
    NegatedTerm(Alternate(r), M[r][c], Det(Drop(M, r), c + 1));
  }

  lemma NegatedTerm(s: real, x: real, d: real)
    ensures (-s) * x * d == -(s * x * d)
  {}

  lemma {:induction false} ElsewhereZero(M: Matrix, c: nat, r: nat, i: nat)
    requires Rect(M, |M|, c + |M|) && r + 1 < |M| && M[r] == M[r + 1] && i < |M| && i != r && i != r + 1
    ensures Term(M, c, i) == 0.0
    decreases |M|, 0
  {
    var D, q := Drop(M, i), if i < r then r - 1 else r;
    assert D[q] == M[r] && D[q + 1] == M[r + 1];
    NeighboursEqual(D, c + 1, q);
  }

  /** Rows r and s set to x and y. */
  function Set2(M: Matrix, r: nat, x: Vec, s: nat, y: Vec): (S: Matrix)
    requires r < |M| && s < |M|
    ensures |S| == |M|
  {
    M[r := x][s := y]
  }

  function Plus(a: Vec, b: Vec): (t: Vec)
    requires |a| == |b|
    ensures |t| == |a|
  {
    seq(|a|, j requires 0 <= j < |a| => a[j] + b[j])
  }

  /** The determinant as a bilinear form of two of its rows. */
  lemma Bilinear(M: Matrix, c: nat, r: nat, s: nat, a: Vec, b: Vec)
    requires Rect(M, |M|, c + |M|) && r < |M| && s < |M| && r != s && |a| == |b| == c + |M|
    ensures Det(Set2(M, r, Plus(a, b), s, Plus(a, b)), c) ==
            Det(Set2(M, r, a, s, a), c) + Det(Set2(M, r, a, s, b), c)
            + Det(Set2(M, r, b, s, a), c) + Det(Set2(M, r, b, s, b), c)
  {
    var t := Plus(a, b);
    LinearSecond(M, c, r, t, s, a, b);
    LinearFirst(M, c, r, a, b, s, a);
    LinearFirst(M, c, r, a, b, s, b);
  }

  lemma LinearSecond(M: Matrix, c: nat, r: nat, x: Vec, s: nat, a: Vec, b: Vec)
    requires Rect(M, |M|, c + |M|) && r < |M| && s < |M| && r != s && |x| == |a| == |b| == c + |M|
    ensures Det(Set2(M, r, x, s, Plus(a, b)), c) == Det(Set2(M, r, x, s, a), c) + Det(Set2(M, r, x, s, b), c)
  {
    assert IsSum(Plus(a, b), a, 1.0, b);
    Linear(M[r := x], c, s, Plus(a, b), a, 1.0, b);
  }

  lemma LinearFirst(M: Matrix, c: nat, r: nat, a: Vec, b: Vec, s: nat, y: Vec)
    requires Rect(M, |M|, c + |M|) && r < |M| && s < |M| && r != s && |y| == |a| == |b| == c + |M|
    ensures Det(Set2(M, r, Plus(a, b), s, y), c) == Det(Set2(M, r, a, s, y), c) + Det(Set2(M, r, b, s, y), c)
  {
    LinearSecond(M, c, s, y, r, a, b);
    assert forall x: Vec :: Set2(M, r, x, s, y) == Set2(M, s, y, r, x);
  }

  lemma NeighbourSwap(M: Matrix, c: nat, r: nat)
    requires Rect(M, |M|, c + |M|) && r + 1 < |M|
    ensures Det(SwapAt(M, r, r + 1), c) == -Det(M, c)
  {
    var s, a, b := r + 1, M[r], M[r + 1];
    var t := Plus(a, b);
    Bilinear(M, c, r, s, a, b);
    NeighboursEqual(Set2(M, r, t, s, t), c, r);
    NeighboursEqual(Set2(M, r, a, s, a), c, r);
    NeighboursEqual(Set2(M, r, b, s, b), c, r);
    assert Set2(M, r, a, s, b) == M && Set2(M, r, b, s, a) == SwapAt(M, r, s);
  }

  /** Any two equal rows make the determinant zero. */
  lemma {:induction false} RowsEqual(M: Matrix, c: nat, r: nat, s: nat)
    requires Rect(M, |M|, c + |M|) && r < s < |M| && M[r] == M[s]
    ensures Det(M, c) == 0.0
    decreases s
  {
    if s == r + 1 {
      NeighboursEqual(M, c, r);
    } else {
      NeighbourSwap(M, c, s - 1);
      RowsEqual(SwapAt(M, s - 1, s), c, r, s - 1);
    }
  }

  lemma SomeRowsEqual(M: Matrix, c: nat, r: nat, s: nat)
    requires Rect(M, |M|, c + |M|) && r < |M| && s < |M| && r != s && M[r] == M[s]
    ensures Det(M, c) == 0.0
  {
    if r < s {
      RowsEqual(M, c, r, s);
    } else {
      RowsEqual(M, c, s, r);
    }
  }

  /** Exchanging two rows changes the sign. */
  lemma SwapFlips(M: Matrix, c: nat, r: nat, s: nat)
    requires Rect(M, |M|, c + |M|) && r < |M| && s < |M| && r != s
    ensures Det(SwapAt(M, r, s), c) == -Det(M, c)
  {
    var a, b := M[r], M[s];
    var t := Plus(a, b);
    Bilinear(M, c, r, s, a, b);
    SomeRowsEqual(Set2(M, r, t, s, t), c, r, s);
    SomeRowsEqual(Set2(M, r, a, s, a), c, r, s);
    SomeRowsEqual(Set2(M, r, b, s, b), c, r, s);
    assert Set2(M, r, a, s, b) == M && Set2(M, r, b, s, a) == SwapAt(M, r, s);
  }

  /** Adding a multiple of another row changes nothing. */
  lemma RowAdded(M: Matrix, c: nat, i: nat, r: nat, t: Vec, f: real)
    requires Rect(M, |M|, c + |M|) && i < |M| && r < |M| && i != r && |t| == c + |M| && IsSum(t, M[i], f, M[r])
    ensures Det(M[i := t], c) == Det(M, c)
  {
    Linear(M, c, i, t, M[i], f, M[r]);
    assert M[i := M[i]] == M;
    SomeRowsEqual(M[i := M[r]], c, i, r);
  }

  // ---- Pivoting ----

  /** S is M with row r scaled by p and then a multiple of it added to every other row. */
  ghost predicate RowSteps(M: Matrix, S: Matrix, r: nat, p: real, f: Vec) {
    && |S| == |M| == |f| && r < |M| && |S[r]| == |M[r]|
    && (forall j | 0 <= j < |M[r]| :: S[r][j] == p * M[r][j])
    && (forall i | 0 <= i < |M| && i != r :: IsSum(S[i], M[i], f[i], S[r]))
  }

  /** The first k rows, and row r, taken from S. */
  function Mixed(M: Matrix, S: Matrix, r: nat, k: nat): (X: Matrix)
    requires |S| == |M| && r < |M| && k <= |M|
    ensures |X| == |M| && forall i | 0 <= i < |M| :: X[i] == if i < k || i == r then S[i] else M[i]
  {
    seq(|M|, i requires 0 <= i < |M| => if i < k || i == r then S[i] else M[i])
  }

  lemma {:induction false} MixedDet(M: Matrix, S: Matrix, c: nat, r: nat, p: real, f: Vec, k: nat)
    requires Rect(M, |M|, c + |M|) && Rect(S, |S|, c + |M|) && RowSteps(M, S, r, p, f) && k <= |M|
    ensures Det(Mixed(M, S, r, k), c) == p * Det(M, c)
  {
    if k == 0 {
      assert Mixed(M, S, r, 0) == M[r := S[r]];
      Scaled(M, c, r, S[r], p);
    } else {
      var X, i := Mixed(M, S, r, k - 1), k - 1;
      MixedDet(M, S, c, r, p, f, k - 1);
      assert Mixed(M, S, r, k) == X[i := S[i]];
      if i == r {
        assert X[i := S[i]] == X;
      } else {
        assert X[i] == M[i] && X[r] == S[r];
        RowAdded(X, c, i, r, S[i], f[i]);
      }
    }
  }

  /** Scaling a row and clearing with it scales the determinant. */
  lemma RowStepsDet(M: Matrix, S: Matrix, c: nat, r: nat, p: real, f: Vec)
    requires Rect(M, |M|, c + |M|) && Rect(S, |S|, c + |M|) && RowSteps(M, S, r, p, f)
    ensures Det(S, c) == p * Det(M, c)
  {
    MixedDet(M, S, c, r, p, f, |M|);
    assert Mixed(M, S, r, |M|) == S;
  }

  // ---- Triangular matrices ----

  /** An entry of the square part that begins at column c. */
  function At(M: Matrix, c: nat, i: nat, j: nat): real
    requires i < |M| && c + j < |M[i]|
  {
    M[i][c + j]
  }

  /** The first k columns from c on are zero below the diagonal. */
  ghost predicate UpperTo(M: Matrix, c: nat, k: nat)
    requires Rect(M, |M|, c + |M|) && k <= |M|
  {
    forall i, j | 0 <= j < k && j < i < |M| :: At(M, c, i, j) == 0.0
  }

  /** The product of the diagonal that begins at column c. */
  function DiagonalProduct(M: Matrix, c: nat): real
    requires Rect(M, |M|, c + |M|)
  {
    if M == [] then 1.0 else M[0][c] * DiagonalProduct(M[1..], c + 1)
  }

  lemma {:induction false} FirstTermOnly(M: Matrix, c: nat, k: nat)
    requires Rect(M, |M|, c + |M|) && 1 <= k <= |M| && forall i | 0 < i < |M| :: M[i][c] == 0.0
    ensures ExpandTo(M, c, k) == M[0][c] * Det(M[1..], c + 1)
  {
    if k == 1 {
      assert Drop(M, 0) == M[1..];
      assert ExpandTo(M, c, 1) == ExpandTo(M, c, 0) + Term(M, c, 0);
    } else {
      FirstTermOnly(M, c, k - 1);
      ZeroFactor(Alternate(k - 1), Det(Drop(M, k - 1), c + 1));
    }
  }

  lemma ZeroFactor(s: real, d: real)
    ensures s * 0.0 * d == 0.0
  {}

  /** The determinant of an upper triangular matrix is the product of its diagonal. */
  lemma {:induction false} UpperDet(M: Matrix, c: nat)
    requires Rect(M, |M|, c + |M|) && UpperTo(M, c, |M|)
    ensures Det(M, c) == DiagonalProduct(M, c)
  {
    if M != [] {
      forall i | 0 < i < |M| ensures M[i][c] == 0.0 {
        assert At(M, c, i, 0) == 0.0;
      }
      FirstTermOnly(M, c, |M|);
      var rest, d := M[1..], c + 1;
      forall i, j | 0 <= j < |rest| && j < i < |rest| ensures At(rest, d, i, j) == 0.0 {
        assert At(M, c, i + 1, j + 1) == 0.0;
      }
      UpperDet(rest, c + 1);
    }
  }

  /** A triangular part followed by a column of zeros makes the determinant zero. */
  lemma {:induction false} ZeroColumnDet(M: Matrix, c: nat, k: nat)
    requires Rect(M, |M|, c + |M|) && k < |M| && UpperTo(M, c, k) && forall i | k <= i < |M| :: At(M, c, i, k) == 0.0
    ensures Det(M, c) == 0.0
  {
    forall i | 0 < i < |M| ensures M[i][c] == 0.0 {
      assert At(M, c, i, 0) == 0.0;
    }
    FirstTermOnly(M, c, |M|);
    if k == 0 {
      assert At(M, c, 0, 0) == 0.0;
    } else {
      var rest, d := M[1..], c + 1;
      forall i, j | 0 <= j < k - 1 && j < i < |rest| ensures At(rest, d, i, j) == 0.0 {
        assert At(M, c, i + 1, j + 1) == 0.0;
      }
      var q := k - 1;
      forall i | q <= i < |rest| ensures At(rest, d, i, q) == 0.0 {
        assert At(M, c, i + 1, k) == 0.0;
      }
      ZeroColumnDet(rest, c + 1, k - 1);
    }
  }

  lemma {:induction false} DiagonalZero(M: Matrix, c: nat)
    requires Rect(M, |M|, c + |M|)
    ensures DiagonalProduct(M, c) == 0.0 <==> exists i :: 0 <= i < |M| && At(M, c, i, i) == 0.0
  {
    if M != [] {
      var rest, d := M[1..], c + 1;
      DiagonalZero(rest, c + 1);
      if i :| 0 <= i < |M| && At(M, c, i, i) == 0.0 {
        assert i > 0 ==> At(rest, d, i - 1, i - 1) == 0.0;
      }
      if i :| 0 <= i < |rest| && At(rest, d, i, i) == 0.0 {
        assert At(M, c, i + 1, i + 1) == 0.0;
      }
      assert M[0][c] == 0.0 ==> At(M, c, 0, 0) == 0.0;
      ProductZero(M[0][c], DiagonalProduct(rest, c + 1));
    }
  }

  lemma ProductZero(a: real, b: real)
    ensures a * b == 0.0 <==> a == 0.0 || b == 0.0
  {}

  // ---- Permutation matrices ----

  function UnitRow(v: nat, n: nat): (u: Vec)
    ensures |u| == n && forall j | 0 <= j < n :: u[j] == if j == v then 1.0 else 0.0
  {
    seq(n, j => if j == v then 1.0 else 0.0)
  }

  /** Row k has its one in column order[k]. */
  function UnitRows(order: seq<nat>): (M: Matrix)
    ensures Rect(M, |order|, |order|) && forall k | 0 <= k < |order| :: M[k] == UnitRow(order[k], |order|)
  {
    seq(|order|, k requires 0 <= k < |order| => UnitRow(order[k], |order|))
  }

  ghost predicate IdentityFrom(M: Matrix, c: nat) {
    forall i | 0 <= i < |M| :: M[i] == UnitRow(c + i, c + |M|)
  }

  lemma {:induction false} IdentityDet(M: Matrix, c: nat)
    requires Rect(M, |M|, c + |M|) && IdentityFrom(M, c)
    ensures Det(M, c) == 1.0
    decreases |M|, |M| + 2
  {
    IdentityTo(M, c, |M|);
  }

  lemma {:induction false} IdentityTo(M: Matrix, c: nat, k: nat)
    requires Rect(M, |M|, c + |M|) && IdentityFrom(M, c) && k <= |M|
    ensures ExpandTo(M, c, k) == if k == 0 then 0.0 else 1.0
    decreases |M|, k + 1
  {
    if k > 0 {
      var i := k - 1;
      IdentityTo(M, c, i);
      assert M[i][c] == if i == 0 then 1.0 else 0.0;
      if i == 0 {
        var D := Drop(M, 0);
        assert forall j | 0 <= j < |D| :: D[j] == M[j + 1];
        IdentityDet(D, c + 1);
      }
    }
  }

  lemma SwappedUnitRows(order: seq<nat>, r: nat, s: nat)
    requires r < |order| && s < |order| && r != s
    ensures Det(UnitRows(SwapAt(order, r, s)), 0) == -Det(UnitRows(order), 0)
  {
    SwapFlips(UnitRows(order), 0, r, s);
    assert UnitRows(SwapAt(order, r, s)) == SwapAt(UnitRows(order), r, s);
  }
}
