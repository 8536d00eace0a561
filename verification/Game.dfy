/** Bimatrix games, mixed strategies and equilibrium, with the shift that makes every payoff positive. */
module Games {
  import opened Vectors
  import opened Options

  predicate IsDistribution(x: Vec, n: nat) {
    |x| == n && (forall i | 0 <= i < n :: x[i] >= 0.0) && SumTo(x, n) == 1.0
  }

  /** The payoff x^T M y. */
  function Payoff(M: Matrix, x: Vec, y: Vec): real
    requires |x| == |M| && Rect(M, |M|, |y|)
  {
    DotTo(x, MatVec(M, y, |y|), |M|)
  }

  /** Neither player gains by moving to any other mixed strategy. */
  ghost predicate IsNash(A: Matrix, B: Matrix, m: nat, n: nat, x: Vec, y: Vec)
    requires Rect(A, m, n) && Rect(B, m, n)
  {
    && IsDistribution(x, m) && IsDistribution(y, n)
    && (forall x': Vec | IsDistribution(x', m) :: Payoff(A, x', y) <= Payoff(A, x, y))
    && (forall y': Vec | IsDistribution(y', n) ::
          Payoff(Transposed(B, m, n), y', x) <= Payoff(Transposed(B, m, n), y, x))
  }

  /** No pure strategy does better against the opponent than the strategy played. */
  ghost predicate NoPureGain(M: Matrix, own: Vec, other: Vec)
    requires |own| == |M| && Rect(M, |M|, |other|)
  {
    forall i | 0 <= i < |M| :: MatVec(M, other, |other|)[i] <= Payoff(M, own, other)
  }

  function Unit(n: nat, k: nat): (u: Vec)
    ensures |u| == n
  {
    seq(n, i requires 0 <= i < n => if i == k then 1.0 else 0.0)
  }

  lemma {:induction false} UnitSums(n: nat, k: nat, v: Vec, t: nat)
    requires k < n == |v| && t <= n
    ensures SumTo(Unit(n, k), t) == if k < t then 1.0 else 0.0
    ensures DotTo(Unit(n, k), v, t) == if k < t then v[k] else 0.0
  {
    if t > 0 {
      UnitSums(n, k, v, t - 1);
    }
  }

  /** Against a fixed opponent, beating every pure strategy is the same as beating every mixed one. */
  lemma PureDeviationsSuffice(M: Matrix, own: Vec, other: Vec)
    requires |own| == |M| && Rect(M, |M|, |other|)
    ensures NoPureGain(M, own, other) <==>
            forall own': Vec | IsDistribution(own', |M|) :: Payoff(M, own', other) <= Payoff(M, own, other)
  {
    var v := MatVec(M, other, |other|);
    if NoPureGain(M, own, other) {
      forall own': Vec | IsDistribution(own', |M|) ensures Payoff(M, own', other) <= Payoff(M, own, other) {
        DotUpper(own', v, Payoff(M, own, other), |M|);
      }
    }
    if forall own': Vec | IsDistribution(own', |M|) :: Payoff(M, own', other) <= Payoff(M, own, other) {
      forall i | 0 <= i < |M| ensures v[i] <= Payoff(M, own, other) {
        UnitSums(|M|, i, v, |M|);
        assert IsDistribution(Unit(|M|, i), |M|);
        assert Payoff(M, Unit(|M|, i), other) == v[i];
      }
    }
  }

  lemma NashByPureDeviations(A: Matrix, B: Matrix, m: nat, n: nat, x: Vec, y: Vec)
    requires Rect(A, m, n) && Rect(B, m, n) && IsDistribution(x, m) && IsDistribution(y, n)
    ensures IsNash(A, B, m, n, x, y) <==> NoPureGain(A, x, y) && NoPureGain(Transposed(B, m, n), y, x)
  {
    PureDeviationsSuffice(A, x, y);
    PureDeviationsSuffice(Transposed(B, m, n), y, x);
  }

  ghost predicate IsShift(M: Matrix, M': Matrix, m: nat, n: nat, shift: real) {
    && Rect(M, m, n) && Rect(M', m, n)
    && forall i, j | 0 <= i < m && 0 <= j < n :: M'[i][j] == M[i][j] + shift
  }

  /** Shifting all payoffs raises every payoff against a distribution by exactly the shift. */
  lemma ShiftedPayoffs(M: Matrix, M': Matrix, m: nat, n: nat, shift: real, own: Vec, other: Vec)
    requires IsShift(M, M', m, n, shift) && IsDistribution(own, m) && IsDistribution(other, n)
    ensures NoPureGain(M, own, other) <==> NoPureGain(M', own, other)
    ensures Payoff(M', own, other) == Payoff(M, own, other) + shift
  {
    var v, v' := MatVec(M, other, n), MatVec(M', other, n);
    forall i | 0 <= i < m ensures v'[i] == v[i] + shift {
      DotShift(M[i], M'[i], shift, other, n);
    }
    DotComm(own, v, m);
    DotComm(own, v', m);
    DotShift(v, v', shift, own, m);
  }

  /** A game and its shifted copy have the same equilibria. */
  lemma ShiftKeepsNash(A: Matrix, B: Matrix, A': Matrix, B': Matrix, m: nat, n: nat, shift: real, x: Vec, y: Vec)
    requires IsShift(A, A', m, n, shift) && IsShift(B, B', m, n, shift)
    ensures IsNash(A, B, m, n, x, y) <==> IsNash(A', B', m, n, x, y)
  {
    if IsDistribution(x, m) && IsDistribution(y, n) {
      ShiftedPayoffs(A, A', m, n, shift, x, y);
      ShiftedPayoffs(Transposed(B, m, n), Transposed(B', m, n), n, m, shift, y, x);
      NashByPureDeviations(A, B, m, n, x, y);
      NashByPureDeviations(A', B', m, n, x, y);
    }
  }

  ghost predicate Positive(M: Matrix, m: nat, n: nat)
    requires Rect(M, m, n)
  {
    forall i, j | 0 <= i < m && 0 <= j < n :: M[i][j] > 0.0
  }

  /** No shift when all payoffs are positive already; otherwise the shift that makes the least payoff exactly one. */
  ghost predicate IsPositiveShift(A: Matrix, B: Matrix, A': Matrix, B': Matrix, m: nat, n: nat, shift: real) {
    && IsShift(A, A', m, n, shift) && IsShift(B, B', m, n, shift)
    && Positive(A', m, n) && Positive(B', m, n)
    && (if Positive(A, m, n) && Positive(B, m, n) then shift == 0.0
        else
          && (forall i, j | 0 <= i < m && 0 <= j < n :: A'[i][j] >= 1.0 && B'[i][j] >= 1.0)
          && (exists i, j :: 0 <= i < m && 0 <= j < n && (A'[i][j] == 1.0 || B'[i][j] == 1.0)))
  }

  lemma PositiveShiftBy(A: Matrix, B: Matrix, A': Matrix, B': Matrix, m: nat, n: nat, minA: real, minB: real,
                        shift: real)
    requires IsShift(A, A', m, n, shift) && IsShift(B, B', m, n, shift)
    requires forall i, j | 0 <= i < m && 0 <= j < n :: minA <= A[i][j] && minB <= B[i][j]
    requires exists i, j :: 0 <= i < m && 0 <= j < n && A[i][j] == minA
    requires exists i, j :: 0 <= i < m && 0 <= j < n && B[i][j] == minB
    requires var low := if minB < minA then minB else minA; shift == if low <= 0.0 then -low + 1.0 else 0.0
    ensures IsPositiveShift(A, B, A', B', m, n, shift)
  {
    var i, j :| 0 <= i < m && 0 <= j < n && A[i][j] == minA;
    var k, l :| 0 <= k < m && 0 <= l < n && B[k][l] == minB;
    assert A'[i][j] == minA + shift && B'[k][l] == minB + shift;
  }

  /** There is only one positive shift of a game. */
  lemma PositiveShiftOneWay(A: Matrix, B: Matrix, A1: Matrix, B1: Matrix, s1: real, A2: Matrix, B2: Matrix, s2: real,
                            m: nat, n: nat)
    requires IsPositiveShift(A, B, A1, B1, m, n, s1) && IsPositiveShift(A, B, A2, B2, m, n, s2)
    ensures A1 == A2 && B1 == B2
  {
    ShiftNotBelow(A, B, A1, B1, s1, A2, B2, s2, m, n);
    ShiftNotBelow(A, B, A2, B2, s2, A1, B1, s1, m, n);
    MatrixExt(A1, A2, m, n);
    MatrixExt(B1, B2, m, n);
  }

  lemma ShiftNotBelow(A: Matrix, B: Matrix, A1: Matrix, B1: Matrix, s1: real, A2: Matrix, B2: Matrix, s2: real, m: nat,
                      n: nat)
    requires IsPositiveShift(A, B, A1, B1, m, n, s1) && IsPositiveShift(A, B, A2, B2, m, n, s2)
    ensures s1 <= s2
  {
    if !(Positive(A, m, n) && Positive(B, m, n)) {
      var i, j :| 0 <= i < m && 0 <= j < n && (A1[i][j] == 1.0 || B1[i][j] == 1.0);
      assert A1[i][j] == A[i][j] + s1 && A2[i][j] == A[i][j] + s2;
      assert B1[i][j] == B[i][j] + s1 && B2[i][j] == B[i][j] + s2;
    }
  }

  class BimatrixGame {
    const rows: nat
    const cols: nat
    const payoff1: array2<real>
    const payoff2: array2<real>

    ghost predicate Valid() {
      && rows > 0 && cols > 0 && payoff1 != payoff2
      && payoff1.Length0 == payoff2.Length0 == rows && payoff1.Length1 == payoff2.Length1 == cols
    }

    ghost function A(): (a: Matrix)
      requires Valid()
      reads payoff1
      ensures Rect(a, rows, cols)
    {
      Rows(payoff1)
    }

    ghost function B(): (b: Matrix)
      requires Valid()
      reads payoff2
      ensures Rect(b, rows, cols)
    {
      Rows(payoff2)
    }

    constructor (a: array2<real>, b: array2<real>)
      requires a.Length0 == b.Length0 > 0 && a.Length1 == b.Length1 > 0
      ensures Valid() && fresh(payoff1) && fresh(payoff2)
      ensures rows == a.Length0 && cols == a.Length1 && A() == Rows(a) && B() == Rows(b)
    {
      rows, cols := a.Length0, a.Length1;
      payoff1 := new real[a.Length0, a.Length1](
                          (i, j) requires 0 <= i < a.Length0 && 0 <= j < a.Length1 reads a => a[i, j]);
      payoff2 := new real[a.Length0, a.Length1](
                          (i, j) requires 0 <= i < a.Length0 && 0 <= j < a.Length1 reads b => b[i, j]);
      new;
      MatrixExt(A(), Rows(a), rows, cols);
      MatrixExt(B(), Rows(b), rows, cols);
    }

    /** Mismatched or empty payoff matrices make no game. */
    static method Create(a: array2<real>, b: array2<real>) returns (g: Option<BimatrixGame>)
      ensures g.Some? <==> a.Length0 == b.Length0 > 0 && a.Length1 == b.Length1 > 0
      ensures g.Some? ==> fresh(g.value) && g.value.Valid() && g.value.A() == Rows(a) && g.value.B() == Rows(b)
    {
      if a.Length0 != b.Length0 || a.Length1 != b.Length1 || a.Length0 == 0 || a.Length1 == 0 {
        return None;
      }
      var game := new BimatrixGame(a, b);
      return Some(game);
    }

    static method MinEntry(a: array2<real>) returns (low: real)
      requires a.Length0 > 0 && a.Length1 > 0
      ensures forall i, j | 0 <= i < a.Length0 && 0 <= j < a.Length1 :: low <= a[i, j]
      ensures exists i, j :: 0 <= i < a.Length0 && 0 <= j < a.Length1 && Rows(a)[i][j] == low
    {
      low := a[0, 0];
      assert Rows(a)[0][0] == low;
      for i := 0 to a.Length0
        invariant forall i', j | 0 <= i' < i && 0 <= j < a.Length1 :: low <= a[i', j]
        invariant exists i', j :: 0 <= i' < a.Length0 && 0 <= j < a.Length1 && Rows(a)[i'][j] == low
      {
        for j := 0 to a.Length1
          invariant forall i', j' | 0 <= i' < i && 0 <= j' < a.Length1 :: low <= a[i', j']
          invariant forall j' | 0 <= j' < j :: low <= a[i, j']
          invariant exists i', j' :: 0 <= i' < a.Length0 && 0 <= j' < a.Length1 && Rows(a)[i'][j'] == low
        {
          if a[i, j] < low {
            low := a[i, j];
            assert Rows(a)[i][j] == low;
          }
        }
      }
    }

    static method AddToAll(a: array2<real>, shift: real)
      modifies a
      ensures IsShift(old(Rows(a)), Rows(a), a.Length0, a.Length1, shift)
    {
      for i := 0 to a.Length0
        invariant forall i', j | 0 <= i' < a.Length0 && 0 <= j < a.Length1 ::
            a[i', j] == if i' < i then old(a[i', j]) + shift else old(a[i', j])
      {
        for j := 0 to a.Length1
          invariant forall i', j' | 0 <= i' < a.Length0 && 0 <= j' < a.Length1 ::
              a[i', j'] == if i' < i || (i' == i && j' < j) then old(a[i', j']) + shift else old(a[i', j'])
        {
          a[i, j] := a[i, j] + shift;
        }
      }
    }

    /** Shifts both payoff matrices by the same amount so that every entry is positive; no
        shift when they already are. */
    method MakePositive() returns (shift: real)
      requires Valid()
      modifies payoff1, payoff2
      ensures IsPositiveShift(old(A()), old(B()), A(), B(), rows, cols, shift)
    {
      var min1 := MinEntry(payoff1);
      var min2 := MinEntry(payoff2);
      var minVal := if min2 < min1 then min2 else min1;
      shift := 0.0;
      if minVal <= 0.0 {
        shift := -minVal + 1.0;
        AddToAll(payoff1, shift);
        AddToAll(payoff2, shift);
      }
      PositiveShiftBy(old(A()), old(B()), A(), B(), rows, cols, min1, min2, shift);
    }

    /** The accumulated double sum is x^T M y. */
    static method Accumulate(p: array2<real>, x: Vec, y: Vec) returns (val: real)
      requires |x| == p.Length0 && |y| == p.Length1
      ensures val == Payoff(Rows(p), x, y)
    {
      val := 0.0;
      ghost var v := MatVec(Rows(p), y, |y|);
      for i := 0 to p.Length0
        invariant val == DotTo(x, v, i)
      {
        for j := 0 to p.Length1
          invariant val == DotTo(x, v, i) + x[i] * DotTo(Rows(p)[i], y, j)
        {
          AccumulateStep(x[i], DotTo(Rows(p)[i], y, j), p[i, j], y[j]);
          val := val + x[i] * p[i, j] * y[j];
        }
      }
    }

    method ExpectedPayoff1(x: Vec, y: Vec) returns (val: real)
      requires Valid() && |x| == rows && |y| == cols
      ensures val == Payoff(A(), x, y)
    {
      val := Accumulate(payoff1, x, y);
    }

    method ExpectedPayoff2(x: Vec, y: Vec) returns (val: real)
      requires Valid() && |x| == rows && |y| == cols
      ensures val == Payoff(B(), x, y)
    {
      val := Accumulate(payoff2, x, y);
    }
  }

  lemma AccumulateStep(x: real, d: real, a: real, y: real)
    ensures x * (d + a * y) == x * d + x * a * y
  {}

  /** The larger of a running maximum and the first k regrets against value v. */
  function MaxRegretTo(start: real, payoffs: Vec, v: real, k: nat): (r: real)
    requires k <= |payoffs|
    ensures r >= start && forall i | 0 <= i < k :: payoffs[i] - v <= r
    ensures r == start || exists i :: 0 <= i < k && payoffs[i] - v == r
  {
    if k == 0 then start
    else
      var r := MaxRegretTo(start, payoffs, v, k - 1);
      if payoffs[k - 1] - v > r then payoffs[k - 1] - v else r
  }

  /** No mixed strategy gains more than r over the strategy played. */
  ghost predicate GainsAtMost(M: Matrix, own: Vec, other: Vec, r: real)
    requires |own| == |M| && Rect(M, |M|, |other|)
  {
    forall own': Vec | IsDistribution(own', |M|) :: Payoff(M, own', other) - Payoff(M, own, other) <= r
  }

  /** Some mixed strategy gains exactly r over the strategy played. */
  ghost predicate SomeGains(M: Matrix, own: Vec, other: Vec, r: real)
    requires |own| == |M| && Rect(M, |M|, |other|)
  {
    exists own': Vec :: IsDistribution(own', |M|) && Payoff(M, own', other) - Payoff(M, own, other) == r
  }

  /** r is the most either player can gain by moving alone, to whatever mixed strategy. */
  ghost predicate LargestGain(A: Matrix, B: Matrix, m: nat, n: nat, x: Vec, y: Vec, r: real)
    requires Rect(A, m, n) && Rect(B, m, n) && |x| == m && |y| == n
  {
    var Bt := Transposed(B, m, n);
    && GainsAtMost(A, x, y, r) && GainsAtMost(Bt, y, x, r)
    && (SomeGains(A, x, y, r) || SomeGains(Bt, y, x, r))
  }

  /** The largest regret over pure strategies bounds the gain of every mixed one, and is reached
      unless it was there before. */
  lemma RegretIsGain(M: Matrix, own: Vec, other: Vec, start: real)
    requires |own| == |M| && Rect(M, |M|, |other|)
    ensures var v := MatVec(M, other, |other|);
            var r := MaxRegretTo(start, v, Payoff(M, own, other), |M|);
            GainsAtMost(M, own, other, r) && (r == start || SomeGains(M, own, other, r))
  {
    var v, base := MatVec(M, other, |other|), Payoff(M, own, other);
    var r := MaxRegretTo(start, v, base, |M|);
    forall own': Vec | IsDistribution(own', |M|) ensures Payoff(M, own', other) - base <= r {
      assert forall i | 0 <= i < |M| :: v[i] - base <= r;
      DotUpper(own', v, base + r, |M|);
    }
    if r != start {
      var i :| 0 <= i < |v| && v[i] - base == r;
      UnitSums(|M|, i, v, |M|);
      assert IsDistribution(Unit(|M|, i), |M|);
      assert Payoff(M, Unit(|M|, i), other) == v[i];
    }
  }

  /** The regrets of both players, one after the other, give the largest gain. */
  lemma ResidualIsGain(A: Matrix, B: Matrix, m: nat, n: nat, x: Vec, y: Vec, first: real, r: real)
    requires Rect(A, m, n) && Rect(B, m, n) && IsDistribution(x, m) && IsDistribution(y, n)
    requires first == MaxRegretTo(0.0, MatVec(A, y, n), Payoff(A, x, y), m)
    requires var Bt := Transposed(B, m, n); r == MaxRegretTo(first, MatVec(Bt, x, m), Payoff(Bt, y, x), n)
    ensures LargestGain(A, B, m, n, x, y, r)
  {
    RegretIsGain(A, x, y, 0.0);
    RegretIsGain(Transposed(B, m, n), y, x, first);
    if r == first == 0.0 {
      assert Payoff(A, x, y) - Payoff(A, x, y) == r;
    }
  }

  method MatVecMul(M: array2<real>, x: Vec) returns (y: Vec)
    requires |x| == M.Length1
    ensures y == MatVec(Rows(M), x, |x|)
  {
    y := [];
    for i := 0 to M.Length0
      invariant |y| == i && forall k | 0 <= k < i :: y[k] == DotTo(Rows(M)[k], x, |x|)
    {
      var s := 0.0;
      for j := 0 to M.Length1
        invariant s == DotTo(Rows(M)[i], x, j)
      {
        s := s + M[i, j] * x[j];
      }
      y := y + [s];
    }
  }

  method Transpose(M: array2<real>) returns (t: array2<real>)
    ensures fresh(t) && t.Length0 == M.Length1 && t.Length1 == M.Length0
    ensures Rows(t) == Transposed(Rows(M), M.Length0, M.Length1)
  {
    t := new real[M.Length1, M.Length0];
    for i := 0 to M.Length0
      invariant forall i', j | 0 <= i' < i && 0 <= j < M.Length1 :: t[j, i'] == M[i', j]
    {
      for j := 0 to M.Length1
        invariant forall i', j | 0 <= i' < i && 0 <= j < M.Length1 :: t[j, i'] == M[i', j]
        invariant forall j' | 0 <= j' < j :: t[j', i] == M[i, j']
      {
        t[j, i] := M[i, j];
      }
    }
    MatrixExt(Rows(t), Transposed(Rows(M), M.Length0, M.Length1), M.Length1, M.Length0);
  }

  method DotProduct(a: Vec, b: Vec) returns (s: real)
    requires |a| == |b|
    ensures s == DotTo(a, b, |a|)
  {
    s := 0.0;
    for i := 0 to |a|
      invariant s == DotTo(a, b, i)
    {
      s := s + a[i] * b[i];
    }
  }

  method MaxRegret(start: real, payoffs: Vec, v: real) returns (r: real)
    ensures r == MaxRegretTo(start, payoffs, v, |payoffs|)
  {
    r := start;
    for i := 0 to |payoffs|
      invariant r == MaxRegretTo(start, payoffs, v, i)
    {
      if payoffs[i] - v > r {
        r := payoffs[i] - v;
      }
    }
  }

  /** The largest gain any deviation offers; it vanishes exactly at an equilibrium. */
  method NashResidual(game: BimatrixGame, x: Vec, y: Vec) returns (maxRegret: real)
    requires game.Valid() && |x| == game.rows && |y| == game.cols
    ensures maxRegret >= 0.0
    ensures IsDistribution(x, game.rows) && IsDistribution(y, game.cols) ==>
              && LargestGain(game.A(), game.B(), game.rows, game.cols, x, y, maxRegret)
              && (maxRegret == 0.0 <==> IsNash(game.A(), game.B(), game.rows, game.cols, x, y))
  {
    var ay := MatVecMul(game.payoff1, y);
    var v1 := DotProduct(x, ay);
    maxRegret := MaxRegret(0.0, ay, v1);
    var bt := Transpose(game.payoff2);
    var btx := MatVecMul(bt, x);
    var v2 := DotProduct(y, btx);
    ghost var first := maxRegret;
    maxRegret := MaxRegret(maxRegret, btx, v2);
    if IsDistribution(x, game.rows) && IsDistribution(y, game.cols) {
      NashByPureDeviations(game.A(), game.B(), game.rows, game.cols, x, y);
      assert NoPureGain(game.A(), x, y) <==> first == 0.0;
      ResidualIsGain(game.A(), game.B(), game.rows, game.cols, x, y, first, maxRegret);
    }
  }
}
