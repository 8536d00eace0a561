/** Support enumeration: every equal-size pair of supports is tried, and the answers are exactly equilibria. */
module SupportEnumeration {
  import opened Games
  import opened LinearSolve
  import opened Subsets
  import opened Options
  import opened Vectors

  // ---- Local unknowns against full strategies ----

  /** The entries of v at the positions listed in s. */
  function Gather(v: Vec, s: seq<nat>): (g: Vec)
    requires forall i | 0 <= i < |s| :: s[i] < |v|
    ensures |g| == |s| && forall i | 0 <= i < |s| :: g[i] == v[s[i]]
  {
    seq(|s|, i requires 0 <= i < |s| => v[s[i]])
  }

  /** A vector of length n with the first t entries of u placed at the positions listed in s, zero elsewhere. */
  function Scatter(u: Vec, s: seq<nat>, n: nat, t: nat): (v: Vec)
    requires IsSubset(s, |s|, n) && |s| <= |u| && t <= |s|
    ensures |v| == n
  {
    if t == 0 then Zeros(n) else Scatter(u, s, n, t - 1)[s[t - 1] := u[t - 1]]
  }

  lemma {:induction false} ScatterAt(u: Vec, s: seq<nat>, n: nat, t: nat, i: nat)
    requires IsSubset(s, |s|, n) && |s| <= |u| && i < t <= |s|
    ensures Scatter(u, s, n, t)[s[i]] == u[i]
  {
    if i < t - 1 {
      ScatterAt(u, s, n, t - 1, i);
    }
  }

  lemma {:induction false} ScatterOff(u: Vec, s: seq<nat>, n: nat, t: nat, j: nat)
    requires IsSubset(s, |s|, n) && |s| <= |u| && t <= |s| && j < n
    requires forall i | 0 <= i < t :: s[i] != j
    ensures Scatter(u, s, n, t)[j] == 0.0
  {
    if t > 0 {
      ScatterOff(u, s, n, t - 1, j);
    }
  }

  /** Placing unknowns keeps inner products and sums. */
  lemma {:induction false} ScatterDot(u: Vec, s: seq<nat>, n: nat, t: nat, w: Vec)
    requires IsSubset(s, |s|, n) && |s| <= |u| && t <= |s| && |w| == n
    ensures DotTo(w, Scatter(u, s, n, t), n) == DotTo(Gather(w, s), u, t)
  {
    if t == 0 {
      DotZero(w, Zeros(n), n);
    } else {
      ScatterDot(u, s, n, t - 1, w);
      var v', p := Scatter(u, s, n, t - 1), s[t - 1];
      ScatterOff(u, s, n, t - 1, p);
      var v := v'[p := u[t - 1]];
      DotExtract(w, v, p, n);
      assert v[p := 0.0] == v';
    }
  }

  lemma {:induction false} OnesDot(u: Vec, n: nat)
    requires n <= |u|
    ensures DotTo(seq(|u|, _ => 1.0), u, n) == SumTo(u, n)
  {
    if n > 0 {
      OnesDot(u, n - 1);
    }
  }

  lemma ScatterSum(u: Vec, s: seq<nat>, n: nat)
    requires IsSubset(s, |s|, n) && |s| <= |u|
    ensures SumTo(Scatter(u, s, n, |s|), n) == SumTo(u, |s|)
  {
    var ones, v := seq(n, _ => 1.0), Scatter(u, s, n, |s|);
    ScatterDot(u, s, n, |s|, ones);
    OnesDot(v, n);
    OnesDot(u, |s|);
    DotCong(Gather(ones, s), u, seq(|u|, _ => 1.0), u, |s|);
  }

  /** v is zero off the positions listed in s. */
  predicate SupportedOn(v: Vec, s: seq<nat>) {
    forall j | 0 <= j < |v| && j !in s :: v[j] == 0.0
  }

  lemma ScatterGather(v: Vec, s: seq<nat>, extra: real)
    requires IsSubset(s, |s|, |v|) && SupportedOn(v, s)
    ensures Scatter(Gather(v, s) + [extra], s, |v|, |s|) == v
  {
    var u := Gather(v, s) + [extra];
    var w := Scatter(u, s, |v|, |s|);
    forall j | 0 <= j < |v| ensures w[j] == v[j] {
      if j in s {
        var i :| 0 <= i < |s| && s[i] == j;
        ScatterAt(u, s, |v|, |s|, i);
      } else {
        ScatterOff(u, s, |v|, |s|, j);
      }
    }
  }

  // ---- The indifference system ----

  /** Two supports of equal size, for the row and the column player. */
  predicate Supports(m: nat, n: nat, s: seq<nat>, t: seq<nat>) {
    IsSubset(s, |s|, m) && IsSubset(t, |t|, n) && |s| == |t|
  }

  /** Rows: one indifference equation for each of the rows s (against unknown value v), then normalisation. */
  function SystemRow(M: Matrix, m: nat, n: nat, s: seq<nat>, t: seq<nat>, i: nat): (row: Vec)
    requires Rect(M, m, n) && Supports(m, n, s, t) && i <= |s|
    ensures |row| == |s| + 1
  {
    if i < |s| then Gather(M[s[i]], t) + [-1.0] else seq(|t|, _ => 1.0) + [0.0]
  }

  function System(M: Matrix, m: nat, n: nat, s: seq<nat>, t: seq<nat>): (A: Matrix)
    requires Rect(M, m, n) && Supports(m, n, s, t)
    ensures Rect(A, |s| + 1, |s| + 1)
  {
    seq(|s| + 1, i requires 0 <= i < |s| + 1 => SystemRow(M, m, n, s, t, i))
  }

  function SystemRhs(k: nat): (b: Vec)
    ensures |b| == k + 1
  {
    seq(k, _ => 0.0) + [1.0]
  }

  /** The opponent strategy y makes all rows in s worth exactly v. */
  ghost predicate Indifferent(M: Matrix, m: nat, n: nat, s: seq<nat>, y: Vec, v: real)
    requires Rect(M, m, n) && IsSubset(s, |s|, m) && |y| == n
  {
    forall i | 0 <= i < |s| :: DotTo(M[s[i]], y, n) == v
  }

  /** An indifference row of the system, read on the full strategy. */
  lemma IndifferenceRowValue(M: Matrix, m: nat, n: nat, s: seq<nat>, t: seq<nat>, u: Vec, i: nat)
    requires Rect(M, m, n) && Supports(m, n, s, t) && |u| == |s| + 1 && i < |s|
    ensures DotTo(SystemRow(M, m, n, s, t, i), u, |s| + 1) == DotTo(M[s[i]], Scatter(u, t, n, |t|), n) - u[|s|]
  {
    var g := Gather(M[s[i]], t);
    ScatterDot(u, t, n, |t|, M[s[i]]);
    DotCong(g + [-1.0], u, g, u, |s|);
  }

  /** The normalisation row. */
  lemma NormalisationRowValue(M: Matrix, m: nat, n: nat, s: seq<nat>, t: seq<nat>, u: Vec)
    requires Rect(M, m, n) && Supports(m, n, s, t) && |u| == |s| + 1
    ensures DotTo(SystemRow(M, m, n, s, t, |s|), u, |s| + 1) == SumTo(Scatter(u, t, n, |t|), n)
  {
    OnesPadded(u, |s|);
    ScatterSum(u, t, n);
  }

  lemma OnesPadded(u: Vec, k: nat)
    requires |u| == k + 1
    ensures DotTo(seq(k, _ => 1.0) + [0.0], u, k + 1) == SumTo(u, k)
  {
    DotCong(seq(k, _ => 1.0) + [0.0], u, seq(|u|, _ => 1.0), u, k);
    OnesDot(u, k);
  }

  /** Solving the system is the same as finding a normalised indifferent strategy on the support. */
  lemma SystemMeaning(M: Matrix, m: nat, n: nat, s: seq<nat>, t: seq<nat>, u: Vec)
    requires Rect(M, m, n) && Supports(m, n, s, t) && |u| == |s| + 1
    ensures SolvesSystem(System(M, m, n, s, t), |s| + 1, SystemRhs(|s|), u) <==>
            (Indifferent(M, m, n, s, Scatter(u, t, n, |t|), u[|s|]) && SumTo(Scatter(u, t, n, |t|), n) == 1.0)
  {
    var A, b, y := System(M, m, n, s, t), SystemRhs(|s|), Scatter(u, t, n, |t|);
    NormalisationRowValue(M, m, n, s, t, u);
    forall i | 0 <= i < |s| ensures DotTo(A[i], u, |s| + 1) == b[i] <==> DotTo(M[s[i]], y, n) == u[|s|] {
      IndifferenceRowValue(M, m, n, s, t, u, i);
    }
    if SolvesSystem(A, |s| + 1, b, u) {
      assert DotTo(A[|s|], u, |s| + 1) == b[|s|];
      forall i | 0 <= i < |s| ensures DotTo(M[s[i]], y, n) == u[|s|] {
        assert DotTo(A[i], u, |s| + 1) == b[i];
      }
    }
  }

  ghost predicate Solvable(M: Matrix, m: nat, n: nat, s: seq<nat>, t: seq<nat>)
    requires Rect(M, m, n) && Supports(m, n, s, t)
  {
    !Singular(System(M, m, n, s, t), |s| + 1)
  }

  /** y is the normalised strategy on t that makes the rows in s indifferent. */
  ghost predicate Answer(M: Matrix, m: nat, n: nat, s: seq<nat>, t: seq<nat>, y: Vec)
    requires Rect(M, m, n) && IsSubset(s, |s|, m)
  {
    IsDistribution(y, n) && SupportedOn(y, t) && exists v: real :: Indifferent(M, m, n, s, y, v)
  }

  /** Every answer is a solution of the system, placed on the support. */
  lemma AnswerAsSolution(M: Matrix, m: nat, n: nat, s: seq<nat>, t: seq<nat>, y: Vec) returns (u: Vec)
    requires Rect(M, m, n) && Supports(m, n, s, t) && Answer(M, m, n, s, t, y)
    ensures |u| == |s| + 1 && SolvesSystem(System(M, m, n, s, t), |s| + 1, SystemRhs(|s|), u)
    ensures Scatter(u, t, n, |t|) == y && NonnegativeTo(u, |t|)
  {
    var v: real :| Indifferent(M, m, n, s, y, v);
    u := Gather(y, t) + [v];
    ScatterGather(y, t, v);
    SystemMeaning(M, m, n, s, t, u);
  }

  predicate NonnegativeTo(u: Vec, k: nat)
    requires k <= |u|
  {
    forall j | 0 <= j < k :: u[j] >= 0.0
  }

  /** A nonsingular system has one answer at most. */
  lemma AnswerUnique(M: Matrix, m: nat, n: nat, s: seq<nat>, t: seq<nat>, sol: Vec, y: Vec)
    requires Rect(M, m, n) && Supports(m, n, s, t) && |sol| == |s| + 1
    requires OnlySolution(System(M, m, n, s, t), |s| + 1, SystemRhs(|s|), sol)
    requires Answer(M, m, n, s, t, y)
    ensures Scatter(sol, t, n, |t|) == y && NonnegativeTo(sol, |t|)
  {
    var u := AnswerAsSolution(M, m, n, s, t, y);
  }

  /** One half of trying a support: the opponent strategy on t that makes the rows in s indifferent, if it is one. */
  method SolveHalf(M: array2<real>, s: seq<nat>, t: seq<nat>) returns (y: Option<Vec>)
    requires Supports(M.Length0, M.Length1, s, t)
    ensures y.Some? ==>
              Solvable(Rows(M), M.Length0, M.Length1, s, t) && Answer(Rows(M), M.Length0, M.Length1, s, t, y.value)
    ensures Solvable(Rows(M), M.Length0, M.Length1, s, t) ==>
              forall z: Vec | Answer(Rows(M), M.Length0, M.Length1, s, t, z) :: y == Some(z)
  {
    var k, n := |s|, M.Length1;
    ghost var M0, m := Rows(M), M.Length0;
    var sys := BuildSystem(M, s, t);
    var sol := Solve(sys, SystemRhs(k));
    if sol.None? {
      return None;
    }
    var u := sol.value;
    forall z: Vec | Answer(M0, m, n, s, t, z) ensures Scatter(u, t, n, k) == z && NonnegativeTo(u, k) {
      AnswerUnique(M0, m, n, s, t, u, z);
    }
    for j := 0 to k
      invariant NonnegativeTo(u, j)
    {
      if u[j] < 0.0 {
        return None;
      }
    }
    SystemMeaning(M0, m, n, s, t, u);
    var full := PlaceStrategy(u, t, n);
    AnswerFound(M0, m, n, s, t, u);
    return Some(full);
  }

  lemma AnswerFound(M: Matrix, m: nat, n: nat, s: seq<nat>, t: seq<nat>, u: Vec)
    requires Rect(M, m, n) && Supports(m, n, s, t) && |u| == |s| + 1
    requires Indifferent(M, m, n, s, Scatter(u, t, n, |t|), u[|s|]) && SumTo(Scatter(u, t, n, |t|), n) == 1.0
    requires NonnegativeTo(u, |t|)
    ensures Answer(M, m, n, s, t, Scatter(u, t, n, |t|))
  {
    var y := Scatter(u, t, n, |t|);
    forall j | 0 <= j < n ensures y[j] >= 0.0 && (j !in t ==> y[j] == 0.0) {
      if j in t {
        var i :| 0 <= i < |t| && t[i] == j;
        ScatterAt(u, t, n, |t|, i);
      } else {
        ScatterOff(u, t, n, |t|, j);
      }
    }
  }

  method BuildSystem(M: array2<real>, s: seq<nat>, t: seq<nat>) returns (sys: array2<real>)
    requires Supports(M.Length0, M.Length1, s, t)
    ensures fresh(sys) && sys.Length0 == sys.Length1 == |s| + 1
    ensures Rows(sys) == System(Rows(M), M.Length0, M.Length1, s, t)
  {
    var k := |s|;
    ghost var S := System(Rows(M), M.Length0, M.Length1, s, t);
    sys := new real[k + 1, k + 1]((i, j) => 0.0);
    for i := 0 to k
      invariant forall r, j | 0 <= r <= k && 0 <= j <= k :: sys[r, j] == if r < i then S[r][j] else 0.0
    {
      for j := 0 to k
        invariant forall r, c | 0 <= r <= k && 0 <= c <= k ::
            sys[r, c] == if r < i || (r == i && c < j) then S[r][c] else 0.0
      {
        sys[i, j] := M[s[i], t[j]];
      }
      sys[i, k] := -1.0;
    }
    for j := 0 to k
      invariant forall r, c | 0 <= r <= k && 0 <= c <= k ::
          sys[r, c] == if r < k || c < j then S[r][c] else 0.0
    {
      sys[k, j] := 1.0;
    }
    MatrixExt(Rows(sys), S, k + 1, k + 1);
  }

  /** Writes the local weights into an all-zero strategy of length n. */
  method PlaceStrategy(u: Vec, t: seq<nat>, n: nat) returns (y: Vec)
    requires IsSubset(t, |t|, n) && |t| <= |u| && NonnegativeTo(u, |t|)
    ensures y == Scatter(u, t, n, |t|)
  {
    y := Zeros(n);
    for j := 0 to |t|
      invariant y == Scatter(u, t, n, j)
    {
      y := y[t[j] := if u[j] > 0.0 then u[j] else 0.0];
    }
  }

  // ---- Supports against equilibria ----

  /** The two halves of a profile answer their supports. */
  ghost predicate ProfileFor(A: Matrix, B: Matrix, m: nat, n: nat, s: seq<nat>, t: seq<nat>, x: Vec, y: Vec)
    requires Rect(A, m, n) && Rect(B, m, n) && Supports(m, n, s, t)
  {
    Answer(A, m, n, s, t, y) && Answer(Transposed(B, m, n), n, m, t, s, x)
  }

  ghost predicate BothSolvable(A: Matrix, B: Matrix, m: nat, n: nat, s: seq<nat>, t: seq<nat>)
    requires Rect(A, m, n) && Rect(B, m, n) && Supports(m, n, s, t)
  {
    Solvable(A, m, n, s, t) && Solvable(Transposed(B, m, n), n, m, t, s)
  }

  /** No row beats the best row of s against y. */
  ghost predicate BestOn(M: Matrix, m: nat, n: nat, s: seq<nat>, y: Vec)
    requires Rect(M, m, n) && |y| == n && IsSubset(s, |s|, m)
  {
    NoneAbove(MatVec(M, y, n), s)
  }

  ghost predicate NoneAbove(payoffs: Vec, s: seq<nat>)
    requires IsSubset(s, |s|, |payoffs|)
  {
    forall r | 0 <= r < |payoffs| :: Matched(payoffs, s, payoffs[r])
  }

  ghost predicate Matched(payoffs: Vec, s: seq<nat>, v: real)
    requires IsSubset(s, |s|, |payoffs|)
  {
    exists i :: 0 <= i < |s| && v <= payoffs[s[i]]
  }

  /** A strategy on indifferent rows earns exactly their common value. */
  lemma IndifferentPayoff(M: Matrix, m: nat, n: nat, s: seq<nat>, own: Vec, y: Vec, v: real)
    requires Rect(M, m, n) && IsSubset(s, |s|, m) && IsDistribution(own, m) && |y| == n
    requires SupportedOn(own, s) && Indifferent(M, m, n, s, y, v)
    ensures Payoff(M, own, y) == v
  {
    var w := MatVec(M, y, n);
    forall i | 0 <= i < m ensures own[i] == 0.0 || w[i] == v {
      if i in s {
        var k :| 0 <= k < |s| && s[k] == i;
        assert DotTo(M[s[k]], y, n) == v;
      }
    }
    DotTight(own, w, v, m);
  }

  /** On an answered support, passing the best-response test is the same as leaving no profitable deviation. */
  lemma BestOnIsNoGain(M: Matrix, m: nat, n: nat, s: seq<nat>, t: seq<nat>, own: Vec, y: Vec)
    requires Rect(M, m, n) && Supports(m, n, s, t) && |s| > 0 && Answer(M, m, n, s, t, y)
    requires IsDistribution(own, m) && SupportedOn(own, s)
    ensures BestOn(M, m, n, s, y) <==> NoPureGain(M, own, y)
  {
    var v: real :| Indifferent(M, m, n, s, y, v);
    IndifferentPayoff(M, m, n, s, own, y, v);
    var w := MatVec(M, y, n);
    if BestOn(M, m, n, s, y) {
      forall r | 0 <= r < m ensures w[r] <= v {
        assert Matched(w, s, w[r]);
        var i :| 0 <= i < |s| && w[r] <= w[s[i]];
        assert DotTo(M[s[i]], y, n) == v;
      }
    }
    if NoPureGain(M, own, y) {
      forall r | 0 <= r < m ensures Matched(w, s, w[r]) {
        assert w[r] <= v && DotTo(M[s[0]], y, n) == v == w[s[0]];
      }
    }
  }

  /** For a profile answering its supports, the test passes exactly at equilibria. */
  lemma TestIsNash(A: Matrix, B: Matrix, m: nat, n: nat, s: seq<nat>, t: seq<nat>, x: Vec, y: Vec)
    requires Rect(A, m, n) && Rect(B, m, n) && Supports(m, n, s, t) && |s| > 0 && ProfileFor(A, B, m, n, s, t, x, y)
    ensures BestOn(A, m, n, s, y) && BestOn(Transposed(B, m, n), n, m, t, x) <==> IsNash(A, B, m, n, x, y)
  {
    BestOnIsNoGain(A, m, n, s, t, x, y);
    BestOnIsNoGain(Transposed(B, m, n), n, m, t, s, y, x);
    NashByPureDeviations(A, B, m, n, x, y);
  }

  /** One player's half of the best-response check: the largest payoff on the support against every other. */
  method CheckHalf(payoffs: Vec, s: seq<nat>) returns (ok: bool)
    requires |s| > 0 && IsSubset(s, |s|, |payoffs|)
    ensures ok <==> NoneAbove(payoffs, s)
  {
    var v := payoffs[s[0]];
    ghost var best := 0;
    for i := 1 to |s|
      invariant 0 <= best < |s| && v == payoffs[s[best]]
      invariant forall h | 0 <= h < i :: payoffs[s[h]] <= v
    {
      if payoffs[s[i]] > v {
        v := payoffs[s[i]];
        best := i;
      }
    }
    assert forall u: real :: Matched(payoffs, s, u) <==> u <= v;
    for r := 0 to |payoffs|
      invariant forall q | 0 <= q < r :: payoffs[q] <= v
    {
      if payoffs[r] > v {
        assert !Matched(payoffs, s, payoffs[r]);
        return false;
      }
    }
    return true;
  }

  method CheckBestResponse(game: BimatrixGame, x: Vec, y: Vec, s: seq<nat>, t: seq<nat>) returns (ok: bool)
    requires game.Valid() && |x| == game.rows && |y| == game.cols && Supports(game.rows, game.cols, s, t) && |s| > 0
    ensures ok <==> BestOn(game.A(), game.rows, game.cols, s, y)
                    && BestOn(Transposed(game.B(), game.rows, game.cols), game.cols, game.rows, t, x)
  {
    var ay := MatVecMul(game.payoff1, y);
    ok := CheckHalf(ay, s);
    if ok {
      var bt := Transpose(game.payoff2);
      var btx := MatVecMul(bt, x);
      ok := CheckHalf(btx, t);
    }
  }

  /** The candidate profile of a support pair, if both indifference systems produce nonnegative weights. */
  method TrySupport(game: BimatrixGame, s: seq<nat>, t: seq<nat>) returns (profile: Option<(Vec, Vec)>)
    requires game.Valid() && IsSubset(s, |s|, game.rows) && IsSubset(t, |t|, game.cols)
    ensures profile.Some? ==>
              && |s| == |t| && BothSolvable(game.A(), game.B(), game.rows, game.cols, s, t)
              && ProfileFor(game.A(), game.B(), game.rows, game.cols, s, t, profile.value.0, profile.value.1)
    ensures |s| == |t| && BothSolvable(game.A(), game.B(), game.rows, game.cols, s, t) ==>
              forall x: Vec, y: Vec | ProfileFor(game.A(), game.B(), game.rows, game.cols, s, t, x, y) ::
                profile == Some((x, y))
  {
    if |s| != |t| {
      return None;
    }
    var y := SolveHalf(game.payoff1, s, t);
    if y.None? {
      return None;
    }
    var bt := Transpose(game.payoff2);
    var x := SolveHalf(bt, t, s);
    if x.None? {
      return None;
    }
    return Some((x.value, y.value));
  }

  datatype Equilibrium = Equilibrium(x: Vec, y: Vec, payoff1: real, payoff2: real, residual: real)

  /** Each listed entry is an equilibrium determined by its supports, with its payoffs and zero residual, and no profile
      is listed twice. */
  ghost predicate Sound(A: Matrix, B: Matrix, m: nat, n: nat, found: seq<Equilibrium>)
    requires Rect(A, m, n) && Rect(B, m, n)
  {
    && (forall e | 0 <= e < |found| :: EntrySound(A, B, m, n, found[e]))
    && (forall e, f | 0 <= e < f < |found| :: found[e].x != found[f].x || found[e].y != found[f].y)
  }

  ghost predicate EntrySound(A: Matrix, B: Matrix, m: nat, n: nat, e: Equilibrium)
    requires Rect(A, m, n) && Rect(B, m, n)
  {
    && IsNash(A, B, m, n, e.x, e.y) && Determined(A, B, m, n, e.x, e.y) && e.residual == 0.0
    && e.payoff1 == Payoff(A, e.x, e.y) && e.payoff2 == Payoff(B, e.x, e.y)
  }

  ghost predicate Listed(found: seq<Equilibrium>, x: Vec, y: Vec) {
    exists e :: 0 <= e < |found| && found[e].x == x && found[e].y == y
  }

  /** Every equilibrium answering this pair of supports, when its systems are nonsingular, is listed. */
  ghost predicate Covered(A: Matrix, B: Matrix, m: nat, n: nat, s: seq<nat>, t: seq<nat>, found: seq<Equilibrium>)
    requires Rect(A, m, n) && Rect(B, m, n) && Supports(m, n, s, t)
  {
    BothSolvable(A, B, m, n, s, t) ==>
      forall x: Vec, y: Vec | IsNash(A, B, m, n, x, y) && ProfileFor(A, B, m, n, s, t, x, y) :: Listed(found, x, y)
  }

  lemma CoveredGrows(A: Matrix, B: Matrix, m: nat, n: nat, s: seq<nat>, t: seq<nat>, found: seq<Equilibrium>,
                     more: seq<Equilibrium>)
    requires Rect(A, m, n) && Rect(B, m, n) && Supports(m, n, s, t) && found <= more && Covered(A, B, m, n, s, t, found)
    ensures Covered(A, B, m, n, s, t, more)
  {
    forall x: Vec, y: Vec | Listed(found, x, y) ensures Listed(more, x, y) {
      var i :| 0 <= i < |found| && found[i].x == x && found[i].y == y;
      assert more[i] == found[i];
    }
  }

  /** With first support s, every second support before t is covered; all of them when t is None. */
  ghost predicate CoveredRow(A: Matrix, B: Matrix, m: nat, n: nat, s: seq<nat>, t: Option<seq<nat>>,
                             found: seq<Equilibrium>)
    requires Rect(A, m, n) && Rect(B, m, n) && IsSubset(s, |s|, m)
  {
    forall w: seq<nat> | IsSubset(w, |s|, n) && (t.None? || Less(w, t.value)) :: Covered(A, B, m, n, s, w, found)
  }

  /** Every first support of size k before s is covered with all second supports; all of them when s is None. */
  ghost predicate CoveredSize(A: Matrix, B: Matrix, m: nat, n: nat, k: nat, s: Option<seq<nat>>,
                              found: seq<Equilibrium>)
    requires Rect(A, m, n) && Rect(B, m, n)
  {
    forall u: seq<nat> | IsSubset(u, k, m) && (s.None? || Less(u, s.value)) :: CoveredRow(A, B, m, n, u, None, found)
  }

  lemma RowGrows(A: Matrix, B: Matrix, m: nat, n: nat, s: seq<nat>, t: Option<seq<nat>>, found: seq<Equilibrium>,
                 more: seq<Equilibrium>)
    requires Rect(A, m, n) && Rect(B, m, n) && IsSubset(s, |s|, m) && found <= more
    requires CoveredRow(A, B, m, n, s, t, found)
    ensures CoveredRow(A, B, m, n, s, t, more)
  {
    forall w: seq<nat> | IsSubset(w, |s|, n) && (t.None? || Less(w, t.value)) ensures Covered(A, B, m, n, s, w, more) {
      CoveredGrows(A, B, m, n, s, w, found, more);
    }
  }

  lemma SizeGrows(A: Matrix, B: Matrix, m: nat, n: nat, k: nat, s: Option<seq<nat>>, found: seq<Equilibrium>,
                  more: seq<Equilibrium>)
    requires Rect(A, m, n) && Rect(B, m, n) && found <= more && CoveredSize(A, B, m, n, k, s, found)
    ensures CoveredSize(A, B, m, n, k, s, more)
  {
    forall u: seq<nat> | IsSubset(u, k, m) && (s.None? || Less(u, s.value))
      ensures CoveredRow(A, B, m, n, u, None, more)
    {
      RowGrows(A, B, m, n, u, None, found, more);
    }
  }

  /** Covering t itself moves the frontier of a row to the successor of t, or to the end. */
  lemma RowAdvances(A: Matrix, B: Matrix, m: nat, n: nat, s: seq<nat>, t: seq<nat>, next: Option<seq<nat>>,
                    found: seq<Equilibrium>)
    requires Rect(A, m, n) && Rect(B, m, n) && Supports(m, n, s, t)
    requires CoveredRow(A, B, m, n, s, Some(t), found) && Covered(A, B, m, n, s, t, found)
    requires if next.Some? then IsSuccessor(t, next.value, |s|, n) else IsLast(t, |s|, n)
    ensures CoveredRow(A, B, m, n, s, next, found)
  {}

  lemma SizeAdvances(A: Matrix, B: Matrix, m: nat, n: nat, k: nat, s: seq<nat>, next: Option<seq<nat>>,
                     found: seq<Equilibrium>)
    requires Rect(A, m, n) && Rect(B, m, n) && IsSubset(s, k, m)
    requires CoveredSize(A, B, m, n, k, Some(s), found) && CoveredRow(A, B, m, n, s, None, found)
    requires if next.Some? then IsSuccessor(s, next.value, k, m) else IsLast(s, k, m)
    ensures CoveredSize(A, B, m, n, k, next, found)
  {}

  /** Handles one pair of supports: its equilibrium, if there is one and it is new, joins the list. */
  method Visit(game: BimatrixGame, s: seq<nat>, t: seq<nat>, found: seq<Equilibrium>) returns (found': seq<Equilibrium>)
    requires game.Valid() && Supports(game.rows, game.cols, s, t) && |s| > 0
    requires Sound(game.A(), game.B(), game.rows, game.cols, found)
    ensures Sound(game.A(), game.B(), game.rows, game.cols, found')
    ensures Covered(game.A(), game.B(), game.rows, game.cols, s, t, found')
    ensures found <= found'
  {
    ghost var A, B, m, n := game.A(), game.B(), game.rows, game.cols;
    var profile := TrySupport(game, s, t);
    if profile.None? {
      return found;
    }
    var (x, y) := profile.value;
    TestIsNash(A, B, m, n, s, t, x, y);
    assert DeterminedBy(A, B, m, n, s, t, x, y);
    var ok := CheckBestResponse(game, x, y, s, t);
    if !ok {
      return found;
    }
    found' := Record(game, x, y, found);
  }

  /** Adds an equilibrium to the list unless the same profile is there already. */
  method Record(game: BimatrixGame, x: Vec, y: Vec, found: seq<Equilibrium>) returns (found': seq<Equilibrium>)
    requires game.Valid() && IsNash(game.A(), game.B(), game.rows, game.cols, x, y)
    requires Determined(game.A(), game.B(), game.rows, game.cols, x, y)
    requires Sound(game.A(), game.B(), game.rows, game.cols, found)
    ensures Sound(game.A(), game.B(), game.rows, game.cols, found') && Listed(found', x, y)
    ensures found <= found'
  {
    for e := 0 to |found|
      invariant forall f | 0 <= f < e :: found[f].x != x || found[f].y != y
    {
      if found[e].x == x && found[e].y == y {
        return found;
      }
    }
    var payoff1 := game.ExpectedPayoff1(x, y);
    var payoff2 := game.ExpectedPayoff2(x, y);
    var residual := NashResidual(game, x, y);
    var entry := Equilibrium(x, y, payoff1, payoff2, residual);
    assert EntrySound(game.A(), game.B(), game.rows, game.cols, entry);
    found' := found + [entry];
    assert found'[|found|] == entry;
  }

  /** Pairs one first support with every second support of its size. */
  method SolveRow(game: BimatrixGame, s: seq<nat>, found: seq<Equilibrium>) returns (found': seq<Equilibrium>)
    requires game.Valid() && IsSubset(s, |s|, game.rows) && 0 < |s| <= game.cols
    requires Sound(game.A(), game.B(), game.rows, game.cols, found)
    ensures Sound(game.A(), game.B(), game.rows, game.cols, found') && found <= found'
    ensures CoveredRow(game.A(), game.B(), game.rows, game.cols, s, None, found')
  {
    ghost var A, B, m, n := game.A(), game.B(), game.rows, game.cols;
    found' := found;
    var s2 := FirstSubset(|s|);
    var more := true;
    while more
      invariant s2.Length == |s| && IsSubset(s2[..], |s|, n) && fresh(s2)
      invariant A == game.A() && B == game.B() && Sound(A, B, m, n, found') && found <= found'
      invariant CoveredRow(A, B, m, n, s, if more then Some(s2[..]) else None, found')
      decreases more, Remaining(s2[..], |s|, n)
    {
      ghost var t, before := s2[..], found';
      found' := Visit(game, s, s2[..], found');
      RowGrows(A, B, m, n, s, Some(t), before, found');
      more := NextSubset(s2, game.cols);
      if more {
        SuccessorCloser(t, s2[..], |s|, n);
      }
      RowAdvances(A, B, m, n, s, t, if more then Some(s2[..]) else None, found');
    }
  }

  /** All pairs of supports of size k. */
  method SolveSize(game: BimatrixGame, k: nat, found: seq<Equilibrium>) returns (found': seq<Equilibrium>)
    requires game.Valid() && 0 < k <= game.rows && k <= game.cols
    requires Sound(game.A(), game.B(), game.rows, game.cols, found)
    ensures Sound(game.A(), game.B(), game.rows, game.cols, found') && found <= found'
    ensures CoveredSize(game.A(), game.B(), game.rows, game.cols, k, None, found')
  {
    ghost var A, B, m, n := game.A(), game.B(), game.rows, game.cols;
    found' := found;
    var s1 := FirstSubset(k);
    var more := true;
    while more
      invariant s1.Length == k && IsSubset(s1[..], k, m) && fresh(s1)
      invariant A == game.A() && B == game.B() && Sound(A, B, m, n, found') && found <= found'
      invariant CoveredSize(A, B, m, n, k, if more then Some(s1[..]) else None, found')
      decreases more, Remaining(s1[..], k, m)
    {
      ghost var s, before := s1[..], found';
      found' := SolveRow(game, s1[..], found');
      SizeGrows(A, B, m, n, k, Some(s), before, found');
      more := NextSubset(s1, game.rows);
      if more {
        SuccessorCloser(s, s1[..], k, m);
      }
      SizeAdvances(A, B, m, n, k, s, if more then Some(s1[..]) else None, found');
    }
  }

  /** An equilibrium some pair of equal-size supports determines through nonsingular systems. */
  ghost predicate Determined(A: Matrix, B: Matrix, m: nat, n: nat, x: Vec, y: Vec)
    requires Rect(A, m, n) && Rect(B, m, n)
  {
    exists s: seq<nat>, t: seq<nat> :: DeterminedBy(A, B, m, n, s, t, x, y)
  }

  ghost predicate DeterminedBy(A: Matrix, B: Matrix, m: nat, n: nat, s: seq<nat>, t: seq<nat>, x: Vec, y: Vec)
    requires Rect(A, m, n) && Rect(B, m, n)
  {
    && Supports(m, n, s, t) && |s| > 0
    && BothSolvable(A, B, m, n, s, t) && ProfileFor(A, B, m, n, s, t, x, y)
  }

  /** The profiles listed are exactly the equilibria that some pair of supports determines. */
  method SolveAll(game: BimatrixGame) returns (found: seq<Equilibrium>)
    requires game.Valid()
    ensures Sound(game.A(), game.B(), game.rows, game.cols, found)
    ensures forall x: Vec, y: Vec :: Listed(found, x, y) <==>
                                     IsNash(game.A(), game.B(), game.rows, game.cols, x, y)
                                     && Determined(game.A(), game.B(), game.rows, game.cols, x, y)
  {
    ghost var A, B, m, n := game.A(), game.B(), game.rows, game.cols;
    var maxK := if game.cols < game.rows then game.cols else game.rows;
    found := [];
    for k := 1 to maxK + 1
      invariant A == game.A() && B == game.B() && Sound(A, B, m, n, found)
      invariant forall h | 1 <= h < k :: CoveredSize(A, B, m, n, h, None, found)
    {
      ghost var before := found;
      found := SolveSize(game, k, found);
      forall h | 1 <= h < k ensures CoveredSize(A, B, m, n, h, None, found) {
        SizeGrows(A, B, m, n, h, None, before, found);
      }
    }
    forall x: Vec, y: Vec
      ensures Listed(found, x, y) <==> IsNash(A, B, m, n, x, y) && Determined(A, B, m, n, x, y)
    {
      if IsNash(A, B, m, n, x, y) && Determined(A, B, m, n, x, y) {
        DeterminedIsListed(A, B, m, n, maxK, found, x, y);
      }
      if Listed(found, x, y) {
        ListedIsDetermined(A, B, m, n, found, x, y);
      }
    }
  }

  lemma ListedIsDetermined(A: Matrix, B: Matrix, m: nat, n: nat, found: seq<Equilibrium>, x: Vec, y: Vec)
    requires Rect(A, m, n) && Rect(B, m, n) && Sound(A, B, m, n, found) && Listed(found, x, y)
    ensures IsNash(A, B, m, n, x, y) && Determined(A, B, m, n, x, y)
  {
    var e :| 0 <= e < |found| && found[e].x == x && found[e].y == y;
    assert EntrySound(A, B, m, n, found[e]);
  }

  lemma DeterminedIsListed(A: Matrix, B: Matrix, m: nat, n: nat, maxK: nat, found: seq<Equilibrium>, x: Vec, y: Vec)
    requires Rect(A, m, n) && Rect(B, m, n) && maxK == (if n < m then n else m)
    requires forall h | 1 <= h < maxK + 1 :: CoveredSize(A, B, m, n, h, None, found)
    requires IsNash(A, B, m, n, x, y) && Determined(A, B, m, n, x, y)
    ensures Listed(found, x, y)
  {
    var s: seq<nat>, t: seq<nat> :| DeterminedBy(A, B, m, n, s, t, x, y);
    RoomAbove(s, |s|, m, 0);
    RoomAbove(t, |t|, n, 0);
    assert CoveredSize(A, B, m, n, |s|, None, found);
    assert CoveredRow(A, B, m, n, s, None, found);
    assert Covered(A, B, m, n, s, t, found);
  }

  /** s lists exactly the positions where v is nonzero. */
  ghost predicate IsSupport(v: Vec, s: seq<nat>) {
    IsSubset(s, |s|, |v|) && forall j | 0 <= j < |v| :: j in s <==> v[j] != 0.0
  }

  lemma {:induction false} SupportTight(own: Vec, w: Vec, top: real, n: nat, i: nat)
    requires i < n <= |own| && n <= |w|
    requires forall k | 0 <= k < n :: own[k] >= 0.0 && w[k] <= top
    requires DotTo(own, w, n) == top * SumTo(own, n) && own[i] > 0.0
    ensures w[i] == top
    decreases n
  {
    DotUpper(own, w, top, n - 1);
    assert top * SumTo(own, n) == top * SumTo(own, n - 1) + top * own[n - 1];
    var last, bound := own[n - 1] * w[n - 1], own[n - 1] * top;
    assert last <= bound;
    assert DotTo(own, w, n - 1) + last == top * SumTo(own, n - 1) + bound;
    assert last == bound && DotTo(own, w, n - 1) == top * SumTo(own, n - 1);
    if i < n - 1 {
      SupportTight(own, w, top, n - 1, i);
    } else {
      assert own[i] * (top - w[i]) == 0.0;
    }
  }

  /** At an equilibrium each player's support is indifferent against the other. */
  lemma EquilibriumHalf(M: Matrix, m: nat, n: nat, own: Vec, y: Vec, s: seq<nat>, t: seq<nat>)
    requires Rect(M, m, n) && IsDistribution(own, m) && IsDistribution(y, n) && NoPureGain(M, own, y)
    requires IsSupport(own, s) && IsSupport(y, t)
    ensures Answer(M, m, n, s, t, y)
  {
    var v := Payoff(M, own, y);
    var w := MatVec(M, y, n);
    forall i | 0 <= i < |s| ensures DotTo(M[s[i]], y, n) == v {
      assert s[i] in s;
      SupportTight(own, w, v, m, s[i]);
    }
    assert Indifferent(M, m, n, s, y, v);
  }

  /** An equilibrium whose supports have equal size and nonsingular systems is determined by
      them, hence listed by SolveAll. */
  lemma EqualSupportsDetermine(A: Matrix, B: Matrix, m: nat, n: nat, s: seq<nat>, t: seq<nat>, x: Vec, y: Vec)
    requires Rect(A, m, n) && Rect(B, m, n) && IsNash(A, B, m, n, x, y)
    requires IsSupport(x, s) && IsSupport(y, t) && |s| == |t| && BothSolvable(A, B, m, n, s, t)
    ensures Determined(A, B, m, n, x, y)
  {
    NashByPureDeviations(A, B, m, n, x, y);
    EquilibriumHalf(A, m, n, x, y, s, t);
    EquilibriumHalf(Transposed(B, m, n), n, m, y, x, t, s);
    if |s| == 0 {
      assert forall j | 0 <= j < m :: j !in s && x[j] == 0.0;
      NoWeightNoSum(x, m);
      assert false;
    }
    assert DeterminedBy(A, B, m, n, s, t, x, y);
  }

  lemma {:induction false} NoWeightNoSum(x: Vec, k: nat)
    requires k <= |x| && forall i | 0 <= i < k :: x[i] == 0.0
    ensures SumTo(x, k) == 0.0
  {
    if k > 0 {
      NoWeightNoSum(x, k - 1);
    }
  }

  // ---- An equilibrium the enumeration misses ----

  const NOTHING: Matrix := [[0.0, 0.0], [0.0, 0.0]]

  const HALVES: Vec := [0.5, 0.5]

  /** When nothing is at stake, two rows of the indifference system are the same. */
  lemma NothingUnsolvable(s: seq<nat>, t: seq<nat>)
    requires Supports(2, 2, s, t) && |s| == 2
    ensures !Solvable(NOTHING, 2, 2, s, t)
  {
    var v := [1.0, -1.0, 0.0];
    var S := System(NOTHING, 2, 2, s, t);
    forall r | 0 <= r < 3 ensures DotTo(S[r], v, 3) == 0.0 {
      assert S[r] == SystemRow(NOTHING, 2, 2, s, t, r);
      assert DotTo(S[r], v, 1) == S[r][0] && DotTo(S[r], v, 2) == S[r][0] - S[r][1];
    }
    assert v[0] != 0.0;
    assert KernelVector(S, 3, v);
  }

  /** Enumeration does not find all equilibria: mixing evenly in the game without stakes is one,
      and no supports determine it. */
  lemma EvenMixIsMissed()
    ensures IsNash(NOTHING, NOTHING, 2, 2, HALVES, HALVES) && !Determined(NOTHING, NOTHING, 2, 2, HALVES, HALVES)
  {
    var x, T := HALVES, Transposed(NOTHING, 2, 2);
    assert T[0] == NOTHING[0] && T[1] == NOTHING[1];
    assert T == NOTHING;
    assert SumTo(x, 1) == 0.5 && SumTo(x, 2) == 1.0;
    forall i | 0 <= i < 2 ensures MatVec(NOTHING, x, 2)[i] == 0.0 {
      assert DotTo(NOTHING[i], x, 1) == 0.0 && DotTo(NOTHING[i], x, 2) == 0.0;
    }
    var w := MatVec(NOTHING, x, 2);
    assert DotTo(x, w, 1) == x[0] * w[0] && DotTo(x, w, 2) == DotTo(x, w, 1) + x[1] * w[1];
    assert Payoff(NOTHING, x, x) == 0.0;
    NashByPureDeviations(NOTHING, NOTHING, 2, 2, x, x);
    forall s: seq<nat>, t: seq<nat> ensures !DeterminedBy(NOTHING, NOTHING, 2, 2, s, t, x, x) {
      if DeterminedBy(NOTHING, NOTHING, 2, 2, s, t, x, x) {
        assert x[0] != 0.0 && x[1] != 0.0;
        assert 0 in t && 1 in t;
        RoomAbove(t, |t|, 2, 0);
        NothingUnsolvable(s, t);
      }
    }
  }
}
