/** The Lemke-Howson solver: complementary pivoting on two tableaux, and why its answer is an equilibrium. */
module LemkeHowson {
  import opened ComplementaryRun
  import opened Finite
  import opened Games
  import opened LemkeHowsonPath
  import opened Orientation
  import opened Polytopes
  import opened Options
  import opened Tableaux
  import opened Vectors

  datatype SolverStatus = Converged | MaxIterations | NumericalFailure

  datatype EquilibriumResult = EquilibriumResult(
    status: SolverStatus, iterations: nat, x: Vec, y: Vec, payoff1: real, payoff2: real, residual: real)

  /** The pair of best-response polytopes of a game with positive payoffs A, B and a dropped label. */
  ghost function InstanceOf(A: Matrix, B: Matrix, m: nat, n: nat, d: nat): Instance
    requires Rect(A, m, n) && Rect(B, m, n)
  {
    Instance(Polytope(Transposed(B, m, n), n, m), Polytope(A, m, n), m, n, d)
  }

  lemma InstanceValid(A: Matrix, B: Matrix, m: nat, n: nat, d: nat)
    requires Rect(A, m, n) && Rect(B, m, n) && Positive(A, m, n) && Positive(B, m, n)
    requires m > 0 && n > 0 && d < m + n
    ensures InstanceOf(A, B, m, n, d).Valid()
  {}

  /** A starting row splits into the payoff part and its slack. */
  lemma {:induction false} StartRow(P: Polytope, z: Vec, i: nat, k: nat)
    requires Rect(P.c, P.rows, P.own) && |z| == P.Vars() && i < P.rows && k <= P.rows
    ensures DotTo(P.Start()[i], z, P.own + k) == DotTo(P.c[i], z[..P.own], P.own) + if i < k then z[P.own + i] else 0.0
  {
    if k == 0 {
      DotCong(P.Start()[i], z, P.c[i], z[..P.own], P.own);
    } else {
      StartRow(P, z, i, k - 1);
    }
  }

  /** At a solution, each row's payoff against the own variables is one minus the slack. */
  lemma RowPayoff(P: Polytope, z: Vec, i: nat)
    requires Rect(P.c, P.rows, P.own) && Solves(P.Start(), P.Vars(), z) && i < P.rows
    ensures DotTo(P.c[i], z[..P.own], P.own) == 1.0 - z[P.own + i]
  {
    StartRow(P, z, i, P.rows);
    assert P.own + P.rows == P.Vars();
    assert DotTo(P.Start()[i], z, P.Vars()) == P.Start()[i][P.Vars()] == 1.0;
  }

  function Normalised(raw: Vec, total: real): (x: Vec)
    requires total != 0.0
    ensures |x| == |raw|
  {
    seq(|raw|, i requires 0 <= i < |raw| => raw[i] / total)
  }

  /** The mixed strategy read off the first k coordinates of a point. */
  function Strategy(z: Vec, k: nat): (x: Vec)
    requires k <= |z| && SumTo(z[..k], k) > 0.0
    ensures |x| == k
  {
    Normalised(z[..k], SumTo(z[..k], k))
  }

  lemma NormalisedDistribution(raw: Vec)
    requires SumTo(raw, |raw|) > 0.0 && forall i | 0 <= i < |raw| :: raw[i] >= 0.0
    ensures IsDistribution(Normalised(raw, SumTo(raw, |raw|)), |raw|)
  {
    var total := SumTo(raw, |raw|);
    var x := Normalised(raw, total);
    forall i | 0 <= i < |raw| ensures x[i] == (1.0 / total) * raw[i] && x[i] >= 0.0 {
      DivIsScale(raw[i], total);
    }
    SumScaled(x, 1.0 / total, raw, |raw|);
  }

  /** Each payoff against a normalised strategy is at most 1/total, and exactly that where the slack is zero. */
  lemma NormalisedPayoff(P: Polytope, z: Vec, i: nat)
    requires Rect(P.c, P.rows, P.own) && Solves(P.Start(), P.Vars(), z) && i < P.rows
    requires SumTo(z[..P.own], P.own) > 0.0 && z[P.own + i] >= 0.0
    ensures var total := SumTo(z[..P.own], P.own);
            var v := DotTo(P.c[i], Normalised(z[..P.own], total), P.own);
            v <= 1.0 / total && (z[P.own + i] == 0.0 ==> v == 1.0 / total)
  {
    var raw := z[..P.own];
    var total := SumTo(raw, P.own);
    var x := Normalised(raw, total);
    forall k | 0 <= k < P.own ensures x[k] == (1.0 / total) * raw[k] {
      DivIsScale(raw[k], total);
    }
    DotComm(P.c[i], x, P.own);
    DotScaled(x, 1.0 / total, raw, P.c[i], P.own);
    DotComm(raw, P.c[i], P.own);
    RowPayoff(P, z, i);
    var s := z[P.own + i];
    assert (1.0 / total) * (1.0 - s) == 1.0 / total - (1.0 / total) * s;
    assert 1.0 / total > 0.0;
    assert (1.0 / total) * s >= 0.0;
  }

  /** One player's half of equilibrium: weights sit only where the slack against the opponent is zero. */
  lemma ComplementaryHalf(P: Polytope, z: Vec, w: Vec)
    requires Rect(P.c, P.rows, P.own) && Solves(P.Start(), P.Vars(), z) && |w| == P.Vars()
    requires forall v | 0 <= v < P.Vars() :: z[v] >= 0.0 && w[v] >= 0.0
    requires forall i | 0 <= i < P.rows :: w[i] == 0.0 || z[P.own + i] == 0.0
    requires SumTo(z[..P.own], P.own) > 0.0 && SumTo(w[..P.rows], P.rows) > 0.0
    ensures IsDistribution(Strategy(w, P.rows), P.rows)
    ensures NoPureGain(P.c, Strategy(w, P.rows), Strategy(z, P.own))
  {
    var own, total := Strategy(w, P.rows), SumTo(z[..P.own], P.own);
    var v := MatVec(P.c, Strategy(z, P.own), P.own);
    NormalisedDistribution(w[..P.rows]);
    forall i | 0 <= i < P.rows ensures v[i] <= 1.0 / total && (own[i] == 0.0 || v[i] == 1.0 / total) {
      NormalisedPayoff(P, z, i);
      assert w[i] == 0.0 ==> own[i] == 0.0;
    }
    DotTight(own, v, 1.0 / total, P.rows);
  }

  /** Points of the two polytopes in which every label has a zero variable on one side or the other. */
  ghost predicate ComplementaryPair(I: Instance, z1: Vec, z2: Vec)
    requires I.Valid()
  {
    && Solves(I.p1.Start(), I.m + I.n, z1) && Solves(I.p2.Start(), I.n + I.m, z2)
    && (forall v | 0 <= v < I.m + I.n :: z1[v] >= 0.0 && z2[v] >= 0.0)
    && (forall l | 0 <= l < I.m + I.n :: ZeroLabel(I, z1, z2, l))
  }

  ghost predicate ZeroLabel(I: Instance, z1: Vec, z2: Vec, l: nat)
    requires |z1| == |z2| == I.m + I.n && l < I.m + I.n
  {
    z1[I.VarOf(true, l)] == 0.0 || z2[I.VarOf(false, l)] == 0.0
  }

  lemma ComplementaryColumn(I: Instance, z1: Vec, z2: Vec)
    requires I.Valid() && ComplementaryPair(I, z1, z2)
    requires SumTo(z1[..I.m], I.m) > 0.0 && SumTo(z2[..I.n], I.n) > 0.0
    ensures IsDistribution(Strategy(z1, I.m), I.m) && NoPureGain(I.p2.c, Strategy(z1, I.m), Strategy(z2, I.n))
  {
    forall i | 0 <= i < I.m ensures z1[i] == 0.0 || z2[I.n + i] == 0.0 {
      assert ZeroLabel(I, z1, z2, i);
    }
    ComplementaryHalf(I.p2, z2, z1);
  }

  lemma ComplementaryNoGain(I: Instance, z1: Vec, z2: Vec)
    requires I.Valid() && ComplementaryPair(I, z1, z2)
    requires SumTo(z1[..I.m], I.m) > 0.0 && SumTo(z2[..I.n], I.n) > 0.0
    ensures IsDistribution(Strategy(z1, I.m), I.m) && IsDistribution(Strategy(z2, I.n), I.n)
    ensures NoPureGain(I.p2.c, Strategy(z1, I.m), Strategy(z2, I.n))
    ensures NoPureGain(I.p1.c, Strategy(z2, I.n), Strategy(z1, I.m))
  {
    forall j | 0 <= j < I.n ensures z2[j] == 0.0 || z1[I.m + j] == 0.0 {
      assert ZeroLabel(I, z1, z2, I.m + j);
    }
    ComplementaryHalf(I.p1, z1, z2);
    ComplementaryColumn(I, z1, z2);
  }

  /** Complementary vertices away from the origin, normalised, form a Nash equilibrium. */
  lemma ComplementaryVerticesAreNash(A: Matrix, B: Matrix, I: Instance, z1: Vec, z2: Vec)
    requires I.Valid() && Rect(A, I.m, I.n) && Rect(B, I.m, I.n) && I == InstanceOf(A, B, I.m, I.n, I.d)
    requires ComplementaryPair(I, z1, z2)
    requires SumTo(z1[..I.m], I.m) > 0.0 && SumTo(z2[..I.n], I.n) > 0.0
    ensures IsNash(A, B, I.m, I.n, Strategy(z1, I.m), Strategy(z2, I.n))
  {
    ComplementaryNoGain(I, z1, z2);
    NashByPureDeviations(A, B, I.m, I.n, Strategy(z1, I.m), Strategy(z2, I.n));
  }

  /** The ghost reading of two tableaux standing at a node of the path. */
  ghost predicate Standing(I: Instance, T1: Matrix, b1: seq<nat>, T2: Matrix, b2: seq<nat>, a: Node)
    requires I.Valid()
  {
    && Dictionary(I.p1, T1, b1) && Dictionary(I.p2, T2, b2)
    && a.v1 == SetOf(b1) && a.v2 == SetOf(b2)
  }

  /** At a last node each label has a zero variable in one of the tableaux. */
  lemma LastIsComplementary(I: Instance, T1: Matrix, b1: seq<nat>, T2: Matrix, b2: seq<nat>, a: Node, l: nat)
    requires I.Valid() && Standing(I, T1, b1, T2, b2, a) && IsLast(I, a) && l < I.m + I.n
    ensures BasicSolution(T1, b1, I.m + I.n)[I.VarOf(true, l)] == 0.0
            || BasicSolution(T2, b2, I.m + I.n)[I.VarOf(false, l)] == 0.0
  {
    assert !(Basic(I, a, true, l) && Basic(I, a, false, l));
    if !Basic(I, a, true, l) {
      assert I.VarOf(true, l) !in b1;
    } else {
      assert I.VarOf(false, l) !in b2;
    }
  }

  predicate ZeroOn(z: Vec, k: nat)
    requires k <= |z|
  {
    forall v | 0 <= v < k :: z[v] == 0.0
  }

  lemma SlacksOfOrigin(P: Polytope, z: Vec, i: nat)
    requires Rect(P.c, P.rows, P.own) && Solves(P.Start(), P.Vars(), z) && i < P.rows
    requires ZeroOn(z, P.own)
    ensures z[P.own + i] == 1.0
  {
    RowPayoff(P, z, i);
    DotZero(P.c[i], z[..P.own], P.own);
  }

  /** A vertex with all own variables zero has exactly the slacks as its basis. */
  lemma OriginBasis(P: Polytope, T: Matrix, b: seq<nat>)
    requires P.Valid() && Dictionary(P, T, b)
    requires ZeroOn(BasicSolution(T, b, P.Vars()), P.own)
    ensures SetOf(b) == SetOf(P.StartBasis())
  {
    var z := BasicSolution(T, b, P.Vars());
    BasicSolutionSolves(T, b, P.Vars());
    assert Solves(P.Start(), P.Vars(), z);
    var start := P.StartBasis();
    forall i | 0 <= i < |start| ensures start[i] in SetOf(b) {
      SlacksOfOrigin(P, z, i);
      assert z[start[i]] == 1.0;
    }
    SetSize(b);
    Pigeonhole(start, SetOf(start));
    SubsetOfSameSize(SetOf(start), SetOf(b));
  }

  lemma SubsetOfSameSize(s: set<nat>, t: set<nat>)
    requires s <= t && |t| <= |s|
    ensures s == t
  {
    assert t == s + (t - s);
    assert |t| == |s| + |t - s|;
  }

  ghost function FirstNode(I: Instance): Node
    requires I.Valid()
  {
    Node(SetOf(I.p1.StartBasis()), SetOf(I.p2.StartBasis()), I.d < I.m, I.d)
  }

  lemma FirstNodeIsFirst(I: Instance)
    requires I.Valid()
    ensures IsFirst(I, FirstNode(I)) && Path(I, [FirstNode(I)])
  {
    var a := FirstNode(I);
    forall l | 0 <= l < I.m + I.n ensures Basic(I, a, true, l) == (l >= I.m) && Basic(I, a, false, l) == (l < I.m) {
      if l >= I.m {
        assert I.p1.StartBasis()[l - I.m] == l;
      } else {
        assert I.p2.StartBasis()[l] == I.n + l;
      }
    }
  }

  /** A ratio-test pivot of the entering label is one step of the path. */
  lemma PivotIsStep(I: Instance, T: Matrix, b: seq<nat>, a: Node, r: nat) returns (a': Node)
    requires I.Valid() && Dictionary(I.Poly(a.inOne), T, b) && a.V(a.inOne) == SetOf(b)
    requires a.enter < I.m + I.n && !Basic(I, a, a.inOne, a.enter)
    requires RatioRow(T, I.m + I.n, I.VarOf(a.inOne, a.enter)) == Some(r)
    ensures Step(I, a, a')
    ensures var e := I.VarOf(a.inOne, a.enter);
            && Dictionary(I.Poly(a.inOne), Pivoted(T, I.m + I.n, r, e), b[r := e])
            && b[r] < I.m + I.n && a'.enter == I.LabelOf(a.inOne, b[r])
            && a'.V(a.inOne) == SetOf(b[r := e])
  {
    var c, nv, e := a.inOne, I.m + I.n, I.VarOf(a.inOne, a.enter);
    var P := I.Poly(c);
    RatioRowMinimal(T, nv, e, |T|);
    assert e !in b by { assert e !in SetOf(b); }
    PivotDictionary(P, T, b, e, r);
    SetOfUpdate(T, b, nv, r, e);
    var V' := SetOf(b[r := e]);
    a' := Node(if c then V' else a.v1, if c then a.v2 else V', !c, I.LabelOf(c, b[r]));
    assert EdgeAt(P, T, b, a.V(c), e, V', b[r]);
  }

  /** The polytopes of the game, once its payoffs are made positive, have no degenerate vertex. */
  ghost predicate NonDegenerateGame(A: Matrix, B: Matrix, m: nat, n: nat)
    requires Rect(A, m, n) && Rect(B, m, n) && m > 0 && n > 0
  {
    forall A': Matrix, B': Matrix, shift: real | IsPositiveShift(A, B, A', B', m, n, shift) ::
      InstanceOf(A', B', m, n, 0).NonDegenerate()
  }

  /** Reads the own variables of a player off the final tableau. */
  method ReadStrategy(tab: Tableau, k: nat) returns (raw: Vec, total: real)
    requires tab.Valid() && k <= tab.numVars && Canonical(tab.Table(), tab.basis[..], tab.numVars)
    ensures raw == BasicSolution(tab.Table(), tab.basis[..], tab.numVars)[..k]
    ensures total == SumTo(raw, k) >= 0.0
  {
    ghost var z := BasicSolution(tab.Table(), tab.basis[..], tab.numVars);
    BasicSolutionSolves(tab.Table(), tab.basis[..], tab.numVars);
    raw, total := [], 0.0;
    for i := 0 to k
      invariant raw == z[..i] && total == SumTo(raw, i)
    {
      var value := tab.GetValue(i);
      ghost var before := raw;
      raw := raw + [if value > 0.0 then value else 0.0];
      SumCong(before, raw, i);
      total := total + raw[i];
    }
    SumNonneg(raw, k);
  }

  /** Scales to a distribution; an all-zero strategy falls back to the uniform one. */
  method Normalise(raw: Vec, total: real) returns (x: Vec)
    requires |raw| > 0 && total == SumTo(raw, |raw|) && forall i | 0 <= i < |raw| :: raw[i] >= 0.0
    ensures IsDistribution(x, |raw|)
    ensures x == if total > 0.0 then Normalised(raw, total) else Uniform(|raw|)
  {
    if total > 0.0 {
      NormalisedDistribution(raw);
      return Normalised(raw, total);
    }
    UniformSums(|raw|, |raw|);
    return Uniform(|raw|);
  }

  function Uniform(n: nat): (x: Vec)
    requires n > 0
    ensures |x| == n
  {
    seq(n, _ => 1.0 / (n as real))
  }

  lemma {:induction false} UniformSums(n: nat, k: nat)
    requires 0 < n && k <= n
    ensures SumTo(Uniform(n), k) == k as real / n as real
  {
    if k > 0 {
      UniformSums(n, k - 1);
      assert (k as real) / (n as real) == ((k - 1) as real) / (n as real) + 1.0 / (n as real);
    }
  }

  method SlackForm(payoff: array2<real>) returns (c: array2<real>)
    ensures fresh(c) && c.Length0 == payoff.Length0 && c.Length1 == payoff.Length1 + payoff.Length0
    ensures forall i, v | 0 <= i < c.Length0 && 0 <= v < c.Length1 ::
              c[i, v] ==
              if v < payoff.Length1 then payoff[i, v] else if v == payoff.Length1 + i then 1.0 else 0.0
  {
    var rows, own := payoff.Length0, payoff.Length1;
    c := new real[rows, own + rows]((i, v) => 0.0);
    for i := 0 to rows
      invariant forall i', v | 0 <= i' < rows && 0 <= v < own + rows ::
          c[i', v] ==
          if i' >= i then 0.0 else if v < own then payoff[i', v] else if v == own + i' then 1.0 else 0.0
    {
      for j := 0 to own
        invariant forall i', v | 0 <= i' < rows && 0 <= v < own + rows && i' != i ::
            c[i', v] ==
            if i' >= i then 0.0 else if v < own then payoff[i', v] else if v == own + i' then 1.0 else 0.0
        invariant forall v | 0 <= v < own + rows :: c[i, v] == if v < j then payoff[i, v] else 0.0
      {
        c[i, j] := payoff[i, j];
      }
      c[i, own + i] := 1.0;
    }
  }

  /** The tableau of {z : payoff * own + slack = 1} standing at its origin. */
  method StartTableau(payoff: array2<real>, ghost P: Polytope) returns (tab: Tableau)
    requires P == Polytope(Rows(payoff), payoff.Length0, payoff.Length1) && P.Valid()
    ensures fresh(tab) && fresh(tab.tab) && fresh(tab.basis) && tab.Valid() && tab.numVars == P.Vars()
    ensures tab.Table() == P.Start() && tab.basis[..] == P.StartBasis()
    ensures Dictionary(P, tab.Table(), tab.basis[..])
  {
    var c := SlackForm(payoff);
    var basis := seq(payoff.Length0, i requires 0 <= i < payoff.Length0 => payoff.Length1 + i);
    tab := new Tableau(c, seq(payoff.Length0, _ => 1.0), basis);
    MatrixExt(tab.Table(), P.Start(), P.rows, P.Vars() + 1);
    assert basis == P.StartBasis();
    StartDictionary(P);
  }

  lemma VertexSolves(P: Polytope, T: Matrix, b: seq<nat>)
    requires P.Valid() && Dictionary(P, T, b)
    ensures Solves(P.Start(), P.Vars(), BasicSolution(T, b, P.Vars()))
    ensures forall v | 0 <= v < P.Vars() :: BasicSolution(T, b, P.Vars())[v] >= 0.0
  {
    BasicSolutionSolves(T, b, P.Vars());
  }

  /** The vertices of a last node are a complementary pair of points. */
  lemma LastVertices(I: Instance, T1: Matrix, b1: seq<nat>, T2: Matrix, b2: seq<nat>, a: Node)
    requires I.Valid() && Standing(I, T1, b1, T2, b2, a) && IsLast(I, a)
    ensures ComplementaryPair(I, BasicSolution(T1, b1, I.m + I.n), BasicSolution(T2, b2, I.m + I.n))
  {
    var z1, z2 := BasicSolution(T1, b1, I.m + I.n), BasicSolution(T2, b2, I.m + I.n);
    VertexSolves(I.p1, T1, b1);
    VertexSolves(I.p2, T2, b2);
    forall l | 0 <= l < I.m + I.n ensures ZeroLabel(I, z1, z2, l) {
      LastIsComplementary(I, T1, b1, T2, b2, a, l);
    }
  }

  /** If either player is left at the origin, both are, and the run is back at its first pair of vertices. */
  lemma OriginMeansStart(I: Instance, T1: Matrix, b1: seq<nat>, T2: Matrix, b2: seq<nat>, a: Node)
    requires I.Valid() && Standing(I, T1, b1, T2, b2, a) && IsLast(I, a)
    requires ZeroOn(BasicSolution(T1, b1, I.m + I.n), I.m) || ZeroOn(BasicSolution(T2, b2, I.m + I.n), I.n)
    ensures a.v1 == SetOf(I.p1.StartBasis()) && a.v2 == SetOf(I.p2.StartBasis())
  {
    LastVertices(I, T1, b1, T2, b2, a);
    OriginSpreads(I, BasicSolution(T1, b1, I.m + I.n), BasicSolution(T2, b2, I.m + I.n));
    OriginBasis(I.p1, T1, b1);
    OriginBasis(I.p2, T2, b2);
  }

  lemma OriginSpreads(I: Instance, z1: Vec, z2: Vec)
    requires I.Valid() && ComplementaryPair(I, z1, z2)
    requires ZeroOn(z1, I.m) || ZeroOn(z2, I.n)
    ensures ZeroOn(z1, I.m) && ZeroOn(z2, I.n)
  {
    if ZeroOn(z1, I.m) {
      forall j | 0 <= j < I.n ensures z2[j] == 0.0 {
        SlacksOfOrigin(I.p1, z1, j);
        assert ZeroLabel(I, z1, z2, I.m + j);
      }
    } else {
      forall i | 0 <= i < I.m ensures z1[i] == 0.0 {
        SlacksOfOrigin(I.p2, z2, i);
        assert ZeroLabel(I, z1, z2, i);
      }
    }
  }

  lemma {:induction false} ZeroSum(u: Vec, n: nat)
    requires n <= |u| && SumTo(u, n) <= 0.0 && forall i | 0 <= i < |u| :: u[i] >= 0.0
    ensures forall i | 0 <= i < n :: u[i] == 0.0
  {
    forall i | 0 <= i < n ensures u[i] == 0.0 {
      SumDominates(u, n, i);
    }
  }

  /** One player at the origin brings the other there as well. */
  lemma OriginBoth(I: Instance, T1: Matrix, b1: seq<nat>, T2: Matrix, b2: seq<nat>, a: Node)
    requires I.Valid() && Standing(I, T1, b1, T2, b2, a) && IsLast(I, a)
    requires || SumTo(BasicSolution(T1, b1, I.m + I.n)[..I.m], I.m) <= 0.0
             || SumTo(BasicSolution(T2, b2, I.m + I.n)[..I.n], I.n) <= 0.0
    ensures a.Pair() == FirstNode(I).Pair()
    ensures SumTo(BasicSolution(T1, b1, I.m + I.n)[..I.m], I.m) == 0.0
    ensures SumTo(BasicSolution(T2, b2, I.m + I.n)[..I.n], I.n) == 0.0
  {
    var z1, z2 := BasicSolution(T1, b1, I.m + I.n), BasicSolution(T2, b2, I.m + I.n);
    BasicSolutionSolves(T1, b1, I.m + I.n);
    BasicSolutionSolves(T2, b2, I.m + I.n);
    if SumTo(z1[..I.m], I.m) <= 0.0 {
      ZeroSum(z1[..I.m], I.m);
      assert forall i | 0 <= i < I.m :: z1[i] == z1[..I.m][i];
      assert ZeroOn(z1, I.m);
    } else {
      ZeroSum(z2[..I.n], I.n);
      assert forall j | 0 <= j < I.n :: z2[j] == z2[..I.n][j];
      assert ZeroOn(z2, I.n);
    }
    OriginMeansStart(I, T1, b1, T2, b2, a);
    SlackBasisSum(I.p1, T1, b1);
    SlackBasisSum(I.p2, T2, b2);
  }

  lemma {:induction false} AllZeroSum(u: Vec, n: nat)
    requires n <= |u| && forall i | 0 <= i < n :: u[i] == 0.0
    ensures SumTo(u, n) == 0.0
  {
    if n > 0 {
      AllZeroSum(u, n - 1);
    }
  }

  lemma SlackBasisSum(P: Polytope, T: Matrix, b: seq<nat>)
    requires P.Valid() && Dictionary(P, T, b) && SetOf(b) == SetOf(P.StartBasis())
    ensures SumTo(BasicSolution(T, b, P.Vars())[..P.own], P.own) == 0.0
  {
    forall v | 0 <= v < P.own ensures BasicSolution(T, b, P.Vars())[v] == 0.0 {
      assert v !in SetOf(P.StartBasis());
      assert v !in SetOf(b);
    }
    AllZeroSum(BasicSolution(T, b, P.Vars())[..P.own], P.own);
  }

  ghost predicate ReadsOff(T: Matrix, b: seq<nat>, nv: nat, k: nat, x: Vec)
    requires Rect(T, |b|, nv + 1) && 0 < k <= nv
  {
    var z := BasicSolution(T, b, nv);
    x == if SumTo(z[..k], k) > 0.0 then Strategy(z, k) else Uniform(k)
  }

  /** The strategies read off a last node form an equilibrium of the unshifted game. */
  lemma Finished(A: Matrix, B: Matrix, A': Matrix, B': Matrix, shift: real, I: Instance, T1: Matrix, b1: seq<nat>,
                 T2: Matrix, b2: seq<nat>, a: Node, x: Vec, y: Vec)
    requires I.m > 0 && I.n > 0 && I.d < I.m + I.n && IsPositiveShift(A, B, A', B', I.m, I.n, shift)
    requires I == InstanceOf(A', B', I.m, I.n, I.d) && I.Valid()
    requires IsLast(I, a) && Standing(I, T1, b1, T2, b2, a) && Oriented(I, T1, b1, T2, b2, a, true)
    requires ReadsOff(T1, b1, I.m + I.n, I.m, x) && ReadsOff(T2, b2, I.m + I.n, I.n, y)
    ensures IsNash(A, B, I.m, I.n, x, y)
  {
    NotAtOrigin(I, T1, b1, T2, b2, a);
    LastVertices(I, T1, b1, T2, b2, a);
    ComplementaryVerticesAreNash(A', B', I, BasicSolution(T1, b1, I.m + I.n), BasicSolution(T2, b2, I.m + I.n));
    ShiftKeepsNash(A, B, A', B', I.m, I.n, shift, x, y);
  }

  /** At the end of a run neither player's values sum to zero. */
  lemma NotAtOrigin(I: Instance, T1: Matrix, b1: seq<nat>, T2: Matrix, b2: seq<nat>, a: Node)
    requires I.Valid() && IsLast(I, a) && Standing(I, T1, b1, T2, b2, a) && Oriented(I, T1, b1, T2, b2, a, true)
    ensures SumTo(BasicSolution(T1, b1, I.m + I.n)[..I.m], I.m) > 0.0
    ensures SumTo(BasicSolution(T2, b2, I.m + I.n)[..I.n], I.n) > 0.0
  {
    if || SumTo(BasicSolution(T1, b1, I.m + I.n)[..I.m], I.m) <= 0.0
       || SumTo(BasicSolution(T2, b2, I.m + I.n)[..I.n], I.n) <= 0.0 {
      OriginBoth(I, T1, b1, T2, b2, a);
      hide Oriented;
      NeverAtOrigin(I, T1, b1, T2, b2, a);
      assert false;
    }
  }

  /** The answer read off two tableaux: strategies, their payoffs and their residual. */
  ghost predicate Extracted(A: Matrix, B: Matrix, m: nat, n: nat, T1: Matrix, b1: seq<nat>, T2: Matrix, b2: seq<nat>,
                            result: EquilibriumResult)
    requires Rect(A, m, n) && Rect(B, m, n) && m > 0 && n > 0 && Rect(T1, |b1|, m + n + 1) && Rect(T2, |b2|, m + n + 1)
  {
    && IsDistribution(result.x, m) && IsDistribution(result.y, n)
    && ReadsOff(T1, b1, m + n, m, result.x) && ReadsOff(T2, b2, m + n, n, result.y)
    && result.payoff1 == Payoff(A, result.x, result.y) && result.payoff2 == Payoff(B, result.x, result.y)
    && (result.residual == 0.0 <==> IsNash(A, B, m, n, result.x, result.y))
  }

  /** The answer extracted at a last node. */
  lemma Concluded(A: Matrix, B: Matrix, A': Matrix, B': Matrix, shift: real, I: Instance, T1: Matrix, b1: seq<nat>,
                  T2: Matrix, b2: seq<nat>, a: Node, result: EquilibriumResult)
    requires I.m > 0 && I.n > 0 && I.d < I.m + I.n && IsPositiveShift(A, B, A', B', I.m, I.n, shift)
    requires I == InstanceOf(A', B', I.m, I.n, I.d) && I.Valid()
    requires IsLast(I, a) && Standing(I, T1, b1, T2, b2, a) && Oriented(I, T1, b1, T2, b2, a, true)
    requires Extracted(A, B, I.m, I.n, T1, b1, T2, b2, result)
    ensures Answers(A, B, I.m, I.n, result)
  {
    Finished(A, B, A', B', shift, I, T1, b1, T2, b2, a, result.x, result.y);
  }

  lemma StandingCanonical(I: Instance, T1: Matrix, b1: seq<nat>, T2: Matrix, b2: seq<nat>, a: Node)
    requires I.Valid() && Standing(I, T1, b1, T2, b2, a)
    ensures Canonical(T1, b1, I.m + I.n) && Canonical(T2, b2, I.m + I.n)
  {}

  /** The end of a run of more than its start. */
  lemma EndStands(I: Instance, T1: Matrix, b1: seq<nat>, T2: Matrix, b2: seq<nat>, h: seq<Node>)
    requires I.Valid() && StandsAt(I, T1, b1, T2, b2, h) && |h| > 1
    ensures Standing(I, T1, b1, T2, b2, h[|h| - 1]) && Oriented(I, T1, b1, T2, b2, h[|h| - 1], true)
    ensures Canonical(T1, b1, I.m + I.n) && Canonical(T2, b2, I.m + I.n)
  {
    StandingCanonical(I, T1, b1, T2, b2, h[|h| - 1]);
  }

  /** A run on a nondegenerate game is short and never comes back to where it began. */
  lemma NonDegenerateRun(A: Matrix, B: Matrix, A': Matrix, B': Matrix, shift: real, I: Instance, h: seq<Node>)
    requires I.m > 0 && I.n > 0 && I.d < I.m + I.n && IsPositiveShift(A, B, A', B', I.m, I.n, shift)
    requires I == InstanceOf(A', B', I.m, I.n, I.d) && I.Valid() && NonDegenerateGame(A, B, I.m, I.n)
    requires Path(I, h) && (I.NonDegenerate() ==> NoRepeat(h, |h|))
    ensures |h| <= Pow2(I.m + I.n) * Pow2(I.m + I.n)
    ensures |h| > 1 ==> h[|h| - 1].Pair() != h[0].Pair()
  {
    assert InstanceOf(A', B', I.m, I.n, 0).NonDegenerate();
    assert I.NonDegenerate();
    PathLength(I, h);
  }

  lemma PositiveUnshifted(A: Matrix, B: Matrix, A': Matrix, B': Matrix, m: nat, n: nat, shift: real)
    requires IsPositiveShift(A, B, A', B', m, n, shift) && Positive(A, m, n) && Positive(B, m, n)
    ensures A' == A && B' == B
  {
    MatrixExt(A, A', m, n);
    MatrixExt(B, B', m, n);
  }

  /** Both tableaux at the origin, the dropped label about to enter. */
  ghost function StartPose(I: Instance): Pose
    requires I.Valid()
  {
    Pose(I.p1.Start(), I.p1.StartBasis(), I.p2.Start(), I.p2.StartBasis(), I.d < I.m,
         if I.d < I.m then I.d else I.d - I.m)
  }

  /** The run on the game with positive payoffs A, B sees its dropped label again within k turns. */
  ghost predicate ShiftedRunEnds(A: Matrix, B: Matrix, m: nat, n: nat, d: nat, k: int)
    requires m > 0 && n > 0 && d < m + n && Rect(A, m, n) && Rect(B, m, n)
  {
    var I := InstanceOf(A, B, m, n, d);
    I.Valid() && EndsWithin(StartPose(I), k, m, n, d)
  }

  /** The run on the game A, B, its payoffs made positive, sees its dropped label again within k turns. */
  ghost predicate GameRunEnds(A: Matrix, B: Matrix, m: nat, n: nat, d: nat, k: int)
    requires m > 0 && n > 0 && d < m + n && Rect(A, m, n) && Rect(B, m, n)
  {
    exists A': Matrix, B': Matrix, shift: real ::
      IsPositiveShift(A, B, A', B', m, n, shift) && ShiftedRunEnds(A', B', m, n, d, k)
  }

  lemma ShiftedRunDecides(A: Matrix, B: Matrix, A': Matrix, B': Matrix, shift: real, m: nat, n: nat, d: nat, k: int)
    requires m > 0 && n > 0 && d < m + n && IsPositiveShift(A, B, A', B', m, n, shift)
    ensures GameRunEnds(A, B, m, n, d, k) <==> ShiftedRunEnds(A', B', m, n, d, k)
  {
    if GameRunEnds(A, B, m, n, d, k) {
      var A2: Matrix, B2: Matrix, s2: real :|
        IsPositiveShift(A, B, A2, B2, m, n, s2) && ShiftedRunEnds(A2, B2, m, n, d, k);
      PositiveShiftOneWay(A, B, A', B', shift, A2, B2, s2, m, n);
    }
  }

  /** The game is nondegenerate, and there is an iteration for each pair of bases. */
  ghost predicate Enough(A: Matrix, B: Matrix, m: nat, n: nat, maxIter: int)
    requires Rect(A, m, n) && Rect(B, m, n) && m > 0 && n > 0
  {
    NonDegenerateGame(A, B, m, n) && maxIter >= Pow2(m + n) * Pow2(m + n)
  }

  /** The answer is an equilibrium of the game, with its payoffs and residual zero. */
  ghost predicate Answers(A: Matrix, B: Matrix, m: nat, n: nat, result: EquilibriumResult)
    requires Rect(A, m, n) && Rect(B, m, n) && m > 0 && n > 0
  {
    && IsNash(A, B, m, n, result.x, result.y) && result.residual == 0.0
    && result.payoff1 == Payoff(A, result.x, result.y) && result.payoff2 == Payoff(B, result.x, result.y)
  }

  // ---- What a run ends with ----

  /** x and y are the normalised strategies read off both tableaux. */
  ghost predicate Shows(q: Pose, m: nat, n: nat, x: Vec, y: Vec)
    requires m > 0 && n > 0
  {
    && Rect(q.t1, |q.b1|, m + n + 1) && Rect(q.t2, |q.b2|, m + n + 1)
    && ReadsOff(q.t1, q.b1, m + n, m, x) && ReadsOff(q.t2, q.b2, m + n, n, y)
  }

  /** The run on the game with positive payoffs A, B ends with turn k, its tableaux then showing x and y. */
  ghost predicate ShiftedRunGives(A: Matrix, B: Matrix, m: nat, n: nat, d: nat, k: nat, x: Vec, y: Vec)
    requires m > 0 && n > 0 && d < m + n && Rect(A, m, n) && Rect(B, m, n)
  {
    var I := InstanceOf(A, B, m, n, d);
    I.Valid() && exists q: Pose :: EndsAt(StartPose(I), k, q, m, n, d) && Shows(q, m, n, x, y)
  }

  /** The run on the game A, B, its payoffs made positive, ends with turn k, its tableaux then showing x and y. */
  ghost predicate GameRunGives(A: Matrix, B: Matrix, m: nat, n: nat, d: nat, k: nat, x: Vec, y: Vec)
    requires m > 0 && n > 0 && d < m + n && Rect(A, m, n) && Rect(B, m, n)
  {
    exists A': Matrix, B': Matrix, shift: real ::
      IsPositiveShift(A, B, A', B', m, n, shift) && ShiftedRunGives(A', B', m, n, d, k, x, y)
  }

  /** A dropped label determines what its run ends with. */
  lemma RunGivesOne(A: Matrix, B: Matrix, m: nat, n: nat, d: nat, k: nat, x: Vec, y: Vec, l: nat, u: Vec, v: Vec)
    requires m > 0 && n > 0 && d < m + n && Rect(A, m, n) && Rect(B, m, n)
    requires GameRunGives(A, B, m, n, d, k, x, y) && GameRunGives(A, B, m, n, d, l, u, v)
    ensures k == l && x == u && y == v
  {
    var A1: Matrix, B1: Matrix, s1: real :|
      IsPositiveShift(A, B, A1, B1, m, n, s1) && ShiftedRunGives(A1, B1, m, n, d, k, x, y);
    var A2: Matrix, B2: Matrix, s2: real :|
      IsPositiveShift(A, B, A2, B2, m, n, s2) && ShiftedRunGives(A2, B2, m, n, d, l, u, v);
    PositiveShiftOneWay(A, B, A1, B1, s1, A2, B2, s2, m, n);
    hide IsPositiveShift;
    ShiftedRunGivesOne(A1, B1, m, n, d, k, x, y, l, u, v);
  }

  lemma ShiftedRunGivesOne(A: Matrix, B: Matrix, m: nat, n: nat, d: nat, k: nat, x: Vec, y: Vec, l: nat, u: Vec, v: Vec)
    requires m > 0 && n > 0 && d < m + n && Rect(A, m, n) && Rect(B, m, n)
    requires ShiftedRunGives(A, B, m, n, d, k, x, y) && ShiftedRunGives(A, B, m, n, d, l, u, v)
    ensures k == l && x == u && y == v
  {
    var start := StartPose(InstanceOf(A, B, m, n, d));
    var q: Pose :| EndsAt(start, k, q, m, n, d) && Shows(q, m, n, x, y);
    var r: Pose :| EndsAt(start, l, r, m, n, d) && Shows(r, m, n, u, v);
    EndsOneWay(start, k, q, l, r, m, n, d);
  }

  /** The run from start ends with turn k, on these tableaux. */
  ghost predicate EndsOn(start: Pose, k: nat, t1: Matrix, b1: seq<nat>, t2: Matrix, b2: seq<nat>,
                         m: nat, n: nat, d: nat) {
    exists q: Pose :: EndsAt(start, k, q, m, n, d) && q.t1 == t1 && q.b1 == b1 && q.t2 == t2 && q.b2 == b2
  }

  lemma ShiftedGives(A: Matrix, B: Matrix, I: Instance, k: nat, T1: Matrix, b1: seq<nat>, T2: Matrix, b2: seq<nat>,
                     x: Vec, y: Vec)
    requires I.m > 0 && I.n > 0 && I.d < I.m + I.n && Rect(A, I.m, I.n) && Rect(B, I.m, I.n)
    requires I == InstanceOf(A, B, I.m, I.n, I.d) && I.Valid()
    requires EndsOn(StartPose(I), k, T1, b1, T2, b2, I.m, I.n, I.d)
    requires Rect(T1, |b1|, I.m + I.n + 1) && Rect(T2, |b2|, I.m + I.n + 1)
    requires ReadsOff(T1, b1, I.m + I.n, I.m, x) && ReadsOff(T2, b2, I.m + I.n, I.n, y)
    ensures ShiftedRunGives(A, B, I.m, I.n, I.d, k, x, y)
  {
    hide ReadsOff, EndsAt, InstanceOf, StartPose;
    var q: Pose :| EndsAt(StartPose(I), k, q, I.m, I.n, I.d) && q.t1 == T1 && q.b1 == b1 && q.t2 == T2 && q.b2 == b2;
    assert Shows(q, I.m, I.n, x, y);
  }

  lemma RunGives(A: Matrix, B: Matrix, A': Matrix, B': Matrix, shift: real, I: Instance, k: nat, T1: Matrix,
                 b1: seq<nat>, T2: Matrix, b2: seq<nat>, x: Vec, y: Vec)
    requires I.m > 0 && I.n > 0 && I.d < I.m + I.n && IsPositiveShift(A, B, A', B', I.m, I.n, shift)
    requires I == InstanceOf(A', B', I.m, I.n, I.d) && I.Valid()
    requires EndsOn(StartPose(I), k, T1, b1, T2, b2, I.m, I.n, I.d)
    requires Rect(T1, |b1|, I.m + I.n + 1) && Rect(T2, |b2|, I.m + I.n + 1)
    requires ReadsOff(T1, b1, I.m + I.n, I.m, x) && ReadsOff(T2, b2, I.m + I.n, I.n, y)
    ensures GameRunGives(A, B, I.m, I.n, I.d, k, x, y)
  {
    hide ShiftedRunGives, EndsOn, ReadsOff, StartPose;
    ShiftedGives(A', B', I, k, T1, b1, T2, b2, x, y);
  }

  /**
   The solver converges exactly if the run ends within its iteration limit; on a nondegenerate game, given one iteration
   for each pair of bases, it does. Then it has made as many iterations as the run has turns and answers with what the
   run ends with; otherwise it has made all it may.
   */
  ghost predicate Verdict(A: Matrix, B: Matrix, m: nat, n: nat, d: nat, maxIter: int, result: EquilibriumResult)
    requires Rect(A, m, n) && Rect(B, m, n) && m > 0 && n > 0 && d < m + n
  {
    && (result.status == Converged <==> GameRunEnds(A, B, m, n, d, maxIter))
    && (Enough(A, B, m, n, maxIter) ==> result.status == Converged)
    && (result.status == Converged ==>
          && Answers(A, B, m, n, result) && result.iterations <= maxIter
          && GameRunGives(A, B, m, n, d, result.iterations, result.x, result.y))
    && (result.status != Converged ==>
          result.status == MaxIterations && result.iterations == if maxIter > 0 then maxIter else 0)
  }

  lemma RunVerdict(A: Matrix, B: Matrix, A': Matrix, B': Matrix, shift: real, I: Instance, h: seq<Node>, maxIter: int,
                   result: EquilibriumResult)
    requires I.m > 0 && I.n > 0 && I.d < I.m + I.n && IsPositiveShift(A, B, A', B', I.m, I.n, shift)
    requires I == InstanceOf(A', B', I.m, I.n, I.d) && I.Valid() && Path(I, h)
    requires I.NonDegenerate() ==> NoRepeat(h, |h|)
    requires result.status == Converged <==> EndsWithin(StartPose(I), maxIter, I.m, I.n, I.d)
    requires result.status == Converged ==>
               && Answers(A, B, I.m, I.n, result) && result.iterations <= maxIter
               && GameRunGives(A, B, I.m, I.n, I.d, result.iterations, result.x, result.y)
    requires result.status != Converged ==>
               && result.status == MaxIterations && result.iterations == (if maxIter > 0 then maxIter else 0)
               && |h| == result.iterations + 1
    ensures Verdict(A, B, I.m, I.n, I.d, maxIter, result)
  {
    ShiftedRunDecides(A, B, A', B', shift, I.m, I.n, I.d, maxIter);
    hide GameRunGives, Answers;
    if NonDegenerateGame(A, B, I.m, I.n) {
      NonDegenerateRun(A, B, A', B', shift, I, h);
    }
  }

  // ---- Runs of the loop, on values ----

  /** The tableaux stand at the end of the run h. */
  ghost predicate StandsAt(I: Instance, t1: Matrix, b1: seq<nat>, t2: Matrix, b2: seq<nat>, h: seq<Node>)
    requires I.Valid()
  {
    && Path(I, h) && h[0] == FirstNode(I) && (I.NonDegenerate() ==> NoRepeat(h, |h|))
    && Standing(I, t1, b1, t2, b2, h[|h| - 1]) && Oriented(I, t1, b1, t2, b2, h[|h| - 1], |h| > 1)
  }

  ghost predicate RunningAt(I: Instance, p: Pose, h: seq<Node>)
    requires I.Valid()
  {
    && StandsAt(I, p.t1, p.b1, p.t2, p.b2, h) && h[|h| - 1].enter < I.m + I.n
    && p.inOne == h[|h| - 1].inOne && p.enterVar == I.VarOf(p.inOne, h[|h| - 1].enter)
  }

  /** The run h from start, which has come to p, has not ended. */
  ghost predicate LoopingAt(I: Instance, start: Pose, p: Pose, h: seq<Node>)
    requires I.Valid()
  {
    && RunningAt(I, p, h) && (|h| > 1 ==> h[|h| - 1].enter != I.d)
    && ComesTo(start, |h| - 1, p, I.m, I.n) && !EndsWithin(start, |h| - 1, I.m, I.n, I.d)
  }

  /** The run h from start has just ended, at p. */
  ghost predicate EndedAt(I: Instance, start: Pose, p: Pose, h: seq<Node>)
    requires I.Valid()
  {
    && RunningAt(I, p, h) && |h| > 1 && IsLast(I, h[|h| - 1])
    && EndsWithin(start, |h| - 1, I.m, I.n, I.d) && EndsAt(start, |h| - 1, p, I.m, I.n, I.d)
  }

  lemma LoopStarts(I: Instance)
    requires I.Valid()
    ensures LoopingAt(I, StartPose(I), StartPose(I), [FirstNode(I)])
  {
    FirstNodeIsFirst(I);
    StartDictionary(I.p1);
    StartDictionary(I.p2);
    StartOriented(I, FirstNode(I));
    ComesFirst(StartPose(I), I.m, I.n, I.d);
  }

  /** As long as the run has not ended, the ratio test finds a row. */
  lemma PivotExists(I: Instance, start: Pose, p: Pose, h: seq<Node>)
    requires I.Valid() && LoopingAt(I, start, p, h)
    ensures Rect(p.T(), |p.T()|, I.m + I.n + 1) && |p.B()| == |p.T()| && p.enterVar < I.m + I.n
    ensures RatioRow(p.T(), I.m + I.n, p.enterVar).Some?
    ensures forall i | 0 <= i < |p.B()| :: p.B()[i] < I.m + I.n
  {
    hide LoopingAt, Equivalent, Basic;
    EntersFresh(I, start, p, h);
    NeverUnbounded(I.Poly(p.inOne), p.T(), p.B(), p.enterVar);
  }

  lemma EntersFresh(I: Instance, start: Pose, p: Pose, h: seq<Node>)
    requires I.Valid() && LoopingAt(I, start, p, h)
    ensures Dictionary(I.Poly(p.inOne), p.T(), p.B()) && p.enterVar < I.m + I.n && p.enterVar !in p.B()
    ensures !Basic(I, h[|h| - 1], p.inOne, h[|h| - 1].enter) && h[|h| - 1].V(p.inOne) == SetOf(p.B())
  {
    var a := h[|h| - 1];
    assert |h| == 1 ==> IsFirst(I, a);
    assert !Basic(I, a, p.inOne, a.enter);
    assert p.enterVar !in SetOf(p.B());
  }

  /** A turn is a step of the path, on the tableaux as on their bases. */
  lemma TurnIsStep(I: Instance, p: Pose, leave: nat, q: Pose, a: Node) returns (b: Node)
    requires I.Valid() && Standing(I, p.t1, p.b1, p.t2, p.b2, a) && Turn(p, leave, q, I.m, I.n)
    requires a.enter < I.m + I.n && p.inOne == a.inOne && p.enterVar == I.VarOf(a.inOne, a.enter)
    requires !Basic(I, a, a.inOne, a.enter)
    ensures Step(I, a, b) && Standing(I, q.t1, q.b1, q.t2, q.b2, b)
    ensures Moves(I, p.t1, p.b1, p.t2, p.b2, a, q.t1, q.b1, q.t2, q.b2, b)
    ensures b.enter < I.m + I.n && b.enter == LabelLeaving(p.inOne, leave, I.m, I.n)
    ensures q.inOne == b.inOne && q.enterVar == I.VarOf(q.inOne, b.enter)
  {
    hide Dictionary;
    b := PivotIsStep(I, p.T(), p.B(), a, RatioRow(p.T(), I.m + I.n, p.enterVar).value);
  }

  lemma StandsOn(I: Instance, p: Pose, q: Pose, h: seq<Node>, b: Node)
    requires I.Valid() && StandsAt(I, p.t1, p.b1, p.t2, p.b2, h) && (|h| > 1 ==> h[|h| - 1].enter != I.d)
    requires Step(I, h[|h| - 1], b) && Standing(I, q.t1, q.b1, q.t2, q.b2, b)
    requires Moves(I, p.t1, p.b1, p.t2, p.b2, h[|h| - 1], q.t1, q.b1, q.t2, q.b2, b)
    ensures StandsAt(I, q.t1, q.b1, q.t2, q.b2, h + [b]) && (b.enter == I.d ==> IsLast(I, b))
  {
    hide Standing, Step, Moves, Oriented;
    ExtendPath(I, h, b);
    MoveKeepsOriented(I, p.t1, p.b1, p.t2, p.b2, h[|h| - 1], |h| > 1, q.t1, q.b1, q.t2, q.b2, b);
  }

  /** A turn of the loop: the run grows by a node, and the label that leaves tells whether it has ended. */
  lemma TurnTaken(I: Instance, start: Pose, p: Pose, leave: nat, q: Pose, h: seq<Node>) returns (b: Node)
    requires I.Valid() && LoopingAt(I, start, p, h) && Turn(p, leave, q, I.m, I.n)
    ensures LabelLeaving(p.inOne, leave, I.m, I.n) == I.d ==> EndedAt(I, start, q, h + [b])
    ensures LabelLeaving(p.inOne, leave, I.m, I.n) != I.d ==> LoopingAt(I, start, q, h + [b])
  {
    var k := |h| - 1;
    EntersFresh(I, start, p, h);
    b := TurnOnward(I, start, p, leave, q, h);
    hide StandsAt, ComesTo, EndsWithin, EndsAt, IsLast;
    assert (h + [b])[k + 1] == b;
    TurnTells(start, k, p, leave, q, LabelLeaving(p.inOne, leave, I.m, I.n), I.m, I.n, I.d);
  }

  lemma TurnOnward(I: Instance, start: Pose, p: Pose, leave: nat, q: Pose, h: seq<Node>) returns (b: Node)
    requires I.Valid() && LoopingAt(I, start, p, h) && Turn(p, leave, q, I.m, I.n)
    ensures RunningAt(I, q, h + [b]) && b.enter == LabelLeaving(p.inOne, leave, I.m, I.n)
    ensures b.enter == I.d ==> IsLast(I, b)
  {
    EntersFresh(I, start, p, h);
    b := TurnIsStep(I, p, leave, q, h[|h| - 1]);
    hide StandsAt;
    StandsOn(I, p, q, h, b);
    assert (h + [b])[|h|] == b;
  }

  /** A player's strategy, read off the final tableau and normalised. */
  method ReadNormalised(tab: Tableau, k: nat) returns (x: Vec)
    requires tab.Valid() && 0 < k <= tab.numVars && Canonical(tab.Table(), tab.basis[..], tab.numVars)
    ensures IsDistribution(x, k) && ReadsOff(tab.Table(), tab.basis[..], tab.numVars, k, x)
  {
    var raw, total := ReadStrategy(tab, k);
    BasicSolutionSolves(tab.Table(), tab.basis[..], tab.numVars);
    x := Normalise(raw, total);
  }

  /** Labels out of range are read as the first. */
  function ClampLabel(wanted: int, total: nat): (l: nat)
    requires total > 0
    ensures l < total && (0 <= wanted < total ==> l == wanted)
  {
    if wanted < 0 || wanted >= total then 0 else wanted
  }

  lemma ExtractedReads(A: Matrix, B: Matrix, I: Instance, T1: Matrix, b1: seq<nat>, T2: Matrix, b2: seq<nat>, a: Node,
                       result: EquilibriumResult)
    requires I.m > 0 && I.n > 0 && Rect(A, I.m, I.n) && Rect(B, I.m, I.n) && I.Valid()
    requires Standing(I, T1, b1, T2, b2, a) && Extracted(A, B, I.m, I.n, T1, b1, T2, b2, result)
    ensures Rect(T1, |b1|, I.m + I.n + 1) && Rect(T2, |b2|, I.m + I.n + 1)
    ensures ReadsOff(T1, b1, I.m + I.n, I.m, result.x) && ReadsOff(T2, b2, I.m + I.n, I.n, result.y)
  {
    hide Oriented, ReadsOff;
  }

  /** The run on the positive copy of the game of A and B ends after k turns on these tableaux. */
  ghost predicate Concluding(A: Matrix, B: Matrix, A': Matrix, B': Matrix, shift: real, I: Instance, k: nat, T1: Matrix,
                             b1: seq<nat>, T2: Matrix, b2: seq<nat>, h: seq<Node>)
  {
    && I.m > 0 && I.n > 0 && I.d < I.m + I.n && IsPositiveShift(A, B, A', B', I.m, I.n, shift)
    && Rect(A, I.m, I.n) && Rect(B, I.m, I.n) && I == InstanceOf(A', B', I.m, I.n, I.d) && I.Valid()
    && Rect(T1, |b1|, I.m + I.n + 1) && Rect(T2, |b2|, I.m + I.n + 1)
    && |h| > 1 && IsLast(I, h[|h| - 1]) && StandsAt(I, T1, b1, T2, b2, h)
    && EndsOn(StartPose(I), k, T1, b1, T2, b2, I.m, I.n, I.d)
  }

  /** The answer extracted at a last node is an equilibrium, and what the run ends with. */
  lemma ConcludesRun(A: Matrix, B: Matrix, A': Matrix, B': Matrix, shift: real, I: Instance, k: nat, T1: Matrix,
                     b1: seq<nat>, T2: Matrix, b2: seq<nat>, h: seq<Node>, result: EquilibriumResult)
    requires Concluding(A, B, A', B', shift, I, k, T1, b1, T2, b2, h)
    requires Extracted(A, B, I.m, I.n, T1, b1, T2, b2, result)
    ensures Answers(A, B, I.m, I.n, result) && GameRunGives(A, B, I.m, I.n, I.d, k, result.x, result.y)
  {
    var a := h[|h| - 1];
    EndStands(I, T1, b1, T2, b2, h);
    ExtractedReads(A, B, I, T1, b1, T2, b2, a, result);
    hide Standing, Oriented, IsLast, Answers, GameRunGives, EndsOn, Extracted, Rect, ReadsOff, IsPositiveShift;
    Concluded(A, B, A', B', shift, I, T1, b1, T2, b2, a, result);
    RunGives(A, B, A', B', shift, I, k, T1, b1, T2, b2, result.x, result.y);
  }

  // ---- The runs of all labels ----

  /** The verdicts on the first labels, in order. */
  ghost predicate RunsOf(A: Matrix, B: Matrix, m: nat, n: nat, maxIter: int, runs: seq<EquilibriumResult>)
    requires Rect(A, m, n) && Rect(B, m, n) && m > 0 && n > 0
  {
    |runs| <= m + n && forall d | 0 <= d < |runs| :: Verdict(A, B, m, n, d, maxIter, runs[d])
  }

  function Iterations(runs: seq<EquilibriumResult>): nat {
    if runs == [] then 0 else Iterations(runs[..|runs| - 1]) + runs[|runs| - 1].iterations
  }

  predicate SameProfile(a: EquilibriumResult, b: EquilibriumResult) { a.x == b.x && a.y == b.y }

  /** The answers kept: from labels in increasing order, no profile twice, and the profile of every converged run, kept
      from that label or an earlier one. */
  ghost predicate Keeps(runs: seq<EquilibriumResult>, found: seq<EquilibriumResult>, labels: seq<nat>) {
    && |labels| == |found|
    && (forall k | 0 <= k < |found| ::
          labels[k] < |runs| && runs[labels[k]] == found[k] && found[k].status == Converged)
    && (forall j, k | 0 <= j < k < |found| :: labels[j] < labels[k] && !SameProfile(found[j], found[k]))
    && (forall d | 0 <= d < |runs| && runs[d].status == Converged :: KeptBy(found, labels, runs[d], d))
  }

  ghost predicate KeptBy(found: seq<EquilibriumResult>, labels: seq<nat>, eq: EquilibriumResult, d: nat)
    requires |labels| == |found|
  {
    exists k :: 0 <= k < |found| && labels[k] <= d && SameProfile(found[k], eq)
  }

  /** The answer of a converged run is kept unless its profile is listed already. */
  predicate Grown(found: seq<EquilibriumResult>, eq: EquilibriumResult, more: seq<EquilibriumResult>) {
    var isNew := eq.status == Converged && forall k | 0 <= k < |found| :: !SameProfile(found[k], eq);
    more == if isNew then found + [eq] else found
  }

  lemma NoRuns(A: Matrix, B: Matrix, m: nat, n: nat, maxIter: int)
    requires Rect(A, m, n) && Rect(B, m, n) && m > 0 && n > 0
    ensures RunsOf(A, B, m, n, maxIter, []) && Keeps([], [], []) && Iterations([]) == 0
  {}

  /** One more run: its answer joins the list exactly if it converged with a new profile. */
  lemma KeptOn(runs: seq<EquilibriumResult>, found: seq<EquilibriumResult>, labels: seq<nat>, eq: EquilibriumResult,
               more: seq<EquilibriumResult>) returns (labels': seq<nat>)
    requires Keeps(runs, found, labels) && Grown(found, eq, more)
    ensures Keeps(runs + [eq], more, labels')
  {
    if more == found {
      labels' := labels;
      KeptSame(runs, found, labels, eq);
    } else {
      labels' := labels + [|runs|];
      KeptNew(runs, found, labels, eq);
    }
  }

  lemma KeptSame(runs: seq<EquilibriumResult>, found: seq<EquilibriumResult>, labels: seq<nat>, eq: EquilibriumResult)
    requires Keeps(runs, found, labels)
    requires eq.status == Converged ==> exists k :: 0 <= k < |found| && SameProfile(found[k], eq)
    ensures Keeps(runs + [eq], found, labels)
  {
    var all := runs + [eq];
    forall d | 0 <= d < |all| && all[d].status == Converged ensures KeptBy(found, labels, all[d], d) {
      if d < |runs| {
        assert KeptBy(found, labels, runs[d], d);
      } else {
        var k :| 0 <= k < |found| && SameProfile(found[k], eq);
        assert labels[k] <= d;
      }
    }
    hide SameProfile, KeptBy;
  }

  lemma KeptNew(runs: seq<EquilibriumResult>, found: seq<EquilibriumResult>, labels: seq<nat>, eq: EquilibriumResult)
    requires Keeps(runs, found, labels)
    requires eq.status == Converged && forall k | 0 <= k < |found| :: !SameProfile(found[k], eq)
    ensures Keeps(runs + [eq], found + [eq], labels + [|runs|])
  {
    var all, more, labels' := runs + [eq], found + [eq], labels + [|runs|];
    forall d | 0 <= d < |all| && all[d].status == Converged ensures KeptBy(more, labels', all[d], d) {
      if d < |runs| {
        assert KeptBy(found, labels, runs[d], d);
        KeptStays(found, labels, runs[d], d, eq, |runs|);
      } else {
        assert SameProfile(more[|found|], eq) && labels'[|found|] == d;
      }
    }
    hide SameProfile, KeptBy;
  }

  lemma KeptStays(found: seq<EquilibriumResult>, labels: seq<nat>, eq: EquilibriumResult, d: nat,
                  last: EquilibriumResult, from: nat)
    requires |labels| == |found| && KeptBy(found, labels, eq, d)
    ensures KeptBy(found + [last], labels + [from], eq, d)
  {
    var k :| 0 <= k < |found| && labels[k] <= d && SameProfile(found[k], eq);
    assert (labels + [from])[k] == labels[k] && (found + [last])[k] == found[k];
  }

  lemma RunsOn(A: Matrix, B: Matrix, m: nat, n: nat, maxIter: int, runs: seq<EquilibriumResult>, eq: EquilibriumResult)
    requires Rect(A, m, n) && Rect(B, m, n) && m > 0 && n > 0 && RunsOf(A, B, m, n, maxIter, runs)
    requires |runs| < m + n && Verdict(A, B, m, n, |runs|, maxIter, eq)
    ensures RunsOf(A, B, m, n, maxIter, runs + [eq]) && Iterations(runs + [eq]) == Iterations(runs) + eq.iterations
  {
    hide Verdict;
    IterationsOn(runs, eq);
    hide Iterations;
  }

  lemma IterationsOn(runs: seq<EquilibriumResult>, eq: EquilibriumResult)
    ensures Iterations(runs + [eq]) == Iterations(runs) + eq.iterations
  {
    assert (runs + [eq])[..|runs|] == runs;
  }

  /** x and y are in the list. */
  predicate HasProfile(found: seq<EquilibriumResult>, x: Vec, y: Vec) {
    exists i :: 0 <= i < |found| && found[i].x == x && found[i].y == y
  }

  /** The strategies come from the run of some label, which took so many iterations. */
  ghost predicate SomeRunGives(A: Matrix, B: Matrix, m: nat, n: nat, eq: EquilibriumResult)
    requires Rect(A, m, n) && Rect(B, m, n) && m > 0 && n > 0
  {
    exists d: nat :: d < m + n && GameRunGives(A, B, m, n, d, eq.iterations, eq.x, eq.y)
  }

  /** The list holds what the run of every label that ends in time ends with, and nothing else. */
  ghost predicate ListsRuns(A: Matrix, B: Matrix, m: nat, n: nat, maxIter: int, found: seq<EquilibriumResult>)
    requires Rect(A, m, n) && Rect(B, m, n) && m > 0 && n > 0
  {
    && (forall d: nat, k: nat, x: Vec, y: Vec |
          d < m + n && k <= maxIter && GameRunGives(A, B, m, n, d, k, x, y) :: HasProfile(found, x, y))
    && (forall i | 0 <= i < |found| :: found[i].iterations <= maxIter && SomeRunGives(A, B, m, n, found[i]))
  }

  lemma ListsAll(A: Matrix, B: Matrix, m: nat, n: nat, maxIter: int, runs: seq<EquilibriumResult>,
                 found: seq<EquilibriumResult>, labels: seq<nat>)
    requires Rect(A, m, n) && Rect(B, m, n) && m > 0 && n > 0 && RunsOf(A, B, m, n, maxIter, runs)
    requires |runs| == m + n && Keeps(runs, found, labels)
    ensures forall d: nat, k: nat, x: Vec, y: Vec |
              d < m + n && k <= maxIter && GameRunGives(A, B, m, n, d, k, x, y) :: HasProfile(found, x, y)
  {
    forall d: nat, k: nat, x: Vec, y: Vec | d < m + n && k <= maxIter && GameRunGives(A, B, m, n, d, k, x, y)
      ensures HasProfile(found, x, y)
    {
      GivesEnds(A, B, m, n, d, k, x, y, maxIter);
      hide GameRunGives, GameRunEnds, Answers, Enough;
      assert Verdict(A, B, m, n, d, maxIter, runs[d]);
      RunGivesOne(A, B, m, n, d, k, x, y, runs[d].iterations, runs[d].x, runs[d].y);
      assert KeptBy(found, labels, runs[d], d);
    }
  }

  /** A run that ends with turn k ends within any limit from k on. */
  lemma GivesEnds(A: Matrix, B: Matrix, m: nat, n: nat, d: nat, k: nat, x: Vec, y: Vec, limit: int)
    requires m > 0 && n > 0 && d < m + n && Rect(A, m, n) && Rect(B, m, n)
    requires GameRunGives(A, B, m, n, d, k, x, y) && k <= limit
    ensures GameRunEnds(A, B, m, n, d, limit)
  {
    var A1: Matrix, B1: Matrix, s1: real :|
      IsPositiveShift(A, B, A1, B1, m, n, s1) && ShiftedRunGives(A1, B1, m, n, d, k, x, y);
    var start := StartPose(InstanceOf(A1, B1, m, n, d));
    var q: Pose :| EndsAt(start, k, q, m, n, d) && Shows(q, m, n, x, y);
    EndsNotBefore(start, k, q, k, m, n, d);
    WithinMore(start, k, limit, m, n, d);
    assert ShiftedRunEnds(A1, B1, m, n, d, limit);
  }

  lemma ListsOnly(A: Matrix, B: Matrix, m: nat, n: nat, maxIter: int, runs: seq<EquilibriumResult>,
                  found: seq<EquilibriumResult>, labels: seq<nat>)
    requires Rect(A, m, n) && Rect(B, m, n) && m > 0 && n > 0 && RunsOf(A, B, m, n, maxIter, runs)
    requires |runs| == m + n && Keeps(runs, found, labels)
    ensures forall i | 0 <= i < |found| :: found[i].iterations <= maxIter && SomeRunGives(A, B, m, n, found[i])
  {
    hide GameRunGives, GameRunEnds, Answers, Enough;
    forall i | 0 <= i < |found|
      ensures found[i].iterations <= maxIter && SomeRunGives(A, B, m, n, found[i])
    {
      assert Verdict(A, B, m, n, labels[i], maxIter, runs[labels[i]]);
    }
  }

  lemma KeptAnswers(A: Matrix, B: Matrix, m: nat, n: nat, maxIter: int, runs: seq<EquilibriumResult>,
                    found: seq<EquilibriumResult>, labels: seq<nat>)
    requires Rect(A, m, n) && Rect(B, m, n) && m > 0 && n > 0 && RunsOf(A, B, m, n, maxIter, runs)
    requires |runs| == m + n && Keeps(runs, found, labels)
    ensures LemkeHowsonSolver.AllAnswers(A, B, m, n, found) && ListsRuns(A, B, m, n, maxIter, found)
    ensures Enough(A, B, m, n, maxIter) ==> found != []
  {
    ListsAll(A, B, m, n, maxIter, runs, found, labels);
    ListsOnly(A, B, m, n, maxIter, runs, found, labels);
    AllAnswer(A, B, m, n, maxIter, runs, found, labels);
    EnoughFinds(A, B, m, n, maxIter, runs, found, labels);
    hide GameRunGives, Answers, Enough, SomeRunGives, HasProfile, RunsOf, Keeps, LemkeHowsonSolver.AllAnswers;
  }

  lemma AllAnswer(A: Matrix, B: Matrix, m: nat, n: nat, maxIter: int, runs: seq<EquilibriumResult>,
                  found: seq<EquilibriumResult>, labels: seq<nat>)
    requires Rect(A, m, n) && Rect(B, m, n) && m > 0 && n > 0 && RunsOf(A, B, m, n, maxIter, runs)
    requires Keeps(runs, found, labels)
    ensures LemkeHowsonSolver.AllAnswers(A, B, m, n, found)
  {
    hide GameRunGives, GameRunEnds, Answers, Enough;
    forall k | 0 <= k < |found| ensures Answers(A, B, m, n, found[k]) {
      assert Verdict(A, B, m, n, labels[k], maxIter, runs[labels[k]]);
    }
    hide RunsOf, Verdict;
    assert forall j, k | 0 <= j < k < |found| :: !SameProfile(found[j], found[k]);
  }

  lemma EnoughFinds(A: Matrix, B: Matrix, m: nat, n: nat, maxIter: int, runs: seq<EquilibriumResult>,
                    found: seq<EquilibriumResult>, labels: seq<nat>)
    requires Rect(A, m, n) && Rect(B, m, n) && m > 0 && n > 0 && RunsOf(A, B, m, n, maxIter, runs)
    requires |runs| == m + n && Keeps(runs, found, labels)
    ensures Enough(A, B, m, n, maxIter) ==> found != []
  {
    hide GameRunGives, GameRunEnds, Answers, Enough;
    if Enough(A, B, m, n, maxIter) {
      assert Verdict(A, B, m, n, 0, maxIter, runs[0]);
      assert KeptBy(found, labels, runs[0], 0);
    }
  }

  class LemkeHowsonSolver {
    const dropLabel: int
    const maxIter: int

    constructor (dropLabel: int, maxIter: int)
      ensures this.dropLabel == dropLabel && this.maxIter == maxIter
    {
      this.dropLabel, this.maxIter := dropLabel, maxIter;
    }

    /** Normalised strategies, their payoffs and residual, read off the two final tableaux. */
    method Extract(game: BimatrixGame, tab1: Tableau, tab2: Tableau, iterations: nat)
      returns (result: EquilibriumResult)
      requires game.Valid() && tab1.Valid() && tab2.Valid()
      requires tab1.numVars == tab2.numVars == game.rows + game.cols
      requires Canonical(tab1.Table(), tab1.basis[..], tab1.numVars)
      requires Canonical(tab2.Table(), tab2.basis[..], tab2.numVars)
      ensures result.status == Converged && result.iterations == iterations
      ensures Extracted(game.A(), game.B(), game.rows, game.cols, old(tab1.Table()), old(tab1.basis[..]),
                        old(tab2.Table()), old(tab2.basis[..]), result)
    {
      ghost var T1, b1, T2, b2 := tab1.Table(), tab1.basis[..], tab2.Table(), tab2.basis[..];
      var x := ReadNormalised(tab1, game.rows);
      var y := ReadNormalised(tab2, game.cols);
      assert ReadsOff(T1, b1, game.rows + game.cols, game.rows, x)
             && ReadsOff(T2, b2, game.rows + game.cols, game.cols, y);
      var payoff1 := game.ExpectedPayoff1(x, y);
      var payoff2 := game.ExpectedPayoff2(x, y);
      var residual := NashResidual(game, x, y);
      result := EquilibriumResult(Converged, iterations, x, y, payoff1, payoff2, residual);
    }

    /** Complementary pivoting after dropping `dropped`: a converged answer is an equilibrium, of any game. */
    method RunPivoting(original: BimatrixGame, dropped: nat) returns (result: EquilibriumResult)
      requires original.Valid() && dropped < original.rows + original.cols
      ensures Verdict(original.A(), original.B(), original.rows, original.cols, dropped, maxIter, result)
    {
      hide GameRunGives, Answers, EndsOn, EndsWithin, StandsAt;
      var tab1, tab2, converged, iterations, A, B, shift, I, h := PivotFrom(original, dropped);
      result := Report(original, tab1, tab2, converged, iterations, A, B, shift, I, h);
      RunningRun(I, tab1, tab2, h);
      RunVerdict(original.A(), original.B(), A, B, shift, I, h, maxIter, result);
    }

    /** Builds the tableaux and pivots until the dropped label is seen again or the iterations run out. */
    method PivotFrom(original: BimatrixGame, dropped: nat)
      returns (tab1: Tableau, tab2: Tableau, converged: bool, iterations: nat, ghost A: Matrix, ghost B: Matrix,
               ghost shift: real, ghost I: Instance, ghost h: seq<Node>)
      requires original.Valid() && dropped < original.rows + original.cols
      ensures IsPositiveShift(original.A(), original.B(), A, B, original.rows, original.cols, shift)
      ensures I == InstanceOf(A, B, original.rows, original.cols, dropped) && I.Valid() && Running(I, tab1, tab2, h)
      ensures |h| == iterations + 1 && Counted(I, tab1, tab2, converged, iterations, maxIter)
      ensures converged ==> |h| > 1 && IsLast(I, h[|h| - 1])
      ensures converged <==> EndsWithin(StartPose(I), maxIter, I.m, I.n, dropped)
    {
      var m, n := original.rows, original.cols;
      ghost var A0, B0 := original.A(), original.B();
      tab1, tab2, A, B, shift := BuildTableaux(original, dropped);
      I := InstanceOf(A, B, m, n, dropped);
      converged, iterations, h := PivotLoop(tab1, tab2, m, n, dropped, I);
      assert original.A() == A0 && original.B() == B0;
    }

    /** The answer of a converged run, or the report that the iterations ran out. */
    method Report(original: BimatrixGame, tab1: Tableau, tab2: Tableau, converged: bool, iterations: nat,
                  ghost A: Matrix, ghost B: Matrix, ghost shift: real, ghost I: Instance, ghost h: seq<Node>)
      returns (result: EquilibriumResult)
      requires original.Valid() && I.m == original.rows && I.n == original.cols && I.d < I.m + I.n
      requires IsPositiveShift(original.A(), original.B(), A, B, I.m, I.n, shift)
      requires I == InstanceOf(A, B, I.m, I.n, I.d) && I.Valid() && Running(I, tab1, tab2, h)
      requires converged ==> |h| > 1 && IsLast(I, h[|h| - 1])
      requires Counted(I, tab1, tab2, converged, iterations, maxIter)
      ensures result.status == (if converged then Converged else MaxIterations) && result.iterations == iterations
      ensures converged ==>
                && Answers(original.A(), original.B(), original.rows, original.cols, result)
                && GameRunGives(original.A(), original.B(), original.rows, original.cols, I.d, iterations,
                                result.x, result.y)
    {
      if converged {
        result := Conclude(original, tab1, tab2, iterations, A, B, shift, I, h);
      } else {
        result := EquilibriumResult(MaxIterations, iterations, [], [], 0.0, 0.0, 0.0);
      }
    }

    /** The answer of a run that has seen its dropped label again. */
    method Conclude(original: BimatrixGame, tab1: Tableau, tab2: Tableau, iterations: nat, ghost A: Matrix,
                    ghost B: Matrix, ghost shift: real, ghost I: Instance, ghost h: seq<Node>)
      returns (result: EquilibriumResult)
      requires original.Valid() && I.m == original.rows && I.n == original.cols && Apart(I, tab1, tab2)
      requires Concluding(original.A(), original.B(), A, B, shift, I, iterations, tab1.Table(), tab1.basis[..],
                          tab2.Table(), tab2.basis[..], h)
      ensures result.status == Converged && result.iterations == iterations
      ensures Answers(original.A(), original.B(), original.rows, original.cols, result)
      ensures GameRunGives(original.A(), original.B(), original.rows, original.cols, I.d, iterations,
                           result.x, result.y)
    {
      ghost var T1, b1, T2, b2 := tab1.Table(), tab1.basis[..], tab2.Table(), tab2.basis[..];
      ghost var payoff1, payoff2 := original.A(), original.B();
      EndStands(I, T1, b1, T2, b2, h);
      hide Concluding, Answers, GameRunGives, Canonical, Extracted;
      result := Extract(original, tab1, tab2, iterations);
      ConcludesRun(payoff1, payoff2, A, B, shift, I, iterations, T1, b1, T2, b2, h, result);
      assert original.A() == payoff1 && original.B() == payoff2;
    }

    /** Copies the game, makes its payoffs positive and sets both tableaux at the origin. */
    method BuildTableaux(original: BimatrixGame, dropped: nat)
      returns (tab1: Tableau, tab2: Tableau, ghost A: Matrix, ghost B: Matrix, ghost shift: real)
      requires original.Valid() && dropped < original.rows + original.cols
      ensures fresh(tab1.tab) && fresh(tab1.basis) && fresh(tab2.tab) && fresh(tab2.basis)
      ensures IsPositiveShift(original.A(), original.B(), A, B, original.rows, original.cols, shift)
      ensures var I := InstanceOf(A, B, original.rows, original.cols, dropped);
              I.Valid() && Apart(I, tab1, tab2)
              && PoseOf(tab1, tab2, dropped < I.m, if dropped < I.m then dropped else dropped - I.m) == StartPose(I)
    {
      var game := new BimatrixGame(original.payoff1, original.payoff2);
      shift := game.MakePositive();
      A, B := game.A(), game.B();
      ghost var I := InstanceOf(A, B, original.rows, original.cols, dropped);
      InstanceValid(A, B, original.rows, original.cols, dropped);
      var bt := Transpose(game.payoff2);
      tab1 := StartTableau(bt, I.p1);
      tab2 := StartTableau(game.payoff1, I.p2);
    }

    /** Two tableaux of their own, over the variables of the instance. */
    static ghost predicate Apart(I: Instance, tab1: Tableau, tab2: Tableau) {
      && tab1.Valid() && tab2.Valid() && tab1.numVars == tab2.numVars == I.m + I.n
      && tab1.tab != tab2.tab && tab1.basis != tab2.basis
    }

    /** The tableaux stand at the end of the run h. */
    static ghost predicate Running(I: Instance, tab1: Tableau, tab2: Tableau, h: seq<Node>)
      requires I.Valid()
      reads tab1.tab, tab1.basis, tab2.tab, tab2.basis
    {
      Apart(I, tab1, tab2) && StandsAt(I, tab1.Table(), tab1.basis[..], tab2.Table(), tab2.basis[..], h)
    }

    /** The iterations are the turns of the run if it has ended, and all that are allowed if not. */
    static ghost predicate Counted(I: Instance, tab1: Tableau, tab2: Tableau, converged: bool, iterations: nat,
                                   maxIter: int)
      requires I.Valid() && tab1.Valid() && tab2.Valid()
      reads tab1.tab, tab1.basis, tab2.tab, tab2.basis
    {
      if converged then
        && iterations <= maxIter
        && EndsOn(StartPose(I), iterations, tab1.Table(), tab1.basis[..], tab2.Table(), tab2.basis[..], I.m, I.n, I.d)
      else iterations == if maxIter > 0 then maxIter else 0
    }

    /** The run behind two tableaux, as a path. */
    static lemma RunningRun(I: Instance, tab1: Tableau, tab2: Tableau, h: seq<Node>)
      requires I.Valid() && Running(I, tab1, tab2, h)
      ensures Path(I, h) && (I.NonDegenerate() ==> NoRepeat(h, |h|))
    {}

    static ghost function PoseOf(tab1: Tableau, tab2: Tableau, inOne: bool, enterVar: nat): Pose
      requires tab1.Valid() && tab2.Valid()
      reads tab1.tab, tab1.basis, tab2.tab, tab2.basis
    {
      Pose(tab1.Table(), tab1.basis[..], tab2.Table(), tab2.basis[..], inOne, enterVar)
    }

    /** Pivots in the designated tableau; the other keeps its values. */
    static method PivotNext(tab1: Tableau, tab2: Tableau, pivotIn1: bool, enterVar: nat, ghost I: Instance)
      returns (leave: nat)
      requires Apart(I, tab1, tab2) && enterVar < I.m + I.n
      requires RatioRow(if pivotIn1 then tab1.Table() else tab2.Table(), I.m + I.n, enterVar).Some?
      modifies tab1.tab, tab1.basis, tab2.tab, tab2.basis
      ensures pivotIn1 ==>
                && PivotsTo(old(tab1.Table()), old(tab1.basis[..]), I.m + I.n, enterVar, tab1.Table(), tab1.basis[..],
                            leave)
                && tab2.Table() == old(tab2.Table()) && tab2.basis[..] == old(tab2.basis[..])
      ensures !pivotIn1 ==>
                && PivotsTo(old(tab2.Table()), old(tab2.basis[..]), I.m + I.n, enterVar, tab2.Table(), tab2.basis[..],
                            leave)
                && tab1.Table() == old(tab1.Table()) && tab1.basis[..] == old(tab1.basis[..])
    {
      var leaveVar: Option<nat>;
      if pivotIn1 {
        leaveVar := tab1.Pivot(enterVar);
      } else {
        leaveVar := tab2.Pivot(enterVar);
      }
      // The exit for an unbounded column is never taken: a pivot row always exists.
      assert leaveVar.Some?;
      leave := leaveVar.value;
    }

    /** One turn, the label that left, and the variable that enters the other tableau next. */
    static method NextLabel(tab1: Tableau, tab2: Tableau, m: nat, n: nat, pivotIn1: bool, enterVar: nat,
                            ghost I: Instance, ghost h: seq<Node>, ghost start: Pose)
      returns (newLabel: nat, next: nat, ghost b: Node)
      requires I.Valid() && m == I.m && n == I.n && Apart(I, tab1, tab2)
      requires LoopingAt(I, start, PoseOf(tab1, tab2, pivotIn1, enterVar), h)
      modifies tab1.tab, tab1.basis, tab2.tab, tab2.basis
      ensures newLabel == I.d ==> EndedAt(I, start, PoseOf(tab1, tab2, !pivotIn1, next), h + [b])
      ensures newLabel != I.d ==> LoopingAt(I, start, PoseOf(tab1, tab2, !pivotIn1, next), h + [b])
    {
      hide LoopingAt, EndedAt;
      ghost var p := PoseOf(tab1, tab2, pivotIn1, enterVar);
      PivotExists(I, start, p, h);
      var leave := PivotNext(tab1, tab2, pivotIn1, enterVar, I);
      newLabel := if pivotIn1 then leave else if leave < n then m + leave else leave - n;
      if pivotIn1 {
        next := if newLabel < m then n + newLabel else newLabel - m;
      } else {
        next := newLabel;
      }
      b := TurnTaken(I, start, p, leave, PoseOf(tab1, tab2, !pivotIn1, next), h);
    }

    /** Alternates between the tableaux until the dropped label leaves or the iterations run out. */
    method PivotLoop(tab1: Tableau, tab2: Tableau, m: nat, n: nat, dropped: nat, ghost I: Instance)
      returns (converged: bool, iterations: nat, ghost h: seq<Node>)
      requires I.Valid() && I.m == m && I.n == n && I.d == dropped && Apart(I, tab1, tab2)
      requires PoseOf(tab1, tab2, dropped < m, if dropped < m then dropped else dropped - m) == StartPose(I)
      modifies tab1.tab, tab1.basis, tab2.tab, tab2.basis
      ensures StandsAt(I, tab1.Table(), tab1.basis[..], tab2.Table(), tab2.basis[..], h) && |h| == iterations + 1
      ensures converged ==> |h| > 1 && IsLast(I, h[|h| - 1])
      ensures Counted(I, tab1, tab2, converged, iterations, maxIter)
      ensures converged <==> EndsWithin(StartPose(I), maxIter, m, n, dropped)
    {
      hide ComesTo, EndsWithin, EndsAt, StandsAt;
      var pivotIn1 := dropped < m;
      var enterVar: nat := if pivotIn1 then dropped else dropped - m;
      ghost var start := StartPose(I);
      LoopStarts(I);
      h := [FirstNode(I)];
      iterations := 0;
      while iterations < maxIter
        invariant LoopingAt(I, start, PoseOf(tab1, tab2, pivotIn1, enterVar), h) && |h| == iterations + 1
        invariant iterations == 0 || iterations <= maxIter
      {
        var newLabel, next, b := NextLabel(tab1, tab2, m, n, pivotIn1, enterVar, I, h, start);
        iterations := iterations + 1;
        h := h + [b];
        if newLabel == dropped {
          WithinMore(start, iterations, maxIter, m, n, dropped);
          return true, iterations, h;
        }
        pivotIn1 := !pivotIn1;
        enterVar := next;
      }
      NotWithin(start, maxIter, iterations, m, n, dropped);
      return false, iterations, h;
    }

    /** Drops the configured label. */
    method Solve(game: BimatrixGame) returns (result: EquilibriumResult)
      requires game.Valid()
      ensures var m, n := game.rows, game.cols;
              Verdict(game.A(), game.B(), m, n, ClampLabel(dropLabel, m + n), maxIter, result)
    {
      result := RunPivoting(game, ClampLabel(dropLabel, game.rows + game.cols));
    }

    /** Whether the same strategies are in the list already. */
    static method Listed(found: seq<EquilibriumResult>, eq: EquilibriumResult) returns (dup: bool)
      ensures dup <==> exists k :: 0 <= k < |found| && found[k].x == eq.x && found[k].y == eq.y
    {
      dup := false;
      var k := 0;
      while k < |found| && !dup
        invariant k <= |found| && (dup <==> exists j :: 0 <= j < k && found[j].x == eq.x && found[j].y == eq.y)
      {
        dup := found[k].x == eq.x && found[k].y == eq.y;
        k := k + 1;
      }
    }

    /** No profile twice, and all of them equilibria. */
    static ghost predicate AllAnswers(A: Matrix, B: Matrix, m: nat, n: nat, found: seq<EquilibriumResult>)
      requires Rect(A, m, n) && Rect(B, m, n) && m > 0 && n > 0
    {
      && (forall k | 0 <= k < |found| :: Answers(A, B, m, n, found[k]))
      && (forall j, k | 0 <= j < k < |found| :: found[j].x != found[k].x || found[j].y != found[k].y)
    }

    /** Drops every label in turn and keeps the different answers, in the order they are found: the list holds what each
        run that ends in time ends with, once, and nothing else. */
    method SolveMultiple(game: BimatrixGame)
      returns (status: SolverStatus, equilibria: seq<EquilibriumResult>, totalIterations: nat)
      requires game.Valid()
      ensures AllAnswers(game.A(), game.B(), game.rows, game.cols, equilibria)
      ensures ListsRuns(game.A(), game.B(), game.rows, game.cols, maxIter, equilibria)
      ensures var m, n := game.rows, game.cols;
              exists runs: seq<EquilibriumResult>, labels: seq<nat> ::
                && RunsOf(game.A(), game.B(), m, n, maxIter, runs) && |runs| == m + n
                && Keeps(runs, equilibria, labels) && totalIterations == Iterations(runs)
      ensures Enough(game.A(), game.B(), game.rows, game.cols, maxIter) ==> equilibria != []
      ensures status == if equilibria == [] then NumericalFailure else Converged
    {
      ghost var runs, labels;
      equilibria, totalIterations, runs, labels := RunAll(game);
      hide RunsOf, Keeps, ListsRuns, AllAnswers, Enough;
      KeptAnswers(game.A(), game.B(), game.rows, game.cols, maxIter, runs, equilibria, labels);
      status := if equilibria == [] then NumericalFailure else Converged;
    }

    method RunAll(game: BimatrixGame)
      returns (equilibria: seq<EquilibriumResult>, totalIterations: nat, ghost runs: seq<EquilibriumResult>,
               ghost labels: seq<nat>)
      requires game.Valid()
      ensures RunsOf(game.A(), game.B(), game.rows, game.cols, maxIter, runs) && |runs| == game.rows + game.cols
      ensures Keeps(runs, equilibria, labels) && totalIterations == Iterations(runs)
    {
      equilibria, totalIterations := [], 0;
      ghost var m, n := game.rows, game.cols;
      runs, labels := [], [];
      var dropped := 0;
      NoRuns(game.A(), game.B(), m, n, maxIter);
      hide RunsOf, Keeps, Verdict, Grown, Iterations;
      while dropped < game.rows + game.cols
        invariant dropped == |runs| <= m + n && RunsOf(game.A(), game.B(), m, n, maxIter, runs)
        invariant Keeps(runs, equilibria, labels) && totalIterations == Iterations(runs)
      {
        var turns: nat;
        equilibria, turns, runs, labels := RunNext(game, dropped, equilibria, runs, labels);
        totalIterations := totalIterations + turns;
        dropped := dropped + 1;
      }
    }

    /** The run of one more label, and its answer added to those kept. */
    method RunNext(game: BimatrixGame, dropped: nat, found: seq<EquilibriumResult>, ghost runs: seq<EquilibriumResult>,
                   ghost labels: seq<nat>)
      returns (more: seq<EquilibriumResult>, turns: nat, ghost runs': seq<EquilibriumResult>, ghost labels': seq<nat>)
      requires game.Valid() && dropped == |runs| < game.rows + game.cols && Keeps(runs, found, labels)
      requires RunsOf(game.A(), game.B(), game.rows, game.cols, maxIter, runs)
      ensures RunsOf(game.A(), game.B(), game.rows, game.cols, maxIter, runs') && Keeps(runs', more, labels')
      ensures |runs'| == |runs| + 1 && Iterations(runs') == Iterations(runs) + turns
    {
      hide RunsOf, Keeps, Verdict, Grown, Iterations;
      var eq := RunPivoting(game, dropped);
      more := Added(found, eq);
      turns := eq.iterations;
      labels' := KeptOn(runs, found, labels, eq, more);
      RunsOn(game.A(), game.B(), game.rows, game.cols, maxIter, runs, eq);
      runs' := runs + [eq];
    }

    static method Added(found: seq<EquilibriumResult>, eq: EquilibriumResult) returns (more: seq<EquilibriumResult>)
      ensures Grown(found, eq, more)
    {
      more := found;
      if eq.status == Converged {
        var dup := Listed(found, eq);
        if !dup {
          more := found + [eq];
        }
      }
    }
  }
}
