/**
 A best-response polytope {z >= 0 : C z_own + z_slack = 1} with positive C, its canonical tableaux
 ("dictionaries"), and the graph whose edges are ratio-test pivots.
 */
module Polytopes {
  import opened Vectors
  import opened Finite
  import opened Tableaux

  datatype Polytope = Polytope(c: Matrix, rows: nat, own: nat) {
    ghost predicate Valid() {
      && rows > 0 && own > 0 && Rect(c, rows, own)
      && forall i, j | 0 <= i < rows && 0 <= j < own :: c[i][j] > 0.0
    }

    function Vars(): nat { own + rows }

    /** The starting tableau [C | I | 1]: own variables first, then one slack for each row. */
    function Start(): (t: Matrix)
      requires Rect(c, rows, own)
      ensures Rect(t, rows, Vars() + 1)
    {
      seq(rows, i requires 0 <= i < rows => seq(Vars() + 1, v requires 0 <= v < Vars() + 1 =>
          if v < own then c[i][v] else if v == Vars() || v == own + i then 1.0 else 0.0))
    }

    function StartBasis(): (b: seq<nat>)
      ensures |b| == rows && forall i | 0 <= i < rows :: b[i] == own + i
    {
      seq(rows, i requires 0 <= i < rows => own + i)
    }
  }

  /** T is a feasible canonical form of the polytope's own system. */
  ghost predicate Dictionary(P: Polytope, T: Matrix, b: seq<nat>)
    requires Rect(P.c, P.rows, P.own)
  {
    |b| == P.rows && Canonical(T, b, P.Vars()) && Equivalent(P.Start(), T, P.Vars())
  }

  /** Every vertex has all its basic variables strictly positive. */
  ghost predicate NonDegenerate(P: Polytope)
    requires Rect(P.c, P.rows, P.own)
  {
    forall T: Matrix, b: seq<nat> | Dictionary(P, T, b) :: forall i | 0 <= i < |b| :: T[i][P.Vars()] > 0.0
  }

  /** From a vertex with basic variables V, bringing in e drives l out. */
  ghost predicate Edge(P: Polytope, V: set<nat>, e: nat, V': set<nat>, l: nat)
    requires Rect(P.c, P.rows, P.own)
  {
    exists T: Matrix, b: seq<nat> :: EdgeAt(P, T, b, V, e, V', l)
  }

  ghost predicate EdgeAt(P: Polytope, T: Matrix, b: seq<nat>, V: set<nat>, e: nat, V': set<nat>, l: nat)
    requires Rect(P.c, P.rows, P.own)
  {
    && Dictionary(P, T, b) && SetOf(b) == V && e < P.Vars() && e !in V
    && RatioRow(T, P.Vars(), e).Some?
    && l == b[RatioRow(T, P.Vars(), e).value]
    && V' == V + {e} - {l}
  }

  lemma StartDictionary(P: Polytope)
    requires P.Valid()
    ensures Dictionary(P, P.Start(), P.StartBasis())
  {
    var T, b := P.Start(), P.StartBasis();
    forall i, k | 0 <= i < |b| && 0 <= k < |b| ensures T[i][b[k]] == if i == k then 1.0 else 0.0 {
      assert b[k] == P.own + k;
    }
  }

  lemma SetOfUpdate(T: Matrix, b: seq<nat>, nv: nat, r: nat, e: nat)
    requires Canonical(T, b, nv) && r < |b| && e !in b
    ensures SetOf(b[r := e]) == SetOf(b) + {e} - {b[r]}
  {
    var b' := b[r := e];
    forall v ensures v in SetOf(b') <==> v in SetOf(b) + {e} - {b[r]} {
      if v in b' {
        var k :| 0 <= k < |b'| && b'[k] == v;
        if k != r && b[k] == b[r] {
          CanonicalDistinct(T, b, nv, k, r);
        }
      }
      if v in b && v != b[r] {
        var k :| 0 <= k < |b| && b[k] == v;
        assert b'[k] == v;
      }
      assert b'[r] == e;
    }
  }

  lemma PivotDictionary(P: Polytope, T: Matrix, b: seq<nat>, e: nat, r: nat)
    requires P.Valid() && Dictionary(P, T, b) && e < P.Vars() && e !in b
    requires r < |b| && T[r][e] > 0.0
    requires forall i | 0 <= i < |T| && T[i][e] > 0.0 :: Ratio(T, P.Vars(), e, r) <= Ratio(T, P.Vars(), e, i)
    ensures Dictionary(P, Pivoted(T, P.Vars(), r, e), b[r := e])
  {
    var nv := P.Vars();
    PivotKeepsCanonical(T, b, nv, r, e);
    PivotKeepsSolutions(T, nv, r, e);
    var T' := Pivoted(T, nv, r, e);
    forall z: Vec ensures Solves(P.Start(), nv, z) <==> Solves(T', nv, z) {
      assert Solves(P.Start(), nv, z) <==> Solves(T, nv, z);
      assert Solves(T, nv, z) <==> Solves(T', nv, z);
    }
  }

  /** The point reached from a vertex by raising the nonbasic variable e to t. */
  function Raised(T: Matrix, b: seq<nat>, nv: nat, e: nat, t: real): (z: Vec)
    requires Rect(T, |b|, nv + 1) && e < nv
    ensures |z| == nv
  {
    seq(nv, v requires 0 <= v < nv =>
      if v == e then t else if v in b then T[IndexOf(b, v)][nv] - T[IndexOf(b, v)][e] * t else 0.0)
  }

  lemma RaisedAt(T: Matrix, b: seq<nat>, nv: nat, e: nat, t: real, i: nat)
    requires Canonical(T, b, nv) && e < nv && e !in b && i < |b|
    ensures Raised(T, b, nv, e, t)[b[i]] == T[i][nv] - T[i][e] * t
  {
    CanonicalDistinct(T, b, nv, i, IndexOf(b, b[i]));
  }

  lemma RaisedSolves(T: Matrix, b: seq<nat>, nv: nat, e: nat, t: real)
    requires Canonical(T, b, nv) && e < nv && e !in b
    ensures Solves(T, nv, Raised(T, b, nv, e, t))
  {
    var z := Raised(T, b, nv, e, t);
    forall i | 0 <= i < |T| ensures DotTo(T[i], z, nv) == T[i][nv] {
      SparseRow(T, b, nv, z, e, i);
      RaisedAt(T, b, nv, e, t, i);
    }
  }

  /** Positive payoffs bound the polytope, so a pivot on a nonbasic variable always finds a row. */
  lemma NeverUnbounded(P: Polytope, T: Matrix, b: seq<nat>, e: nat)
    requires P.Valid() && Dictionary(P, T, b) && e < P.Vars() && e !in b
    ensures RatioRow(T, P.Vars(), e).Some?
  {
    var nv := P.Vars();
    RatioRowMinimal(T, nv, e, |T|);
    if RatioRow(T, nv, e).None? {
      var S := P.Start();
      var q := if e < P.own then 0 else e - P.own;
      var c := S[q][e];
      var t := 1.0 / c + 1.0;
      var z := Raised(T, b, nv, e, t);
      assert c * t == 1.0 + c;
      RaisedSolves(T, b, nv, e, t);
      assert Solves(S, nv, z);
      assert DotTo(S[q], z, nv) == 1.0;
      RaisedNonneg(T, b, nv, e, t);
      DotDominates(S[q], z, nv, e);
      assert false;
    }
  }

  /** Without a positive coefficient in its column, a variable can be raised for ever. */
  lemma RaisedNonneg(T: Matrix, b: seq<nat>, nv: nat, e: nat, t: real)
    requires Canonical(T, b, nv) && e < nv && e !in b && t >= 0.0 && forall i | 0 <= i < |b| :: T[i][e] <= 0.0
    ensures forall v | 0 <= v < nv :: Raised(T, b, nv, e, t)[v] >= 0.0
  {
    forall v | 0 <= v < nv ensures Raised(T, b, nv, e, t)[v] >= 0.0 {
      if v in b && v != e {
        var i := IndexOf(b, v);
        assert T[i][e] * t <= 0.0;
      }
    }
  }

  /** The basic set determines a dictionary, row by row. */
  lemma SameRow(P: Polytope, T: Matrix, b: seq<nat>, T': Matrix, b': seq<nat>, e: nat, i: nat, i': nat)
    requires P.Valid() && Dictionary(P, T, b) && Dictionary(P, T', b')
    requires SetOf(b) == SetOf(b') && e < P.Vars() && e !in SetOf(b)
    requires i < |b| && i' < |b'| && b[i] == b'[i']
    ensures T[i][P.Vars()] == T'[i'][P.Vars()] && T[i][e] == T'[i'][e]
  {
    SameRowAt(P, T, b, T', b', e, i, i', 0.0);
    SameRowAt(P, T, b, T', b', e, i, i', 1.0);
  }

  lemma SameRowAt(P: Polytope, T: Matrix, b: seq<nat>, T': Matrix, b': seq<nat>, e: nat, i: nat, i': nat, t: real)
    requires P.Valid() && Dictionary(P, T, b) && Dictionary(P, T', b')
    requires SetOf(b) == SetOf(b') && e < P.Vars() && e !in SetOf(b)
    requires i < |b| && i' < |b'| && b[i] == b'[i']
    ensures T[i][P.Vars()] - T[i][e] * t == T'[i'][P.Vars()] - T'[i'][e] * t
  {
    var nv := P.Vars();
    var z := Raised(T, b, nv, e, t);
    RaisedSolves(T, b, nv, e, t);
    assert Solves(P.Start(), nv, z);
    assert Solves(T', nv, z);
    assert e !in b' by { assert e !in SetOf(b'); }
    forall v | 0 <= v < nv && v !in b' && v != e ensures z[v] == 0.0 {
      assert v !in SetOf(b');
    }
    SparseRow(T', b', nv, z, e, i');
    assert DotTo(T'[i'], z, nv) == T'[i'][nv];
    RaisedAt(T, b, nv, e, t, i);
  }

  lemma TieGivesZero(rhsI: real, cI: real, rhsK: real, cK: real)
    requires cI > 0.0 && cK > 0.0 && rhsI / cI == rhsK / cK
    ensures rhsK - cK * (rhsI / cI) == 0.0
  {}

  /** Without degeneracy the ratio test has a single minimiser. */
  lemma UniqueMinimiser(P: Polytope, T: Matrix, b: seq<nat>, e: nat, i: nat, k: nat)
    requires P.Valid() && NonDegenerate(P) && Dictionary(P, T, b) && e < P.Vars() && e !in b
    requires i < |b| && k < |b| && T[i][e] > 0.0 && T[k][e] > 0.0
    requires forall j | 0 <= j < |T| && T[j][e] > 0.0 ::
               && Ratio(T, P.Vars(), e, i) <= Ratio(T, P.Vars(), e, j)
               && Ratio(T, P.Vars(), e, k) <= Ratio(T, P.Vars(), e, j)
    ensures i == k
  {
    if i != k {
      var T' := Pivoted(T, P.Vars(), i, e);
      TieGivesZero(T[i][P.Vars()], T[i][e], T[k][P.Vars()], T[k][e]);
      assert T'[k][P.Vars()] == 0.0;
      PivotDictionary(P, T, b, e, i);
      assert false;
    }
  }

  /** Without degeneracy a vertex and an entering variable determine the edge. */
  lemma EdgeDeterministic(P: Polytope, V: set<nat>, e: nat, V1: set<nat>, l1: nat, V2: set<nat>, l2: nat)
    requires P.Valid() && NonDegenerate(P) && Edge(P, V, e, V1, l1) && Edge(P, V, e, V2, l2)
    ensures V1 == V2 && l1 == l2
  {
    var nv := P.Vars();
    var T, b :| EdgeAt(P, T, b, V, e, V1, l1);
    var T', b' :| EdgeAt(P, T', b', V, e, V2, l2);
    var r, r' := RatioRow(T, nv, e).value, RatioRow(T', nv, e).value;
    RatioRowMinimal(T, nv, e, |T|);
    RatioRowMinimal(T', nv, e, |T'|);
    assert b[r] in SetOf(b');
    var i' := IndexOf(b', b[r]);
    SameRow(P, T, b, T', b', e, r, i');
    assert e !in b' by { assert e !in SetOf(b'); }
    forall j' | 0 <= j' < |T'| && T'[j'][e] > 0.0 ensures Ratio(T', nv, e, i') <= Ratio(T', nv, e, j') {
      assert b'[j'] in SetOf(b);
      var j := IndexOf(b, b'[j']);
      SameRow(P, T, b, T', b', e, j, j');
    }
    UniqueMinimiser(P, T', b', e, i', r');
  }

  lemma ReverseRatio(rhs: real, c: real, rhsR: real, p: real)
    requires rhs >= 0.0 && c < 0.0 && p > 0.0
    ensures -c * (1.0 / p) > 0.0
    ensures rhsR <= (rhs - c * (rhsR / p)) / (0.0 - c * (1.0 / p))
  {
    var d := 0.0 - c * (1.0 / p);
    assert 1.0 / p > 0.0;
    assert d == (-c) * (1.0 / p) > 0.0;
    DivIsScale(rhsR, p);
    assert rhsR * d == 0.0 - c * (rhsR / p) by {
      assert rhsR * (c * (1.0 / p)) == c * ((1.0 / p) * rhsR);
    }
    assert rhsR * d <= rhs - c * (rhsR / p);
    DivMonotone(rhsR, rhs - c * (rhsR / p), d);
  }

  lemma DivMonotone(a: real, x: real, d: real)
    requires d > 0.0 && a * d <= x
    ensures a <= x / d
  {}

  /** After a pivot, the variable that left would come back through the same row. */
  lemma ReverseMinimal(T: Matrix, b: seq<nat>, nv: nat, r: nat, e: nat, i: nat)
    requires Canonical(T, b, nv) && e < nv && e !in b && r < |b| && i < |b| && T[r][e] > 0.0
    ensures Pivoted(T, nv, r, e)[r][b[r]] > 0.0
    ensures Pivoted(T, nv, r, e)[i][b[r]] > 0.0 ==>
              Ratio(Pivoted(T, nv, r, e), nv, b[r], r) <= Ratio(Pivoted(T, nv, r, e), nv, b[r], i)
  {
    var T', p, l := Pivoted(T, nv, r, e), T[r][e], b[r];
    assert T[r][l] == 1.0 && T'[r][l] == 1.0 / p > 0.0;
    assert Ratio(T', nv, l, r) == T[r][nv] by {
      assert (T[r][nv] / p) / (1.0 / p) == T[r][nv];
    }
    if i != r {
      assert T[i][l] == 0.0;
      assert T'[i][l] == 0.0 - T[i][e] * (1.0 / p);
      if T[i][e] < 0.0 {
        ReverseRatio(T[i][nv], T[i][e], T[r][nv], p);
      } else {
        assert T[i][e] * (1.0 / p) >= 0.0;
      }
    }
  }

  /** Pivoting the leaving variable straight back in is again a ratio-test step: edges can be walked both ways. */
  lemma EdgeReversible(P: Polytope, V: set<nat>, e: nat, V': set<nat>, l: nat)
    requires P.Valid() && NonDegenerate(P) && Edge(P, V, e, V', l)
    ensures Edge(P, V', l, V, e)
  {
    var nv := P.Vars();
    var T, b :| EdgeAt(P, T, b, V, e, V', l);
    var r := RatioRow(T, nv, e).value;
    RatioRowMinimal(T, nv, e, |T|);
    assert e !in b by { assert e !in SetOf(b); }
    PivotDictionary(P, T, b, e, r);
    SetOfUpdate(T, b, nv, r, e);
    var T', b' := Pivoted(T, nv, r, e), b[r := e];
    assert l in SetOf(b) && l != e;
    forall i | 0 <= i < |T'|
      ensures T'[r][l] > 0.0 && (T'[i][l] > 0.0 ==> Ratio(T', nv, l, r) <= Ratio(T', nv, l, i)) {
      ReverseMinimal(T, b, nv, r, e, i);
    }
    assert l !in b' by { assert l !in SetOf(b'); }
    ReverseEdgeAt(P, T', b', V', l, r, V, e);
  }

  lemma ReverseEdgeAt(P: Polytope, T: Matrix, b: seq<nat>, V: set<nat>, e: nat, r: nat, V': set<nat>, l: nat)
    requires P.Valid() && NonDegenerate(P) && Dictionary(P, T, b) && SetOf(b) == V && e < P.Vars() && e !in b
    requires r < |b| && T[r][e] > 0.0 && b[r] == l && V' == V + {e} - {l}
    requires forall i | 0 <= i < |T| && T[i][e] > 0.0 :: Ratio(T, P.Vars(), e, r) <= Ratio(T, P.Vars(), e, i)
    ensures Edge(P, V, e, V', l)
  {
    RatioRowMinimal(T, P.Vars(), e, |T|);
    UniqueMinimiser(P, T, b, e, r, RatioRow(T, P.Vars(), e).value);
    assert EdgeAt(P, T, b, V, e, V', l);
  }
}
