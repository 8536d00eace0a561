/** The simplex-style tableau of the Lemke-Howson solver: pivoting in place, and what a pivot keeps. */
module Tableaux {
  import opened Options
  import opened Vectors

  /** Row i of a tableau T over nv variables reads: sum of T[i][v] * z[v] equals T[i][nv]. */
  ghost predicate Solves(T: Matrix, nv: nat, z: Vec)
    requires Rect(T, |T|, nv + 1)
  {
    |z| == nv && forall i | 0 <= i < |T| :: DotTo(T[i], z, nv) == T[i][nv]
  }

  /** Two tableaux describe the same system. */
  ghost predicate Equivalent(S: Matrix, T: Matrix, nv: nat)
    requires Rect(S, |S|, nv + 1) && Rect(T, |T|, nv + 1)
  {
    forall z: Vec :: Solves(S, nv, z) <==> Solves(T, nv, z)
  }

  /** Each basic column is a unit column and every right-hand side is nonnegative. */
  ghost predicate Canonical(T: Matrix, basis: seq<nat>, nv: nat) {
    && Rect(T, |basis|, nv + 1)
    && (forall k | 0 <= k < |basis| :: basis[k] < nv)
    && (forall i, k | 0 <= i < |basis| && 0 <= k < |basis| :: T[i][basis[k]] == if i == k then 1.0 else 0.0)
    && (forall i | 0 <= i < |basis| :: T[i][nv] >= 0.0)
  }

  function Ratio(T: Matrix, nv: nat, e: nat, i: nat): real
    requires Rect(T, |T|, nv + 1) && e < nv && i < |T| && T[i][e] > 0.0
  {
    T[i][nv] / T[i][e]
  }

  /** The row the minimum-ratio scan holds after the first k rows; only rows with a positive coefficient count. */
  function RatioRowTo(T: Matrix, nv: nat, e: nat, k: nat): (r: Option<nat>)
    requires Rect(T, |T|, nv + 1) && e < nv && k <= |T|
    ensures r.Some? ==> r.value < k && T[r.value][e] > 0.0
  {
    if k == 0 then None
    else
      var best := RatioRowTo(T, nv, e, k - 1);
      if T[k - 1][e] > 0.0 && (best.None? || Ratio(T, nv, e, k - 1) < Ratio(T, nv, e, best.value)) then Some(k - 1)
      else best
  }

  function RatioRow(T: Matrix, nv: nat, e: nat): (r: Option<nat>)
    requires Rect(T, |T|, nv + 1) && e < nv
    ensures r.Some? ==> r.value < |T| && T[r.value][e] > 0.0
  {
    RatioRowTo(T, nv, e, |T|)
  }

  /** The scan fails exactly when no coefficient is positive; otherwise it finds a minimiser. */
  lemma {:induction false} RatioRowMinimal(T: Matrix, nv: nat, e: nat, k: nat)
    requires Rect(T, |T|, nv + 1) && e < nv && k <= |T|
    ensures RatioRowTo(T, nv, e, k).None? <==> forall i | 0 <= i < k :: T[i][e] <= 0.0
    ensures RatioRowTo(T, nv, e, k).Some? ==>
              forall i | 0 <= i < k && T[i][e] > 0.0 ::
                Ratio(T, nv, e, RatioRowTo(T, nv, e, k).value) <= Ratio(T, nv, e, i)
  {
    if k > 0 {
      RatioRowMinimal(T, nv, e, k - 1);
    }
  }

  /** Row i of the tableau after pivoting variable e into row r. */
  function PivotedRow(T: Matrix, nv: nat, r: nat, e: nat, i: nat): (row: Vec)
    requires Rect(T, |T|, nv + 1) && r < |T| && e < nv && T[r][e] != 0.0 && i < |T|
    ensures |row| == nv + 1
  {
    seq(nv + 1, j requires 0 <= j < nv + 1 =>
      if i == r then T[r][j] / T[r][e] else T[i][j] - T[i][e] * (T[r][j] / T[r][e]))
  }

  function Pivoted(T: Matrix, nv: nat, r: nat, e: nat): (T': Matrix)
    requires Rect(T, |T|, nv + 1) && r < |T| && e < nv && T[r][e] != 0.0
    ensures Rect(T', |T|, nv + 1)
  {
    seq(|T|, i requires 0 <= i < |T| => PivotedRow(T, nv, r, e, i))
  }

  lemma DivIsScale(a: real, p: real)
    requires p != 0.0
    ensures a / p == (1.0 / p) * a
  {}

  /** What a pivot does to the left-hand side of its own row. */
  lemma PivotRowDot(T: Matrix, nv: nat, r: nat, e: nat, z: Vec)
    requires Rect(T, |T|, nv + 1) && r < |T| && e < nv && T[r][e] != 0.0 && |z| == nv
    ensures DotTo(PivotedRow(T, nv, r, e, r), z, nv) == (1.0 / T[r][e]) * DotTo(T[r], z, nv)
  {
    var row := PivotedRow(T, nv, r, e, r);
    forall k | 0 <= k < nv ensures row[k] == (1.0 / T[r][e]) * T[r][k] {
      DivIsScale(T[r][k], T[r][e]);
    }
    DotScaled(row, 1.0 / T[r][e], T[r], z, nv);
  }

  /** What a pivot does to the left-hand side of any other row. */
  lemma OtherRowDot(T: Matrix, nv: nat, r: nat, e: nat, z: Vec, i: nat)
    requires Rect(T, |T|, nv + 1) && r < |T| && e < nv && T[r][e] != 0.0 && i < |T| && i != r && |z| == nv
    ensures DotTo(PivotedRow(T, nv, r, e, i), z, nv) ==
            DotTo(T[i], z, nv) - T[i][e] * DotTo(PivotedRow(T, nv, r, e, r), z, nv)
  {
    var c, row, rowR := T[i][e], PivotedRow(T, nv, r, e, i), PivotedRow(T, nv, r, e, r);
    forall k | 0 <= k < nv ensures row[k] == T[i][k] - c * rowR[k] {}
    DotSubScaled(row, T[i], c, rowR, z, nv);
  }

  lemma SolvesPivoted(T: Matrix, nv: nat, r: nat, e: nat, z: Vec)
    requires Rect(T, |T|, nv + 1) && r < |T| && e < nv && T[r][e] != 0.0
    requires Solves(T, nv, z)
    ensures Solves(Pivoted(T, nv, r, e), nv, z)
  {
    var T' := Pivoted(T, nv, r, e);
    PivotRowDot(T, nv, r, e, z);
    DivIsScale(T[r][nv], T[r][e]);
    assert DotTo(T'[r], z, nv) == T'[r][nv];
    forall i | 0 <= i < |T'| ensures DotTo(T'[i], z, nv) == T'[i][nv] {
      if i != r {
        OtherRowDot(T, nv, r, e, z, i);
      }
      assert DotTo(T[i], z, nv) == T[i][nv];
    }
  }

  lemma ScaleBack(p: real, x: real)
    requires p != 0.0
    ensures p * ((1.0 / p) * x) == x
  {
    calc {
      p * ((1.0 / p) * x);
      { MulAssoc(p, 1.0 / p, x); }
      (p * (1.0 / p)) * x;
      x;
    }
  }

  lemma SolvesUnpivoted(T: Matrix, nv: nat, r: nat, e: nat, z: Vec)
    requires Rect(T, |T|, nv + 1) && r < |T| && e < nv && T[r][e] != 0.0
    requires Solves(Pivoted(T, nv, r, e), nv, z)
    ensures Solves(T, nv, z)
  {
    var T', p := Pivoted(T, nv, r, e), T[r][e];
    PivotRowDot(T, nv, r, e, z);
    DivIsScale(T[r][nv], p);
    assert DotTo(T'[r], z, nv) == T'[r][nv];
    ScaleBack(p, DotTo(T[r], z, nv));
    ScaleBack(p, T[r][nv]);
    assert DotTo(T[r], z, nv) == T[r][nv];
    forall i | 0 <= i < |T| ensures DotTo(T[i], z, nv) == T[i][nv] {
      if i != r {
        OtherRowDot(T, nv, r, e, z, i);
      }
      assert DotTo(T'[i], z, nv) == T'[i][nv];
    }
  }

  /** A pivot keeps exactly the same solutions. */
  lemma PivotKeepsSolutions(T: Matrix, nv: nat, r: nat, e: nat)
    requires Rect(T, |T|, nv + 1) && r < |T| && e < nv && T[r][e] != 0.0
    ensures Equivalent(T, Pivoted(T, nv, r, e), nv)
  {
    forall z: Vec ensures Solves(T, nv, z) <==> Solves(Pivoted(T, nv, r, e), nv, z) {
      if Solves(T, nv, z) {
        SolvesPivoted(T, nv, r, e, z);
      }
      if Solves(Pivoted(T, nv, r, e), nv, z) {
        SolvesUnpivoted(T, nv, r, e, z);
      }
    }
  }

  lemma FeasibleAfterElimination(rhs: real, c: real, rhsR: real, p: real)
    requires rhs >= 0.0 && rhsR >= 0.0 && p > 0.0
    requires c > 0.0 ==> rhsR / p <= rhs / c
    ensures rhs - c * (rhsR / p) >= 0.0
  {
    var q := rhsR / p;
    assert q >= 0.0;
    if c > 0.0 {
      assert c * q <= c * (rhs / c) == rhs;
    } else {
      assert c * q <= 0.0;
    }
  }

  /** A ratio-test pivot on a nonbasic variable keeps unit basic columns and nonnegative right-hand sides. */
  lemma PivotKeepsCanonical(T: Matrix, basis: seq<nat>, nv: nat, r: nat, e: nat)
    requires Canonical(T, basis, nv) && e < nv && e !in basis
    requires r < |T| && T[r][e] > 0.0
    requires forall i | 0 <= i < |T| && T[i][e] > 0.0 :: Ratio(T, nv, e, r) <= Ratio(T, nv, e, i)
    ensures Canonical(Pivoted(T, nv, r, e), basis[r := e], nv)
  {
    var T', b' := Pivoted(T, nv, r, e), basis[r := e];
    var p := T[r][e];
    forall i, k | 0 <= i < |b'| && 0 <= k < |b'| ensures T'[i][b'[k]] == if i == k then 1.0 else 0.0 {
      var v := b'[k];
      if k == r {
        assert p / p == 1.0;
        if i != r {
          assert T'[i][e] == T[i][e] - T[i][e] * 1.0;
        }
      } else {
        assert T[r][v] == 0.0;
        assert T[r][v] / p == 0.0;
        if i != r {
          assert T'[i][v] == T[i][v] - T[i][e] * 0.0;
        }
      }
    }
    forall i | 0 <= i < |b'| ensures T'[i][nv] >= 0.0 {
      if i != r {
        FeasibleAfterElimination(T[i][nv], T[i][e], T[r][nv], p);
      }
    }
  }

  /** The tableau object: `tab` holds [constraint | rhs], `basis` the basic variable of each row. */
  class Tableau {
    const numRows: nat
    const numVars: nat
    const tab: array2<real>
    const basis: array<nat>

    ghost predicate Valid() {
      && tab.Length0 == numRows && tab.Length1 == numVars + 1 && basis.Length == numRows
    }

    ghost function Table(): (t: Matrix)
      requires Valid()
      reads tab
      ensures Rect(t, numRows, numVars + 1)
    {
      Rows(tab)
    }

    constructor (constraint: array2<real>, rhs: Vec, initialBasis: seq<nat>)
      requires |rhs| == constraint.Length0 == |initialBasis|
      ensures Valid() && fresh(tab) && fresh(basis)
      ensures numRows == constraint.Length0 && numVars == constraint.Length1
      ensures basis[..] == initialBasis
      ensures forall i | 0 <= i < numRows :: Table()[i] == Rows(constraint)[i] + [rhs[i]]
    {
      numRows, numVars := constraint.Length0, constraint.Length1;
      tab := new real[constraint.Length0, constraint.Length1 + 1];
      basis := new nat[|initialBasis|](i requires 0 <= i < |initialBasis| => initialBasis[i]);
      new;
      Fill(tab, constraint, rhs);
      forall i | 0 <= i < numRows ensures Table()[i] == Rows(constraint)[i] + [rhs[i]] {}
    }

    static method Fill(t: array2<real>, constraint: array2<real>, rhs: Vec)
      requires t.Length0 == constraint.Length0 == |rhs| && t.Length1 == constraint.Length1 + 1
      requires t != constraint
      modifies t
      ensures forall i, j | 0 <= i < t.Length0 && 0 <= j < constraint.Length1 :: t[i, j] == constraint[i, j]
      ensures forall i | 0 <= i < t.Length0 :: t[i, constraint.Length1] == rhs[i]
    {
      var n, v := constraint.Length0, constraint.Length1;
      for i := 0 to n
        invariant forall i', j | 0 <= i' < i && 0 <= j < v :: t[i', j] == constraint[i', j]
        invariant forall i' | 0 <= i' < i :: t[i', v] == rhs[i']
      {
        for j := 0 to v
          invariant forall i', j | 0 <= i' < i && 0 <= j < v :: t[i', j] == constraint[i', j]
          invariant forall i' | 0 <= i' < i :: t[i', v] == rhs[i']
          invariant forall j' | 0 <= j' < j :: t[i, j'] == constraint[i, j']
        {
          t[i, j] := constraint[i, j];
        }
        t[i, v] := rhs[i];
      }
    }

    /**
     Brings `enterVar` into the basis and answers the variable that leaves it, or None when the column
     has no positive coefficient.
     */
    method Pivot(enterVar: nat) returns (leaveVar: Option<nat>)
      requires Valid() && enterVar < numVars
      modifies tab, basis
      ensures RatioRow(old(Table()), numVars, enterVar).None? ==>
                leaveVar == None && Table() == old(Table()) && basis[..] == old(basis[..])
      ensures RatioRow(old(Table()), numVars, enterVar).Some? ==>
                var r := RatioRow(old(Table()), numVars, enterVar).value;
                && leaveVar == Some(old(basis[r]))
                && Table() == Pivoted(old(Table()), numVars, r, enterVar)
                && basis[..] == old(basis[..])[r := enterVar]
    {
      ghost var T := Table();
      var best := FindPivotRow(enterVar);
      if best.None? {
        return None;
      }
      var pivotRow := best.value;
      leaveVar := Some(basis[pivotRow]);
      NormalizeRow(pivotRow, enterVar, T);
      EliminateOthers(pivotRow, enterVar, T);
      basis[pivotRow] := enterVar;
    }

    /** The minimum-ratio test: the first row attaining the smallest ratio. */
    method FindPivotRow(enterVar: nat) returns (best: Option<nat>)
      requires Valid() && enterVar < numVars
      ensures best == RatioRow(Table(), numVars, enterVar)
    {
      best := None;
      var minRatio := 0.0;
      for i := 0 to numRows
        invariant best == RatioRowTo(Table(), numVars, enterVar, i)
        invariant best.Some? ==> minRatio == Ratio(Table(), numVars, enterVar, best.value)
      {
        var coeff := tab[i, enterVar];
        if coeff > 0.0 {
          var ratio := tab[i, numVars] / coeff;
          if best.None? || ratio < minRatio {
            minRatio := ratio;
            best := Some(i);
          }
        }
      }
    }

    method EliminateOthers(pivotRow: nat, enterVar: nat, ghost T: Matrix)
      requires Valid() && enterVar < numVars && pivotRow < numRows
      requires Rect(T, numRows, numVars + 1) && T[pivotRow][enterVar] != 0.0
      requires forall i, j | 0 <= i < numRows && 0 <= j <= numVars ::
                 tab[i, j] == if i == pivotRow then Pivoted(T, numVars, pivotRow, enterVar)[i][j] else T[i][j]
      modifies tab
      ensures Table() == Pivoted(T, numVars, pivotRow, enterVar)
    {
      ghost var P := Pivoted(T, numVars, pivotRow, enterVar);
      for i := 0 to numRows
        invariant forall i', j | 0 <= i' < numRows && 0 <= j <= numVars ::
            tab[i', j] == if i' == pivotRow || i' < i then P[i'][j] else T[i'][j]
      {
        if i != pivotRow {
          EliminateRow(i, pivotRow, enterVar, T);
        }
      }
      MatrixExt(Table(), P, numRows, numVars + 1);
    }

    method NormalizeRow(pivotRow: nat, enterVar: nat, ghost T: Matrix)
      requires Valid() && enterVar < numVars && pivotRow < numRows
      requires T == Table() && T[pivotRow][enterVar] != 0.0
      modifies tab
      ensures forall i, j | 0 <= i < numRows && 0 <= j <= numVars ::
                tab[i, j] == if i == pivotRow then Pivoted(T, numVars, pivotRow, enterVar)[i][j] else T[i][j]
    {
      var pivotElem := tab[pivotRow, enterVar];
      for j := 0 to numVars + 1
        invariant forall i, j' | 0 <= i < numRows && 0 <= j' <= numVars ::
            tab[i, j'] == if i == pivotRow && j' < j then T[pivotRow][j'] / pivotElem else T[i][j']
      {
        tab[pivotRow, j] := tab[pivotRow, j] / pivotElem;
      }
    }

    method EliminateRow(i: nat, pivotRow: nat, enterVar: nat, ghost T: Matrix)
      requires Valid() && enterVar < numVars && pivotRow < numRows && i < numRows && i != pivotRow
      requires Rect(T, numRows, numVars + 1) && T[pivotRow][enterVar] != 0.0
      requires forall j | 0 <= j <= numVars :: tab[pivotRow, j] == Pivoted(T, numVars, pivotRow, enterVar)[pivotRow][j]
      requires forall j | 0 <= j <= numVars :: tab[i, j] == T[i][j]
      modifies tab
      ensures forall i', j | 0 <= i' < numRows && 0 <= j <= numVars ::
                tab[i', j] == if i' == i then Pivoted(T, numVars, pivotRow, enterVar)[i][j] else old(tab[i', j])
    {
      var factor := tab[i, enterVar];
      ghost var P := Pivoted(T, numVars, pivotRow, enterVar);
      if factor != 0.0 {
        for j := 0 to numVars + 1
          invariant forall i', j' | 0 <= i' < numRows && 0 <= j' <= numVars ::
              tab[i', j'] == if i' == i && j' < j then P[i][j'] else old(tab[i', j'])
        {
          tab[i, j] := tab[i, j] - factor * tab[pivotRow, j];
        }
      }
    }

    /** The value of a variable at the current vertex: its right-hand side if basic, else zero. */
    method GetValue(v: nat) returns (value: real)
      requires Valid()
      ensures value == ValueOf(Table(), basis[..], numVars, v)
    {
      for i := 0 to numRows
        invariant forall k | 0 <= k < i :: basis[k] != v
      {
        if basis[i] == v {
          ValueAt(Table(), basis[..], numVars, v, i);
          return tab[i, numVars];
        }
      }
      return 0.0;
    }
  }

  function IndexOf(basis: seq<nat>, v: nat): (i: nat)
    requires v in basis
    ensures i < |basis| && basis[i] == v
    ensures forall k | 0 <= k < i :: basis[k] != v
  {
    if basis[0] == v then 0 else
    assert basis == [basis[0]] + basis[1..];
    1 + IndexOf(basis[1..], v)
  }

  function ValueOf(T: Matrix, basis: seq<nat>, nv: nat, v: nat): real
    requires Rect(T, |basis|, nv + 1)
  {
    if v in basis then T[IndexOf(basis, v)][nv] else 0.0
  }

  lemma ValueAt(T: Matrix, basis: seq<nat>, nv: nat, v: nat, i: nat)
    requires Rect(T, |basis|, nv + 1) && i < |basis| && basis[i] == v
    requires forall k | 0 <= k < i :: basis[k] != v
    ensures ValueOf(T, basis, nv, v) == T[i][nv]
  {
    assert IndexOf(basis, v) == i;
  }

  /** The vertex a canonical tableau stands at. */
  function BasicSolution(T: Matrix, basis: seq<nat>, nv: nat): (z: Vec)
    requires Rect(T, |basis|, nv + 1)
    ensures |z| == nv
  {
    seq(nv, v requires 0 <= v < nv => ValueOf(T, basis, nv, v))
  }

  lemma CanonicalDistinct(T: Matrix, basis: seq<nat>, nv: nat, i: nat, k: nat)
    requires Canonical(T, basis, nv) && i < |basis| && k < |basis| && basis[i] == basis[k]
    ensures i == k
  {
    assert T[i][basis[i]] == 1.0;
    assert T[i][basis[k]] == if i == k then 1.0 else 0.0;
  }

  lemma CanonicalValue(T: Matrix, basis: seq<nat>, nv: nat, i: nat)
    requires Canonical(T, basis, nv) && i < |basis|
    ensures ValueOf(T, basis, nv, basis[i]) == T[i][nv]
  {
    CanonicalDistinct(T, basis, nv, i, IndexOf(basis, basis[i]));
  }

  /** With only basic variables and `e` away from zero, row i of a canonical tableau reads off directly. */
  lemma SparseRow(T: Matrix, basis: seq<nat>, nv: nat, z: Vec, e: nat, i: nat)
    requires Canonical(T, basis, nv) && |z| == nv && e < nv && e !in basis && i < |basis|
    requires forall v | 0 <= v < nv && v !in basis && v != e :: z[v] == 0.0
    ensures DotTo(T[i], z, nv) == z[basis[i]] + T[i][e] * z[e]
  {
    DotExtract(T[i], z, e, nv);
    var z' := z[e := 0.0];
    DotExtract(T[i], z', basis[i], nv);
    var z'' := z'[basis[i] := 0.0];
    forall v | 0 <= v < nv ensures T[i][v] * z''[v] == 0.0 {
      if v in basis {
        var k := IndexOf(basis, v);
        if k != i {
          assert T[i][basis[k]] == 0.0;
        }
      }
    }
    DotZero(T[i], z'', nv);
  }

  lemma BasicSolutionSolves(T: Matrix, basis: seq<nat>, nv: nat)
    requires Canonical(T, basis, nv)
    ensures Solves(T, nv, BasicSolution(T, basis, nv))
    ensures forall v | 0 <= v < nv :: BasicSolution(T, basis, nv)[v] >= 0.0
  {
    var z := BasicSolution(T, basis, nv);
    forall i | 0 <= i < |T| ensures DotTo(T[i], z, nv) == T[i][nv] {
      var z' := z[basis[i] := 0.0];
      DotExtract(T[i], z, basis[i], nv);
      forall v | 0 <= v < nv ensures T[i][v] * z'[v] == 0.0 {
        if v in basis {
          var k := IndexOf(basis, v);
          if k != i {
            assert T[i][basis[k]] == 0.0;
          }
        }
      }
      DotZero(T[i], z', nv);
      CanonicalValue(T, basis, nv, i);
    }
  }
}
