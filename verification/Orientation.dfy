/**
 Why complementary pivoting never comes back to the origin, degenerate or not. Every pivot multiplies the determinant
 of the two slack blocks by a positive number, and exchanges the label in hand with the label of one row. Back at the
 origin the slack blocks are a permutation matrix of the row labels: positive determinant, yet an odd number of
 exchanges.
 */
module Orientation {
  import opened ComplementaryRun
  import opened Determinants
  import opened Finite
  import opened LemkeHowsonPath
  import opened Options
  import opened Polytopes
  import opened Tableaux
  import opened Vectors

  // ---- The slack blocks of both tableaux, and one more place for the label in hand ----

  /** The entries of row from column `from` on, placed at columns to, .., to+count-1 of a row of zeros. */
  function Lifted(row: Vec, from: nat, to: nat, count: nat, w: nat): (l: Vec)
    requires from + count <= |row|
    ensures |l| == w && forall j | 0 <= j < w :: l[j] == if to <= j < to + count then row[from + j - to] else 0.0
  {
    seq(w, j requires 0 <= j < w => if to <= j < to + count then row[from + j - to] else 0.0)
  }

  predicate Shaped(I: Instance, t1: Matrix, t2: Matrix) {
    Rect(t1, I.n, I.m + I.n + 1) && Rect(t2, I.m, I.m + I.n + 1)
  }

  function BlockRow(I: Instance, t1: Matrix, t2: Matrix, k: nat): (row: Vec)
    requires Shaped(I, t1, t2) && k <= I.m + I.n
    ensures |row| == I.m + I.n + 1
  {
    if k < I.n then Lifted(t1[k], I.m, 0, I.n, I.m + I.n + 1)
    else if k < I.m + I.n then Lifted(t2[k - I.n], I.n, I.n, I.m, I.m + I.n + 1)
    else UnitRow(k, I.m + I.n + 1)
  }

  function Blocks(I: Instance, t1: Matrix, t2: Matrix): (M: Matrix)
    requires Shaped(I, t1, t2)
    ensures Rect(M, I.m + I.n + 1, I.m + I.n + 1)
    ensures forall k | 0 <= k <= I.m + I.n :: M[k] == BlockRow(I, t1, t2, k)
  {
    seq(I.m + I.n + 1, k requires 0 <= k < I.m + I.n + 1 => BlockRow(I, t1, t2, k))
  }

  lemma LiftedSum(t: Vec, u: Vec, f: real, v: Vec, from: nat, to: nat, count: nat, w: nat)
    requires IsSum(t, u, f, v) && from + count <= |t|
    ensures IsSum(Lifted(t, from, to, count, w), Lifted(u, from, to, count, w), f, Lifted(v, from, to, count, w))
  {}

  lemma LiftedScaled(t: Vec, p: real, u: Vec, from: nat, to: nat, count: nat, w: nat)
    requires |t| == |u| && from + count <= |t| && forall j | 0 <= j < |t| :: t[j] == p * u[j]
    ensures forall j | 0 <= j < w :: Lifted(t, from, to, count, w)[j] == p * Lifted(u, from, to, count, w)[j]
  {}

  lemma NothingAdded(u: Vec, v: Vec)
    requires |u| == |v|
    ensures IsSum(u, u, 0.0, v)
  {}

  /** The rows of M from place lo on are those of the tableau T, lifted. */
  ghost predicate Holds(M: Matrix, lo: nat, T: Matrix, from: nat, to: nat, count: nat) {
    && lo + |T| <= |M| && (forall i | 0 <= i < |T| :: from + count <= |T[i]|)
    && forall k | lo <= k < lo + |T| :: M[k] == Lifted(T[k - lo], from, to, count, |M|)
  }

  ghost predicate SameOutside(M: Matrix, S: Matrix, lo: nat, count: nat) {
    |S| == |M| && forall k | 0 <= k < |M| && !(lo <= k < lo + count) :: S[k] == M[k]
  }

  function Spread(f: Vec, lo: nat, w: nat): (g: Vec)
    ensures |g| == w && forall k | 0 <= k < w :: g[k] == if lo <= k < lo + |f| then f[k - lo] else 0.0
  {
    seq(w, k requires 0 <= k < w => if lo <= k < lo + |f| then f[k - lo] else 0.0)
  }

  /** Row operations inside one tableau are row operations on the blocks. */
  lemma LiftedSteps(M: Matrix, S: Matrix, lo: nat, T: Matrix, T': Matrix, from: nat, to: nat, count: nat, r: nat,
                    p: real, f: Vec)
    requires Rect(M, |M|, |M|) && Rect(S, |M|, |M|) && RowSteps(T, T', r, p, f)
    requires Holds(M, lo, T, from, to, count) && Holds(S, lo, T', from, to, count)
    requires SameOutside(M, S, lo, |T|)
    ensures RowSteps(M, S, lo + r, p, Spread(f, lo, |M|))
  {
    var q, g := lo + r, Spread(f, lo, |M|);
    assert S[q] == Lifted(T'[q - lo], from, to, count, |M|);
    LiftedScaled(T'[r], p, T[r], from, to, count, |M|);
    forall k | 0 <= k < |M| && k != q ensures IsSum(S[k], M[k], g[k], S[q]) {
      if lo <= k < lo + |T| {
        LiftedSum(T'[k - lo], T[k - lo], f[k - lo], T'[r], from, to, count, |M|);
      } else {
        NothingAdded(M[k], S[q]);
      }
    }
  }

  lemma Cleared(a: real, b: real, x: real)
    ensures a - b * x == a + (-b) * x
  {}

  function Factors(T: Matrix, nv: nat, e: nat): (f: Vec)
    requires Rect(T, |T|, nv + 1) && e < nv
    ensures |f| == |T| && forall i | 0 <= i < |T| :: f[i] == -T[i][e]
  {
    seq(|T|, i requires 0 <= i < |T| => -T[i][e])
  }

  /** A pivot scales its row, which then clears the others. */
  lemma PivotSteps(T: Matrix, nv: nat, r: nat, e: nat)
    requires Rect(T, |T|, nv + 1) && r < |T| && e < nv && T[r][e] > 0.0
    ensures RowSteps(T, Pivoted(T, nv, r, e), r, 1.0 / T[r][e], Factors(T, nv, e))
  {
    var T', f := Pivoted(T, nv, r, e), Factors(T, nv, e);
    forall j | 0 <= j <= nv ensures T'[r][j] == (1.0 / T[r][e]) * T[r][j] {
      DivIsScale(T[r][j], T[r][e]);
    }
    forall i | 0 <= i < |T| && i != r ensures IsSum(T'[i], T[i], f[i], T'[r]) {
      forall j | 0 <= j <= nv ensures T'[i][j] == T[i][j] + f[i] * T'[r][j] {
        Cleared(T[i][j], T[i][e], T'[r][j]);
      }
    }
  }

  /** The place of row i of a tableau. */
  function Place(I: Instance, one: bool, i: nat): nat { if one then i else I.n + i }

  lemma BlocksHold(I: Instance, t1: Matrix, t2: Matrix)
    requires Shaped(I, t1, t2)
    ensures Holds(Blocks(I, t1, t2), 0, t1, I.m, 0, I.n) && Holds(Blocks(I, t1, t2), I.n, t2, I.n, I.n, I.m)
  {}

  lemma OthersKept(I: Instance, t1: Matrix, t1': Matrix, t2: Matrix, t2': Matrix)
    requires Shaped(I, t1, t2) && Shaped(I, t1', t2')
    ensures SameOutside(Blocks(I, t1, t2), Blocks(I, t1', t2), 0, I.n)
    ensures SameOutside(Blocks(I, t1, t2), Blocks(I, t1, t2'), I.n, I.m)
  {}

  lemma LiftedPositive(M: Matrix, S: Matrix, lo: nat, T: Matrix, T': Matrix, from: nat, to: nat, count: nat, r: nat,
                       p: real, f: Vec)
    requires Rect(M, |M|, |M|) && Rect(S, |M|, |M|) && RowSteps(T, T', r, p, f)
    requires Holds(M, lo, T, from, to, count) && Holds(S, lo, T', from, to, count) && SameOutside(M, S, lo, |T|)
    requires p > 0.0 && Det(M, 0) > 0.0
    ensures Det(S, 0) > 0.0
  {
    LiftedSteps(M, S, lo, T, T', from, to, count, r, p, f);
    RowStepsDet(M, S, 0, lo + r, p, Spread(f, lo, |M|));
    ProductPositive(p, Det(M, 0));
  }

  /** A pivot of the first tableau keeps the determinant of the blocks positive. */
  lemma FirstPivotPositive(I: Instance, t1: Matrix, t2: Matrix, e: nat, r: nat)
    requires Shaped(I, t1, t2) && e < I.m + I.n && r < I.n && t1[r][e] > 0.0 && Det(Blocks(I, t1, t2), 0) > 0.0
    ensures var t1' := Pivoted(t1, I.m + I.n, r, e); Shaped(I, t1', t2) && Det(Blocks(I, t1', t2), 0) > 0.0
  {
    var nv, t1', p, f := I.m + I.n, Pivoted(t1, I.m + I.n, r, e), 1.0 / t1[r][e], Factors(t1, I.m + I.n, e);
    PivotSteps(t1, nv, r, e);
    BlocksHold(I, t1, t2);
    BlocksHold(I, t1', t2);
    OthersKept(I, t1, t1', t2, t2);
    LiftedPositive(Blocks(I, t1, t2), Blocks(I, t1', t2), 0, t1, t1', I.m, 0, I.n, r, p, f);
  }

  /** So does a pivot of the second. */
  lemma SecondPivotPositive(I: Instance, t1: Matrix, t2: Matrix, e: nat, r: nat)
    requires Shaped(I, t1, t2) && e < I.m + I.n && r < I.m && t2[r][e] > 0.0 && Det(Blocks(I, t1, t2), 0) > 0.0
    ensures var t2' := Pivoted(t2, I.m + I.n, r, e); Shaped(I, t1, t2') && Det(Blocks(I, t1, t2'), 0) > 0.0
  {
    var nv, t2', p, f := I.m + I.n, Pivoted(t2, I.m + I.n, r, e), 1.0 / t2[r][e], Factors(t2, I.m + I.n, e);
    PivotSteps(t2, nv, r, e);
    BlocksHold(I, t1, t2);
    BlocksHold(I, t1, t2');
    OthersKept(I, t1, t1, t2, t2');
    LiftedPositive(Blocks(I, t1, t2), Blocks(I, t1, t2'), I.n, t2, t2', I.n, I.n, I.m, r, p, f);
  }

  lemma ProductPositive(x: real, y: real)
    requires x > 0.0 && y > 0.0
    ensures x * y > 0.0
  {}

  /** In a tableau whose slacks are basic, the slack part of a row has its one at the slack basic in the row. */
  lemma SlackRow(P: Polytope, T: Matrix, b: seq<nat>, k: nat, to: nat, w: nat)
    requires Canonical(T, b, P.Vars()) && k < |b| && SetOf(b) == SetOf(P.StartBasis()) && b[k] >= P.own
    requires to + P.rows <= w
    ensures Lifted(T[k], P.own, to, P.rows, w) == UnitRow(to + b[k] - P.own, w)
  {
    var l, u := Lifted(T[k], P.own, to, P.rows, w), UnitRow(to + b[k] - P.own, w);
    forall j | 0 <= j < w ensures l[j] == u[j] {
      if to <= j < to + P.rows {
        assert P.StartBasis()[j - to] == P.own + j - to;
        assert P.own + j - to in SetOf(P.StartBasis());
        UnitColumn(T, b, P.Vars(), k, P.own + j - to);
      }
    }
  }

  lemma UnitColumn(T: Matrix, b: seq<nat>, nv: nat, k: nat, v: nat)
    requires Canonical(T, b, nv) && k < |b| && v in SetOf(b)
    ensures v < nv && T[k][v] == if b[k] == v then 1.0 else 0.0
  {
    var i :| 0 <= i < |b| && b[i] == v;
    assert T[k][b[i]] == if k == i then 1.0 else 0.0;
    assert T[k][b[k]] == 1.0;
  }

  lemma SlackBlockRow(I: Instance, t1: Matrix, b1: seq<nat>, t2: Matrix, b2: seq<nat>, tokens: seq<nat>, k: nat)
    requires I.Valid() && Canonical(t1, b1, I.m + I.n) && Canonical(t2, b2, I.m + I.n) && Shaped(I, t1, t2)
    requires SetOf(b1) == SetOf(I.p1.StartBasis()) && SetOf(b2) == SetOf(I.p2.StartBasis())
    requires |tokens| == I.m + I.n + 1 && k <= I.m + I.n
    requires if k < I.n then b1[k] == I.m + tokens[k]
             else if k < I.m + I.n then b2[k - I.n] == tokens[I.n + (k - I.n)] && tokens[k] >= I.n
             else tokens[k] == k
    ensures BlockRow(I, t1, t2, k) == UnitRow(tokens[k], I.m + I.n + 1)
  {
    if k < I.n {
      SlackRow(I.p1, t1, b1, k, 0, I.m + I.n + 1);
    } else if k < I.m + I.n {
      SlackRow(I.p2, t2, b2, k - I.n, I.n, I.m + I.n + 1);
    }
  }

  lemma SlackBlocks(I: Instance, t1: Matrix, b1: seq<nat>, t2: Matrix, b2: seq<nat>, tokens: seq<nat>)
    requires I.Valid() && Canonical(t1, b1, I.m + I.n) && Canonical(t2, b2, I.m + I.n) && Shaped(I, t1, t2)
    requires SetOf(b1) == SetOf(I.p1.StartBasis()) && SetOf(b2) == SetOf(I.p2.StartBasis())
    requires |tokens| == I.m + I.n + 1 && tokens[I.m + I.n] == I.m + I.n
    requires forall k | 0 <= k < I.n :: b1[k] == I.m + tokens[k]
    requires forall k | 0 <= k < I.m :: b2[k] == tokens[I.n + k] && tokens[I.n + k] >= I.n
    ensures Blocks(I, t1, t2) == UnitRows(tokens)
  {
    var nv, M, U := I.m + I.n, Blocks(I, t1, t2), UnitRows(tokens);
    forall k | 0 <= k <= nv ensures M[k] == U[k] {
      if I.n <= k < nv {
        assert b2[k - I.n] == tokens[I.n + (k - I.n)];
      }
      SlackBlockRow(I, t1, b1, t2, b2, tokens, k);
    }
  }

  // ---- Tokens ----

  /** The label a token stands for: token k < m+n is the slack of place k, token m+n the
      dropped label, first in hand. */
  function TokenLabel(I: Instance, t: nat): int {
    if t < I.n then I.m + t else if t < I.m + I.n then t - I.n else I.d
  }

  /** The token of the slack that carries the dropped label. */
  function DroppedSlack(I: Instance): int { if I.d < I.m then I.n + I.d else I.d - I.m }

  ghost predicate TokensFit(I: Instance, b1: seq<nat>, b2: seq<nat>, a: Node, tokens: seq<nat>) {
    && |b1| == I.n && |b2| == I.m && |tokens| == I.m + I.n + 1 && Injective(tokens)
    && (forall k | 0 <= k <= I.m + I.n :: tokens[k] <= I.m + I.n)
    && (forall k | 0 <= k < I.n :: b1[k] < I.m + I.n && TokenLabel(I, tokens[k]) == I.LabelOf(true, b1[k]))
    && (forall k | 0 <= k < I.m :: b2[k] < I.m + I.n && TokenLabel(I, tokens[I.n + k]) == I.LabelOf(false, b2[k]))
    && TokenLabel(I, tokens[I.m + I.n]) == a.enter
  }

  /** Until the dropped label is back in hand its two tokens stay in the tableau they entered or started in. */
  ghost predicate DroppedApart(I: Instance, a: Node, tokens: seq<nat>, started: bool)
    requires |tokens| == I.m + I.n + 1
  {
    var first := I.d < I.m;
    && (forall k | 0 <= k < I.m + I.n && tokens[k] == I.m + I.n :: k < I.n <==> first)
    && (forall k | 0 <= k < I.m + I.n && tokens[k] == DroppedSlack(I) :: k < I.n <==> !first)
    && (tokens[I.m + I.n] == I.m + I.n && started ==> a.inOne != first)
    && (!started ==> tokens[I.m + I.n] == I.m + I.n && a.inOne == first)
  }

  ghost predicate OrientedBy(I: Instance, t1: Matrix, b1: seq<nat>, t2: Matrix, b2: seq<nat>, a: Node, started: bool,
                             tokens: seq<nat>)
    requires Shaped(I, t1, t2)
  {
    && TokensFit(I, b1, b2, a, tokens) && DroppedApart(I, a, tokens, started)
    && Det(Blocks(I, t1, t2), 0) > 0.0
    && Det(UnitRows(tokens), 0) == if a.inOne == (I.d < I.m) then 1.0 else -1.0
  }

  /** The rows of the tableaux and the label in hand are an arrangement whose sign tells the tableau pivoted next. */
  ghost predicate Oriented(I: Instance, t1: Matrix, b1: seq<nat>, t2: Matrix, b2: seq<nat>, a: Node, started: bool) {
    Shaped(I, t1, t2) && exists tokens: seq<nat> :: OrientedBy(I, t1, b1, t2, b2, a, started, tokens)
  }

  // ---- The start ----

  function Counting(n: nat): (order: seq<nat>)
    ensures |order| == n && forall k | 0 <= k < n :: order[k] == k
  {
    seq(n, k requires 0 <= k < n => k)
  }

  lemma StartBlocks(I: Instance)
    requires I.Valid()
    ensures Blocks(I, I.p1.Start(), I.p2.Start()) == UnitRows(Counting(I.m + I.n + 1))
  {
    StartDictionary(I.p1);
    StartDictionary(I.p2);
    SlackBlocks(I, I.p1.Start(), I.p1.StartBasis(), I.p2.Start(), I.p2.StartBasis(), Counting(I.m + I.n + 1));
  }

  lemma StartOriented(I: Instance, a: Node)
    requires I.Valid() && a.enter == I.d && a.inOne == (I.d < I.m)
    ensures Oriented(I, I.p1.Start(), I.p1.StartBasis(), I.p2.Start(), I.p2.StartBasis(), a, false)
  {
    StartBlocks(I);
    var tokens := Counting(I.m + I.n + 1);
    assert IdentityFrom(UnitRows(tokens), 0);
    IdentityDet(UnitRows(tokens), 0);
    StartTokens(I, a);
    assert OrientedBy(I, I.p1.Start(), I.p1.StartBasis(), I.p2.Start(), I.p2.StartBasis(), a, false, tokens);
  }

  lemma StartTokens(I: Instance, a: Node)
    requires I.Valid() && a.enter == I.d && a.inOne == (I.d < I.m)
    ensures var tokens := Counting(I.m + I.n + 1);
            TokensFit(I, I.p1.StartBasis(), I.p2.StartBasis(), a, tokens) && DroppedApart(I, a, tokens, false)
  {}

  // ---- A pivot ----

  /** A pivot of tableau `one` takes node a to node b. */
  ghost predicate Moves(I: Instance, t1: Matrix, b1: seq<nat>, t2: Matrix, b2: seq<nat>, a: Node,
                        t1': Matrix, b1': seq<nat>, t2': Matrix, b2': seq<nat>, b: Node)
  {
    && a.enter < I.m + I.n && b.enter < I.m + I.n && b.inOne == !a.inOne
    && (if a.inOne then
          PivotsTo(t1, b1, I.m + I.n, I.VarOf(true, a.enter), t1', b1', I.VarOf(true, b.enter)) && t2' == t2
          && b2' == b2
        else
          PivotsTo(t2, b2, I.m + I.n, I.VarOf(false, a.enter), t2', b2', I.VarOf(false, b.enter)) && t1' == t1
          && b1' == b1)
  }

  lemma TokensMove(I: Instance, b1: seq<nat>, b2: seq<nat>, a: Node, b1': seq<nat>, b2': seq<nat>, b: Node, r: nat,
                   tokens: seq<nat>, started: bool)
    requires I.d < I.m + I.n && TokensFit(I, b1, b2, a, tokens) && DroppedApart(I, a, tokens, started)
    requires started ==> a.enter != I.d
    requires a.enter < I.m + I.n && b.enter < I.m + I.n && b.inOne == !a.inOne && r < if a.inOne then I.n else I.m
    requires if a.inOne then b1' == b1[r := I.VarOf(true, a.enter)] && b1[r] == I.VarOf(true, b.enter) && b2' == b2
             else b2' == b2[r := I.VarOf(false, a.enter)] && b2[r] == I.VarOf(false, b.enter) && b1' == b1
    ensures var tokens' := SwapAt(tokens, Place(I, a.inOne, r), I.m + I.n);
            TokensFit(I, b1', b2', b, tokens') && DroppedApart(I, b, tokens', true)
  {
    var q, nv := Place(I, a.inOne, r), I.m + I.n;
    SwapInjective(tokens, q, nv);
    assert I.LabelOf(a.inOne, I.VarOf(a.inOne, a.enter)) == a.enter
           && I.LabelOf(a.inOne, I.VarOf(a.inOne, b.enter)) == b.enter;
    DroppedMove(I, a, b, r, tokens, started);
  }

  lemma SwapInjective(s: seq<nat>, k: nat, p: nat)
    requires Injective(s) && k < |s| && p < |s|
    ensures Injective(SwapAt(s, k, p))
  {}

  lemma DroppedMove(I: Instance, a: Node, b: Node, r: nat, tokens: seq<nat>, started: bool)
    requires I.d < I.m + I.n && |tokens| == I.m + I.n + 1 && DroppedApart(I, a, tokens, started)
    requires started ==> a.enter != I.d
    requires TokenLabel(I, tokens[I.m + I.n]) == a.enter && b.inOne == !a.inOne && r < if a.inOne then I.n else I.m
    ensures DroppedApart(I, b, SwapAt(tokens, Place(I, a.inOne, r), I.m + I.n), true)
  {
    var q, nv := Place(I, a.inOne, r), I.m + I.n;
    assert q < nv && (q < I.n <==> a.inOne);
    if started {
      assert tokens[nv] != nv && tokens[nv] != DroppedSlack(I);
    }
  }

  /** A pivot keeps the orientation. */
  lemma MoveKeepsOriented(I: Instance, t1: Matrix, b1: seq<nat>, t2: Matrix, b2: seq<nat>, a: Node, started: bool,
                          t1': Matrix, b1': seq<nat>, t2': Matrix, b2': seq<nat>, b: Node)
    requires I.d < I.m + I.n && Oriented(I, t1, b1, t2, b2, a, started) && (started ==> a.enter != I.d)
    requires Moves(I, t1, b1, t2, b2, a, t1', b1', t2', b2', b)
    ensures Oriented(I, t1', b1', t2', b2', b, true)
  {
    var tokens :| OrientedBy(I, t1, b1, t2, b2, a, started, tokens);
    var nv, e := I.m + I.n, I.VarOf(a.inOne, a.enter);
    var r := RatioRow(if a.inOne then t1 else t2, nv, e).value;
    TokensMove(I, b1, b2, a, b1', b2', b, r, tokens, started);
    SwappedUnitRows(tokens, Place(I, a.inOne, r), nv);
    if a.inOne {
      FirstPivotPositive(I, t1, t2, e, r);
    } else {
      SecondPivotPositive(I, t1, t2, e, r);
    }
    assert OrientedBy(I, t1', b1', t2', b2', b, true, SwapAt(tokens, Place(I, a.inOne, r), nv));
  }

  // ---- The end ----

  /** With the slacks basic again, the blocks are the permutation matrix of the tokens. */
  lemma OriginIsPermutation(I: Instance, t1: Matrix, b1: seq<nat>, t2: Matrix, b2: seq<nat>, a: Node, tokens: seq<nat>)
    requires I.Valid() && Canonical(t1, b1, I.m + I.n) && Canonical(t2, b2, I.m + I.n) && Shaped(I, t1, t2)
    requires TokensFit(I, b1, b2, a, tokens) && DroppedApart(I, a, tokens, true) && a.enter == I.d
    requires SetOf(b1) == SetOf(I.p1.StartBasis()) && SetOf(b2) == SetOf(I.p2.StartBasis())
    ensures tokens[I.m + I.n] == I.m + I.n && Blocks(I, t1, t2) == UnitRows(tokens)
  {
    RowTokens(I, b1, b2, a, tokens);
    HandToken(I, b1, b2, a, tokens);
    SlackBlocks(I, t1, b1, t2, b2, tokens);
  }

  /** Each row holds the token of the slack basic in it. */
  lemma RowTokens(I: Instance, b1: seq<nat>, b2: seq<nat>, a: Node, tokens: seq<nat>)
    requires I.Valid() && TokensFit(I, b1, b2, a, tokens) && DroppedApart(I, a, tokens, true)
    requires SetOf(b1) == SetOf(I.p1.StartBasis()) && SetOf(b2) == SetOf(I.p2.StartBasis())
    ensures forall k | 0 <= k < I.n :: b1[k] == I.m + tokens[k] && tokens[k] < I.n
    ensures forall k | 0 <= k < I.m :: b2[k] == tokens[I.n + k] && I.n <= tokens[I.n + k] < I.m + I.n
  {
    forall k | 0 <= k < I.n ensures b1[k] == I.m + tokens[k] && tokens[k] < I.n {
      SlackBasic(b1, I.p1.StartBasis(), k);
      assert I.m <= b1[k] && I.LabelOf(true, b1[k]) == b1[k];
      assert tokens[k] == I.m + I.n ==> I.d < I.m;
    }
    forall k | 0 <= k < I.m ensures b2[k] == tokens[I.n + k] && I.n <= tokens[I.n + k] < I.m + I.n {
      var t := tokens[I.n + k];
      SlackBasic(b2, I.p2.StartBasis(), k);
      assert I.n <= b2[k] && I.LabelOf(false, b2[k]) == b2[k] - I.n;
      assert t == I.m + I.n ==> I.d >= I.m;
    }
  }

  lemma SlackBasic(b: seq<nat>, start: seq<nat>, k: nat)
    requires k < |b| && SetOf(b) == SetOf(start)
    ensures b[k] in start
  {
    assert b[k] in SetOf(b);
  }

  /** The dropped label in hand is the one that entered at the start. */
  lemma HandToken(I: Instance, b1: seq<nat>, b2: seq<nat>, a: Node, tokens: seq<nat>)
    requires I.Valid() && TokensFit(I, b1, b2, a, tokens) && a.enter == I.d
    requires SetOf(b1) == SetOf(I.p1.StartBasis()) && SetOf(b2) == SetOf(I.p2.StartBasis())
    requires forall k | 0 <= k < I.n :: b1[k] == I.m + tokens[k]
    requires forall k | 0 <= k < I.m :: b2[k] == tokens[I.n + k]
    ensures tokens[I.m + I.n] == I.m + I.n
  {
    if I.d < I.m {
      assert I.p2.StartBasis()[I.d] == I.n + I.d;
      assert I.n + I.d in SetOf(b2);
      var k :| 0 <= k < |b2| && b2[k] == I.n + I.d;
      assert tokens[I.n + k] != tokens[I.m + I.n];
    } else {
      assert I.p1.StartBasis()[I.d - I.m] == I.d;
      assert I.d in SetOf(b1);
      var k :| 0 <= k < |b1| && b1[k] == I.d;
      assert tokens[k] != tokens[I.m + I.n];
    }
  }

  /** No run ends at the origin, whether or not the game is degenerate. */
  lemma NeverAtOrigin(I: Instance, t1: Matrix, b1: seq<nat>, t2: Matrix, b2: seq<nat>, a: Node)
    requires I.Valid() && Canonical(t1, b1, I.m + I.n) && Canonical(t2, b2, I.m + I.n)
    requires Oriented(I, t1, b1, t2, b2, a, true) && a.enter == I.d
    ensures !(SetOf(b1) == SetOf(I.p1.StartBasis()) && SetOf(b2) == SetOf(I.p2.StartBasis()))
  {
    if SetOf(b1) == SetOf(I.p1.StartBasis()) && SetOf(b2) == SetOf(I.p2.StartBasis()) {
      var tokens :| OrientedBy(I, t1, b1, t2, b2, a, true, tokens);
      OriginIsPermutation(I, t1, b1, t2, b2, a, tokens);
      assert false;
    }
  }
}
