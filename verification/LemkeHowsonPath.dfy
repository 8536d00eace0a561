/** The combinatorics of complementary pivoting: labels, almost complementary vertex pairs, and the path they form. */
module LemkeHowsonPath {
  import opened Finite
  import opened Polytopes
  import opened Vectors

  /** p1 is the row player's polytope (m own variables, n slacks); p2 the column player's; d the dropped label. */
  datatype Instance = Instance(p1: Polytope, p2: Polytope, m: nat, n: nat, d: nat) {
    ghost predicate Valid() {
      && p1.Valid() && p2.Valid()
      && p1.own == m == p2.rows && p2.own == n == p1.rows && d < m + n
    }

    function Poly(one: bool): Polytope { if one then p1 else p2 }

    /** The variable that carries label l in each tableau. */
    function VarOf(one: bool, l: nat): nat
      requires l < m + n
    {
      if one then l else if l < m then n + l else l - m
    }

    /** The label contributed by variable v of each tableau. */
    function LabelOf(one: bool, v: nat): (l: nat)
      requires v < m + n
      ensures l < m + n && VarOf(one, l) == v
    {
      if one then v else if v < n then m + v else v - n
    }

    ghost predicate NonDegenerate()
      requires Valid()
    {
      Polytopes.NonDegenerate(p1) && Polytopes.NonDegenerate(p2)
    }
  }

  /** The basic variables of both tableaux, the tableau pivoted next, and the label entering it. */
  datatype Node = Node(v1: set<nat>, v2: set<nat>, inOne: bool, enter: nat) {
    function V(one: bool): set<nat> { if one then v1 else v2 }
    function Pair(): (set<nat>, set<nat>) { (v1, v2) }
  }

  ghost predicate Basic(I: Instance, a: Node, one: bool, l: nat)
    requires l < I.m + I.n
  {
    I.VarOf(one, l) in a.V(one)
  }

  /** Only the dropped label may be basic twice, and only the entering label may be basic nowhere. */
  ghost predicate AlmostComplementary(I: Instance, a: Node) {
    && a.enter < I.m + I.n
    && (forall l | 0 <= l < I.m + I.n && l != I.d :: !(Basic(I, a, true, l) && Basic(I, a, false, l)))
    && (forall l | 0 <= l < I.m + I.n && l != a.enter :: Basic(I, a, true, l) || Basic(I, a, false, l))
  }

  ghost predicate IsFirst(I: Instance, a: Node)
    requires I.Valid()
  {
    AlmostComplementary(I, a) && a.enter == I.d && !Basic(I, a, a.inOne, I.d) && Basic(I, a, !a.inOne, I.d)
  }

  ghost predicate IsMiddle(I: Instance, a: Node)
    requires I.Valid()
  {
    && AlmostComplementary(I, a) && a.enter != I.d
    && Basic(I, a, true, I.d) && Basic(I, a, false, I.d)
    && !Basic(I, a, true, a.enter) && !Basic(I, a, false, a.enter)
  }

  /** The dropped label has just left: every label is nonbasic in some tableau again. */
  ghost predicate IsLast(I: Instance, a: Node)
    requires I.Valid()
  {
    AlmostComplementary(I, a) && a.enter == I.d && Basic(I, a, a.inOne, I.d) && !Basic(I, a, !a.inOne, I.d)
  }

  /** One complementary pivot; the label that leaves enters the other tableau next. */
  ghost predicate Step(I: Instance, a: Node, b: Node)
    requires I.Valid()
  {
    && a.enter < I.m + I.n && b.enter < I.m + I.n
    && b.inOne == !a.inOne && b.V(!a.inOne) == a.V(!a.inOne)
    && Edge(I.Poly(a.inOne), a.V(a.inOne), I.VarOf(a.inOne, a.enter), b.V(a.inOne), I.VarOf(a.inOne, b.enter))
  }

  lemma EdgeFacts(P: Polytope, V: set<nat>, e: nat, V': set<nat>, l: nat)
    requires Rect(P.c, P.rows, P.own) && Edge(P, V, e, V', l)
    ensures e !in V && l in V && V' == V + {e} - {l}
  {
    var T, b :| EdgeAt(P, T, b, V, e, V', l);
    assert l in b;
  }

  /** Complementarity survives every pivot, and the new label tells whether the path has ended. */
  lemma StepKeepsLabels(I: Instance, a: Node, b: Node)
    requires I.Valid() && Step(I, a, b) && (IsFirst(I, a) || IsMiddle(I, a))
    ensures if b.enter == I.d then IsLast(I, b) else IsMiddle(I, b)
  {
    var c := a.inOne;
    EdgeFacts(I.Poly(c), a.V(c), I.VarOf(c, a.enter), b.V(c), I.VarOf(c, b.enter));
    assert a.enter != b.enter;
    forall l | 0 <= l < I.m + I.n ensures
        && Basic(I, b, !c, l) == Basic(I, a, !c, l)
        && Basic(I, b, c, l) == (l == a.enter || (Basic(I, a, c, l) && l != b.enter)) {
      assert l == a.enter <==> I.VarOf(c, l) == I.VarOf(c, a.enter);
      assert l == b.enter <==> I.VarOf(c, l) == I.VarOf(c, b.enter);
    }
    assert Basic(I, a, c, b.enter);
    assert forall l | 0 <= l < I.m + I.n :: Basic(I, b, c, l) || Basic(I, b, !c, l) || l == b.enter;
  }

  ghost predicate InRange(I: Instance, a: Node) {
    forall v | v in a.v1 + a.v2 :: v < I.m + I.n
  }

  /** The nodes of a run so far: consecutive ones are joined by a pivot and all but the ends are middle nodes. */
  ghost predicate Path(I: Instance, h: seq<Node>)
    requires I.Valid()
  {
    && |h| > 0 && IsFirst(I, h[0]) && InRange(I, h[0])
    && (forall i | 0 <= i < |h| - 1 :: Step(I, h[i], h[i + 1]))
    && (forall i | 0 < i < |h| - 1 :: IsMiddle(I, h[i]))
    && (|h| > 1 ==> IsMiddle(I, h[|h| - 1]) || IsLast(I, h[|h| - 1]))
  }

  /** The first n nodes show pairwise different vertex pairs. */
  ghost predicate NoRepeat(h: seq<Node>, n: nat)
    requires n <= |h|
  {
    forall i, j | 0 <= i < j < n :: h[i].Pair() != h[j].Pair()
  }

  lemma SamePair(a: Node, b: Node, one: bool)
    requires a.V(one) == b.V(one) && a.V(!one) == b.V(!one)
    ensures a.Pair() == b.Pair()
  {}

  lemma StepChanges(I: Instance, a: Node, b: Node)
    requires I.Valid() && Step(I, a, b)
    ensures a.V(a.inOne) != b.V(a.inOne) && a.Pair() != b.Pair()
  {
    EdgeFacts(I.Poly(a.inOne), a.V(a.inOne), I.VarOf(a.inOne, a.enter), b.V(a.inOne), I.VarOf(a.inOne, b.enter));
  }

  /** Two steps arriving at the same pair by the same label in the same tableau started from the same pair. */
  lemma SamePredecessor(I: Instance, a: Node, b: Node, a': Node, b': Node)
    requires I.Valid() && I.NonDegenerate() && Step(I, a, b) && Step(I, a', b')
    requires b.Pair() == b'.Pair() && b.enter == b'.enter && a.inOne == a'.inOne
    ensures a.Pair() == a'.Pair()
  {
    var c, P := a.inOne, I.Poly(a.inOne);
    EdgeReversible(P, a.V(c), I.VarOf(c, a.enter), b.V(c), I.VarOf(c, b.enter));
    EdgeReversible(P, a'.V(c), I.VarOf(c, a'.enter), b'.V(c), I.VarOf(c, b'.enter));
    EdgeDeterministic(P, b.V(c), I.VarOf(c, b.enter), a.V(c), I.VarOf(c, a.enter), a'.V(c), I.VarOf(c, a'.enter));
    SamePair(a, a', c);
  }

  /** A step into a pair undone by the step out of that same pair: source and target of the two coincide. */
  lemma PredecessorIsSuccessor(I: Instance, a: Node, b: Node, s: Node, t: Node)
    requires I.Valid() && I.NonDegenerate() && Step(I, a, b) && Step(I, s, t)
    requires b.Pair() == s.Pair() && b.enter == s.enter && a.inOne == s.inOne
    ensures a.Pair() == t.Pair()
  {
    var c, P := a.inOne, I.Poly(a.inOne);
    EdgeReversible(P, a.V(c), I.VarOf(c, a.enter), b.V(c), I.VarOf(c, b.enter));
    EdgeDeterministic(P, b.V(c), I.VarOf(c, b.enter), a.V(c), I.VarOf(c, a.enter), t.V(c), I.VarOf(c, t.enter));
    SamePair(a, t, c);
  }

  /** A later node that shows the pair of node i entered its pair the way node i was left: impossible. */
  lemma NotForward(I: Instance, h: seq<Node>, i: nat)
    requires I.Valid() && I.NonDegenerate() && Path(I, h) && i < |h| - 1
    requires NoRepeat(h, |h| - 1)
    requires h[i].Pair() == h[|h| - 1].Pair() && h[i].enter == h[|h| - 1].enter
    ensures h[|h| - 2].inOne != h[i].inOne
  {
    var j := |h| - 1;
    if h[j - 1].inOne == h[i].inOne {
      assert Step(I, h[j - 1], h[j]) && Step(I, h[i], h[i + 1]);
      assert h[i + 1].inOne != h[i].inOne;
      StepChanges(I, h[j - 1], h[j]);
      PredecessorIsSuccessor(I, h[j - 1], h[j], h[i], h[i + 1]);
      assert false;
    }
  }

  /** Under nondegeneracy a run never revisits a pair of vertices. */
  lemma PathNeverRepeats(I: Instance, h: seq<Node>, i: nat)
    requires I.Valid() && I.NonDegenerate() && Path(I, h) && i < |h| - 1
    requires NoRepeat(h, |h| - 1)
    ensures h[i].Pair() != h[|h| - 1].Pair()
  {
    var j := |h| - 1;
    if h[i].Pair() == h[j].Pair() {
      SameEnteringLabel(I, h[i], h[j], i == 0);
      NotForward(I, h, i);
      assert Step(I, h[j - 1], h[j]);
      assert h[j].inOne != h[j - 1].inOne;
      if i == 0 {
        assert false;
      } else {
        assert Step(I, h[i - 1], h[i]);
        SamePredecessor(I, h[i - 1], h[i], h[j - 1], h[j]);
        assert false;
      }
    }
  }

  /** Equal pairs of basic sets carry the same entering label, and a final node matches only
      the start, on its other side. */
  lemma SameEnteringLabel(I: Instance, a: Node, b: Node, first: bool)
    requires I.Valid() && a.Pair() == b.Pair()
    requires if first then IsFirst(I, a) else IsMiddle(I, a)
    requires IsMiddle(I, b) || IsLast(I, b)
    ensures a.enter == b.enter
    ensures first ==> a.inOne != b.inOne
  {
    assert forall one: bool, l: nat | l < I.m + I.n :: Basic(I, a, one, l) == Basic(I, b, one, l);
    if a.enter != b.enter {
      assert false;
    }
  }

  /** Extending a run by one pivot keeps it a path, and repetition-free when the game is nondegenerate. */
  lemma ExtendPath(I: Instance, h: seq<Node>, b: Node)
    requires I.Valid() && Path(I, h) && (|h| > 1 ==> h[|h| - 1].enter != I.d) && Step(I, h[|h| - 1], b)
    requires I.NonDegenerate() ==> NoRepeat(h, |h|)
    ensures Path(I, h + [b])
    ensures if b.enter == I.d then IsLast(I, b) else IsMiddle(I, b)
    ensures I.NonDegenerate() ==> NoRepeat(h + [b], |h| + 1)
  {
    var h' := h + [b];
    StepKeepsLabels(I, h[|h| - 1], b);
    assert forall i | 0 <= i < |h'| - 1 :: Step(I, h'[i], h'[i + 1]);
    if I.NonDegenerate() {
      assert NoRepeat(h', |h|);
      forall i | 0 <= i < |h| ensures h'[i].Pair() != b.Pair() {
        PathNeverRepeats(I, h', i);
      }
    }
  }

  lemma {:induction false} NodesInRange(I: Instance, h: seq<Node>, k: nat)
    requires I.Valid() && Path(I, h) && k < |h|
    ensures InRange(I, h[k])
  {
    if k > 0 {
      NodesInRange(I, h, k - 1);
      var a, b := h[k - 1], h[k];
      assert Step(I, a, b);
      var c := a.inOne;
      EdgeFacts(I.Poly(c), a.V(c), I.VarOf(c, a.enter), b.V(c), I.VarOf(c, b.enter));
      forall v | v in b.v1 + b.v2 ensures v < I.m + I.n {
        assert v in b.V(c) || v in b.V(!c);
        assert I.VarOf(c, a.enter) < I.m + I.n;
        assert v in a.v1 + a.v2 || v == I.VarOf(c, a.enter);
      }
    }
  }

  /** A run without repetition visits at most 4^(m+n) pairs. */
  lemma PathLength(I: Instance, h: seq<Node>)
    requires I.Valid() && Path(I, h) && NoRepeat(h, |h|)
    ensures |h| <= Pow2(I.m + I.n) * Pow2(I.m + I.n)
  {
    var pairs := seq(|h|, i requires 0 <= i < |h| => h[i].Pair());
    forall i | 0 <= i < |pairs| ensures Within(pairs[i], I.m + I.n) {
      NodesInRange(I, h, i);
    }
    PairsOfSubsetsBound(pairs, I.m + I.n);
  }
}
