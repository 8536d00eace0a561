/** The run of the solver as the tableaux it passes through, ties broken as the ratio test breaks them. */
module ComplementaryRun {
  import opened Options
  import opened Tableaux
  import opened Vectors

  /** Both tableaux with their bases, the tableau pivoted next, and the variable entering it. */
  datatype Pose = Pose(t1: Matrix, b1: seq<nat>, t2: Matrix, b2: seq<nat>, inOne: bool, enterVar: nat) {
    function T(): Matrix { if inOne then t1 else t2 }
    function B(): seq<nat> { if inOne then b1 else b2 }
  }

  /** The label that leaves when variable v leaves a tableau. */
  function LabelLeaving(inOne: bool, v: nat, m: nat, n: nat): int {
    if inOne then v else if v < n then m + v else v - n
  }

  /** The variable that enters the other tableau next. */
  function EnteringNext(inOne: bool, v: nat, m: nat, n: nat): int {
    var l := LabelLeaving(inOne, v, m, n);
    if inOne then (if l < m then n + l else l - m) else l
  }

  /** Bringing e into the tableau T with basis b drives `leave` out and leaves T', b'. */
  ghost predicate PivotsTo(T: Matrix, b: seq<nat>, nv: nat, e: nat, T': Matrix, b': seq<nat>, leave: nat) {
    && Rect(T, |T|, nv + 1) && |b| == |T| && e < nv && RatioRow(T, nv, e).Some?
    && var r := RatioRow(T, nv, e).value;
    T' == Pivoted(T, nv, r, e) && b' == b[r := e] && leave == b[r]
  }

  lemma PivotsOneWay(T: Matrix, b: seq<nat>, nv: nat, e: nat, T1: Matrix, b1: seq<nat>, l1: nat, T2: Matrix,
                     b2: seq<nat>, l2: nat)
    requires PivotsTo(T, b, nv, e, T1, b1, l1) && PivotsTo(T, b, nv, e, T2, b2, l2)
    ensures T1 == T2 && b1 == b2 && l1 == l2
  {}

  /** One pivot, in which variable `leave` leaves, takes p to q. */
  ghost predicate Turn(p: Pose, leave: nat, q: Pose, m: nat, n: nat) {
    && q.inOne == !p.inOne && q.enterVar == EnteringNext(p.inOne, leave, m, n)
    && (if p.inOne then PivotsTo(p.t1, p.b1, m + n, p.enterVar, q.t1, q.b1, leave) && q.t2 == p.t2 && q.b2 == p.b2
        else PivotsTo(p.t2, p.b2, m + n, p.enterVar, q.t2, q.b2, leave) && q.t1 == p.t1 && q.b1 == p.b1)
  }

  ghost predicate Turns(p: Pose, q: Pose, m: nat, n: nat) { exists leave: nat :: Turn(p, leave, q, m, n) }

  /** At p the dropped label leaves. */
  ghost predicate Ends(p: Pose, m: nat, n: nat, d: nat) {
    var nv := m + n;
    exists leave: nat, T: Matrix, b: seq<nat> ::
      PivotsTo(p.T(), p.B(), nv, p.enterVar, T, b, leave) && LabelLeaving(p.inOne, leave, m, n) == d
  }

  /** The poses from start on. */
  ghost predicate Visits(start: Pose, ps: seq<Pose>, m: nat, n: nat) {
    ps != [] && ps[0] == start && forall i | 0 < i < |ps| :: Turns(ps[i - 1], ps[i], m, n)
  }

  /** After k turns the run from start is at p. */
  ghost predicate ComesTo(start: Pose, k: nat, p: Pose, m: nat, n: nat) {
    exists ps: seq<Pose> :: Visits(start, ps, m, n) && |ps| == k + 1 && ps[k] == p
  }

  ghost predicate EndsAfter(start: Pose, k: nat, m: nat, n: nat, d: nat) {
    exists p: Pose :: ComesTo(start, k, p, m, n) && Ends(p, m, n, d)
  }

  /** One of the first k turns of the run from start sees the dropped label leave. */
  ghost predicate EndsWithin(start: Pose, k: int, m: nat, n: nat, d: nat) {
    exists i: nat :: i < k && EndsAfter(start, i, m, n, d)
  }

  /** The run from start ends with turn k, which leads to q. */
  ghost predicate EndsAt(start: Pose, k: nat, q: Pose, m: nat, n: nat, d: nat) {
    && k > 0 && !EndsWithin(start, k - 1, m, n, d)
    && exists p: Pose, leave: nat ::
         ComesTo(start, k - 1, p, m, n) && Turn(p, leave, q, m, n) && LabelLeaving(p.inOne, leave, m, n) == d
  }

  lemma ComesFirst(start: Pose, m: nat, n: nat, d: nat)
    ensures ComesTo(start, 0, start, m, n) && !EndsWithin(start, 0, m, n, d)
  {
    assert Visits(start, [start], m, n);
  }

  lemma ComesNext(start: Pose, k: nat, p: Pose, q: Pose, m: nat, n: nat)
    requires ComesTo(start, k, p, m, n) && Turns(p, q, m, n)
    ensures ComesTo(start, k + 1, q, m, n)
  {
    var ps :| Visits(start, ps, m, n) && |ps| == k + 1 && ps[k] == p;
    VisitNext(start, ps, q, m, n);
    assert (ps + [q])[k + 1] == q;
  }

  lemma EndsBy(start: Pose, k: nat, p: Pose, leave: nat, q: Pose, m: nat, n: nat, d: nat)
    requires ComesTo(start, k, p, m, n) && Turn(p, leave, q, m, n) && LabelLeaving(p.inOne, leave, m, n) == d
    ensures EndsWithin(start, k + 1, m, n, d)
  {
    var T, b := if p.inOne then q.t1 else q.t2, if p.inOne then q.b1 else q.b2;
    assert PivotsTo(p.T(), p.B(), m + n, p.enterVar, T, b, leave);
    assert Ends(p, m, n, d);
    assert EndsAfter(start, k, m, n, d);
  }

  lemma TurnsOneWay(p: Pose, q: Pose, q': Pose, m: nat, n: nat)
    requires Turns(p, q, m, n) && Turns(p, q', m, n)
    ensures q == q'
  {
    var l: nat :| Turn(p, l, q, m, n);
    var l': nat :| Turn(p, l', q', m, n);
    if p.inOne {
      PivotsOneWay(p.t1, p.b1, m + n, p.enterVar, q.t1, q.b1, l, q'.t1, q'.b1, l');
    } else {
      PivotsOneWay(p.t2, p.b2, m + n, p.enterVar, q.t2, q.b2, l, q'.t2, q'.b2, l');
    }
  }

  lemma {:induction false} VisitsOneWay(start: Pose, ps: seq<Pose>, ps': seq<Pose>, m: nat, n: nat)
    requires Visits(start, ps, m, n) && Visits(start, ps', m, n) && |ps| == |ps'|
    ensures ps == ps'
  {
    var k := |ps| - 1;
    if k > 0 {
      VisitsOneWay(start, ps[..k], ps'[..k], m, n);
      assert ps[k - 1] == ps[..k][k - 1] == ps'[..k][k - 1] == ps'[k - 1];
      TurnsOneWay(ps[k - 1], ps[k], ps'[k], m, n);
      assert ps == ps[..k] + [ps[k]] && ps' == ps'[..k] + [ps'[k]];
    }
  }

  lemma ComesOneWay(start: Pose, k: nat, p: Pose, p': Pose, m: nat, n: nat)
    requires ComesTo(start, k, p, m, n) && ComesTo(start, k, p', m, n)
    ensures p == p'
  {
    var ps :| Visits(start, ps, m, n) && |ps| == k + 1 && ps[k] == p;
    var ps' :| Visits(start, ps', m, n) && |ps'| == k + 1 && ps'[k] == p';
    VisitsOneWay(start, ps, ps', m, n);
  }

  /** A run has one end at most, after so many turns and at one pose. */
  lemma EndsOneWay(start: Pose, k: nat, q: Pose, l: nat, r: Pose, m: nat, n: nat, d: nat)
    requires EndsAt(start, k, q, m, n, d) && EndsAt(start, l, r, m, n, d)
    ensures k == l && q == r
  {
    EndsNotBefore(start, k, q, l, m, n, d);
    EndsNotBefore(start, l, r, k, m, n, d);
    var p: Pose, leave: nat :|
      ComesTo(start, k - 1, p, m, n) && Turn(p, leave, q, m, n) && LabelLeaving(p.inOne, leave, m, n) == d;
    var p': Pose, leave': nat :|
      ComesTo(start, l - 1, p', m, n) && Turn(p', leave', r, m, n) && LabelLeaving(p'.inOne, leave', m, n) == d;
    ComesOneWay(start, k - 1, p, p', m, n);
    TurnsOneWay(p, q, r, m, n);
  }

  lemma EndsNotBefore(start: Pose, k: nat, q: Pose, l: nat, m: nat, n: nat, d: nat)
    requires EndsAt(start, k, q, m, n, d) && l > 0 && !EndsWithin(start, l - 1, m, n, d)
    ensures EndsWithin(start, k, m, n, d) && l <= k
  {
    var p: Pose, leave: nat :|
      ComesTo(start, k - 1, p, m, n) && Turn(p, leave, q, m, n) && LabelLeaving(p.inOne, leave, m, n) == d;
    EndsBy(start, k - 1, p, leave, q, m, n, d);
    if k < l {
      WithinMore(start, k, l - 1, m, n, d);
    }
  }

  /** A run that has not ended within k turns, and does not end with the next, has not ended within k + 1. */
  lemma GoesOn(start: Pose, k: nat, p: Pose, leave: nat, q: Pose, m: nat, n: nat, d: nat)
    requires ComesTo(start, k, p, m, n) && !EndsWithin(start, k, m, n, d)
    requires Turn(p, leave, q, m, n) && LabelLeaving(p.inOne, leave, m, n) != d
    ensures ComesTo(start, k + 1, q, m, n) && !EndsWithin(start, k + 1, m, n, d)
  {
    assert Turns(p, q, m, n);
    ComesNext(start, k, p, q, m, n);
    OnlyTurn(p, leave, q, m, n, d);
    if EndsWithin(start, k + 1, m, n, d) {
      var i: nat :| i < k + 1 && EndsAfter(start, i, m, n, d);
      assert i == k;
      var p' :| ComesTo(start, k, p', m, n) && Ends(p', m, n, d);
      ComesOneWay(start, k, p, p', m, n);
    }
  }

  lemma WithinMore(start: Pose, k: int, l: int, m: nat, n: nat, d: nat)
    requires k <= l && EndsWithin(start, k, m, n, d)
    ensures EndsWithin(start, l, m, n, d)
  {
    var i: nat :| i < k && EndsAfter(start, i, m, n, d);
    assert i < l;
  }

  lemma NotWithin(start: Pose, k: int, l: int, m: nat, n: nat, d: nat)
    requires k <= l && !EndsWithin(start, l, m, n, d)
    ensures !EndsWithin(start, k, m, n, d)
  {
    if EndsWithin(start, k, m, n, d) {
      WithinMore(start, k, l, m, n, d);
    }
  }

  /** The label that leaves tells whether the run has ended. */
  lemma TurnTells(start: Pose, k: nat, p: Pose, leave: nat, q: Pose, left: int, m: nat, n: nat, d: nat)
    requires ComesTo(start, k, p, m, n) && !EndsWithin(start, k, m, n, d)
    requires Turn(p, leave, q, m, n) && LabelLeaving(p.inOne, leave, m, n) == left
    ensures ComesTo(start, k + 1, q, m, n) && (EndsWithin(start, k + 1, m, n, d) <==> left == d)
    ensures left == d ==> EndsAt(start, k + 1, q, m, n, d)
  {
    assert Turns(p, q, m, n);
    ComesNext(start, k, p, q, m, n);
    if left == d {
      EndsBy(start, k, p, leave, q, m, n, d);
      assert ComesTo(start, (k + 1) - 1, p, m, n);
    } else {
      GoesOn(start, k, p, leave, q, m, n, d);
    }
  }

  lemma VisitNext(start: Pose, ps: seq<Pose>, q: Pose, m: nat, n: nat)
    requires Visits(start, ps, m, n) && Turns(ps[|ps| - 1], q, m, n)
    ensures Visits(start, ps + [q], m, n)
  {}

  /** All turns from the poses of the cycle lead back into it. */
  ghost predicate ClosedUnderTurns(cycle: seq<Pose>, m: nat, n: nat) {
    forall i, q | 0 <= i < |cycle| && Turns(cycle[i], q, m, n) :: q in cycle
  }

  lemma {:induction false} StaysInside(cycle: seq<Pose>, start: Pose, ps: seq<Pose>, m: nat, n: nat)
    requires start in cycle && Visits(start, ps, m, n) && ClosedUnderTurns(cycle, m, n)
    ensures ps[|ps| - 1] in cycle
  {
    if |ps| > 1 {
      var front := ps[..|ps| - 1];
      StaysInside(cycle, start, front, m, n);
      var i :| 0 <= i < |cycle| && cycle[i] == front[|front| - 1];
      assert Turns(cycle[i], ps[|ps| - 1], m, n);
    }
  }

  /** A run that starts among poses closed under turning, none of which ends it, never ends. */
  lemma ClosedNeverEnds(cycle: seq<Pose>, start: Pose, m: nat, n: nat, d: nat)
    requires start in cycle && ClosedUnderTurns(cycle, m, n)
    requires forall i | 0 <= i < |cycle| :: !Ends(cycle[i], m, n, d)
    ensures forall k: int :: !EndsWithin(start, k, m, n, d)
  {
    forall k: nat ensures !EndsAfter(start, k, m, n, d) {
      forall p: Pose | ComesTo(start, k, p, m, n) ensures !Ends(p, m, n, d) {
        var ps :| Visits(start, ps, m, n) && |ps| == k + 1 && ps[k] == p;
        StaysInside(cycle, start, ps, m, n);
        var i :| 0 <= i < |cycle| && cycle[i] == p;
      }
    }
  }

  /** From p there is only one way on, and the label that leaves is not the dropped one. */
  lemma OnlyTurn(p: Pose, leave: nat, q: Pose, m: nat, n: nat, d: nat)
    requires Turn(p, leave, q, m, n) && LabelLeaving(p.inOne, leave, m, n) != d
    ensures !Ends(p, m, n, d) && forall q' | Turns(p, q', m, n) :: q' == q
  {
    var nv := m + n;
    var T, b := if p.inOne then q.t1 else q.t2, if p.inOne then q.b1 else q.b2;
    forall l: nat, T': Matrix, b': seq<nat> | PivotsTo(p.T(), p.B(), nv, p.enterVar, T', b', l)
      ensures l == leave && T' == T && b' == b
    {
      PivotsOneWay(p.T(), p.B(), nv, p.enterVar, T, b, leave, T', b', l);
    }
    forall q' | Turns(p, q', m, n) ensures q' == q {
      var l: nat :| Turn(p, l, q', m, n);
      assert PivotsTo(p.T(), p.B(), nv, p.enterVar, if p.inOne then q'.t1 else q'.t2, if p.inOne then q'.b1 else q'.b2,
                      l);
    }
  }
}
