/** A degenerate game on which the solver never converges, whatever its iteration limit. */
module LemkeHowsonCycle {
  import opened ComplementaryRun
  import opened Games
  import opened LemkeHowson
  import opened Options
  import opened Polytopes
  import opened Tableaux
  import opened Vectors

  // ---- The tableaux the run passes through ----

  const ROW0: Matrix := [
    [1.0, 3.0, 2.0, 1.0, 0.0, 0.0, 1.0],
    [3.0, 1.0, 1.0, 0.0, 1.0, 0.0, 1.0],
    [3.0, 3.0, 3.0, 0.0, 0.0, 1.0, 1.0]]

  const COL0: Matrix := [
    [3.0, 2.0, 1.0, 1.0, 0.0, 0.0, 1.0],
    [3.0, 1.0, 3.0, 0.0, 1.0, 0.0, 1.0],
    [2.0, 3.0, 2.0, 0.0, 0.0, 1.0, 1.0]]

  const COL1: Matrix := [
    [1.0, 2.0 / 3.0, 1.0 / 3.0, 1.0 / 3.0, 0.0, 0.0, 1.0 / 3.0],
    [0.0, -1.0, 2.0, -1.0, 1.0, 0.0, 0.0],
    [0.0, 5.0 / 3.0, 4.0 / 3.0, -2.0 / 3.0, 0.0, 1.0, 1.0 / 3.0]]

  const ROW1: Matrix := [
    [0.0, 8.0 / 3.0, 5.0 / 3.0, 1.0, -1.0 / 3.0, 0.0, 2.0 / 3.0],
    [1.0, 1.0 / 3.0, 1.0 / 3.0, 0.0, 1.0 / 3.0, 0.0, 1.0 / 3.0],
    [0.0, 2.0, 2.0, 0.0, -1.0, 1.0, 0.0]]

  const COL2: Matrix := [
    [1.0, 0.0, -1.0 / 5.0, 3.0 / 5.0, 0.0, -2.0 / 5.0, 1.0 / 5.0],
    [0.0, 0.0, 14.0 / 5.0, -7.0 / 5.0, 1.0, 3.0 / 5.0, 1.0 / 5.0],
    [0.0, 1.0, 4.0 / 5.0, -2.0 / 5.0, 0.0, 3.0 / 5.0, 1.0 / 5.0]]

  const ROW2: Matrix := [
    [0.0, 1.0, 0.0, 1.0, 1.0 / 2.0, -5.0 / 6.0, 2.0 / 3.0],
    [1.0, 0.0, 0.0, 0.0, 1.0 / 2.0, -1.0 / 6.0, 1.0 / 3.0],
    [0.0, 1.0, 1.0, 0.0, -1.0 / 2.0, 1.0 / 2.0, 0.0]]

  const COL3: Matrix := [
    [1.0, 0.0, 0.0, 1.0 / 2.0, 1.0 / 14.0, -5.0 / 14.0, 3.0 / 14.0],
    [0.0, 0.0, 1.0, -1.0 / 2.0, 5.0 / 14.0, 3.0 / 14.0, 1.0 / 14.0],
    [0.0, 1.0, 0.0, 0.0, -2.0 / 7.0, 3.0 / 7.0, 1.0 / 7.0]]

  const ROW3: Matrix := [
    [0.0, 0.0, -1.0, 1.0, 1.0, -4.0 / 3.0, 2.0 / 3.0],
    [1.0, 0.0, 0.0, 0.0, 1.0 / 2.0, -1.0 / 6.0, 1.0 / 3.0],
    [0.0, 1.0, 1.0, 0.0, -1.0 / 2.0, 1.0 / 2.0, 0.0]]

  const COL4: Matrix := [
    [1.0, 0.0, 5.0 / 3.0, -1.0 / 3.0, 2.0 / 3.0, 0.0, 1.0 / 3.0],
    [0.0, 0.0, 14.0 / 3.0, -7.0 / 3.0, 5.0 / 3.0, 1.0, 1.0 / 3.0],
    [0.0, 1.0, -2.0, 1.0, -1.0, 0.0, 0.0]]

  // ---- The poses ----

  const P0: Pose := Pose(ROW0, [3, 4, 5], COL0, [3, 4, 5], false, 0)
  const P1: Pose := Pose(ROW0, [3, 4, 5], COL1, [0, 4, 5], true, 0)
  const P2: Pose := Pose(ROW1, [3, 0, 5], COL1, [0, 4, 5], false, 1)
  const P3: Pose := Pose(ROW1, [3, 0, 5], COL2, [0, 4, 1], true, 2)
  const P4: Pose := Pose(ROW2, [3, 0, 2], COL2, [0, 4, 1], false, 2)
  const P5: Pose := Pose(ROW2, [3, 0, 2], COL3, [0, 2, 1], true, 1)
  const P6: Pose := Pose(ROW3, [3, 0, 1], COL3, [0, 2, 1], false, 5)
  const P7: Pose := Pose(ROW3, [3, 0, 1], COL4, [0, 5, 1], true, 5)
  const P8: Pose := Pose(ROW1, [3, 0, 5], COL4, [0, 5, 1], false, 4)

  // ---- Its turns, one lemma each ----

  lemma Turn0()
    ensures Turn(P0, 3, P1, 3, 3)
  {
    var r0, r1, r2 := RatioRowTo(COL0, 6, 0, 1), RatioRowTo(COL0, 6, 0, 2), RatioRowTo(COL0, 6, 0, 3);
    assert r2 == Some(0);
    MatrixExt(Pivoted(COL0, 6, 0, 0), COL1, 3, 7);
  }

  lemma Turn1()
    ensures Turn(P1, 4, P2, 3, 3)
  {
    var r0, r1, r2 := RatioRowTo(ROW0, 6, 0, 1), RatioRowTo(ROW0, 6, 0, 2), RatioRowTo(ROW0, 6, 0, 3);
    assert r2 == Some(1);
    MatrixExt(Pivoted(ROW0, 6, 1, 0), ROW1, 3, 7);
  }

  lemma Turn2()
    ensures Turn(P2, 5, P3, 3, 3)
  {
    var r0, r1, r2 := RatioRowTo(COL1, 6, 1, 1), RatioRowTo(COL1, 6, 1, 2), RatioRowTo(COL1, 6, 1, 3);
    assert r2 == Some(2);
    MatrixExt(Pivoted(COL1, 6, 2, 1), COL2, 3, 7);
  }

  lemma Turn3()
    ensures Turn(P3, 5, P4, 3, 3)
  {
    var r0, r1, r2 := RatioRowTo(ROW1, 6, 2, 1), RatioRowTo(ROW1, 6, 2, 2), RatioRowTo(ROW1, 6, 2, 3);
    assert r2 == Some(2);
    MatrixExt(Pivoted(ROW1, 6, 2, 2), ROW2, 3, 7);
  }

  lemma Turn4()
    ensures Turn(P4, 4, P5, 3, 3)
  {
    var r0, r1, r2 := RatioRowTo(COL2, 6, 2, 1), RatioRowTo(COL2, 6, 2, 2), RatioRowTo(COL2, 6, 2, 3);
    assert r2 == Some(1);
    MatrixExt(Pivoted(COL2, 6, 1, 2), COL3, 3, 7);
  }

  lemma Turn5()
    ensures Turn(P5, 2, P6, 3, 3)
  {
    var r0, r1, r2 := RatioRowTo(ROW2, 6, 1, 1), RatioRowTo(ROW2, 6, 1, 2), RatioRowTo(ROW2, 6, 1, 3);
    assert r2 == Some(2);
    MatrixExt(Pivoted(ROW2, 6, 2, 1), ROW3, 3, 7);
  }

  lemma Turn6()
    ensures Turn(P6, 2, P7, 3, 3)
  {
    var r0, r1, r2 := RatioRowTo(COL3, 6, 5, 1), RatioRowTo(COL3, 6, 5, 2), RatioRowTo(COL3, 6, 5, 3);
    assert r2 == Some(1);
    MatrixExt(Pivoted(COL3, 6, 1, 5), COL4, 3, 7);
  }

  lemma Turn7()
    ensures Turn(P7, 1, P8, 3, 3)
  {
    var r0, r1, r2 := RatioRowTo(ROW3, 6, 5, 1), RatioRowTo(ROW3, 6, 5, 2), RatioRowTo(ROW3, 6, 5, 3);
    assert r2 == Some(2);
    MatrixExt(Pivoted(ROW3, 6, 2, 5), ROW1, 3, 7);
  }

  lemma Turn8()
    ensures Turn(P8, 5, P3, 3, 3)
  {
    var r0, r1, r2 := RatioRowTo(COL4, 6, 4, 1), RatioRowTo(COL4, 6, 4, 2), RatioRowTo(COL4, 6, 4, 3);
    assert r2 == Some(1);
    MatrixExt(Pivoted(COL4, 6, 1, 4), COL2, 3, 7);
  }

  const CYCLE: seq<Pose> := [P0, P1, P2, P3, P4, P5, P6, P7, P8]

  /** From every pose of the list the run goes on to a pose of the list, and label 3 does not leave. */
  lemma CycleTurns(i: nat)
    requires i < 9
    ensures !Ends(CYCLE[i], 3, 3, 3) && forall q | Turns(CYCLE[i], q, 3, 3) :: q in CYCLE
  {
    match i
    case 0 => Turn0(); OnlyTurn(P0, 3, P1, 3, 3, 3); assert CYCLE[1] == P1;
    case 1 => Turn1(); OnlyTurn(P1, 4, P2, 3, 3, 3); assert CYCLE[2] == P2;
    case 2 => Turn2(); OnlyTurn(P2, 5, P3, 3, 3, 3); assert CYCLE[3] == P3;
    case 3 => Turn3(); OnlyTurn(P3, 5, P4, 3, 3, 3); assert CYCLE[4] == P4;
    case 4 => Turn4(); OnlyTurn(P4, 4, P5, 3, 3, 3); assert CYCLE[5] == P5;
    case 5 => Turn5(); OnlyTurn(P5, 2, P6, 3, 3, 3); assert CYCLE[6] == P6;
    case 6 => Turn6(); OnlyTurn(P6, 2, P7, 3, 3, 3); assert CYCLE[7] == P7;
    case 7 => Turn7(); OnlyTurn(P7, 1, P8, 3, 3, 3); assert CYCLE[8] == P8;
    case 8 => Turn8(); OnlyTurn(P8, 5, P3, 3, 3, 3); assert CYCLE[3] == P3;
  }

  const ROW_PAYOFFS: Matrix := [[3.0, 2.0, 1.0], [3.0, 1.0, 3.0], [2.0, 3.0, 2.0]]
  const COLUMN_PAYOFFS: Matrix := [[1.0, 3.0, 3.0], [3.0, 1.0, 3.0], [2.0, 1.0, 3.0]]

  /** The run that drops label 3 on this game goes round for ever. */
  lemma NeverConverges()
    ensures Positive(ROW_PAYOFFS, 3, 3) && Positive(COLUMN_PAYOFFS, 3, 3)
    ensures forall k: int :: !GameRunEnds(ROW_PAYOFFS, COLUMN_PAYOFFS, 3, 3, 3, k)
  {
    var I := InstanceOf(ROW_PAYOFFS, COLUMN_PAYOFFS, 3, 3, 3);
    InstanceValid(ROW_PAYOFFS, COLUMN_PAYOFFS, 3, 3, 3);
    StartsAtP0();
    forall i | 0 <= i < 9 ensures !Ends(CYCLE[i], 3, 3, 3) && forall q | Turns(CYCLE[i], q, 3, 3) :: q in CYCLE {
      CycleTurns(i);
    }
    assert CYCLE[0] == P0;
    ClosedNeverEnds(CYCLE, P0, 3, 3, 3);
    forall k: int ensures !GameRunEnds(ROW_PAYOFFS, COLUMN_PAYOFFS, 3, 3, 3, k) {
      forall A: Matrix, B: Matrix, shift: real | IsPositiveShift(ROW_PAYOFFS, COLUMN_PAYOFFS, A, B, 3, 3, shift)
        ensures !ShiftedRunEnds(A, B, 3, 3, 3, k)
      {
        PositiveUnshifted(ROW_PAYOFFS, COLUMN_PAYOFFS, A, B, 3, 3, shift);
      }
    }
  }

  lemma StartsAtP0()
    ensures InstanceOf(ROW_PAYOFFS, COLUMN_PAYOFFS, 3, 3, 3).Valid()
    ensures StartPose(InstanceOf(ROW_PAYOFFS, COLUMN_PAYOFFS, 3, 3, 3)) == P0
  {
    var I := InstanceOf(ROW_PAYOFFS, COLUMN_PAYOFFS, 3, 3, 3);
    InstanceValid(ROW_PAYOFFS, COLUMN_PAYOFFS, 3, 3, 3);
    MatrixExt(I.p1.Start(), ROW0, 3, 7);
    MatrixExt(I.p2.Start(), COL0, 3, 7);
  }

  /** However many iterations the solver is given, it gives up on this game. */
  method SolveCyclingGame(maxIter: int) returns (result: EquilibriumResult)
    ensures result.status == MaxIterations
  {
    var a := new real[3, 3]((i, j) requires 0 <= i < 3 && 0 <= j < 3 => ROW_PAYOFFS[i][j]);
    var b := new real[3, 3]((i, j) requires 0 <= i < 3 && 0 <= j < 3 => COLUMN_PAYOFFS[i][j]);
    var game := new BimatrixGame(a, b);
    MatrixExt(game.A(), ROW_PAYOFFS, 3, 3);
    MatrixExt(game.B(), COLUMN_PAYOFFS, 3, 3);
    NeverConverges();
    var solver := new LemkeHowsonSolver(3, maxIter);
    result := solver.RunPivoting(game, 3);
  }
}
