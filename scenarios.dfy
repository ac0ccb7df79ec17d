/**
 * Worked examples, each evaluated step by step through the fold loop:
 * a sweep point with no deficit, a layout with one fold, a failure, the
 * replaced fold, the rounding of a mixed combination, and a whole search.
 */
module Scenarios {
  import opened Wells
  import opened Ranking
  import opened Sweep
  import opened Combiner

  /** Running one more iteration of the fold loop is one more Step. */
  lemma PrefixNext(init: seq<Well>, k: nat, n: int, f: int, w: real, ws: seq<Well>)
    requires 2 <= |init| && k < |init| && n >= 1
    requires FoldPrefix(init, k, n, f, w) == Ok(ws)
    ensures FoldPrefix(init, k + 1, n, f, w) == Step(ws, k, n, f, w)
  {
  }

  // ---------------------------------------------------------------------
  // n = 5, r = 2, f = 0
  // ---------------------------------------------------------------------

  const A0: seq<Well> := [Well(1, 3, NoFold, 0, 0), Well(2, 2, NoFold, 0, 0), Well(4, 0, NoFold, 0, 0), Well(3, 1, NoFold, 0, 0)]
  const A1: seq<Well> := [Well(1, 3, NoFold, 0, 3), Well(2, 2, NoFold, 0, 0), Well(4, 0, NoFold, 0, 0), Well(3, 1, NoFold, 0, 0)]
  const A2: seq<Well> := [Well(1, 3, NoFold, 0, 3), Well(2, 2, NoFold, 0, 2), Well(4, 0, NoFold, 0, 0), Well(3, 1, NoFold, 0, 0)]
  const A3: seq<Well> := [Well(1, 3, NoFold, 0, 3), Well(2, 2, NoFold, 0, 2), Well(4, 0, NoFold, 0, 0), Well(3, 1, NoFold, 0, 0)]
  const A4: seq<Well> := [Well(1, 3, NoFold, 0, 3), Well(2, 2, NoFold, 0, 2), Well(4, 0, NoFold, 0, 0), Well(3, 1, NoFold, 0, 1)]

  lemma DepthsA()
    ensures Depths(5, 2) == [1, 2, 4, 3]
  {
    assert Pow(2, 1) == 2 && Pow(2, 2) == 4 && Pow(2, 3) == 8;
  }

  lemma TopA()
    ensures MaxDepth([1, 2, 4, 3]) == 4
  {
    assert MaxDepth([1]) == 1;
    assert [1, 2][..1] == [1];
    assert MaxDepth([1, 2]) == 2;
    assert [1, 2, 4][..2] == [1, 2];
    assert MaxDepth([1, 2, 4]) == 4;
    assert [1, 2, 4, 3][..3] == [1, 2, 4];
    assert MaxDepth([1, 2, 4, 3]) == 4;
  }

  lemma LayoutA()
    ensures InitialLayout(5, 2) == A0
  {
    DepthsA();
    TopA();
  }

  lemma StepA0()
    ensures Step(A0, 0, 5, 0, 26.0) == Ok(A1)
  {
    assert RequiredFoldDepth(A0[0].rawHeight, 0, 5) == 0;
    assert A0[0 := A0[0].(buildHeight := 3)] == A1;
  }

  lemma StepA1()
    ensures Step(A1, 1, 5, 0, 26.0) == Ok(A2)
  {
  }

  lemma StepA2()
    ensures Step(A2, 2, 5, 0, 26.0) == Ok(A3)
  {
  }

  lemma StepA3()
    ensures Step(A3, 3, 5, 0, 26.0) == Ok(A4)
  {
  }

  /** n = 5, r = 2, f = 0 at the sweep's width 26: depths 1, 2, 4, 3, no deficit, build heights 3, 2, 0, 1. */
  lemma PlanA()
    ensures Plan(5, 2, 0, 26.0) == Ok(A4)
  {
    LayoutA();
    StepA0();
    PrefixNext(A0, 0, 5, 0, 26.0, A0);
    StepA1();
    PrefixNext(A0, 1, 5, 0, 26.0, A1);
    StepA2();
    PrefixNext(A0, 2, 5, 0, 26.0, A2);
    StepA3();
    PrefixNext(A0, 3, 5, 0, 26.0, A3);
  }

  /** The sweep's width for n = 5. */
  lemma WidthA()
    ensures Width(5) == 26.0
  {
  }

  /** The final layout's measures: max build height 3, one zero-height well out of four. */
  lemma MeasureA()
    ensures MaxBuildHeight(A4) == 3 && ZeroCount(A4) == 1 && ZeroPercentage(A4) == 25.0
  {
    assert A4[1..][1..][1..] == [A4[3]];
  }

  /** Its score: 25% zero-height wells, so it is accepted. */
  lemma ScoreA()
    ensures Evaluate(Params(5, 2, 0, 26.0)) == Some(Solution(5, 2, 0, 26.0, 3, 25.0))
    ensures InBand(Solution(5, 2, 0, 26.0, 3, 25.0))
  {
    PlanA();
    MeasureA();
  }

  // ---------------------------------------------------------------------
  // n = 7, r = 3, f = 1, w = 3
  // ---------------------------------------------------------------------

  const B0: seq<Well> := [Well(1, 5, NoFold, 0, 0), Well(3, 3, NoFold, 0, 0), Well(2, 4, NoFold, 0, 0), Well(6, 0, NoFold, 0, 0), Well(4, 2, NoFold, 0, 0), Well(5, 1, NoFold, 0, 0)]
  const B1: seq<Well> := [Well(1, 5, NoFold, 0, 4), Well(3, 3, NoFold, 0, 0), Well(2, 4, NoFold, 0, 0), Well(6, 0, NoFold, 0, 0), Well(4, 2, NoFold, 0, 0), Well(5, 1, NoFold, 0, 0)]
  const B2: seq<Well> := [Well(1, 5, NoFold, 0, 4), Well(3, 3, NoFold, 0, 2), Well(2, 4, NoFold, 0, 0), Well(6, 0, NoFold, 0, 0), Well(4, 2, NoFold, 0, 0), Well(5, 1, NoFold, 0, 0)]
  const B3: seq<Well> := [Well(1, 5, NoFold, 0, 4), Well(3, 3, NoFold, 0, 2), Well(2, 4, NoFold, 0, 3), Well(6, 0, NoFold, 0, 0), Well(4, 2, NoFold, 0, 0), Well(5, 1, NoFold, 0, 0)]
  const B4: seq<Well> := [Well(1, 5, NoFold, 0, 4), Well(3, 3, NoFold, 0, 2), Well(2, 4, Right, 1, 3), Well(6, 0, NoFold, 0, 0), Well(4, 2, NoFold, 0, 0), Well(5, 1, NoFold, 0, 0)]
  const B5: seq<Well> := [Well(1, 5, NoFold, 0, 4), Well(3, 3, NoFold, 0, 2), Well(2, 4, Right, 1, 3), Well(6, 0, NoFold, 0, 0), Well(4, 2, NoFold, 0, 1), Well(5, 1, NoFold, 0, 0)]
  const B6: seq<Well> := [Well(1, 5, NoFold, 0, 4), Well(3, 3, NoFold, 0, 2), Well(2, 4, Right, 1, 3), Well(6, 0, NoFold, 0, 0), Well(4, 2, NoFold, 0, 1), Well(5, 1, NoFold, 0, 0)]

  lemma DepthsB()
    ensures Depths(7, 3) == [1, 3, 2, 6, 4, 5]
  {
    assert Pow(3, 1) == 3 && Pow(3, 2) == 9 && Pow(3, 3) == 27 && Pow(3, 4) == 81 && Pow(3, 5) == 243;
  }

  lemma TopB()
    ensures MaxDepth([1, 3, 2, 6, 4, 5]) == 6
  {
    assert MaxDepth([1]) == 1;
    assert [1, 3][..1] == [1];
    assert MaxDepth([1, 3]) == 3;
    assert [1, 3, 2][..2] == [1, 3];
    assert MaxDepth([1, 3, 2]) == 3;
    assert [1, 3, 2, 6][..3] == [1, 3, 2];
    assert MaxDepth([1, 3, 2, 6]) == 6;
    assert [1, 3, 2, 6, 4][..4] == [1, 3, 2, 6];
    assert MaxDepth([1, 3, 2, 6, 4]) == 6;
    assert [1, 3, 2, 6, 4, 5][..5] == [1, 3, 2, 6, 4];
    assert MaxDepth([1, 3, 2, 6, 4, 5]) == 6;
  }

  lemma LayoutB()
    ensures InitialLayout(7, 3) == B0
  {
    DepthsB();
    TopB();
  }

  lemma StepB0()
    ensures Step(B0, 0, 7, 1, 3.0) == Ok(B1)
  {
  }

  lemma StepB1()
    ensures Step(B1, 1, 7, 1, 3.0) == Ok(B2)
  {
  }

  lemma StepB2()
    ensures Step(B2, 2, 7, 1, 3.0) == Ok(B3)
  {
  }

  lemma StepB3()
    ensures Step(B3, 3, 7, 1, 3.0) == Ok(B4)
  {
  }

  lemma StepB4()
    ensures Step(B4, 4, 7, 1, 3.0) == Ok(B5)
  {
  }

  lemma StepB5()
    ensures Step(B5, 5, 7, 1, 3.0) == Ok(B6)
  {
  }

  /**
   * n = 7, r = 3, f = 1, w = 3: raw heights 5, 3, 4, 0, 2, 1; well 3 lacks one
   * unit and is folded behind its left neighbour, which records Right with depth 1.
   */
  lemma PlanB()
    ensures Plan(7, 3, 1, 3.0) == Ok(B6)
  {
    LayoutB();
    StepB0();
    PrefixNext(B0, 0, 7, 1, 3.0, B0);
    StepB1();
    PrefixNext(B0, 1, 7, 1, 3.0, B1);
    StepB2();
    PrefixNext(B0, 2, 7, 1, 3.0, B2);
    StepB3();
    PrefixNext(B0, 3, 7, 1, 3.0, B3);
    StepB4();
    PrefixNext(B0, 4, 7, 1, 3.0, B4);
    StepB5();
    PrefixNext(B0, 5, 7, 1, 3.0, B5);
  }

  /** Its only fold is the one recorded on well 2, and every build height is the formula's. */
  lemma FoldsB()
    ensures B6[2].fold == Right && B6[2].foldDepth == 1
    ensures forall i :: 0 <= i < 6 && i != 2 ==> B6[i].fold == NoFold
    ensures forall i :: 0 <= i < 6 ==> B6[i].buildHeight == BuildHeight(B6[i].rawHeight, 1, 7)
  {
  }

  // ---------------------------------------------------------------------
  // n = 5, r = 2, f = 4, w = 1
  // ---------------------------------------------------------------------

  lemma StepC0()
    ensures Step(A0, 0, 5, 4, 1.0) == Err(FoldTooDeep(0, 1))
  {
  }

  /** n = 5, r = 2, f = 4, w = 1: well 0 lacks one unit, and a fold of depth 1 is not narrower than w = 1. */
  lemma PlanC()
    ensures Plan(5, 2, 4, 1.0) == Err(FoldTooDeep(0, 1))
  {
    LayoutA();
    StepC0();
    PrefixNext(A0, 0, 5, 4, 1.0, A0);
    FoldLemmas.ErrorPropagates(A0, 1, 4, 5, 4, 1.0);
  }

  // ---------------------------------------------------------------------
  // n = 11, r = 9, f = 5, w = 6: a recorded fold is replaced
  // ---------------------------------------------------------------------

  const O0: seq<Well> := [Well(1, 8, NoFold, 0, 0), Well(9, 0, NoFold, 0, 0), Well(4, 5, NoFold, 0, 0), Well(3, 6, NoFold, 0, 0), Well(5, 4, NoFold, 0, 0), Well(1, 8, NoFold, 0, 0), Well(9, 0, NoFold, 0, 0), Well(4, 5, NoFold, 0, 0), Well(3, 6, NoFold, 0, 0), Well(5, 4, NoFold, 0, 0)]
  const O1: seq<Well> := [Well(1, 8, NoFold, 0, 3), Well(9, 0, NoFold, 0, 0), Well(4, 5, NoFold, 0, 0), Well(3, 6, NoFold, 0, 0), Well(5, 4, NoFold, 0, 0), Well(1, 8, NoFold, 0, 0), Well(9, 0, NoFold, 0, 0), Well(4, 5, NoFold, 0, 0), Well(3, 6, NoFold, 0, 0), Well(5, 4, NoFold, 0, 0)]
  const O2: seq<Well> := [Well(1, 8, Right, 5, 3), Well(9, 0, NoFold, 0, 0), Well(4, 5, NoFold, 0, 0), Well(3, 6, NoFold, 0, 0), Well(5, 4, NoFold, 0, 0), Well(1, 8, NoFold, 0, 0), Well(9, 0, NoFold, 0, 0), Well(4, 5, NoFold, 0, 0), Well(3, 6, NoFold, 0, 0), Well(5, 4, NoFold, 0, 0)]
  const O3: seq<Well> := [Well(1, 8, Right, 5, 3), Well(9, 0, NoFold, 0, 0), Well(4, 5, NoFold, 0, 0), Well(3, 6, NoFold, 0, 0), Well(5, 4, NoFold, 0, 0), Well(1, 8, NoFold, 0, 0), Well(9, 0, NoFold, 0, 0), Well(4, 5, NoFold, 0, 0), Well(3, 6, NoFold, 0, 0), Well(5, 4, NoFold, 0, 0)]
  const O4: seq<Well> := [Well(1, 8, Right, 5, 3), Well(9, 0, NoFold, 0, 0), Well(4, 5, NoFold, 0, 0), Well(3, 6, NoFold, 0, 1), Well(5, 4, NoFold, 0, 0), Well(1, 8, NoFold, 0, 0), Well(9, 0, NoFold, 0, 0), Well(4, 5, NoFold, 0, 0), Well(3, 6, NoFold, 0, 0), Well(5, 4, NoFold, 0, 0)]
  const O5: seq<Well> := [Well(1, 8, Right, 5, 3), Well(9, 0, NoFold, 0, 0), Well(4, 5, NoFold, 0, 0), Well(3, 6, NoFold, 0, 1), Well(5, 4, NoFold, 0, 0), Well(1, 8, Left, 1, 0), Well(9, 0, NoFold, 0, 0), Well(4, 5, NoFold, 0, 0), Well(3, 6, NoFold, 0, 0), Well(5, 4, NoFold, 0, 0)]
  const O6: seq<Well> := [Well(1, 8, Right, 5, 3), Well(9, 0, NoFold, 0, 0), Well(4, 5, NoFold, 0, 0), Well(3, 6, NoFold, 0, 1), Well(5, 4, NoFold, 0, 0), Well(1, 8, Left, 1, 3), Well(9, 0, NoFold, 0, 0), Well(4, 5, NoFold, 0, 0), Well(3, 6, NoFold, 0, 0), Well(5, 4, NoFold, 0, 0)]
  const O7: seq<Well> := [Well(1, 8, Right, 5, 3), Well(9, 0, NoFold, 0, 0), Well(4, 5, NoFold, 0, 0), Well(3, 6, NoFold, 0, 1), Well(5, 4, NoFold, 0, 0), Well(1, 8, Right, 5, 3), Well(9, 0, NoFold, 0, 0), Well(4, 5, NoFold, 0, 0), Well(3, 6, NoFold, 0, 0), Well(5, 4, NoFold, 0, 0)]
  const O8: seq<Well> := [Well(1, 8, Right, 5, 3), Well(9, 0, NoFold, 0, 0), Well(4, 5, NoFold, 0, 0), Well(3, 6, NoFold, 0, 1), Well(5, 4, NoFold, 0, 0), Well(1, 8, Right, 5, 3), Well(9, 0, NoFold, 0, 0), Well(4, 5, NoFold, 0, 0), Well(3, 6, NoFold, 0, 0), Well(5, 4, NoFold, 0, 0)]
  const O9: seq<Well> := [Well(1, 8, Right, 5, 3), Well(9, 0, NoFold, 0, 0), Well(4, 5, NoFold, 0, 0), Well(3, 6, NoFold, 0, 1), Well(5, 4, NoFold, 0, 0), Well(1, 8, Right, 5, 3), Well(9, 0, NoFold, 0, 0), Well(4, 5, NoFold, 0, 0), Well(3, 6, NoFold, 0, 1), Well(5, 4, NoFold, 0, 0)]
  const O10: seq<Well> := [Well(1, 8, Right, 5, 3), Well(9, 0, NoFold, 0, 0), Well(4, 5, NoFold, 0, 0), Well(3, 6, NoFold, 0, 1), Well(5, 4, NoFold, 0, 0), Well(1, 8, Right, 5, 3), Well(9, 0, NoFold, 0, 0), Well(4, 5, NoFold, 0, 0), Well(3, 6, Right, 1, 1), Well(5, 4, NoFold, 0, 0)]

  lemma DepthsO()
    ensures Depths(11, 9) == [1, 9, 4, 3, 5, 1, 9, 4, 3, 5]
  {
    assert Pow(9, 1) == 9 && Pow(9, 2) == 81 && Pow(9, 3) == 729 && Pow(9, 4) == 6561 && Pow(9, 5) == 59049 && Pow(9, 6) == 531441 && Pow(9, 7) == 4782969 && Pow(9, 8) == 43046721 && Pow(9, 9) == 387420489;
  }

  lemma TopO()
    ensures MaxDepth([1, 9, 4, 3, 5, 1, 9, 4, 3, 5]) == 9
  {
    assert MaxDepth([1]) == 1;
    assert [1, 9][..1] == [1];
    assert MaxDepth([1, 9]) == 9;
    assert [1, 9, 4][..2] == [1, 9];
    assert MaxDepth([1, 9, 4]) == 9;
    assert [1, 9, 4, 3][..3] == [1, 9, 4];
    assert MaxDepth([1, 9, 4, 3]) == 9;
    assert [1, 9, 4, 3, 5][..4] == [1, 9, 4, 3];
    assert MaxDepth([1, 9, 4, 3, 5]) == 9;
    assert [1, 9, 4, 3, 5, 1][..5] == [1, 9, 4, 3, 5];
    assert MaxDepth([1, 9, 4, 3, 5, 1]) == 9;
    assert [1, 9, 4, 3, 5, 1, 9][..6] == [1, 9, 4, 3, 5, 1];
    assert MaxDepth([1, 9, 4, 3, 5, 1, 9]) == 9;
    assert [1, 9, 4, 3, 5, 1, 9, 4][..7] == [1, 9, 4, 3, 5, 1, 9];
    assert MaxDepth([1, 9, 4, 3, 5, 1, 9, 4]) == 9;
    assert [1, 9, 4, 3, 5, 1, 9, 4, 3][..8] == [1, 9, 4, 3, 5, 1, 9, 4];
    assert MaxDepth([1, 9, 4, 3, 5, 1, 9, 4, 3]) == 9;
    assert [1, 9, 4, 3, 5, 1, 9, 4, 3, 5][..9] == [1, 9, 4, 3, 5, 1, 9, 4, 3];
    assert MaxDepth([1, 9, 4, 3, 5, 1, 9, 4, 3, 5]) == 9;
  }

  lemma LayoutO()
    ensures InitialLayout(11, 9) == O0
  {
    DepthsO();
    TopO();
  }

  lemma StepO0()
    ensures Step(O0, 0, 11, 5, 6.0) == Ok(O1)
  {
  }

  lemma StepO1()
    ensures Step(O1, 1, 11, 5, 6.0) == Ok(O2)
  {
  }

  lemma StepO2()
    ensures Step(O2, 2, 11, 5, 6.0) == Ok(O3)
  {
  }

  lemma StepO3()
    ensures Step(O3, 3, 11, 5, 6.0) == Ok(O4)
  {
  }

  lemma StepO4()
    ensures Step(O4, 4, 11, 5, 6.0) == Ok(O5)
  {
  }

  lemma StepO5()
    ensures Step(O5, 5, 11, 5, 6.0) == Ok(O6)
  {
  }

  lemma StepO6()
    ensures Step(O6, 6, 11, 5, 6.0) == Ok(O7)
  {
  }

  lemma StepO7()
    ensures Step(O7, 7, 11, 5, 6.0) == Ok(O8)
  {
  }

  lemma StepO8()
    ensures Step(O8, 8, 11, 5, 6.0) == Ok(O9)
  {
  }

  lemma StepO9()
    ensures Step(O9, 9, 11, 5, 6.0) == Ok(O10)
  {
  }

  /** The first five iterations. */
  lemma PrefixO5()
    ensures FoldPrefix(O0, 5, 11, 5, 6.0) == Ok(O5)
  {
    StepO0();
    PrefixNext(O0, 0, 11, 5, 6.0, O0);
    StepO1();
    PrefixNext(O0, 1, 11, 5, 6.0, O1);
    StepO2();
    PrefixNext(O0, 2, 11, 5, 6.0, O2);
    StepO3();
    PrefixNext(O0, 3, 11, 5, 6.0, O3);
    StepO4();
    PrefixNext(O0, 4, 11, 5, 6.0, O4);
  }

  lemma PlanO()
    ensures Plan(11, 9, 5, 6.0) == Ok(O10)
  {
    LayoutO();
    PrefixO5();
    StepO5();
    PrefixNext(O0, 5, 11, 5, 6.0, O5);
    StepO6();
    PrefixNext(O0, 6, 11, 5, 6.0, O6);
    StepO7();
    PrefixNext(O0, 7, 11, 5, 6.0, O7);
    StepO8();
    PrefixNext(O0, 8, 11, 5, 6.0, O8);
    StepO9();
    PrefixNext(O0, 9, 11, 5, 6.0, O9);
  }

  /**
   * The interior test for a folded neighbour only looks for a fold facing the
   * current well.  Here well 4 lacks one unit and its deficit is recorded on
   * well 5 (Left, depth 1) by the fifth iteration (O0 is the initial layout by
   * LayoutO).
   */
  lemma FoldRecorded()
    ensures O0[4].rawHeight == 4 && RequiredFoldDepth(4, 5, 11) == 1
    ensures FoldPrefix(O0, 5, 11, 5, 6.0) == Ok(O5) && O5[5] == Well(1, 8, Left, 1, 0)
  {
    PrefixO5();
  }

  /**
   * Two iterations after FoldRecorded, well 6 folds behind the same well 5 and
   * replaces that record by (Right, depth 5).  The layout succeeds (O10 is the
   * final one by PlanO), yet well 4's deficit is recorded on neither of its
   * neighbours.
   */
  lemma FoldReplaced()
    ensures O5[5].fold == Left && O10[5] == Well(1, 8, Right, 5, 3)
    ensures O10[3].fold != Right && O10[5].fold != Left
  {
  }

  // ---------------------------------------------------------------------
  // Rounding in a mix: two copies of a 6-well layout with 2 zero wells and
  // one copy of a 10-well layout with 4 zero wells
  // ---------------------------------------------------------------------

  const D1: Solution := Solution(7, 3, 0, 60.0, 4, ZeroShare(2, 6))
  const D2: Solution := Solution(11, 2, 0, 10.0, 3, ZeroShare(4, 10))

  lemma MixedRounding()
    ensures PairFits(D1, D2, 2, 1)
    ensures PairCombo(D1, D2, 2, 1) == CombinedSolution([D1, D1, D2], 4, 130.0, 400.0 / 11.0)
  {
    PairZeroShareExact(D1, D2, 2, 4, 2, 1);
    TotalWellsExact(D1, D2, 2, 1);
    assert Repeat(D1, 2) + Repeat(D2, 1) == [D1, D1, D2];
  }

  /** That mix is among the ranked results of a search over D1 and D2. */
  lemma MixedInSearch()
    ensures PairCombo(D1, D2, 2, 1) in Combine([D1, D2])
  {
    var cs := [D1, D2];
    CombinableOfExact(cs, D1);
    CombinableOfExact(cs, D2);
    assert cs[..1] == [D1] && [D1][..0] == [];
    assert CombinableOf(cs) == cs;
    MixedRounding();
    assert PairCandidate(cs[0], cs[1], 2, 1, PairCombo(D1, D2, 2, 1));
    AllPairsComplete(cs, 0, 1, 2, 1, PairCombo(D1, D2, 2, 1));
    InRight(HomAll(cs, 2), AllPairs(cs, 2), PairCombo(D1, D2, 2, 1));
    CombineRanked(cs);
    assert PairCombo(D1, D2, 2, 1) in multiset(Combine(cs));
  }

  // ---------------------------------------------------------------------
  // A whole search: one solution of width 65 and one too narrow to combine
  // ---------------------------------------------------------------------

  const E1: Solution := Solution(3, 1, 0, 65.0, 2, 50.0)
  const E2: Solution := Solution(5, 2, 0, 2.5, 3, 25.0)

  lemma SearchE()
    ensures Combine([E1, E2]) == [CombinedSolution([E1, E1], 2, 130.0, 50.0)]
  {
    assert [E1, E2][..1] == [E1];
    assert [E1][..0] == [];
    assert CombinableOf([E1, E2]) == [E1];
    assert MinCopies(E1) == 2 && MaxCopies(E1) == 2;
    assert HomRange(E1, 2, 2) == [];
    assert HomFor(E1) == [HomCombo(E1, 2)];
    assert Repeat(E1, 2) == [E1, E1];
    assert HomAll([E1], 1) == [] + [HomCombo(E1, 2)];
    assert AllPairs([E1], 1) == PairsBelow([E1], 0, 1) == [];
    assert Candidates([E1]) == [HomCombo(E1, 2)] + [];
    assert SortByKey([HomCombo(E1, 2)], CombinedKey) == Insert(HomCombo(E1, 2), [], CombinedKey);
  }
}
