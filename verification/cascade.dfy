/**
 Worked boards for move resolution. They pin down the repeat-until-stable
 semantics, which merges further than the usual 2048 rule: in `[2,2,4]`
 moved left, the first pass makes `[4,4,_]` and the second pass merges those
 into `[8,_,_]`.
 */
module Cascade {
  import opened Board
  import opened Moves
  import opened Movement
  import opened Session

  const E: Cell := None

  /** Every cell of rows y.. is empty, so the rest of a pass is idle there. */
  lemma IdleRowsFrom(g: Grid, m: Move, y: nat)
    requires Valid(g) && y <= g.size
    requires forall x: nat, y': nat :: x < g.size && y <= y' < g.size ==> GetItem(g, x, y') == None
    ensures ScanRows(g, m, y) == g
  {
    ScanRowsUnchangedIffBlocked(g, m, y);
  }

  /** One push that changes the board, checked cell by cell. */
  lemma StepGives(g: Grid, m: Move, x: nat, y: nat, r: Grid)
    requires Valid(g) && InRange(g, x, y) && Valid(r) && r.size == g.size
    requires SameCells(Step(g, m, x, y), r)
    ensures Step(g, m, x, y) == r
  {
    SameCellsSameGrid(Step(g, m, x, y), r);
  }

  /** A pass that changes only the top row: the remaining rows are empty. */
  lemma PassOfTopRow(g: Grid, m: Move, b: Grid)
    requires Valid(g) && g.size > 0 && ScanRow(g, m, 0, 0) == b
    requires forall x: nat, y: nat :: x < b.size && 1 <= y < b.size ==> GetItem(b, x, y) == None
    ensures Pass(g, m) == b
  {
    IdleRowsFrom(b, m, 1);
  }

  /** A board with a tile is compared against the fresh empty board and
      differs from it, so the move runs the pass loop. */
  lemma MoveSettles(g: Grid, m: Move)
    requires Valid(g) && g.size > 0 && GetItem(g, 0, 0) != None
    ensures MoveAllItemsInDir(g, m) == Settle(g, m)
  {
    assert GetItem(EmptyGrid(g.size), 0, 0) == None;
  }

  /** The boards of the `[2,2,2,_]` example on a 4×4 board. */
  const ThreeTwos := Grid(4, [[Some(2), Some(2), Some(2), E], [E, E, E, E], [E, E, E, E], [E, E, E, E]])
  const ThreeTwosMerged := Grid(4, [[Some(4), E, Some(2), E], [E, E, E, E], [E, E, E, E], [E, E, E, E]])
  const FourTwo := Grid(4, [[Some(4), Some(2), E, E], [E, E, E, E], [E, E, E, E], [E, E, E, E]])

  /** The boards of the `[2,2,4]` example on a 3×3 board. */
  const TwoTwoFour := Grid(3, [[Some(2), Some(2), Some(4)], [E, E, E], [E, E, E]])
  const FourGapFour := Grid(3, [[Some(4), E, Some(4)], [E, E, E], [E, E, E]])
  const FourFour := Grid(3, [[Some(4), Some(4), E], [E, E, E], [E, E, E]])
  const Eight := Grid(3, [[Some(8), E, E], [E, E, E], [E, E, E]])

  /** The boards of a lone 2 crossing a 3×3 board to the right. */
  const TwoAtLeft := Grid(3, [[Some(2), E, E], [E, E, E], [E, E, E]])
  const TwoInMiddle := Grid(3, [[E, Some(2), E], [E, E, E], [E, E, E]])
  const TwoAtRight := Grid(3, [[E, E, Some(2)], [E, E, E], [E, E, E]])

  lemma ThreeTwosMergeStep()
    ensures Step(ThreeTwos, Left, 1, 0) == ThreeTwosMerged
  {
    StepGives(ThreeTwos, Left, 1, 0, ThreeTwosMerged);
  }

  lemma ThreeTwosSlideStep()
    ensures Step(ThreeTwosMerged, Left, 2, 0) == FourTwo
  {
    StepGives(ThreeTwosMerged, Left, 2, 0, FourTwo);
  }

  /** First pass over `[2,2,2,_]` moving left: the first pair merges, then the third 2 slides. */
  lemma ThreeTwosFirstPass()
    ensures Pass(ThreeTwos, Left) == FourTwo
  {
    ThreeTwosMergeStep();
    ThreeTwosSlideStep();
    calc {
      ScanRow(ThreeTwos, Left, 0, 0);
      ScanRow(ThreeTwos, Left, 0, 1);
      ScanRow(ThreeTwosMerged, Left, 0, 2);
      ScanRow(FourTwo, Left, 0, 3);
      ScanRow(FourTwo, Left, 0, 4);
      FourTwo;
    }
    PassOfTopRow(ThreeTwos, Left, FourTwo);
  }

  /** `[2,2,2,_]` moved left on a 4×4 board gives `[4,2,_,_]`: the first pass
      merges the first pair and slides the third 2; the second pass changes nothing. */
  lemma ThreeTwosMovedLeft()
    ensures MoveAllItemsInDir(ThreeTwos, Left) == FourTwo
  {
    ThreeTwosFirstPass();
    PassUnchangedIffStuck(FourTwo, Left);
    assert Stuck(FourTwo, Left);
    MoveSettles(ThreeTwos, Left);
    assert Settle(ThreeTwos, Left) == Settle(FourTwo, Left) == FourTwo;
  }

  lemma TwoTwoFourMergeStep()
    ensures Step(TwoTwoFour, Left, 1, 0) == FourGapFour
  {
    StepGives(TwoTwoFour, Left, 1, 0, FourGapFour);
  }

  lemma TwoTwoFourSlideStep()
    ensures Step(FourGapFour, Left, 2, 0) == FourFour
  {
    StepGives(FourGapFour, Left, 2, 0, FourFour);
  }

  lemma FourFourMergeStep()
    ensures Step(FourFour, Left, 1, 0) == Eight
  {
    StepGives(FourFour, Left, 1, 0, Eight);
  }

  /** First pass over `[2,2,4]` moving left: the pair merges into 4, then the 4 slides next to it. */
  lemma TwoTwoFourFirstPass()
    ensures Pass(TwoTwoFour, Left) == FourFour
  {
    TwoTwoFourMergeStep();
    TwoTwoFourSlideStep();
    calc {
      ScanRow(TwoTwoFour, Left, 0, 0);
      ScanRow(TwoTwoFour, Left, 0, 1);
      ScanRow(FourGapFour, Left, 0, 2);
      ScanRow(FourFour, Left, 0, 3);
      FourFour;
    }
    PassOfTopRow(TwoTwoFour, Left, FourFour);
  }

  /** Second pass over `[4,4,_]` moving left: the two 4s merge. */
  lemma TwoTwoFourSecondPass()
    ensures Pass(FourFour, Left) == Eight
  {
    FourFourMergeStep();
    calc {
      ScanRow(FourFour, Left, 0, 0);
      ScanRow(FourFour, Left, 0, 1);
      ScanRow(Eight, Left, 0, 2);
      ScanRow(Eight, Left, 0, 3);
      Eight;
    }
    PassOfTopRow(FourFour, Left, Eight);
  }

  /** `[2,2,4]` moved left on a 3×3 board gives `[8,_,_]`, not the `[4,4,_]` of
      the usual rule: the merged 4 merges again in the next pass. */
  lemma TwoTwoFourMovedLeft()
    ensures MoveAllItemsInDir(TwoTwoFour, Left) == Eight
  {
    TwoTwoFourFirstPass();
    TwoTwoFourSecondPass();
    PassUnchangedIffStuck(Eight, Left);
    assert Stuck(Eight, Left);
    MoveSettles(TwoTwoFour, Left);
    assert Settle(TwoTwoFour, Left) == Settle(FourFour, Left) == Settle(Eight, Left) == Eight;
  }

  lemma TwoSlidesToMiddle()
    ensures Step(TwoAtLeft, Right, 0, 0) == TwoInMiddle
  {
    StepGives(TwoAtLeft, Right, 0, 0, TwoInMiddle);
  }

  lemma TwoSlidesToEdge()
    ensures Step(TwoInMiddle, Right, 1, 0) == TwoAtRight
  {
    StepGives(TwoInMiddle, Right, 1, 0, TwoAtRight);
  }

  /** Moving right, a tile crosses the whole row in a single pass, because the
      scan meets it again at each cell it lands in. */
  lemma SlideRightInOnePass()
    ensures Pass(TwoAtLeft, Right) == TwoAtRight
  {
    TwoSlidesToMiddle();
    TwoSlidesToEdge();
    calc {
      ScanRow(TwoAtLeft, Right, 0, 0);
      ScanRow(TwoInMiddle, Right, 0, 1);
      ScanRow(TwoAtRight, Right, 0, 2);
      ScanRow(TwoAtRight, Right, 0, 3);
      TwoAtRight;
    }
    PassOfTopRow(TwoAtLeft, Right, TwoAtRight);
  }

  /** A full 2×2 board with no equal neighbours ends the game. */
  lemma FullBoardWithoutMergesIsOver(s: GameSession)
    requires s.gameState == Grid(2, [[Some(2), Some(4)], [Some(4), Some(2)]])
    ensures CheckIfGameOver(s).isGameOver
  {
    var g := s.gameState;
    assert Full(g) by {
      assert forall x: nat, y: nat :: x < 2 && y < 2 ==> GetItem(g, x, y) != None;
    }
    assert NoEqualNeighbours(g) by {
      assert forall x: nat, y: nat :: x < 2 && y < 2 ==> DiffersFromNext(g, x, y);
    }
    GameOverIffFullWithoutMerges(s);
  }

  /** The same board with one cell emptied does not. */
  lemma BoardWithHoleIsNotOver(s: GameSession)
    requires s.gameState == Grid(2, [[Some(2), Some(4)], [Some(4), E]])
    ensures !CheckIfGameOver(s).isGameOver
  {
    assert GetItem(s.gameState, 1, 1) == None;
    GameOverIffFullWithoutMerges(s);
  }
}
