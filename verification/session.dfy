/**
 The game session (`GameSession`): a board plus the game-over flag, the
 game-over check that simulates all four moves, the spawn of a new tile, and
 the turn step that ties them together.

 `addNumToRandomPoint` picks the spawn position at random (a rejection
 sampler over random coordinates). Here it is a parameter `choice`: the new tile goes to
 the empty cell at index `choice % k` of the k empty cells in row-major order,
 and every empty cell is the outcome of some choice.
 */
module Session {
  import opened Board
  import opened Moves
  import opened Tallies
  import opened Movement

  datatype GameSession = GameSession(gameState: Grid, isGameOver: bool)

  /** A new session: an empty board of the given size, game not over. */
  function NewSession(size: nat): (s: GameSession)
    ensures Valid(s.gameState) && s.gameState.size == size
    ensures AllEmpty(s.gameState) && !s.isGameOver
  {
    GameSession(EmptyGrid(size), false)
  }

  /** The cell at (x, y) differs from its right-hand and its lower neighbour, where those exist. */
  predicate DiffersFromNext(g: Grid, x: nat, y: nat)
    requires Valid(g) && InRange(g, x, y)
  {
    && (x + 1 < g.size ==> GetItem(g, x, y) != GetItem(g, x + 1, y))
    && (y + 1 < g.size ==> GetItem(g, x, y) != GetItem(g, x, y + 1))
  }

  /** No two orthogonally adjacent cells show the same thing (in particular
      no two adjacent tiles hold equal values). */
  predicate NoEqualNeighbours(g: Grid)
    requires Valid(g)
  {
    forall x: nat, y: nat :: x < g.size && y < g.size ==> DiffersFromNext(g, x, y)
  }

  /** All four simulated moves leave the board as it is exactly when no tile
      can be pushed in any direction. */
  lemma NoMoveChangesIffStuck(g: Grid)
    requires Valid(g)
    ensures (&& MoveAllItemsInDir(g, Up) == g && MoveAllItemsInDir(g, Down) == g
             && MoveAllItemsInDir(g, Left) == g && MoveAllItemsInDir(g, Right) == g)
        <==> forall m: Move :: Stuck(g, m)
  {
    MoveUnchangedIffStuck(g, Up);
    MoveUnchangedIffStuck(g, Down);
    MoveUnchangedIffStuck(g, Left);
    MoveUnchangedIffStuck(g, Right);
    if Stuck(g, Up) && Stuck(g, Down) && Stuck(g, Left) && Stuck(g, Right) {
      forall m: Move ensures Stuck(g, m) {
        match m
        case Up =>
        case Down =>
        case Left =>
        case Right =>
      }
    }
  }

  /** `checkIfGameOver`: the game is over when the board is not entirely empty
      and each of the four moves, simulated on a copy, leaves it unchanged;
      the board itself is not touched. Equivalently: not all cells are empty
      and no tile can be pushed in any direction. */
  function CheckIfGameOver(s: GameSession): (r: GameSession)
    requires Valid(s.gameState)
    ensures r.gameState == s.gameState
    ensures r.isGameOver <==> !AllEmpty(s.gameState) && forall m: Move :: Stuck(s.gameState, m)
  {
    var g := s.gameState;
    var isEmpty := AllEmpty(g);
    var allSame := && Equal(g, MoveAllItemsInDir(g, Up))
                   && Equal(g, MoveAllItemsInDir(g, Down))
                   && Equal(g, MoveAllItemsInDir(g, Left))
                   && Equal(g, MoveAllItemsInDir(g, Right));
    NoMoveChangesIffStuck(g);
    s.(isGameOver := !(isEmpty || !allSame))
  }

  lemma {:induction false} SpreadAlongRow(g: Grid, y: nat, x0: nat, x: nat)
    requires Valid(g) && y < g.size && x0 < g.size && x < g.size
    requires Stuck(g, Left) && Stuck(g, Right)
    requires GetItem(g, x0, y) != None
    ensures GetItem(g, x, y) != None
    decreases if x < x0 then x0 - x else x - x0
  {
    if x < x0 {
      SpreadAlongRow(g, y, x0, x + 1);
      assert BlockedAt(g, Left, x + 1, y);
    } else if x > x0 {
      SpreadAlongRow(g, y, x0, x - 1);
      assert BlockedAt(g, Right, x - 1, y);
    }
  }

  lemma {:induction false} SpreadAlongColumn(g: Grid, x: nat, y0: nat, y: nat)
    requires Valid(g) && x < g.size && y0 < g.size && y < g.size
    requires Stuck(g, Up) && Stuck(g, Down)
    requires GetItem(g, x, y0) != None
    ensures GetItem(g, x, y) != None
    decreases if y < y0 then y0 - y else y - y0
  {
    if y < y0 {
      SpreadAlongColumn(g, x, y0, y + 1);
      assert BlockedAt(g, Up, x, y + 1);
    } else if y > y0 {
      SpreadAlongColumn(g, x, y0, y - 1);
      assert BlockedAt(g, Down, x, y - 1);
    }
  }

  /** If no move can change a board that has a tile, the board has no empty
      cell: an empty cell next to a tile would let that tile slide. */
  lemma StuckBoardWithTileIsFull(g: Grid)
    requires Valid(g)
    requires !AllEmpty(g)
    requires forall m: Move :: Stuck(g, m)
    ensures Full(g)
  {
    assert Stuck(g, Up) && Stuck(g, Down) && Stuck(g, Left) && Stuck(g, Right);
    var x0: nat, y0: nat :| x0 < g.size && y0 < g.size && GetItem(g, x0, y0) != None;
    forall x: nat, y: nat | x < g.size && y < g.size
      ensures GetItem(g, x, y) != None
    {
      SpreadAlongRow(g, y0, x0, x);
      SpreadAlongColumn(g, x, y0, y);
    }
  }

  /** On a full board with no two equal neighbours, no tile can be pushed in any direction. */
  lemma FullWithoutMergesIsStuck(g: Grid, m: Move)
    requires Valid(g) && Full(g) && NoEqualNeighbours(g)
    ensures Stuck(g, m)
  {
    forall x: nat, y: nat | x < g.size && y < g.size
      ensures BlockedAt(g, m, x, y)
    {
      if HasNeighbor(m, g.size, x, y) {
        var (ex, ey) := Neighbor(m, g.size, x, y);
        assert GetItem(g, ex, ey) != None;
        if ex < x || ey < y {
          assert DiffersFromNext(g, ex, ey);
        } else {
          assert DiffersFromNext(g, x, y);
        }
      }
    }
  }

  /** On a full board that cannot be pushed right or down, no two neighbours are equal. */
  lemma StuckFullBoardHasNoMerges(g: Grid)
    requires Valid(g) && Full(g) && Stuck(g, Right) && Stuck(g, Down)
    ensures NoEqualNeighbours(g)
  {
    forall x: nat, y: nat | x < g.size && y < g.size
      ensures DiffersFromNext(g, x, y)
    {
      assert BlockedAt(g, Right, x, y);
      assert BlockedAt(g, Down, x, y);
    }
  }

  /** The game-over flag, although computed as "not entirely empty and no move
      changes anything", on a board of size at least 1 means exactly: every
      cell holds a tile and no two adjacent tiles are equal. So the
      all-empty test of `checkIfGameOver` agrees with the "board is full" reading. */
  lemma GameOverIffFullWithoutMerges(s: GameSession)
    requires Valid(s.gameState) && s.gameState.size > 0
    ensures CheckIfGameOver(s).isGameOver <==> Full(s.gameState) && NoEqualNeighbours(s.gameState)
  {
    var g := s.gameState;
    if CheckIfGameOver(s).isGameOver {
      StuckBoardWithTileIsFull(g);
      StuckFullBoardHasNoMerges(g);
    }
    if Full(g) && NoEqualNeighbours(g) {
      assert GetItem(g, 0, 0) != None;
      forall m: Move ensures Stuck(g, m) {
        FullWithoutMergesIsStuck(g, m);
      }
    }
  }

  /** `addNumToRandomPoint`: put `val` into one empty cell, the one picked by
      `choice`. `addNumToRandomPoint` retries random coordinates until it hits
      an empty cell and so never returns on a full board; hence the requirement. */
  function AddNumToRandomPoint(g: Grid, val: int, choice: nat): (r: Grid)
    requires Valid(g) && !Full(g)
    ensures Valid(r) && r.size == g.size
    ensures exists x: nat, y: nat :: InRange(g, x, y) && GetItem(g, x, y) == None && r == SetItem(g, x, y, Some(val))
    ensures Tally(TileCount, r) == Tally(TileCount, g) + 1
    ensures Tally(TileSum, r) == Tally(TileSum, g) + val
    ensures AllPositive(g) && val > 0 ==> AllPositive(r)
  {
    var (x, y) := SpawnPoint(g, choice);
    SetItemTally(TileCount, g, x, y, Some(val));
    SetItemTally(TileSum, g, x, y, Some(val));
    SetItem(g, x, y, Some(val))
  }

  /** The cell the spawn picks for `choice`: an empty cell on the board. */
  function SpawnPoint(g: Grid, choice: nat): (p: (nat, nat))
    requires Valid(g) && !Full(g)
    ensures InRange(g, p.0, p.1) && GetItem(g, p.0, p.1) == None
  {
    var e := EmptyCells(g);
    EmptyCellsNonEmptyIffNotFull(g);
    var p := e[choice % |e|];
    assert p in e;
    p
  }

  /** The position of an empty cell in the row-major list of empty cells. */
  lemma IndexOfEmptyCell(g: Grid, x: nat, y: nat) returns (i: nat)
    requires Valid(g) && InRange(g, x, y) && GetItem(g, x, y) == None
    ensures i < |EmptyCells(g)| && EmptyCells(g)[i] == (x, y)
  {
    var e := EmptyCells(g);
    assert (x, y) in e;
    i :| i < |e| && e[i] == (x, y);
  }

  /** Every empty cell is the spawn point of some choice. */
  lemma SpawnPointCovers(g: Grid, x: nat, y: nat) returns (choice: nat)
    requires Valid(g) && InRange(g, x, y) && GetItem(g, x, y) == None
    ensures !Full(g) && SpawnPoint(g, choice) == (x, y)
  {
    choice := IndexOfEmptyCell(g, x, y);
    EmptyCellsNonEmptyIffNotFull(g);
    var k := |EmptyCells(g)|;
    assert choice % k == choice;
  }

  /** Every empty cell is a possible spawn position. */
  lemma EveryEmptyCellCanReceive(g: Grid, val: int, x: nat, y: nat)
    requires Valid(g) && InRange(g, x, y) && GetItem(g, x, y) == None
    ensures !Full(g)
    ensures exists choice: nat :: AddNumToRandomPoint(g, val, choice) == SetItem(g, x, y, Some(val))
  {
    var choice := SpawnPointCovers(g, x, y);
    assert AddNumToRandomPoint(g, val, choice) == SetItem(g, x, y, Some(val));
  }

  /** `nextMove`: resolve the move, decide game over on the moved board before
      anything spawns, then, if the moved board has an empty cell, turn exactly
      one empty cell into a 2 and change nothing else; a full board is left as
      it is. The tile total grows only by the spawned 2. */
  function NextMove(s: GameSession, m: Move, choice: nat): (r: GameSession)
    requires Valid(s.gameState)
    ensures Valid(r.gameState) && r.gameState.size == s.gameState.size
    ensures var moved := MoveAllItemsInDir(s.gameState, m);
            && (r.isGameOver <==> !AllEmpty(moved) && forall d: Move :: Stuck(moved, d))
            && (Full(moved) ==> r.gameState == moved)
            && (!Full(moved) ==>
                  exists x: nat, y: nat :: InRange(moved, x, y) && GetItem(moved, x, y) == None
                                           && r.gameState == SetItem(moved, x, y, Some(2)))
            && Tally(TileSum, r.gameState) == Tally(TileSum, s.gameState) + (if Full(moved) then 0 else 2)
    ensures AllPositive(s.gameState) ==> AllPositive(r.gameState)
  {
    var moved := MoveAllItemsInDir(s.gameState, m);
    var checked := CheckIfGameOver(GameSession(moved, s.isGameOver));
    if Full(checked.gameState) then checked
    else checked.(gameState := AddNumToRandomPoint(checked.gameState, 2, choice))
  }

  /** A turn that ends the game spawns nothing: the board it leaves is the
      moved board, full, with no two equal neighbours. */
  lemma GameOverTurnSpawnsNothing(s: GameSession, m: Move, choice: nat)
    requires Valid(s.gameState)
    ensures var r := NextMove(s, m, choice);
            r.isGameOver ==>
              && r.gameState == MoveAllItemsInDir(s.gameState, m)
              && Full(r.gameState) && NoEqualNeighbours(r.gameState)
  {
    var moved := MoveAllItemsInDir(s.gameState, m);
    if NextMove(s, m, choice).isGameOver {
      StuckBoardWithTileIsFull(moved);
      GameOverIffFullWithoutMerges(GameSession(moved, s.isGameOver));
    }
  }
}
