# 2048 board state machine in Dafny

A model of the game logic of a small 2048 clone (`2048game.py`): the N×N
board (`GameState`), the resolution of a move by repeated single-step passes
(`shiftOneItemTo`, `moveAllItemsInDir`), the game-over check that simulates
all four moves (`checkIfGameOver`), the spawn of a new 2 (`addNumToRandomPoint`)
and the turn step (`nextMove`).

Layout, one module per file:

- `moves.dfy` — `Moves`: the `Move` enumeration. It also holds the geometry of a move: the scan's edge guards, the neighbour cell, and the distance to the target edge.
- `board.dfy` — `Board`: the grid as an immutable `seq<seq<Option<int>>>` with its size. It defines get/set, grid equality, and the row-major list of empty cells.
- `tally.dfy` — `Tallies`: sums over cells. These are the tile total, the tile count, and the distance of the tiles to a move's target edge. It also gives the effect of a single `SetItem` on each sum.
- `movement.dfy` — `Movement`: one push, one pass, and the fixed-point loop. It proves the conservation and termination facts and the fixed-point characterisation.
- `session.dfy` — `Session`: the session record, the game-over check, the spawn and the turn step.
- `cascade.dfy` — `Cascade`: worked boards that pin down the scan-order semantics.

The central facts:

- A move keeps the total of the tile values.
- A move never adds a tile.
- A move keeps every tile positive.
- A move ends on a board that no further pass changes. So a move is idempotent.
- A pass changes the board exactly when some tile can be pushed, i.e. it sits next to an empty or equal cell in the move's direction.
- The loop terminates because every pass that changes the board strictly lowers the summed distance of the tiles to the target edge.

The pass works on the board while it is changing it. So one move can merge a merged tile again: `[2,2,4]` moved left becomes `[8,_,_]`, not the `[4,4,_]` of the usual rule.

The game-over test:

- The usual game-over rule reads "no cell is empty and no move changes anything".
- `checkIfGameOver` tests instead that the board is not *entirely* empty and that all four simulated moves change nothing (line 143). The model follows the code.
- `Session.GameOverIffFullWithoutMerges` proves the two readings agree on every board of size at least 1. On such boards, game over means the board is full and no two adjacent tiles are equal.
- On a 0×0 board the code never reports game over, and neither does the model.

## Model

| member | source | states |
|---|---|---|
| Board.EmptyGrid | 2048game.py:34-36 | a new board has `size` rows of `size` cells, all empty |
| Board.GetItem | 2048game.py:64-66 | reads the cell at column x of row y; the in-range assertion of `getItem` becomes its precondition |
| Board.SetItem | 2048game.py:64-70 | after setting (x, y) to v, reading (x, y) gives v and every other in-range cell reads as before; the board keeps its shape |
| Board.Equal | 2048game.py:55-62 | board equality is false for different sizes and otherwise true exactly when every cell matches, empty matching only empty: it coincides with value equality of the boards |
| Board.EmptyCells | 2048game.py:130-138 | the cells the spawn can land in are exactly the in-range coordinates whose cell is empty |
| Board.EmptyCellsNonEmptyIffNotFull | 2048game.py:93-94 | the list of empty cells is non-empty exactly when the `isFull` test fails |
| Tallies.EmptyCellsCount | 2048game.py:93 | the number of empty cells is size² minus the number of tiles |
| Tallies.SetItemTally | 2048game.py:68-70 | overwriting one cell changes the tile total, the tile count and the distance measure by that cell's new contribution minus its old one |
| Tallies.DistanceNonNegative | 2048game.py:100-114 | the summed distance of the tiles to the target edge is never negative, so it can bound the pass loop |
| Moves.Neighbor | 2048game.py:107-114 | under the scan's guard (`y>0`, `y<size-1`, `x>0`, `x<size-1`) the destination cell is on the board, adjacent to the source and one step closer to the target edge, so no range assertion can fail |
| Movement.ShiftOneItemTo | 2048game.py:116-128 | an empty destination receives the source value; an equal destination becomes twice it; in both cases the source is emptied. A different value leaves the board unchanged. No other cell changes |
| Movement.Step | 2048game.py:105-114 | one iteration of the inner loop body: an empty cell (the `continue`), or a tile failing the edge guard, leaves the board unchanged; the board keeps its shape |
| Movement.StepFrame | 2048game.py:105-114 | one iteration of the loop body changes at most the scanned cell and its neighbour in the move's direction |
| Movement.ScanRow | 2048game.py:104-114 | the inner loop over the cells of row y from column x, ascending; the board keeps its shape |
| Movement.ScanRowFrame | 2048game.py:104-114 | the rest of the inner loop from column x changes nothing outside rows y-1 to y+1, nor any cell left of column x-1 |
| Movement.ScanRows | 2048game.py:103-114 | the outer loop over rows from y, ascending; the board keeps its shape |
| Movement.ScanRowsFrame | 2048game.py:103-114 | the rest of the outer loop from row y changes no row above y-1 |
| Movement.Pass | 2048game.py:103-114 | one row-major pass, y outer and x inner, both ascending, that pushes each tile it meets; the board keeps its shape (what the pass changes is stated by `Movement.PassDescends` and `Movement.PassUnchangedIffStuck`) |
| Movement.StepDescends | 2048game.py:105-128 | one push keeps the tile total and positivity, never adds a tile, and strictly lowers the distance measure whenever it changes the board |
| Movement.StepUnchangedIffBlocked | 2048game.py:105-127 | a push leaves the board unchanged exactly when the cell is empty, at the target edge, or faces a different value |
| Movement.PassDescends | 2048game.py:103-114 | a whole row-major pass keeps the tile total and positivity, never adds a tile, and strictly lowers the distance measure whenever it changes the board |
| Movement.PassUnchangedIffStuck | 2048game.py:103-114 | a pass leaves the board unchanged exactly when no tile can be pushed in the move's direction |
| Movement.Settle | 2048game.py:100-114 | the repeat-until-unchanged loop terminates on a board no pass changes, with the same tile total, no more tiles and positive tiles if the input had them |
| Movement.MoveAllItemsInDir | 2048game.py:96-114 | a move (including the zero-pass case of an all-empty board) ends on a fixed point of a pass, keeps the tile total and positivity and never adds a tile |
| Movement.MoveIdempotent | 2048game.py:96-114 | applying the same move twice without a spawn gives the same board as applying it once |
| Movement.MoveUnchangedIffStuck | 2048game.py:96-114 | a move leaves the board unchanged exactly when no tile can be pushed in its direction |
| Movement.AlreadyAtEdge | 2048game.py:103-114 | when every tile already sits at the edge a move pushes towards (e.g. "up" with all tiles in row 0) the move changes nothing |
| Session.NewSession | 2048game.py:81-83 | a new session has an all-empty board of the given size and is not over |
| Session.NoMoveChangesIffStuck | 2048game.py:145-148 | all four simulated moves leave the board equal to itself exactly when no tile can be pushed in any direction |
| Session.CheckIfGameOver | 2048game.py:140-149 | the board is untouched; the flag is set exactly when the board is not entirely empty and no tile can be pushed in any direction |
| Session.StuckBoardWithTileIsFull | 2048game.py:143-148 | a board with a tile on which no move changes anything has no empty cell |
| Session.GameOverIffFullWithoutMerges | 2048game.py:140-149 | on a board of size at least 1, the game-over flag holds exactly when the board is full and no two adjacent tiles are equal |
| Session.AddNumToRandomPoint | 2048game.py:130-138 | exactly one previously empty cell receives the value and nothing else changes; the tile count grows by one and the total by the value; positivity is kept for a positive value |
| Session.SpawnPoint | 2048game.py:130-138 | the cell the spawn picks is on the board and empty, whatever the choice |
| Session.EveryEmptyCellCanReceive | 2048game.py:130-138 | every empty cell is a possible outcome of the spawn |
| Session.NextMove | 2048game.py:88-94 | the flag is decided on the moved board before the spawn; a full moved board is kept as is; otherwise exactly one of its empty cells becomes 2 and no other cell changes; the tile total grows only by that 2; positivity is kept |
| Session.GameOverTurnSpawnsNothing | 2048game.py:88-94 | a turn that ends the game leaves the moved board, which is full and has no two equal neighbours |
| Cascade.ThreeTwosMovedLeft | 2048game.py:100-128 | `[2,2,2,_]` moved left gives `[4,2,_,_]` |
| Cascade.TwoTwoFourMovedLeft | 2048game.py:100-128 | `[2,2,4]` moved left gives `[8,_,_]`: a merged tile merges again in a later pass of the same move |
| Cascade.SlideRightInOnePass | 2048game.py:103-114 | a lone 2 at the left of a 3×3 board reaches the right edge in one pass moving right, because the scan meets it again at the cell it lands in |
| Cascade.FullBoardWithoutMergesIsOver | 2048game.py:140-149 | the full 2×2 board `[[2,4],[4,2]]` is game over |
| Cascade.BoardWithHoleIsNotOver | 2048game.py:140-149 | the same board with one cell emptied is not game over |

## Left out

- Rendering is not modelled: `drawTo`, `getTileColor`, `squareLen` and the colour table are pygame drawing (lines 38-53, 72-76, 85-86).
- Input is not modelled: `main`, `moveDict`, `gameSize` and the event loop are keyboard and window handling (lines 21-23, 157-178).
- The random spawn position is a parameter `choice`. The tile goes to the empty cell at index `choice % k` of the k empty cells in row-major order. `Session.EveryEmptyCellCanReceive` shows this covers every empty cell. Only the uniform distribution and the retry loop of the sampler are not modelled.
- Session.AddNumToRandomPoint: requires a board with an empty cell. On a full board the sampler in `addNumToRandomPoint` never returns. Its only caller checks first.
- `copy.deepcopy` has no counterpart: boards are immutable values, so a simulated move cannot affect the session's own board.
- Python's `assert` on out-of-range coordinates becomes a precondition of `GetItem`/`SetItem`. The verifier then shows that no caller in the model violates it.
- Movement.ShiftOneItemTo: the three-case contract is stated only for a source and destination that differ. The program never calls it with equal coordinates.
- Cells hold unbounded integers, like Python's `int`. Tile values are not constrained to powers of two; only positivity is carried as an invariant.
