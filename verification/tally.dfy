/**
 Sums over the cells of a board. Three quantities matter to move resolution:
 the total of all tile values, the number of tiles, and, for a move m, the
 summed distance of the tiles to the edge m pushes towards. The last one is
 the measure that every changing pass of a move strictly lowers.
 */
module Tallies {
  import opened Board
  import opened Moves

  datatype Measure = TileSum | TileCount | EdgeDistance(m: Move)

  /** What one cell at (x, y) of an n×n board contributes to measure `me`; an empty cell contributes nothing. */
  function Weight(me: Measure, n: nat, x: nat, y: nat, c: Cell): int {
    match c
    case None => 0
    case Some(v) =>
      match me
      case TileSum => v
      case TileCount => 1
      case EdgeDistance(m) => Distance(m, n, x, y)
  }

  /** Measure of cells x.. of `row`, which is row number y. */
  function RowTally(me: Measure, n: nat, y: nat, row: seq<Cell>, x: nat): int
    decreases |row| - x
  {
    if x >= |row| then 0
    else Weight(me, n, x, y, row[x]) + RowTally(me, n, y, row, x + 1)
  }

  /** Measure of rows y.. of `rows`. */
  function RowsTally(me: Measure, n: nat, rows: seq<seq<Cell>>, y: nat): int
    decreases |rows| - y
  {
    if y >= |rows| then 0
    else RowTally(me, n, y, rows[y], 0) + RowsTally(me, n, rows, y + 1)
  }

  function Tally(me: Measure, g: Grid): int {
    RowsTally(me, g.size, g.data, 0)
  }

  lemma {:induction false} RowTallyUpdate(me: Measure, n: nat, y: nat, row: seq<Cell>, x: nat, i: nat, c: Cell)
    requires i < |row|
    ensures RowTally(me, n, y, row[i := c], x)
         == RowTally(me, n, y, row, x) + (if x <= i then Weight(me, n, i, y, c) - Weight(me, n, i, y, row[i]) else 0)
    decreases |row| - x
  {
    if x < |row| {
      RowTallyUpdate(me, n, y, row, x + 1, i, c);
    }
  }

  lemma {:induction false} RowsTallyUpdate(me: Measure, n: nat, rows: seq<seq<Cell>>, y: nat, j: nat, r: seq<Cell>)
    requires j < |rows|
    ensures RowsTally(me, n, rows[j := r], y)
         == RowsTally(me, n, rows, y) + (if y <= j then RowTally(me, n, j, r, 0) - RowTally(me, n, j, rows[j], 0) else 0)
    decreases |rows| - y
  {
    if y < |rows| {
      RowsTallyUpdate(me, n, rows, y + 1, j, r);
    }
  }

  /** Overwriting one cell changes any measure by exactly the difference of
      that cell's old and new contributions. */
  lemma SetItemTally(me: Measure, g: Grid, x: nat, y: nat, v: Cell)
    requires Valid(g) && InRange(g, x, y)
    ensures Tally(me, SetItem(g, x, y, v))
         == Tally(me, g) + Weight(me, g.size, x, y, v) - Weight(me, g.size, x, y, GetItem(g, x, y))
  {
    RowTallyUpdate(me, g.size, y, g.data[y], 0, x, v);
    RowsTallyUpdate(me, g.size, g.data, 0, y, g.data[y][x := v]);
  }

  lemma {:induction false} RowDistanceNonNegative(m: Move, n: nat, y: nat, row: seq<Cell>, x: nat)
    requires y < n && |row| <= n
    ensures RowTally(EdgeDistance(m), n, y, row, x) >= 0
    decreases |row| - x
  {
    if x < |row| {
      RowDistanceNonNegative(m, n, y, row, x + 1);
    }
  }

  lemma {:induction false} RowsDistanceNonNegative(m: Move, n: nat, rows: seq<seq<Cell>>, y: nat)
    requires |rows| <= n
    requires forall j :: 0 <= j < |rows| ==> |rows[j]| <= n
    ensures RowsTally(EdgeDistance(m), n, rows, y) >= 0
    decreases |rows| - y
  {
    if y < |rows| {
      RowDistanceNonNegative(m, n, y, rows[y], 0);
      RowsDistanceNonNegative(m, n, rows, y + 1);
    }
  }

  /** The distance measure of a board is never negative, so it can bound the
      number of passes a move makes. */
  lemma DistanceNonNegative(m: Move, g: Grid)
    requires Valid(g)
    ensures Tally(EdgeDistance(m), g) >= 0
  {
    RowsDistanceNonNegative(m, g.size, g.data, 0);
  }

  lemma {:induction false} RowEmptyCellsCount(row: seq<Cell>, y: nat, x: nat)
    requires x <= |row|
    ensures |RowEmptyCells(row, y, x)| + RowTally(TileCount, |row|, y, row, x) == |row| - x
    decreases |row| - x
  {
    if x < |row| {
      RowEmptyCellsCount(row, y, x + 1);
    }
  }

  lemma {:induction false} RowsEmptyCellsCount(n: nat, rows: seq<seq<Cell>>, y: nat)
    requires y <= |rows|
    requires forall j :: 0 <= j < |rows| ==> |rows[j]| == n
    ensures |RowsEmptyCells(rows, y)| + RowsTally(TileCount, n, rows, y) == (|rows| - y) * n
    decreases |rows| - y
  {
    if y < |rows| {
      RowEmptyCellsCount(rows[y], y, 0);
      RowsEmptyCellsCount(n, rows, y + 1);
      assert (|rows| - y) * n == n + (|rows| - (y + 1)) * n;
    }
  }

  /** The empty cells and the tiles together account for all size² cells. */
  lemma EmptyCellsCount(g: Grid)
    requires Valid(g)
    ensures |EmptyCells(g)| == g.size * g.size - Tally(TileCount, g)
  {
    RowsEmptyCellsCount(g.size, g.data, 0);
  }
}
