/**
 The game state: an N×N grid whose cells are either empty or hold an integer.
 `data[y][x]` is the cell in column x of row y, as in the Python `GameState`.
 */
module Board {

  datatype Option<+T> = None | Some(value: T)

  /** A cell: `None` for an empty square, `Some(v)` for a tile showing v. */
  type Cell = Option<int>

  datatype Grid = Grid(size: nat, data: seq<seq<Cell>>)

  /** `size` rows of `size` cells each. */
  predicate Valid(g: Grid) {
    && |g.data| == g.size
    && forall y :: 0 <= y < |g.data| ==> |g.data[y]| == g.size
  }

  predicate InRange(g: Grid, x: int, y: int) {
    0 <= x < g.size && 0 <= y < g.size
  }

  /** A fresh board of the given size with every cell empty. */
  function EmptyGrid(size: nat): (r: Grid)
    ensures Valid(r) && r.size == size
    ensures AllEmpty(r)
  {
    Grid(size, seq(size, _ => seq(size, _ => None)))
  }

  /** The cell at column x, row y; the source asserts the coordinates are in range. */
  function GetItem(g: Grid, x: nat, y: nat): Cell
    requires Valid(g) && InRange(g, x, y)
  {
    g.data[y][x]
  }

  /** Overwrite one cell: reading it back gives the new value and every other
      cell reads as before. */
  function SetItem(g: Grid, x: nat, y: nat, v: Cell): (r: Grid)
    requires Valid(g) && InRange(g, x, y)
    ensures Valid(r) && r.size == g.size
    ensures GetItem(r, x, y) == v
    ensures forall x', y' :: InRange(g, x', y') && (x', y') != (x, y) ==> GetItem(r, x', y') == GetItem(g, x', y')
  {
    g.(data := g.data[y := g.data[y][x := v]])
  }

  predicate SameCells(a: Grid, b: Grid)
    requires Valid(a) && Valid(b) && a.size == b.size
  {
    forall x: nat, y: nat :: x < a.size && y < a.size ==> GetItem(a, x, y) == GetItem(b, x, y)
  }

  /** Two well-formed grids that agree on every cell are the same grid. */
  lemma SameCellsSameGrid(a: Grid, b: Grid)
    requires Valid(a) && Valid(b) && a.size == b.size
    requires SameCells(a, b)
    ensures a == b
  {
    forall y | 0 <= y < a.size
      ensures a.data[y] == b.data[y]
    {
      forall x | 0 <= x < a.size
        ensures a.data[y][x] == b.data[y][x]
      {
        assert GetItem(a, x, y) == GetItem(b, x, y);
      }
    }
  }

  /** `GameState.__eq__`: different sizes are unequal; otherwise compare cell by
      cell, an empty cell matching only an empty cell. The result is exactly
      value equality of the two boards. */
  function Equal(a: Grid, b: Grid): (r: bool)
    requires Valid(a) && Valid(b)
    ensures r <==> a == b
  {
    if a.size != b.size then false
    else if SameCells(a, b) then SameCellsSameGrid(a, b); true
    else false
  }

  predicate AllEmpty(g: Grid)
    requires Valid(g)
  {
    forall x: nat, y: nat :: x < g.size && y < g.size ==> GetItem(g, x, y) == None
  }

  predicate Full(g: Grid)
    requires Valid(g)
  {
    forall x: nat, y: nat :: x < g.size && y < g.size ==> GetItem(g, x, y) != None
  }

  /** Every tile on the board shows a positive number. */
  predicate AllPositive(g: Grid)
    requires Valid(g)
  {
    forall x: nat, y: nat :: x < g.size && y < g.size && GetItem(g, x, y).Some? ==> GetItem(g, x, y).value > 0
  }

  /** Coordinates of the empty cells of `row` (row number y) from column x on, left to right. */
  function RowEmptyCells(row: seq<Cell>, y: nat, x: nat): (r: seq<(nat, nat)>)
    ensures forall i: nat, j: nat :: (i, j) in r <==> j == y && x <= i < |row| && row[i] == None
    decreases |row| - x
  {
    if x >= |row| then []
    else (if row[x] == None then [(x, y)] else []) + RowEmptyCells(row, y, x + 1)
  }

  /** Coordinates of the empty cells of rows y.. of `rows`, in row-major order. */
  function RowsEmptyCells(rows: seq<seq<Cell>>, y: nat): (r: seq<(nat, nat)>)
    ensures forall i: nat, j: nat :: (i, j) in r <==> y <= j < |rows| && i < |rows[j]| && rows[j][i] == None
    decreases |rows| - y
  {
    if y >= |rows| then []
    else RowEmptyCells(rows[y], y, 0) + RowsEmptyCells(rows, y + 1)
  }

  /** All empty coordinates, row-major: exactly the in-range (x, y) whose cell reads empty. */
  function EmptyCells(g: Grid): (r: seq<(nat, nat)>)
    requires Valid(g)
    ensures forall x: nat, y: nat :: (x, y) in r <==> InRange(g, x, y) && GetItem(g, x, y) == None
  {
    RowsEmptyCells(g.data, 0)
  }

  /** A board has an empty cell exactly when its list of empty cells is non-empty. */
  lemma EmptyCellsNonEmptyIffNotFull(g: Grid)
    requires Valid(g)
    ensures |EmptyCells(g)| > 0 <==> !Full(g)
  {
    var e := EmptyCells(g);
    if |e| > 0 {
      assert e[0] in e;
      assert GetItem(g, e[0].0, e[0].1) == None;
    }
    if !Full(g) {
      var x: nat, y: nat :| InRange(g, x, y) && GetItem(g, x, y) == None;
      assert (x, y) in e;
    }
  }
}
