/**
 The four moves of the game and the geometry they induce on an N×N board:
 which cell a tile is pushed into, and how far a cell is from the edge the
 move pushes towards. Coordinates are (x, y) with x the column and y the row;
 "up" decreases y, "left" decreases x.
 */
module Moves {

  datatype Move = Up | Down | Left | Right

  /** The scan pushes the tile at (x, y) only when its neighbour in direction
      `m` lies on an n×n board: the guards `y>0`, `y<size-1`, `x>0`, `x<size-1`. */
  predicate HasNeighbor(m: Move, n: nat, x: nat, y: nat) {
    match m
    case Up => y > 0
    case Down => y + 1 < n
    case Left => x > 0
    case Right => x + 1 < n
  }

  /** Number of steps from (x, y) to the edge of an n×n board that `m` pushes towards. */
  function Distance(m: Move, n: nat, x: nat, y: nat): int {
    match m
    case Up => y
    case Down => n - 1 - y
    case Left => x
    case Right => n - 1 - x
  }

  /** The cell one step from (x, y) in direction `m`: it is on the board, it is
      adjacent to (x, y), and it is one step closer to the target edge. */
  function Neighbor(m: Move, n: nat, x: nat, y: nat): (r: (nat, nat))
    requires x < n && y < n
    requires HasNeighbor(m, n, x, y)
    ensures r.0 < n && r.1 < n
    ensures r != (x, y)
    ensures (r.0 == x && (r.1 + 1 == y || r.1 == y + 1)) || (r.1 == y && (r.0 + 1 == x || r.0 == x + 1))
    ensures Distance(m, n, r.0, r.1) == Distance(m, n, x, y) - 1
  {
    match m
    case Up => (x, y - 1)
    case Down => (x, y + 1)
    case Left => (x - 1, y)
    case Right => (x + 1, y)
  }
}
