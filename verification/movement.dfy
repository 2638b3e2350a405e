/**
 Move resolution (`GameSession.shiftOneItemTo` and `moveAllItemsInDir`).
 A pass scans the board row by row (y outer, x inner, both ascending) and
 pushes every tile it meets one step in the move's direction: into an empty
 neighbour, onto an equal neighbour (the two merge into their sum), or not at
 all when the neighbour holds a different value. Passes repeat until one
 leaves the board unchanged. Because a pass works on the board as it is being
 changed, a tile can move or merge more than once per move.
 */
module Movement {
  import opened Board
  import opened Moves
  import opened Tallies

  /** `shiftOneItemTo`: push the tile at (sx, sy) into (ex, ey). An empty
      destination receives the source value; an equal destination becomes the
      sum; in both cases the source is cleared. A different value blocks the
      push and nothing changes. No cell other than the two named ever changes. */
  function ShiftOneItemTo(g: Grid, sx: nat, sy: nat, ex: nat, ey: nat): (r: Grid)
    requires Valid(g) && InRange(g, sx, sy) && InRange(g, ex, ey)
    ensures Valid(r) && r.size == g.size
    ensures forall x: nat, y: nat :: InRange(g, x, y) && (x, y) != (sx, sy) && (x, y) != (ex, ey) ==>
              GetItem(r, x, y) == GetItem(g, x, y)
    ensures (sx, sy) != (ex, ey) && GetItem(g, ex, ey) == None ==>
              GetItem(r, ex, ey) == GetItem(g, sx, sy) && GetItem(r, sx, sy) == None
    ensures (sx, sy) != (ex, ey) && GetItem(g, ex, ey).Some? && GetItem(g, ex, ey) == GetItem(g, sx, sy) ==>
              GetItem(r, ex, ey) == Some(2 * GetItem(g, sx, sy).value) && GetItem(r, sx, sy) == None
    ensures GetItem(g, ex, ey).Some? && GetItem(g, ex, ey) != GetItem(g, sx, sy) ==> r == g
  {
    var startVal := GetItem(g, sx, sy);
    var endVal := GetItem(g, ex, ey);
    if endVal == None then
      SetItem(SetItem(g, ex, ey, startVal), sx, sy, None)
    else if startVal == endVal then
      SetItem(SetItem(g, ex, ey, Some(startVal.value + endVal.value)), sx, sy, None)
    else
      g
  }

  /** r agrees with g everywhere except at (x, y) and its neighbour in direction m. */
  predicate SameExceptPush(g: Grid, r: Grid, m: Move, x: nat, y: nat)
    requires Valid(g) && Valid(r) && r.size == g.size && InRange(g, x, y)
  {
    forall x': nat, y': nat ::
      (x' < g.size && y' < g.size && (x', y') != (x, y) &&
       (!HasNeighbor(m, g.size, x, y) || (x', y') != Neighbor(m, g.size, x, y))) ==>
      GetItem(r, x', y') == GetItem(g, x', y')
  }

  /** One iteration of the scan's inner loop body at (x, y): skip an empty
      cell, push a tile only when its neighbour in direction m is on the board. */
  function Step(g: Grid, m: Move, x: nat, y: nat): (r: Grid)
    requires Valid(g) && InRange(g, x, y)
    ensures Valid(r) && r.size == g.size
    ensures GetItem(g, x, y) == None || !HasNeighbor(m, g.size, x, y) ==> r == g
  {
    if GetItem(g, x, y) == None then g
    else if HasNeighbor(m, g.size, x, y) then
      var (ex, ey) := Neighbor(m, g.size, x, y);
      ShiftOneItemTo(g, x, y, ex, ey)
    else g
  }

  /** A push changes at most the pushed cell and its neighbour. */
  lemma StepFrame(g: Grid, m: Move, x: nat, y: nat)
    requires Valid(g) && InRange(g, x, y)
    ensures SameExceptPush(g, Step(g, m, x, y), m, x, y)
  {
  }

  /** r agrees with g outside rows y-1 to y+1 and, within them, left of column x-1. */
  predicate SameAwayFrom(g: Grid, r: Grid, y: nat, x: nat)
    requires Valid(g) && Valid(r) && r.size == g.size
  {
    forall x': nat, y': nat :: x' < g.size && y' < g.size && (y' + 1 < y || y' > y + 1 || x' + 1 < x) ==>
      GetItem(r, x', y') == GetItem(g, x', y')
  }

  /** r agrees with g in every row above y-1. */
  predicate SameAbove(g: Grid, r: Grid, y: nat)
    requires Valid(g) && Valid(r) && r.size == g.size
  {
    forall x': nat, y': nat :: x' < g.size && y' < g.size && y' + 1 < y ==> GetItem(r, x', y') == GetItem(g, x', y')
  }

  /** The inner loop of a pass: cells x.. of row y, left to right. */
  function ScanRow(g: Grid, m: Move, y: nat, x: nat): (r: Grid)
    requires Valid(g) && y < g.size && x <= g.size
    ensures Valid(r) && r.size == g.size
    decreases g.size - x
  {
    if x == g.size then g
    else ScanRow(Step(g, m, x, y), m, y, x + 1)
  }

  /** The outer loop of a pass: rows y.., top to bottom. */
  function ScanRows(g: Grid, m: Move, y: nat): (r: Grid)
    requires Valid(g) && y <= g.size
    ensures Valid(r) && r.size == g.size
    decreases g.size - y
  {
    if y == g.size then g
    else ScanRows(ScanRow(g, m, y, 0), m, y + 1)
  }

  /** Scanning row y from column x changes nothing outside rows y-1 to y+1,
      nor any cell left of column x-1. */
  lemma {:induction false} ScanRowFrame(g: Grid, m: Move, y: nat, x: nat)
    requires Valid(g) && y < g.size && x <= g.size
    ensures SameAwayFrom(g, ScanRow(g, m, y, x), y, x)
    decreases g.size - x
  {
    if x < g.size {
      var g' := Step(g, m, x, y);
      StepFrame(g, m, x, y);
      ScanRowFrame(g', m, y, x + 1);
    }
  }

  /** Scanning rows y.. changes no row above y-1. */
  lemma {:induction false} ScanRowsFrame(g: Grid, m: Move, y: nat)
    requires Valid(g) && y <= g.size
    ensures SameAbove(g, ScanRows(g, m, y), y)
    decreases g.size - y
  {
    if y < g.size {
      var g' := ScanRow(g, m, y, 0);
      ScanRowFrame(g, m, y, 0);
      ScanRowsFrame(g', m, y + 1);
    }
  }

  /** One full row-major pass over the board. */
  function Pass(g: Grid, m: Move): (r: Grid)
    requires Valid(g)
    ensures Valid(r) && r.size == g.size
  {
    ScanRows(g, m, 0)
  }

  /** The tile at (x, y), if any, cannot be pushed in direction m: the cell is
      empty, or it is at the edge, or its neighbour holds a different value. */
  predicate BlockedAt(g: Grid, m: Move, x: nat, y: nat)
    requires Valid(g) && InRange(g, x, y)
  {
    || GetItem(g, x, y) == None
    || !HasNeighbor(m, g.size, x, y)
    || (var (ex, ey) := Neighbor(m, g.size, x, y);
        GetItem(g, ex, ey) != None && GetItem(g, ex, ey) != GetItem(g, x, y))
  }

  /** No tile on the board can be pushed in direction m. */
  predicate Stuck(g: Grid, m: Move)
    requires Valid(g)
  {
    forall x: nat, y: nat :: x < g.size && y < g.size ==> BlockedAt(g, m, x, y)
  }

  /** How a board r obtained from g by pushing tiles in direction m relates to
      g: the tile values add up to the same total, there are no more tiles,
      positive boards stay positive, and the tiles' summed distance to the
      target edge does not grow, and strictly shrinks unless r is g. */
  predicate Descends(g: Grid, r: Grid, m: Move)
    requires Valid(g) && Valid(r)
  {
    && Tally(TileSum, r) == Tally(TileSum, g)
    && Tally(TileCount, r) <= Tally(TileCount, g)
    && (AllPositive(g) ==> AllPositive(r))
    && Tally(EdgeDistance(m), r) <= Tally(EdgeDistance(m), g)
    && (r != g ==> Tally(EdgeDistance(m), r) < Tally(EdgeDistance(m), g))
  }

  lemma DescendsTransitive(a: Grid, b: Grid, c: Grid, m: Move)
    requires Valid(a) && Valid(b) && Valid(c)
    requires Descends(a, b, m) && Descends(b, c, m)
    ensures Descends(a, c, m)
  {
  }

  /** A push that clears (x, y) and writes w into (ex, ey) changes a measure by
      the two cells' differences. */
  lemma PushTally(me: Measure, g: Grid, x: nat, y: nat, ex: nat, ey: nat, w: Cell)
    requires Valid(g) && InRange(g, x, y) && InRange(g, ex, ey) && (x, y) != (ex, ey)
    ensures Tally(me, SetItem(SetItem(g, ex, ey, w), x, y, None))
         == Tally(me, g) + Weight(me, g.size, ex, ey, w) - Weight(me, g.size, ex, ey, GetItem(g, ex, ey))
                         - Weight(me, g.size, x, y, GetItem(g, x, y))
  {
    var g1 := SetItem(g, ex, ey, w);
    SetItemTally(me, g, ex, ey, w);
    SetItemTally(me, g1, x, y, None);
    assert GetItem(g1, x, y) == GetItem(g, x, y);
  }

  /** A push that writes a positive value (or nothing) keeps a positive board positive. */
  lemma PushKeepsPositive(g: Grid, x: nat, y: nat, ex: nat, ey: nat, w: Cell)
    requires Valid(g) && InRange(g, x, y) && InRange(g, ex, ey) && (x, y) != (ex, ey)
    requires AllPositive(g) && (w.Some? ==> w.value > 0)
    ensures AllPositive(SetItem(SetItem(g, ex, ey, w), x, y, None))
  {
    var r := SetItem(SetItem(g, ex, ey, w), x, y, None);
    forall x': nat, y': nat | x' < g.size && y' < g.size && GetItem(r, x', y').Some?
      ensures GetItem(r, x', y').value > 0
    {
      if (x', y') != (x, y) && (x', y') != (ex, ey) {
        assert GetItem(r, x', y') == GetItem(g, x', y');
      }
    }
  }

  /** A push from (x, y) into its neighbour (ex, ey) that writes w there and
      clears (x, y), where w is the moved value (empty neighbour) or the sum
      (equal neighbour), descends. */
  lemma PushDescends(g: Grid, m: Move, x: nat, y: nat, ex: nat, ey: nat, w: Cell)
    requires Valid(g) && InRange(g, x, y) && GetItem(g, x, y).Some?
    requires HasNeighbor(m, g.size, x, y) && (ex, ey) == Neighbor(m, g.size, x, y)
    requires || (GetItem(g, ex, ey) == None && w == GetItem(g, x, y))
             || (GetItem(g, ex, ey) == GetItem(g, x, y) && w == Some(2 * GetItem(g, x, y).value))
    ensures Descends(g, SetItem(SetItem(g, ex, ey, w), x, y, None), m)
  {
    PushTally(TileSum, g, x, y, ex, ey, w);
    PushTally(TileCount, g, x, y, ex, ey, w);
    PushTally(EdgeDistance(m), g, x, y, ex, ey, w);
    if AllPositive(g) {
      PushKeepsPositive(g, x, y, ex, ey, w);
    }
  }

  /** One push keeps the tile total, never adds a tile, keeps tiles positive,
      and lowers the distance measure whenever it changes anything. */
  lemma StepDescends(g: Grid, m: Move, x: nat, y: nat)
    requires Valid(g) && InRange(g, x, y)
    ensures Descends(g, Step(g, m, x, y), m)
  {
    var n := g.size;
    if GetItem(g, x, y) != None && HasNeighbor(m, n, x, y) {
      var (ex, ey) := Neighbor(m, n, x, y);
      var v := GetItem(g, x, y);
      var e := GetItem(g, ex, ey);
      if e == None {
        assert Step(g, m, x, y) == SetItem(SetItem(g, ex, ey, v), x, y, None);
        PushDescends(g, m, x, y, ex, ey, v);
      } else if e == v {
        var w := Some(v.value + e.value);
        assert Step(g, m, x, y) == SetItem(SetItem(g, ex, ey, w), x, y, None);
        PushDescends(g, m, x, y, ex, ey, w);
      }
    }
  }

  /** A push at (x, y) leaves the board as it was exactly when that cell is blocked. */
  lemma StepUnchangedIffBlocked(g: Grid, m: Move, x: nat, y: nat)
    requires Valid(g) && InRange(g, x, y)
    ensures Step(g, m, x, y) == g <==> BlockedAt(g, m, x, y)
  {
    if !BlockedAt(g, m, x, y) {
      var (ex, ey) := Neighbor(m, g.size, x, y);
      assert GetItem(Step(g, m, x, y), x, y) == None != GetItem(g, x, y);
    }
  }

  lemma {:induction false} ScanRowDescends(g: Grid, m: Move, y: nat, x: nat)
    requires Valid(g) && y < g.size && x <= g.size
    ensures Descends(g, ScanRow(g, m, y, x), m)
    decreases g.size - x
  {
    if x < g.size {
      var g' := Step(g, m, x, y);
      StepDescends(g, m, x, y);
      ScanRowDescends(g', m, y, x + 1);
      DescendsTransitive(g, g', ScanRow(g', m, y, x + 1), m);
    }
  }

  lemma {:induction false} ScanRowsDescends(g: Grid, m: Move, y: nat)
    requires Valid(g) && y <= g.size
    ensures Descends(g, ScanRows(g, m, y), m)
    decreases g.size - y
  {
    if y < g.size {
      var g' := ScanRow(g, m, y, 0);
      ScanRowDescends(g, m, y, 0);
      ScanRowsDescends(g', m, y + 1);
      DescendsTransitive(g, g', ScanRows(g', m, y + 1), m);
    }
  }

  /** A whole pass keeps the tile total and positivity, never adds a tile,
      and lowers the distance measure whenever it changes the board: the
      termination argument of the repeat-until-stable loop. */
  lemma PassDescends(g: Grid, m: Move)
    requires Valid(g)
    ensures Descends(g, Pass(g, m), m)
  {
    ScanRowsDescends(g, m, 0);
  }

  /** Every cell of row y from column x on is blocked. */
  predicate RowBlockedFrom(g: Grid, m: Move, y: nat, x: nat)
    requires Valid(g) && y < g.size
  {
    forall x': nat :: x <= x' < g.size ==> BlockedAt(g, m, x', y)
  }

  /** Every cell of rows y.. is blocked. */
  predicate RowsBlockedFrom(g: Grid, m: Move, y: nat)
    requires Valid(g)
  {
    forall y': nat :: y <= y' < g.size ==> RowBlockedFrom(g, m, y', 0)
  }

  /** Once the rest of a row changes the board, the rest of the pass cannot undo it. */
  lemma ChangedRowChangesPass(g: Grid, m: Move, y: nat)
    requires Valid(g) && y < g.size
    requires ScanRow(g, m, y, 0) != g
    ensures ScanRows(g, m, y) != g
  {
    var g' := ScanRow(g, m, y, 0);
    ScanRowDescends(g, m, y, 0);
    ScanRowsDescends(g', m, y + 1);
  }

  /** Once a push changes the board, the rest of the row cannot undo it. */
  lemma ChangedStepChangesRow(g: Grid, m: Move, y: nat, x: nat)
    requires Valid(g) && y < g.size && x < g.size
    requires Step(g, m, x, y) != g
    ensures ScanRow(g, m, y, x) != g
  {
    var g' := Step(g, m, x, y);
    StepDescends(g, m, x, y);
    ScanRowDescends(g', m, y, x + 1);
  }

  lemma RowBlockedFromUnfold(g: Grid, m: Move, y: nat, x: nat)
    requires Valid(g) && y < g.size && x < g.size
    ensures RowBlockedFrom(g, m, y, x) <==> BlockedAt(g, m, x, y) && RowBlockedFrom(g, m, y, x + 1)
  {
    if BlockedAt(g, m, x, y) && RowBlockedFrom(g, m, y, x + 1) {
      forall x': nat | x <= x' < g.size ensures BlockedAt(g, m, x', y) {
        if x' > x {
          assert x + 1 <= x';
        }
      }
    }
  }

  lemma {:induction false} ScanRowUnchangedIffBlocked(g: Grid, m: Move, y: nat, x: nat)
    requires Valid(g) && y < g.size && x <= g.size
    ensures ScanRow(g, m, y, x) == g <==> RowBlockedFrom(g, m, y, x)
    decreases g.size - x
  {
    if x < g.size {
      StepUnchangedIffBlocked(g, m, x, y);
      RowBlockedFromUnfold(g, m, y, x);
      if Step(g, m, x, y) == g {
        assert ScanRow(g, m, y, x) == ScanRow(g, m, y, x + 1);
        ScanRowUnchangedIffBlocked(g, m, y, x + 1);
      } else {
        ChangedStepChangesRow(g, m, y, x);
      }
    }
  }

  lemma RowsBlockedFromUnfold(g: Grid, m: Move, y: nat)
    requires Valid(g) && y < g.size
    ensures RowsBlockedFrom(g, m, y) <==> RowBlockedFrom(g, m, y, 0) && RowsBlockedFrom(g, m, y + 1)
  {
    if RowBlockedFrom(g, m, y, 0) && RowsBlockedFrom(g, m, y + 1) {
      forall y': nat | y <= y' < g.size ensures RowBlockedFrom(g, m, y', 0) {
        if y' > y {
          assert y + 1 <= y';
        }
      }
    }
  }

  lemma {:induction false} ScanRowsUnchangedIffBlocked(g: Grid, m: Move, y: nat)
    requires Valid(g) && y <= g.size
    ensures ScanRows(g, m, y) == g <==> RowsBlockedFrom(g, m, y)
    decreases g.size - y
  {
    if y < g.size {
      ScanRowUnchangedIffBlocked(g, m, y, 0);
      RowsBlockedFromUnfold(g, m, y);
      if ScanRow(g, m, y, 0) == g {
        assert ScanRows(g, m, y) == ScanRows(g, m, y + 1);
        ScanRowsUnchangedIffBlocked(g, m, y + 1);
      } else {
        ChangedRowChangesPass(g, m, y);
      }
    }
  }

  /** A pass leaves the board unchanged exactly when no tile can be pushed:
      the first pushable tile in scan order would change the board, and the
      distance measure then prevents the rest of the pass from restoring it. */
  lemma PassUnchangedIffStuck(g: Grid, m: Move)
    requires Valid(g)
    ensures Pass(g, m) == g <==> Stuck(g, m)
  {
    ScanRowsUnchangedIffBlocked(g, m, 0);
    if Stuck(g, m) {
      forall y': nat | y' < g.size ensures RowBlockedFrom(g, m, y', 0) {
      }
    }
    if RowsBlockedFrom(g, m, 0) {
      forall x': nat, y': nat | x' < g.size && y' < g.size ensures BlockedAt(g, m, x', y') {
        assert RowBlockedFrom(g, m, y', 0);
      }
    }
  }

  /** The loop of `moveAllItemsInDir` after its first comparison: run a pass
      and stop once a pass changes nothing. The result is a board no pass
      changes, reached by pushes only. */
  function Settle(g: Grid, m: Move): (r: Grid)
    requires Valid(g)
    ensures Valid(r) && r.size == g.size
    ensures Pass(r, m) == r
    ensures Descends(g, r, m)
    decreases Tally(EdgeDistance(m), g)
  {
    var p := Pass(g, m);
    PassDescends(g, m);
    DistanceNonNegative(m, g);
    if Equal(p, g) then p
    else
      var r := Settle(p, m);
      DescendsTransitive(g, p, r, m);
      r
  }

  /** `moveAllItemsInDir`. The loop first compares the board with a fresh
      empty board, so an empty board gets no pass at all; any other board is
      settled. The result is a fixed point of a pass, with the same tile
      total, no more tiles than before, and positive tiles if g had them. */
  function MoveAllItemsInDir(g: Grid, m: Move): (r: Grid)
    requires Valid(g)
    ensures Valid(r) && r.size == g.size
    ensures Pass(r, m) == r
    ensures Descends(g, r, m)
  {
    if Equal(g, EmptyGrid(g.size)) then
      PassUnchangedIffStuck(g, m);
      g
    else
      Settle(g, m)
  }

  /** Moving twice in the same direction, with no spawn in between, gives the
      same board as moving once. */
  lemma MoveIdempotent(g: Grid, m: Move)
    requires Valid(g)
    ensures MoveAllItemsInDir(MoveAllItemsInDir(g, m), m) == MoveAllItemsInDir(g, m)
  {
    var r := MoveAllItemsInDir(g, m);
    if !Equal(r, EmptyGrid(r.size)) {
      assert Settle(r, m) == r;
    }
  }

  /** A move changes the board exactly when some tile can be pushed in its
      direction; this is what the game-over check relies on. */
  lemma MoveUnchangedIffStuck(g: Grid, m: Move)
    requires Valid(g)
    ensures MoveAllItemsInDir(g, m) == g <==> Stuck(g, m)
  {
    PassUnchangedIffStuck(g, m);
    if g == EmptyGrid(g.size) {
      assert Stuck(g, m);
    } else {
      var p := Pass(g, m);
      if p != g {
        PassDescends(g, m);
        assert Settle(g, m) == Settle(p, m);
      }
    }
  }

  /** A move whose every tile already touches the target edge (for instance
      "up" with all tiles in row 0) leaves the board unchanged. */
  lemma AlreadyAtEdge(g: Grid, m: Move)
    requires Valid(g)
    requires forall x: nat, y: nat :: x < g.size && y < g.size && GetItem(g, x, y) != None ==> !HasNeighbor(m, g.size, x, y)
    ensures MoveAllItemsInDir(g, m) == g
  {
    assert Stuck(g, m);
    MoveUnchangedIffStuck(g, m);
  }
}
