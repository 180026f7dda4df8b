/*
 * The slide phase of GameManager.move in js/game_manager.js, as functions on
 * grid values: the direction vectors, the traversal order, the search for the
 * farthest free cell, the merge-once rule, and the sweep of the inner loop
 * body over every cell.  The class GameManager (module Manager) runs the
 * same steps in place and is proved to compute these functions.
 */
module MoveEngine {
  import opened Wrappers
  import opened GameGrid

  /** The four unit vectors. */
  predicate Unit(v: Pos)
  {
    v == Pos(0, -1) || v == Pos(-1, 0) || v == Pos(0, 1) || v == Pos(1, 0)
  }

  /**
   * getVector: 0 up, 1 left, 2 down, 3 right.  Even directions are vertical,
   * and the first two point towards index 0.
   */
  function GetVector(direction: int): (v: Pos)
    requires 0 <= direction < 4
    ensures Unit(v)
    ensures v.y == 0 <==> direction % 2 == 1
    ensures v.x + v.y == (if direction < 2 then -1 else 1)
  {
    if direction == 0 then Pos(0, -1)
    else if direction == 1 then Pos(-1, 0)
    else if direction == 2 then Pos(0, 1)
    else Pos(1, 0)
  }

  /** positionsEqual */
  function PositionsEqual(first: Pos, second: Pos): (r: bool)
    ensures r <==> first == second
  {
    first.x == second.x && first.y == second.y
  }

  // ---------------------------------------------------------------------
  // Traversal order

  function Ascending(n: nat): (r: seq<int>)
    ensures |r| == n && forall i :: 0 <= i < n ==> r[i] == i
  {
    if n == 0 then [] else Ascending(n - 1) + [n - 1]
  }

  function Reverse(s: seq<int>): (r: seq<int>)
    ensures |r| == |s| && forall i :: 0 <= i < |s| ==> r[i] == s[|s| - 1 - i]
  {
    if s == [] then [] else [s[|s| - 1]] + Reverse(s[..|s| - 1])
  }

  /** Where a coordinate comes in a traversal of 0..n-1, reversed or not. */
  function Rank(n: int, reversed: bool, c: int): int
  {
    if reversed then n - 1 - c else c
  }

  /**
   * buildTraversals: 0..n-1 on each axis, reversed on the axis along which
   * the vector points to n-1, so that the farthest cells come first.
   */
  function Traversals(n: nat, v: Pos): (t: (seq<int>, seq<int>))
    ensures |t.0| == n && |t.1| == n
    ensures forall i :: 0 <= i < n ==> t.0[i] == (if v.x == 1 then n - 1 - i else i)
    ensures forall i :: 0 <= i < n ==> t.1[i] == (if v.y == 1 then n - 1 - i else i)
  {
    var up := Ascending(n);
    (if v.x == 1 then Reverse(up) else up, if v.y == 1 then Reverse(up) else up)
  }

  // ---------------------------------------------------------------------
  // findFarthestPosition

  function Step(p: Pos, v: Pos): Pos
  {
    Pos(p.x + v.x, p.y + v.y)
  }

  /** The cells left before the board edge in direction v. */
  function Room(n: int, p: Pos, v: Pos): int
  {
    if v.x == 1 then n - p.x
    else if v.x == -1 then p.x + 1
    else if v.y == 1 then n - p.y
    else p.y + 1
  }

  /** b lies on the line through a along v, at a or beyond it. */
  predicate Ahead(v: Pos, a: Pos, b: Pos)
  {
    if v.x == 1 then b.y == a.y && b.x >= a.x
    else if v.x == -1 then b.y == a.y && b.x <= a.x
    else if v.y == 1 then b.x == a.x && b.y >= a.y
    else b.x == a.x && b.y <= a.y
  }

  /**
   * The do-while loop of findFarthestPosition: step from the cell while the
   * next cell is on the board and empty; answer the last cell reached and
   * the cell that stopped the search.
   */
  function Farthest(g: Cells, cell: Pos, v: Pos): (r: (Pos, Pos))
    requires Square(g) && InBounds(|g|, cell) && Unit(v)
    decreases Room(|g|, cell, v)
  {
    var next := Step(cell, v);
    if InBounds(|g|, next) && Content(g, next).None? then Farthest(g, next, v) else (cell, next)
  }

  /**
   * The farthest cell is the start cell or an empty cell ahead of it, and the
   * next cell is one step beyond it and lies off the board or holds a tile.
   */
  lemma {:induction false} FarthestSpec(g: Cells, cell: Pos, v: Pos)
    requires Square(g) && InBounds(|g|, cell) && Unit(v)
    ensures var (farthest, next) := Farthest(g, cell, v);
      InBounds(|g|, farthest) && Ahead(v, cell, farthest) &&
      (farthest == cell || Content(g, farthest).None?) &&
      next == Step(farthest, v) &&
      (!InBounds(|g|, next) || Content(g, next).Some?)
    decreases Room(|g|, cell, v)
  {
    var step := Step(cell, v);
    if InBounds(|g|, step) && Content(g, step).None? {
      FarthestSpec(g, step, v);
    }
  }

  /** Every cell the search passes over, between the start and the next cell, is on the board and empty. */
  lemma {:induction false} FarthestPassesEmpty(g: Cells, cell: Pos, v: Pos)
    requires Square(g) && InBounds(|g|, cell) && Unit(v)
    ensures var next := Farthest(g, cell, v).1;
      forall p :: Ahead(v, cell, p) && p != cell && Ahead(v, p, next) && p != next ==>
        InBounds(|g|, p) && Content(g, p).None?
    decreases Room(|g|, cell, v)
  {
    var step := Step(cell, v);
    if InBounds(|g|, step) && Content(g, step).None? {
      FarthestPassesEmpty(g, step, v);
    }
  }

  // ---------------------------------------------------------------------
  // prepareTiles and moveTile

  /** savePosition and the clearing of mergedFrom, on one cell. */
  function SaveCell(c: Option<Tile>): Option<Tile>
  {
    match c
    case None => None
    case Some(t) => Some(t.(previous := Some(t.pos), merged := false))
  }

  /** prepareTiles over the whole board. */
  function Prepared(g: Cells): (r: Cells)
    requires Square(g)
    ensures Square(r) && |r| == |g|
    ensures forall p :: Content(r, p) == SaveCell(Content(g, p))
  {
    seq(|g|, x requires 0 <= x < |g| => seq(|g|, y requires 0 <= y < |g| => SaveCell(g[x][y])))
  }

  /**
   * prepareTiles keeps every tile where it is with its value, records that
   * cell as its previous position, and leaves no tile marked as merged.
   */
  lemma PreparedTiles(g: Cells)
    requires Square(g) && Placed(g)
    ensures Placed(Prepared(g))
    ensures forall p :: Content(g, p).Some? ==>
      Content(Prepared(g), p).Some? && Content(Prepared(g), p).value.value == Content(g, p).value.value &&
      Content(Prepared(g), p).value.previous == Some(p) && !Content(Prepared(g), p).value.merged
    ensures forall p :: Content(g, p).None? ==> Content(Prepared(g), p).None?
    ensures GridSum(Prepared(g), TileCount) == GridSum(g, TileCount)
    ensures GridSum(Prepared(g), ValueSum) == GridSum(g, ValueSum)
    ensures GridSum(Prepared(g), MergedCount) == 0
    ensures GridSum(Prepared(g), MergedValueSum) == 0
  {
    var h := Prepared(g);
    GridSumsAgree(h, g, TileCount);
    GridSumsAgree(h, g, ValueSum);
    GridSumZero(h, MergedCount);
    GridSumZero(h, MergedValueSum);
  }

  /** moveTile: the tile leaves the cell it records and is stored, updated, in the target. */
  function Relocated(g: Cells, tile: Tile, cell: Pos): (r: Cells)
    requires Square(g) && InBounds(|g|, tile.pos) && InBounds(|g|, cell)
    ensures Square(r) && |r| == |g|
    ensures Placed(g) ==> Placed(r)
  {
    Put(Put(g, tile.pos, None), cell, Some(tile.(pos := cell)))
  }

  // ---------------------------------------------------------------------
  // The inner loop body of move

  /** What the traversal carries from cell to cell. */
  datatype Sweep = Sweep(cells: Cells, score: int, won: bool, first2048: bool, moved: bool, merges: nat)

  /** The merge rule: an equal tile that no merge of this move produced. */
  predicate Mergeable(tile: Tile, other: Option<Tile>)
  {
    other.Some? && other.value.value == tile.value && !other.value.merged
  }

  /** The merge branch: the doubled tile replaces the target, and the mover leaves its cell. */
  function MergeInto(s: Sweep, cell: Pos, tile: Tile, next: Pos): (r: Sweep)
    requires Square(s.cells) && Placed(s.cells)
    requires InBounds(|s.cells|, tile.pos) && InBounds(|s.cells|, next)
    ensures Square(r.cells) && |r.cells| == |s.cells| && Placed(r.cells)
  {
    var merged := Tile(next, tile.value * 2, None, true);
    var hit := s.first2048 && merged.value == 2048;
    Sweep(Put(Put(s.cells, next, Some(merged)), tile.pos, None),
          s.score + merged.value, s.won || hit, s.first2048 && !hit,
          s.moved || !PositionsEqual(cell, next), s.merges + 1)
  }

  /** The other branch: moveTile to the farthest free cell. */
  function MoveInto(s: Sweep, cell: Pos, tile: Tile, farthest: Pos): (r: Sweep)
    requires Square(s.cells) && Placed(s.cells)
    requires InBounds(|s.cells|, tile.pos) && InBounds(|s.cells|, farthest)
    ensures Square(r.cells) && |r.cells| == |s.cells| && Placed(r.cells)
  {
    s.(cells := Relocated(s.cells, tile, farthest),
       moved := s.moved || !PositionsEqual(cell, farthest))
  }

  /**
   * One cell of the traversal: a tile there either merges into the equal,
   * unmerged tile that stopped its slide (adding the doubled value to the
   * score, and winning on the first 2048), or moves to the farthest free cell.
   */
  function Visit(s: Sweep, cell: Pos, v: Pos): (r: Sweep)
    requires Square(s.cells) && Placed(s.cells) && Unit(v)
    ensures Square(r.cells) && |r.cells| == |s.cells| && Placed(r.cells)
  {
    match Content(s.cells, cell)
    case None => s
    case Some(tile) =>
      FarthestSpec(s.cells, cell, v);
      var (farthest, next) := Farthest(s.cells, cell, v);
      if Mergeable(tile, Content(s.cells, next)) then MergeInto(s, cell, tile, next)
      else MoveInto(s, cell, tile, farthest)
  }

  /** The inner loop: the cells (x, y) for y in ys, in order. */
  function SweepColumn(s: Sweep, x: int, ys: seq<int>, v: Pos): (r: Sweep)
    requires Square(s.cells) && Placed(s.cells) && Unit(v)
    ensures Square(r.cells) && |r.cells| == |s.cells| && Placed(r.cells)
    decreases |ys|
  {
    if ys == [] then s else Visit(SweepColumn(s, x, ys[..|ys| - 1], v), Pos(x, ys[|ys| - 1]), v)
  }

  /** The outer loop: a column per x in xs, in order. */
  function SweepGrid(s: Sweep, xs: seq<int>, ys: seq<int>, v: Pos): (r: Sweep)
    requires Square(s.cells) && Placed(s.cells) && Unit(v)
    ensures Square(r.cells) && |r.cells| == |s.cells| && Placed(r.cells)
    decreases |xs|
  {
    if xs == [] then s else SweepColumn(SweepGrid(s, xs[..|xs| - 1], ys, v), xs[|xs| - 1], ys, v)
  }

  /** The slide phase of move in direction v over an n-by-n traversal. */
  function Slide(s: Sweep, n: nat, v: Pos): (r: Sweep)
    requires Square(s.cells) && Placed(s.cells) && Unit(v)
    ensures Square(r.cells) && |r.cells| == |s.cells| && Placed(r.cells)
  {
    var (xs, ys) := Traversals(n, v);
    SweepGrid(s, xs, ys, v)
  }

  // ---------------------------------------------------------------------
  // What one visit keeps

  /** The totals after a merge: the doubled tile replaces the target, and the mover leaves. */
  lemma MergeStepTotals(s: Sweep, cell: Pos, tile: Tile, next: Pos, m: Measure)
    requires Square(s.cells) && Placed(s.cells) && Content(s.cells, cell) == Some(tile)
    requires InBounds(|s.cells|, next) && next != cell
    ensures GridSum(MergeInto(s, cell, tile, next).cells, m) ==
      GridSum(s.cells, m) - Weight(m, Content(s.cells, next)) - Weight(m, Some(tile))
      + Weight(m, Some(Tile(next, tile.value * 2, None, true)))
  {
    var merged := Tile(next, tile.value * 2, None, true);
    GridSumPut(s.cells, next, Some(merged), m);
    GridSumPut(Put(s.cells, next, Some(merged)), cell, None, m);
  }

  /** The totals after moveTile into an empty cell or back into its own cell. */
  lemma MoveStepTotals(s: Sweep, cell: Pos, tile: Tile, farthest: Pos, m: Measure)
    requires Square(s.cells) && Placed(s.cells) && Content(s.cells, cell) == Some(tile)
    requires InBounds(|s.cells|, farthest) && (farthest == cell || Content(s.cells, farthest).None?)
    ensures GridSum(MoveInto(s, cell, tile, farthest).cells, m) ==
      GridSum(s.cells, m) - Weight(m, Some(tile)) + Weight(m, Some(tile.(pos := farthest)))
  {
    GridSumPut(s.cells, cell, None, m);
    GridSumPut(Put(s.cells, cell, None), farthest, Some(tile.(pos := farthest)), m);
  }

  /** A merge always moves its tile, and empties the tile's cell. */
  lemma MergeEffect(s: Sweep, cell: Pos, tile: Tile, next: Pos)
    requires Square(s.cells) && Placed(s.cells) && Content(s.cells, cell) == Some(tile)
    requires InBounds(|s.cells|, next) && next != cell
    ensures var r := MergeInto(s, cell, tile, next);
      r.moved && Content(r.cells, cell).None?
  {
  }

  /** moveTile changes nothing when the tile stays, and otherwise empties its cell. */
  lemma MoveEffect(s: Sweep, cell: Pos, tile: Tile, farthest: Pos)
    requires Square(s.cells) && Placed(s.cells) && Content(s.cells, cell) == Some(tile)
    requires InBounds(|s.cells|, farthest)
    ensures var r := MoveInto(s, cell, tile, farthest);
      r == s || (r.moved && Content(r.cells, cell).None?)
  {
    if farthest == cell {
      SameCells(Relocated(s.cells, tile, farthest), s.cells);
    }
  }

  /** A visit either changes nothing, or moves its tile and leaves its cell empty. */
  lemma VisitEffect(s: Sweep, cell: Pos, v: Pos)
    requires Square(s.cells) && Placed(s.cells) && Unit(v)
    ensures var r := Visit(s, cell, v);
      r == s || (r.moved && InBounds(|s.cells|, cell) && Content(r.cells, cell).None?)
  {
    var g := s.cells;
    match Content(g, cell)
    case None =>
    case Some(tile) =>
      FarthestSpec(g, cell, v);
      var (farthest, next) := Farthest(g, cell, v);
      if Mergeable(tile, Content(g, next)) {
        MergeEffect(s, cell, tile, next);
      } else {
        MoveEffect(s, cell, tile, farthest);
      }
  }

  /** Where the traversal has passed: columns before x, then rows before y. */
  predicate Before(n: int, v: Pos, p: Pos, i: int, j: int)
  {
    Rank(n, v.x == 1, p.x) < i || (Rank(n, v.x == 1, p.x) == i && Rank(n, v.y == 1, p.y) < j)
  }

  /** Every tile a merge produced lies where the traversal has passed. */
  ghost predicate MergedBefore(g: Cells, v: Pos, i: int, j: int)
    requires Square(g)
  {
    forall p :: Content(g, p).Some? && Content(g, p).value.merged ==> Before(|g|, v, p, i, j)
  }

  /** The cell at traversal step (i, j). */
  predicate At(n: int, v: Pos, cell: Pos, i: int, j: int)
  {
    InBounds(n, cell) && Rank(n, v.x == 1, cell.x) == i && Rank(n, v.y == 1, cell.y) == j
  }

  /** A cell strictly ahead of the visited cell was visited before it. */
  lemma AheadIsBefore(n: int, v: Pos, cell: Pos, p: Pos, i: int, j: int)
    requires Unit(v) && At(n, v, cell, i, j) && InBounds(n, p)
    requires Ahead(v, cell, p) && p != cell
    ensures Before(n, v, p, i, j)
  {
  }

  /** After a merge at step (i, j), merged tiles still lie only where the traversal has passed. */
  lemma MergeStepOrder(g: Cells, v: Pos, cell: Pos, next: Pos, merged: Tile, i: int, j: int)
    requires Square(g) && Unit(v) && At(|g|, v, cell, i, j) && MergedBefore(g, v, i, j)
    requires InBounds(|g|, next) && Ahead(v, cell, next) && next != cell
    ensures MergedBefore(Put(Put(g, next, Some(merged)), cell, None), v, i, j + 1)
  {
    AheadIsBefore(|g|, v, cell, next, i, j);
  }

  /** After moveTile at step (i, j), merged tiles still lie only where the traversal has passed. */
  lemma MoveStepOrder(g: Cells, v: Pos, tile: Tile, cell: Pos, i: int, j: int)
    requires Square(g) && Unit(v) && InBounds(|g|, tile.pos) && InBounds(|g|, cell) && !tile.merged
    requires MergedBefore(g, v, i, j)
    ensures MergedBefore(Relocated(g, tile, cell), v, i, j + 1)
  {
  }

  /**
   * What a visit adds to each total: nothing to the sum of the values, one
   * tile less per merge, and, since the mover and the target were produced by
   * no merge, one merged tile per merge worth what the merge adds to the score.
   */
  function Gain(m: Measure, s: Sweep, r: Sweep): int
  {
    match m
    case ValueSum => 0
    case TileCount => s.merges - r.merges
    case MergedCount => r.merges - s.merges
    case MergedValueSum => r.score - s.score
  }

  lemma VisitMeasure(s: Sweep, cell: Pos, v: Pos, i: int, j: int, m: Measure)
    requires Square(s.cells) && Placed(s.cells) && Unit(v)
    requires At(|s.cells|, v, cell, i, j) && MergedBefore(s.cells, v, i, j)
    ensures var r := Visit(s, cell, v);
      GridSum(r.cells, m) == GridSum(s.cells, m) + Gain(m, s, r)
  {
    var g := s.cells;
    match Content(g, cell)
    case None =>
    case Some(tile) =>
      assert !Before(|g|, v, cell, i, j);
      FarthestSpec(g, cell, v);
      var (farthest, next) := Farthest(g, cell, v);
      if Mergeable(tile, Content(g, next)) {
        MergeGain(s, cell, tile, next, m);
      } else {
        MoveGain(s, cell, tile, farthest, m);
      }
  }

  /** VisitMeasure for the merge branch: the mover was produced by no merge. */
  lemma MergeGain(s: Sweep, cell: Pos, tile: Tile, next: Pos, m: Measure)
    requires Square(s.cells) && Placed(s.cells) && Content(s.cells, cell) == Some(tile) && !tile.merged
    requires InBounds(|s.cells|, next) && next != cell && Mergeable(tile, Content(s.cells, next))
    ensures var r := MergeInto(s, cell, tile, next);
      GridSum(r.cells, m) == GridSum(s.cells, m) + Gain(m, s, r)
  {
    MergeStepTotals(s, cell, tile, next, m);
  }

  /** VisitMeasure for the move branch. */
  lemma MoveGain(s: Sweep, cell: Pos, tile: Tile, farthest: Pos, m: Measure)
    requires Square(s.cells) && Placed(s.cells) && Content(s.cells, cell) == Some(tile)
    requires InBounds(|s.cells|, farthest) && (farthest == cell || Content(s.cells, farthest).None?)
    ensures var r := MoveInto(s, cell, tile, farthest);
      GridSum(r.cells, m) == GridSum(s.cells, m) + Gain(m, s, r)
  {
    MoveStepTotals(s, cell, tile, farthest, m);
  }

  /** Merge once: after the visit at step (i, j), merged tiles lie only where the traversal has passed. */
  lemma VisitOrder(s: Sweep, cell: Pos, v: Pos, i: int, j: int)
    requires Square(s.cells) && Placed(s.cells) && Unit(v)
    requires At(|s.cells|, v, cell, i, j) && MergedBefore(s.cells, v, i, j)
    ensures MergedBefore(Visit(s, cell, v).cells, v, i, j + 1)
  {
    var g := s.cells;
    match Content(g, cell)
    case None =>
    case Some(tile) =>
      assert !Before(|g|, v, cell, i, j);
      FarthestSpec(g, cell, v);
      var (farthest, next) := Farthest(g, cell, v);
      if Mergeable(tile, Content(g, next)) {
        MergeStepOrder(g, v, cell, next, Tile(next, tile.value * 2, None, true), i, j);
      } else {
        MoveStepOrder(g, v, tile, farthest, i, j);
      }
  }

  /** Some tile a merge produced holds the given value. */
  ghost predicate MergedHolds(g: Cells, value: int)
    requires Square(g)
  {
    exists p :: Content(g, p).Some? && Content(g, p).value.merged && Content(g, p).value.value == value
  }

  /** A merge of unmerged tiles adds its doubled tile to the merged ones and removes none. */
  lemma MergeHolds(s: Sweep, cell: Pos, tile: Tile, next: Pos, value: int)
    requires Square(s.cells) && Placed(s.cells) && Content(s.cells, cell) == Some(tile) && !tile.merged
    requires InBounds(|s.cells|, next) && next != cell && Mergeable(tile, Content(s.cells, next))
    ensures MergedHolds(MergeInto(s, cell, tile, next).cells, value) <==>
      MergedHolds(s.cells, value) || tile.value * 2 == value
  {
    var g, h := s.cells, MergeInto(s, cell, tile, next).cells;
    if MergedHolds(g, value) {
      var p :| Content(g, p).Some? && Content(g, p).value.merged && Content(g, p).value.value == value;
      assert Content(h, p) == Content(g, p);
    }
    if tile.value * 2 == value {
      assert Content(h, next).Some?;
    }
    if MergedHolds(h, value) {
      var p :| Content(h, p).Some? && Content(h, p).value.merged && Content(h, p).value.value == value;
      if p != next {
        assert Content(g, p) == Content(h, p);
      }
    }
  }

  /** Moving an unmerged tile leaves the merged tiles as they were. */
  lemma MoveHolds(s: Sweep, cell: Pos, tile: Tile, farthest: Pos, value: int)
    requires Square(s.cells) && Placed(s.cells) && Content(s.cells, cell) == Some(tile) && !tile.merged
    requires InBounds(|s.cells|, farthest) && (farthest == cell || Content(s.cells, farthest).None?)
    ensures MergedHolds(MoveInto(s, cell, tile, farthest).cells, value) <==> MergedHolds(s.cells, value)
  {
    var g, h := s.cells, MoveInto(s, cell, tile, farthest).cells;
    if MergedHolds(g, value) {
      var p :| Content(g, p).Some? && Content(g, p).value.merged && Content(g, p).value.value == value;
      assert Content(h, p) == Content(g, p);
    }
    if MergedHolds(h, value) {
      var p :| Content(h, p).Some? && Content(h, p).value.merged && Content(h, p).value.value == value;
      assert Content(g, p) == Content(h, p);
    }
  }

  /**
   * The 2048 flags: the first merge of the move that produces 2048 while
   * first2048 is set wins the game and clears first2048; nothing else
   * touches them.
   */
  lemma VisitWins(s: Sweep, cell: Pos, v: Pos, i: int, j: int)
    requires Square(s.cells) && Placed(s.cells) && Unit(v)
    requires At(|s.cells|, v, cell, i, j) && MergedBefore(s.cells, v, i, j)
    requires s.first2048 ==> !MergedHolds(s.cells, 2048)
    ensures var r := Visit(s, cell, v);
      var hit := s.first2048 && MergedHolds(r.cells, 2048) && !MergedHolds(s.cells, 2048);
      r.first2048 == (s.first2048 && !hit) && r.won == (s.won || hit) &&
      (MergedHolds(s.cells, 2048) ==> MergedHolds(r.cells, 2048))
  {
    var g := s.cells;
    match Content(g, cell)
    case None =>
    case Some(tile) =>
      assert !Before(|g|, v, cell, i, j);
      FarthestSpec(g, cell, v);
      var (farthest, next) := Farthest(g, cell, v);
      if Mergeable(tile, Content(g, next)) {
        MergeHolds(s, cell, tile, next, 2048);
      } else {
        MoveHolds(s, cell, tile, farthest, 2048);
      }
  }

  // ---------------------------------------------------------------------
  // What the whole sweep keeps

  /** What the sweep keeps, from its start s0 up to traversal step (i, j). */
  ghost predicate Sound(s0: Sweep, s: Sweep, v: Pos, i: int, j: int)
    requires Square(s0.cells)
  {
    Square(s.cells) && |s.cells| == |s0.cells| && Placed(s.cells) &&
    (forall m :: GridSum(s.cells, m) == GridSum(s0.cells, m) + Gain(m, s0, s)) &&
    MergedBefore(s.cells, v, i, j) &&
    (s == s0 || (s.moved && HasEmpty(s.cells))) &&
    s.first2048 == (s0.first2048 && !MergedHolds(s.cells, 2048)) &&
    s.won == (s0.won || (s0.first2048 && MergedHolds(s.cells, 2048)))
  }

  lemma VisitSound(s0: Sweep, s: Sweep, cell: Pos, v: Pos, i: int, j: int)
    requires Square(s0.cells) && Unit(v) && Sound(s0, s, v, i, j)
    requires At(|s.cells|, v, cell, i, j)
    ensures Sound(s0, Visit(s, cell, v), v, i, j + 1)
  {
    var r := Visit(s, cell, v);
    forall m
      ensures GridSum(r.cells, m) == GridSum(s0.cells, m) + Gain(m, s0, r)
    {
      VisitMeasure(s, cell, v, i, j, m);
    }
    VisitOrder(s, cell, v, i, j);
    VisitEffect(s, cell, v);
    VisitWins(s, cell, v, i, j);
  }

  /** The inner loop over column i of the traversal keeps Sound. */
  lemma {:induction false} ColumnSound(s0: Sweep, s: Sweep, v: Pos, i: int, x: int, ys: seq<int>)
    requires Square(s0.cells) && Unit(v) && Sound(s0, s, v, i, 0)
    requires forall k :: 0 <= k < |ys| ==> At(|s0.cells|, v, Pos(x, ys[k]), i, k)
    ensures Sound(s0, SweepColumn(s, x, ys, v), v, i, |ys|)
    decreases |ys|
  {
    if ys != [] {
      var front := ys[..|ys| - 1];
      ColumnSound(s0, s, v, i, x, front);
      VisitSound(s0, SweepColumn(s, x, front, v), Pos(x, ys[|ys| - 1]), v, i, |ys| - 1);
    }
  }

  /** A whole column of the traversal takes Sound from column i to column i + 1. */
  lemma ColumnDone(s0: Sweep, s: Sweep, v: Pos, i: int)
    requires Square(s0.cells) && Unit(v) && Sound(s0, s, v, i, 0)
    requires 0 <= i < |s0.cells|
    ensures var (xs, ys) := Traversals(|s0.cells|, v);
      Sound(s0, SweepColumn(s, xs[i], ys, v), v, i + 1, 0)
  {
    var n := |s0.cells|;
    var (xs, ys) := Traversals(n, v);
    ColumnCells(n, v, i);
    ColumnSound(s0, s, v, i, xs[i], ys);
    var r := SweepColumn(s, xs[i], ys, v);
    assert MergedBefore(r.cells, v, i + 1, 0);
  }

  /** Column i of the traversal visits its cells at steps (i, 0), (i, 1), ... */
  lemma ColumnCells(n: nat, v: Pos, i: int)
    requires 0 <= i < n
    ensures var (xs, ys) := Traversals(n, v);
      forall k :: 0 <= k < |ys| ==> At(n, v, Pos(xs[i], ys[k]), i, k)
  {
  }

  /** Before the first cell, Sound holds of a board without merged tiles. */
  lemma SoundStart(s0: Sweep, v: Pos)
    requires Square(s0.cells) && Placed(s0.cells) && MergedBefore(s0.cells, v, 0, 0)
    ensures Sound(s0, s0, v, 0, 0)
  {
  }

  /** The outer loop keeps Sound, from a board without merged tiles. */
  lemma {:induction false} GridSound(s0: Sweep, v: Pos, i: int)
    requires Square(s0.cells) && Placed(s0.cells) && Unit(v)
    requires MergedBefore(s0.cells, v, 0, 0)
    requires 0 <= i <= |s0.cells|
    ensures var (xs, ys) := Traversals(|s0.cells|, v);
      Sound(s0, SweepGrid(s0, xs[..i], ys, v), v, i, 0)
  {
    var (xs, ys) := Traversals(|s0.cells|, v);
    if i == 0 {
      assert xs[..0] == [];
      SoundStart(s0, v);
    } else {
      GridSound(s0, v, i - 1);
      assert xs[..i][..i - 1] == xs[..i - 1];
      ColumnDone(s0, SweepGrid(s0, xs[..i - 1], ys, v), v, i - 1);
    }
  }

  /**
   * The slide phase, from a board on which no tile is marked as merged:
   * the sum of the values is kept; each merge removes one tile and leaves one
   * merged tile, which no later merge consumes; the score rises by the total
   * of the merged tiles; either nothing changed at all, or some tile moved
   * and an empty cell is left; and the game is won, and first2048 cleared,
   * exactly when a merge produced 2048 while first2048 was set.
   */
  lemma SlideSound(s0: Sweep, v: Pos)
    requires Square(s0.cells) && Placed(s0.cells) && Unit(v)
    requires forall p :: Content(s0.cells, p).Some? ==> !Content(s0.cells, p).value.merged
    ensures var r := Slide(s0, |s0.cells|, v);
      GridSum(r.cells, ValueSum) == GridSum(s0.cells, ValueSum) &&
      GridSum(r.cells, TileCount) == GridSum(s0.cells, TileCount) - (r.merges - s0.merges) &&
      GridSum(r.cells, MergedCount) == GridSum(s0.cells, MergedCount) + (r.merges - s0.merges) &&
      GridSum(r.cells, MergedValueSum) == GridSum(s0.cells, MergedValueSum) + (r.score - s0.score) &&
      (r == s0 || (r.moved && HasEmpty(r.cells))) &&
      r.first2048 == (s0.first2048 && !MergedHolds(r.cells, 2048)) &&
      r.won == (s0.won || (s0.first2048 && MergedHolds(r.cells, 2048)))
  {
    var n := |s0.cells|;
    var (xs, ys) := Traversals(n, v);
    GridSound(s0, v, n);
    assert xs[..n] == xs;
    var r := Slide(s0, n, v);
    assert GridSum(r.cells, ValueSum) == GridSum(s0.cells, ValueSum) + Gain(ValueSum, s0, r);
    assert GridSum(r.cells, TileCount) == GridSum(s0.cells, TileCount) + Gain(TileCount, s0, r);
    assert GridSum(r.cells, MergedCount) == GridSum(s0.cells, MergedCount) + Gain(MergedCount, s0, r);
    assert GridSum(r.cells, MergedValueSum) == GridSum(s0.cells, MergedValueSum) + Gain(MergedValueSum, s0, r);
  }

  lemma {:induction false} EmptyBoardColumn(s: Sweep, x: int, ys: seq<int>, v: Pos)
    requires Square(s.cells) && Placed(s.cells) && Unit(v) && |s.cells| == 0
    ensures SweepColumn(s, x, ys, v) == s
    decreases |ys|
  {
    if ys != [] {
      EmptyBoardColumn(s, x, ys[..|ys| - 1], v);
    }
  }

  /** On a board of size zero the sweep does nothing. */
  lemma {:induction false} EmptyBoardSweep(s: Sweep, xs: seq<int>, ys: seq<int>, v: Pos)
    requires Square(s.cells) && Placed(s.cells) && Unit(v) && |s.cells| == 0
    ensures SweepGrid(s, xs, ys, v) == s
    decreases |xs|
  {
    if xs != [] {
      EmptyBoardSweep(s, xs[..|xs| - 1], ys, v);
      EmptyBoardColumn(s, xs[|xs| - 1], ys, v);
    }
  }
}
