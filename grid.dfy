/*
 * The grid of the browser game: a size-by-size array of optional tiles,
 * indexed cells[x][y] (x the column, y the row), as js/game_manager.js uses
 * it.  The Grid and Tile classes themselves are not part of this model; what
 * the game manager relies on of them is defined here: cellContent (nothing
 * outside the board), cellAvailable, withinBounds, insertTile, removeTile and
 * availableCells in eachCell order (column by column).
 *
 * Tiles are values: a tile's fields are changed by writing the changed value
 * back into its cell.
 */
module GameGrid {
  import opened Wrappers

  /** A cell coordinate, or a direction vector. */
  datatype Pos = Pos(x: int, y: int)

  /**
   * A tile: the position it records, its value, the position saved by
   * prepareTiles, and whether a merge of the current move produced it
   * (the source's mergedFrom pair, reduced to whether it is set).
   */
  datatype Tile = Tile(pos: Pos, value: nat, previous: Option<Pos>, merged: bool)

  type Cells = seq<seq<Option<Tile>>>

  /** Every column has as many cells as there are columns. */
  predicate Square(g: Cells)
  {
    forall x :: 0 <= x < |g| ==> |g[x]| == |g|
  }

  predicate InBounds(n: int, p: Pos)
  {
    0 <= p.x < n && 0 <= p.y < n
  }

  /** cellContent: the tile in a cell, and nothing outside the board. */
  function Content(g: Cells, p: Pos): Option<Tile>
    requires Square(g)
  {
    if InBounds(|g|, p) then g[p.x][p.y] else None
  }

  /** The grid with one cell overwritten. */
  function Put(g: Cells, p: Pos, c: Option<Tile>): (r: Cells)
    requires Square(g) && InBounds(|g|, p)
    ensures Square(r) && |r| == |g|
    ensures Content(r, p) == c
    ensures forall q :: q != p ==> Content(r, q) == Content(g, q)
  {
    g[p.x := g[p.x][p.y := c]]
  }

  /** Two square grids of one size that agree on every cell are equal. */
  lemma SameCells(g: Cells, h: Cells)
    requires Square(g) && Square(h) && |g| == |h|
    requires forall p :: Content(g, p) == Content(h, p)
    ensures g == h
  {
    forall x | 0 <= x < |g|
      ensures g[x] == h[x]
    {
      forall y | 0 <= y < |g|
        ensures g[x][y] == h[x][y]
      {
        assert Content(g, Pos(x, y)) == Content(h, Pos(x, y));
      }
    }
  }

  /** The empty grid of a new game. */
  function EmptyGrid(n: nat): (g: Cells)
    ensures Square(g) && |g| == n
    ensures forall p :: Content(g, p) == None
  {
    seq(n, x => seq(n, y => None))
  }

  /** Every tile records the cell that holds it. */
  ghost predicate Placed(g: Cells)
    requires Square(g)
  {
    forall p :: Content(g, p).Some? ==> Content(g, p).value.pos == p
  }

  /** A saved grid holds one value or nothing per cell. */
  predicate SavedShape(n: nat, saved: seq<seq<Option<nat>>>)
  {
    |saved| == n && forall x :: 0 <= x < n ==> |saved[x]| == n
  }

  /** A fresh tile for a saved value, at the cell that held it. */
  function Restored(saved: seq<seq<Option<nat>>>): (g: Cells)
    requires SavedShape(|saved|, saved)
    ensures Square(g) && |g| == |saved| && Placed(g)
    ensures forall p :: InBounds(|g|, p) ==>
      Content(g, p) == (if saved[p.x][p.y].None? then None
                        else Some(Tile(p, saved[p.x][p.y].value, None, false)))
  {
    seq(|saved|, x requires 0 <= x < |saved| =>
      seq(|saved|, y requires 0 <= y < |saved| =>
        if saved[x][y].None? then None else Some(Tile(Pos(x, y), saved[x][y].value, None, false))))
  }

  // ---------------------------------------------------------------------
  // Totals over the board

  datatype Measure = TileCount | ValueSum | MergedCount | MergedValueSum

  function Weight(m: Measure, c: Option<Tile>): int
  {
    match c
    case None => 0
    case Some(t) =>
      match m
      case TileCount => 1
      case ValueSum => t.value
      case MergedCount => if t.merged then 1 else 0
      case MergedValueSum => if t.merged then t.value else 0
  }

  function ColumnSum(col: seq<Option<Tile>>, m: Measure): int
  {
    if col == [] then 0 else ColumnSum(col[..|col| - 1], m) + Weight(m, col[|col| - 1])
  }

  function GridSum(g: seq<seq<Option<Tile>>>, m: Measure): int
  {
    if g == [] then 0 else GridSum(g[..|g| - 1], m) + ColumnSum(g[|g| - 1], m)
  }

  lemma {:induction false} ColumnSumUpdate(col: seq<Option<Tile>>, y: nat, c: Option<Tile>, m: Measure)
    requires y < |col|
    ensures ColumnSum(col[y := c], m) == ColumnSum(col, m) - Weight(m, col[y]) + Weight(m, c)
  {
    var last := |col| - 1;
    assert col[y := c][..last] == if y == last then col[..last] else col[..last][y := c];
    if y < last {
      ColumnSumUpdate(col[..last], y, c, m);
    }
  }

  lemma {:induction false} GridSumUpdate(g: seq<seq<Option<Tile>>>, x: nat, col: seq<Option<Tile>>, m: Measure)
    requires x < |g|
    ensures GridSum(g[x := col], m) == GridSum(g, m) - ColumnSum(g[x], m) + ColumnSum(col, m)
  {
    var last := |g| - 1;
    assert g[x := col][..last] == if x == last then g[..last] else g[..last][x := col];
    if x < last {
      GridSumUpdate(g[..last], x, col, m);
    }
  }

  /** Overwriting a cell changes a total by the new weight less the old one. */
  lemma GridSumPut(g: Cells, p: Pos, c: Option<Tile>, m: Measure)
    requires Square(g) && InBounds(|g|, p)
    ensures GridSum(Put(g, p, c), m) == GridSum(g, m) - Weight(m, Content(g, p)) + Weight(m, c)
  {
    ColumnSumUpdate(g[p.x], p.y, c, m);
    GridSumUpdate(g, p.x, g[p.x][p.y := c], m);
  }

  lemma {:induction false} ColumnSumsAgree(a: seq<Option<Tile>>, b: seq<Option<Tile>>, m: Measure)
    requires |a| == |b|
    requires forall y :: 0 <= y < |a| ==> Weight(m, a[y]) == Weight(m, b[y])
    ensures ColumnSum(a, m) == ColumnSum(b, m)
  {
    if a != [] {
      ColumnSumsAgree(a[..|a| - 1], b[..|b| - 1], m);
    }
  }

  lemma {:induction false} GridSumsAgreeUpTo(g: Cells, h: Cells, k: nat, m: Measure)
    requires Square(g) && Square(h) && |g| == |h| && k <= |g|
    requires forall p :: Weight(m, Content(g, p)) == Weight(m, Content(h, p))
    ensures GridSum(g[..k], m) == GridSum(h[..k], m)
  {
    if k > 0 {
      assert g[..k][..k - 1] == g[..k - 1];
      assert h[..k][..k - 1] == h[..k - 1];
      GridSumsAgreeUpTo(g, h, k - 1, m);
      var x := k - 1;
      var a, b := g[x], h[x];
      forall y | 0 <= y < |a|
        ensures Weight(m, a[y]) == Weight(m, b[y])
      {
        assert Weight(m, Content(g, Pos(x, y))) == Weight(m, Content(h, Pos(x, y)));
      }
      ColumnSumsAgree(a, b, m);
    }
  }

  lemma {:induction false} ColumnSumZero(col: seq<Option<Tile>>, m: Measure)
    requires forall y :: 0 <= y < |col| ==> Weight(m, col[y]) == 0
    ensures ColumnSum(col, m) == 0
  {
    if col != [] {
      ColumnSumZero(col[..|col| - 1], m);
    }
  }

  /** A grid whose every cell weighs nothing has total zero. */
  lemma {:induction false} GridSumZero(g: seq<seq<Option<Tile>>>, m: Measure)
    requires forall x, y :: 0 <= x < |g| && 0 <= y < |g[x]| ==> Weight(m, g[x][y]) == 0
    ensures GridSum(g, m) == 0
  {
    if g != [] {
      ColumnSumZero(g[|g| - 1], m);
      GridSumZero(g[..|g| - 1], m);
    }
  }

  /** Two grids whose cells weigh the same have the same total. */
  lemma GridSumsAgree(g: Cells, h: Cells, m: Measure)
    requires Square(g) && Square(h) && |g| == |h|
    requires forall p :: Weight(m, Content(g, p)) == Weight(m, Content(h, p))
    ensures GridSum(g, m) == GridSum(h, m)
  {
    GridSumsAgreeUpTo(g, h, |g|, m);
    assert g[..|g|] == g;
    assert h[..|h|] == h;
  }

  // ---------------------------------------------------------------------
  // Empty cells, in eachCell order

  /** a comes before b when the cells are visited column by column, each column from y = 0. */
  predicate ColumnMajor(a: Pos, b: Pos)
  {
    a.x < b.x || (a.x == b.x && a.y < b.y)
  }

  /** The empty cells of column x among its first k rows. */
  function EmptyInColumn(g: Cells, x: int, k: nat): (r: seq<Pos>)
    requires Square(g) && 0 <= x < |g| && k <= |g|
    ensures forall p :: p in r <==> p.x == x && 0 <= p.y < k && g[x][p.y].None?
    ensures forall i, j :: 0 <= i < j < |r| ==> ColumnMajor(r[i], r[j])
  {
    if k == 0 then []
    else EmptyInColumn(g, x, k - 1) + (if g[x][k - 1].None? then [Pos(x, k - 1)] else [])
  }

  /** The empty cells of the first k columns. */
  function EmptyBefore(g: Cells, k: nat): (r: seq<Pos>)
    requires Square(g) && k <= |g|
    ensures forall p :: p in r <==> 0 <= p.x < k && InBounds(|g|, p) && Content(g, p).None?
    ensures forall i, j :: 0 <= i < j < |r| ==> ColumnMajor(r[i], r[j])
  {
    if k == 0 then []
    else
      var before, column := EmptyBefore(g, k - 1), EmptyInColumn(g, k - 1, |g|);
      assert forall i :: 0 <= i < |before| ==> before[i] in before && before[i].x < k - 1;
      assert forall j :: 0 <= j < |column| ==> column[j] in column && column[j].x == k - 1;
      before + column
  }

  /**
   * availableCells: every empty cell of the board, each once, column by
   * column and each column from y = 0, the order addRandomTile picks from.
   */
  function EmptyCells(g: Cells): (r: seq<Pos>)
    requires Square(g)
    ensures forall p :: p in r <==> InBounds(|g|, p) && Content(g, p).None?
    ensures forall i, j :: 0 <= i < j < |r| ==> ColumnMajor(r[i], r[j])
    ensures forall i, j :: 0 <= i < j < |r| ==> r[i] != r[j]
  {
    EmptyBefore(g, |g|)
  }

  ghost predicate HasEmpty(g: Cells)
    requires Square(g)
  {
    exists p :: InBounds(|g|, p) && Content(g, p).None?
  }

  /** An empty cell is found exactly when the list of empty cells is not empty. */
  lemma EmptyCellsExist(g: Cells)
    requires Square(g)
    ensures |EmptyCells(g)| > 0 <==> HasEmpty(g)
  {
    if HasEmpty(g) {
      var p :| InBounds(|g|, p) && Content(g, p).None?;
      assert p in EmptyCells(g);
    }
    if |EmptyCells(g)| > 0 {
      assert EmptyCells(g)[0] in EmptyCells(g);
    }
  }

  /** A board holding 2048 somewhere. */
  predicate Holds2048(g: Cells)
    requires Square(g)
  {
    exists x, y | 0 <= x < |g| && 0 <= y < |g| :: g[x][y].Some? && g[x][y].value.value == 2048
  }

  // ---------------------------------------------------------------------
  // The grid object

  class Grid {
    const size: nat
    const cells: array2<Option<Tile>>
    /** The board as a value; Valid keeps it equal to the array. */
    ghost var model: Cells

    ghost predicate Valid()
      reads this, cells
    {
      cells.Length0 == size && cells.Length1 == size &&
      |model| == size && Square(model) &&
      forall x, y :: 0 <= x < size && 0 <= y < size ==> cells[x, y] == model[x][y]
    }

    /** A new, empty grid. */
    constructor(size: nat)
      ensures Valid() && fresh(cells)
      ensures this.size == size && model == EmptyGrid(size)
    {
      this.size := size;
      cells := new Option<Tile>[size, size]((x, y) => None);
      model := EmptyGrid(size);
    }

    /** A grid reloaded from saved values: a fresh tile per saved value. */
    constructor FromState(size: nat, saved: seq<seq<Option<nat>>>)
      requires SavedShape(size, saved)
      ensures Valid() && fresh(cells)
      ensures this.size == size && model == Restored(saved)
    {
      this.size := size;
      var g := Restored(saved);
      cells := new Option<Tile>[size, size]((x, y) requires 0 <= x < size && 0 <= y < size => g[x][y]);
      model := g;
    }

    predicate WithinBounds(p: Pos)
      reads this
    {
      InBounds(size, p)
    }

    method CellContent(p: Pos) returns (t: Option<Tile>)
      requires Valid()
      ensures t == Content(model, p)
    {
      if WithinBounds(p) {
        t := cells[p.x, p.y];
      } else {
        t := None;
      }
    }

    /** cellAvailable: true also outside the board, where cellContent is empty. */
    method CellAvailable(p: Pos) returns (b: bool)
      requires Valid()
      ensures b <==> Content(model, p).None?
    {
      var t := CellContent(p);
      b := t.None?;
    }

    method InsertTile(t: Tile)
      requires Valid() && InBounds(size, t.pos)
      modifies this, cells
      ensures Valid()
      ensures model == Put(old(model), t.pos, Some(t))
    {
      cells[t.pos.x, t.pos.y] := Some(t);
      model := Put(model, t.pos, Some(t));
    }

    /** removeTile clears the cell the tile records. */
    method RemoveTile(t: Tile)
      requires Valid() && InBounds(size, t.pos)
      modifies this, cells
      ensures Valid()
      ensures model == Put(old(model), t.pos, None)
    {
      cells[t.pos.x, t.pos.y] := None;
      model := Put(model, t.pos, None);
    }

    method AvailableCells() returns (available: seq<Pos>)
      requires Valid()
      ensures available == EmptyCells(model)
    {
      available := [];
      var x := 0;
      while x < size
        invariant 0 <= x <= size
        invariant available == EmptyBefore(model, x)
      {
        var column := AvailableInColumn(x);
        available := available + column;
        x := x + 1;
      }
    }

    /** The inner loop of eachCell in availableCells: the empty cells of column x. */
    method AvailableInColumn(x: int) returns (column: seq<Pos>)
      requires Valid() && 0 <= x < size
      ensures column == EmptyInColumn(model, x, size)
    {
      column := [];
      var y := 0;
      while y < size
        invariant 0 <= y <= size
        invariant column == EmptyInColumn(model, x, y)
      {
        if cells[x, y].None? {
          column := column + [Pos(x, y)];
        }
        y := y + 1;
      }
    }

    method CellsAvailable() returns (b: bool)
      requires Valid()
      ensures b <==> HasEmpty(model)
    {
      var available := AvailableCells();
      EmptyCellsExist(model);
      b := |available| > 0;
    }
  }
}
