/*
 * GameManager of js/game_manager.js: the game state (grid, score, over, won,
 * keepPlaying, first2048, evil) and the operations that change it in place:
 * setup, move with its helpers, the random and the evil tile, the game-over
 * test.  Every method is proved to compute a function on game values, and
 * the lemmas at the end state what those functions promise.
 *
 * The random choices of addRandomTile and the code the worker answers for an
 * evil tile are parameters; rendering, storage, the solver calls and the
 * timers are not part of this model.
 */
module Manager {
  import opened Wrappers
  import opened GameGrid
  import opened MoveEngine

  /** The object a placed tile is reported as: value code 1 for a 2, 2 for a 4, and a cell index. */
  datatype Placement = Placement(value: int, position: int)

  /** The random choices of addRandomTile: an index among the available cells, and whether the tile is a 2. */
  datatype Draw = Draw(pick: nat, two: bool)

  /** The state of a game. */
  datatype Game = Game(size: nat, cells: Cells, score: int, over: bool, won: bool,
                       keepPlaying: bool, first2048: bool, evil: bool)

  /** A game saved by an earlier session: a grid of values and the flags. */
  datatype Saved = Saved(size: nat, cells: seq<seq<Option<nat>>>, score: int,
                         over: bool, won: bool, keepPlaying: bool)

  /** The number of tiles a new game starts with. */
  const StartTiles := 2

  /** isGameTerminated */
  predicate Terminated(game: Game)
  {
    game.over || (game.won && !game.keepPlaying)
  }

  function ValueCode(value: int): int
  {
    if value == 2 then 1 else 2
  }

  // ---------------------------------------------------------------------
  // Placing a tile

  /** addRandomTile: a 2 or a 4 in one of the available cells, when there is one. */
  function AddRandom(g: Cells, draw: Draw): (r: (Cells, Option<Placement>))
    requires Square(g) && Placed(g)
    ensures Square(r.0) && |r.0| == |g| && Placed(r.0)
  {
    var available := EmptyCells(g);
    if |available| > 0 then
      var value := if draw.two then 2 else 4;
      var p := available[draw.pick % |available|];
      (Put(g, p, Some(Tile(p, value, None, false))), Some(Placement(ValueCode(value), CellIndex(p, |g|))))
    else
      (g, None)
  }

  /** The cell index and value an evil code stands for. */
  function EvilTile(code: nat): (nat, nat)
  {
    if code >= 16 then (code - 16, 4) else (code, 2)
  }

  /** The index a placement reports for a cell, counting along rows. */
  function CellIndex(p: Pos, n: int): int
  {
    p.y * n + p.x
  }

  /** The cell of an index, x = index % size, y = floor(index / size). */
  function CellOf(position: nat, n: nat): Pos
    requires n > 0
  {
    Pos(position % n, position / n)
  }

  /**
   * addEvilTile with the worker's code supplied.  An index past the last row
   * is written outside the cells the grid reads, so the board stays as it was.
   */
  function AddEvil(g: Cells, code: nat): (r: (Cells, Option<Placement>))
    requires Square(g) && Placed(g) && |g| > 0
    ensures Square(r.0) && |r.0| == |g| && Placed(r.0)
  {
    var (position, value) := EvilTile(code);
    var coord := CellOf(position, |g|);
    (if InBounds(|g|, coord) then Put(g, coord, Some(Tile(coord, value, None, false))) else g,
     Some(Placement(ValueCode(value), position)))
  }

  // ---------------------------------------------------------------------
  // Game over

  /** The tile at p and its neighbour in the given direction are equal. */
  ghost predicate MatchAt(g: Cells, p: Pos, direction: int)
    requires Square(g) && 0 <= direction < 4
  {
    var q := Step(p, GetVector(direction));
    Content(g, p).Some? && Content(g, q).Some? && Content(g, q).value.value == Content(g, p).value.value
  }

  /** tileMatchesAvailable, over the n-by-n traversal of the manager. */
  ghost predicate TileMatches(n: int, g: Cells)
    requires Square(g)
  {
    exists x, y, d :: 0 <= x < n && 0 <= y < n && 0 <= d < 4 && MatchAt(g, Pos(x, y), d)
  }

  /** movesAvailable */
  ghost predicate CanMove(n: int, g: Cells)
    requires Square(g)
  {
    HasEmpty(g) || TileMatches(n, g)
  }

  // ---------------------------------------------------------------------
  // move

  /** The slide phase of move: prepareTiles, then the traversal. */
  function SlideOf(game: Game, direction: int): (s: Sweep)
    requires Square(game.cells) && Placed(game.cells) && 0 <= direction < 4
    ensures Square(s.cells) && |s.cells| == |game.cells| && Placed(s.cells)
  {
    PreparedTiles(game.cells);
    Slide(Sweep(Prepared(game.cells), game.score, game.won, game.first2048, false, 0),
          game.size, GetVector(direction))
  }

  /** Only a board with cells can have a tile that moves. */
  lemma MovedBoardNotEmpty(s0: Sweep, n: nat, v: Pos)
    requires Square(s0.cells) && Placed(s0.cells) && Unit(v) && !s0.moved
    ensures Slide(s0, n, v).moved ==> |s0.cells| > 0
  {
    if |s0.cells| == 0 {
      var (xs, ys) := Traversals(n, v);
      EmptyBoardSweep(s0, xs, ys, v);
    }
  }

  /**
   * move: nothing on a terminated game; otherwise the slide phase and, when a
   * tile moved, one new tile (evil or random) and the game-over test.
   */
  ghost function MoveSpec(game: Game, direction: int, draw: Draw, evilCode: nat): (r: (Game, Option<Placement>))
    requires Square(game.cells) && Placed(game.cells)
    requires Terminated(game) || 0 <= direction < 4
    ensures Square(r.0.cells) && Placed(r.0.cells)
  {
    if Terminated(game) then (game, None)
    else
      var s := SlideOf(game, direction);
      var swept := game.(cells := s.cells, score := s.score, won := s.won, first2048 := s.first2048);
      if !s.moved then (swept, None)
      else
        PreparedTiles(game.cells);
        MovedBoardNotEmpty(Sweep(Prepared(game.cells), game.score, game.won, game.first2048, false, 0),
                           game.size, GetVector(direction));
        var (cells, placed) := if game.evil then AddEvil(s.cells, evilCode) else AddRandom(s.cells, draw);
        (swept.(cells := cells, over := swept.over || !CanMove(game.size, cells)), placed)
  }

  /** The two branches of one visit, as the loop body takes them. */
  lemma VisitCases(s: Sweep, cell: Pos, v: Pos)
    requires Square(s.cells) && Placed(s.cells) && Unit(v) && Content(s.cells, cell).Some?
    ensures InBounds(|s.cells|, cell)
    ensures var tile := Content(s.cells, cell).value;
      var (farthest, next) := Farthest(s.cells, cell, v);
      InBounds(|s.cells|, farthest) &&
      Visit(s, cell, v) ==
        if Mergeable(tile, Content(s.cells, next)) then MergeInto(s, cell, tile, next)
        else MoveInto(s, cell, tile, farthest)
  {
    FarthestSpec(s.cells, cell, v);
  }

  // ---------------------------------------------------------------------
  // setup

  /** addStartTiles: one random tile per draw. */
  function StartCells(g: Cells, draws: seq<Draw>): (r: Cells)
    requires Square(g) && Placed(g)
    ensures Square(r) && |r| == |g| && Placed(r)
    decreases |draws|
  {
    if draws == [] then g else StartCells(AddRandom(g, draws[0]).0, draws[1..])
  }

  predicate SavedValid(saved: Option<Saved>)
  {
    saved.Some? ==> SavedShape(saved.value.size, saved.value.cells)
  }

  /** The constructor: evil off, then setup from a saved game or a new one. */
  function Initial(size: nat, saved: Option<Saved>, draws: seq<Draw>): (game: Game)
    requires SavedValid(saved)
    ensures Square(game.cells) && Placed(game.cells)
  {
    match saved
    case Some(state) =>
      var cells := Restored(state.cells);
      Game(size, cells, state.score, state.over, state.won, state.keepPlaying, !Holds2048(cells), false)
    case None =>
      Game(size, StartCells(EmptyGrid(size), draws), 0, false, false, false, true, false)
  }

  /** addRandomTile on a grid object. */
  method AddRandomTile(grid: Grid, draw: Draw) returns (placed: Option<Placement>)
    requires grid.Valid() && Placed(grid.model)
    modifies grid, grid.cells
    ensures grid.Valid() && Placed(grid.model)
    ensures (grid.model, placed) == AddRandom(old(grid.model), draw)
  {
    var any := grid.CellsAvailable();
    EmptyCellsExist(grid.model);
    if any {
      var value := if draw.two then 2 else 4;
      var available := grid.AvailableCells();
      var position := available[draw.pick % |available|];
      grid.InsertTile(Tile(position, value, None, false));
      placed := Some(Placement(if value == 2 then 1 else 2, CellIndex(position, grid.size)));
    } else {
      placed := None;
    }
  }

  /** setup, with the saved game and the draws for the start tiles supplied. */
  method Setup(size: nat, saved: Option<Saved>, draws: seq<Draw>)
    returns (grid: Grid, score: int, over: bool, won: bool, keepPlaying: bool, first2048: bool)
    requires SavedValid(saved) && |draws| == StartTiles
    ensures fresh(grid) && fresh(grid.cells) && grid.Valid()
    ensures var game := Initial(size, saved, draws);
      grid.model == game.cells && score == game.score && over == game.over && won == game.won &&
      keepPlaying == game.keepPlaying && first2048 == game.first2048
  {
    if saved.Some? {
      var state := saved.value;
      grid := new Grid.FromState(state.size, state.cells);
      score, over, won, keepPlaying := state.score, state.over, state.won, state.keepPlaying;
      first2048 := !Holds2048(Restored(state.cells));
    } else {
      grid := AddStartTiles(size, draws);
      score, over, won, keepPlaying, first2048 := 0, false, false, false, true;
    }
  }

  /** A new grid and addStartTiles on it. */
  method AddStartTiles(size: nat, draws: seq<Draw>) returns (grid: Grid)
    requires |draws| == StartTiles
    ensures fresh(grid) && fresh(grid.cells) && grid.Valid()
    ensures grid.model == StartCells(EmptyGrid(size), draws)
  {
    grid := new Grid(size);
    var i := 0;
    while i < StartTiles
      invariant 0 <= i <= StartTiles
      invariant fresh(grid) && fresh(grid.cells) && grid.Valid() && Placed(grid.model)
      invariant StartCells(grid.model, draws[i..]) == StartCells(EmptyGrid(size), draws)
    {
      var _ := AddRandomTile(grid, draws[i]);
      assert draws[i..][1..] == draws[i + 1..];
      i := i + 1;
    }
  }

  // ---------------------------------------------------------------------
  // The manager object

  class GameManager {
    const size: nat
    const grid: Grid
    var score: int
    var over: bool
    var won: bool
    var keepPlaying: bool
    var first2048: bool
    var evil: bool

    ghost function State(): Game
      reads this, grid
    {
      Game(size, grid.model, score, over, won, keepPlaying, first2048, evil)
    }

    ghost predicate Valid()
      reads this, grid, grid.cells
    {
      grid.Valid() && Placed(grid.model)
    }

    constructor(size: nat, saved: Option<Saved>, draws: seq<Draw>)
      requires SavedValid(saved) && |draws| == StartTiles
      ensures Valid() && State() == Initial(size, saved, draws)
    {
      this.size := size;
      evil := false;
      var g, s, o, w, k, f := Setup(size, saved, draws);
      grid, score, over, won, keepPlaying, first2048 := g, s, o, w, k, f;
    }

    /** isGameTerminated, on the manager's own fields: the game-level Terminated of its state. */
    predicate IsGameTerminated()
      reads this, grid
      ensures IsGameTerminated() == Terminated(State())
    {
      over || (won && !keepPlaying)
    }

    /** keepPlaying: continue after winning. */
    method KeepPlaying()
      modifies this
      ensures State() == old(State()).(keepPlaying := true)
    {
      keepPlaying := true;
    }

    /** evilTile: switch between random and evil tiles. */
    method ToggleEvil()
      modifies this
      ensures State() == old(State()).(evil := !old(evil))
    {
      evil := !evil;
    }

    method PrepareTiles()
      requires Valid()
      modifies grid, grid.cells
      ensures Valid() && grid.model == Prepared(old(grid.model))
    {
      ghost var g0 := grid.model;
      var x := 0;
      while x < grid.size
        invariant 0 <= x <= grid.size && Valid() && |grid.model| == |g0|
        invariant forall p ::
          Content(grid.model, p) == if p.x < x then SaveCell(Content(g0, p)) else Content(g0, p)
      {
        var y := 0;
        while y < grid.size
          invariant 0 <= y <= grid.size && Valid() && |grid.model| == |g0|
          invariant forall p ::
            Content(grid.model, p) ==
            if p.x < x || (p.x == x && p.y < y) then SaveCell(Content(g0, p)) else Content(g0, p)
        {
          var tile := grid.CellContent(Pos(x, y));
          if tile.Some? {
            var t := tile.value;
            grid.InsertTile(t.(previous := Some(t.pos), merged := false));
          }
          y := y + 1;
        }
        x := x + 1;
      }
      SameCells(grid.model, Prepared(g0));
    }

    method MoveTile(tile: Tile, cell: Pos)
      requires Valid() && InBounds(grid.size, tile.pos) && InBounds(grid.size, cell)
      modifies grid, grid.cells
      ensures Valid() && grid.model == Relocated(old(grid.model), tile, cell)
    {
      grid.RemoveTile(tile);
      grid.InsertTile(tile.(pos := cell));
    }

    method FindFarthestPosition(cell: Pos, vector: Pos) returns (farthest: Pos, next: Pos)
      requires Valid() && InBounds(grid.size, cell) && Unit(vector)
      ensures (farthest, next) == Farthest(grid.model, cell, vector)
    {
      var previous := cell;
      var current := Step(previous, vector);
      var searching := grid.WithinBounds(current);
      if searching {
        searching := grid.CellAvailable(current);
      }
      while searching
        invariant InBounds(grid.size, previous) && current == Step(previous, vector)
        invariant Farthest(grid.model, cell, vector) == Farthest(grid.model, previous, vector)
        invariant searching <==> InBounds(grid.size, current) && Content(grid.model, current).None?
        decreases Room(grid.size, previous, vector)
      {
        previous := current;
        current := Step(previous, vector);
        searching := grid.WithinBounds(current);
        if searching {
          searching := grid.CellAvailable(current);
        }
      }
      return previous, current;
    }

    /**
     * The merge branch of the inner loop of move: the doubled tile replaces
     * the one at next, the mover leaves its cell, the score rises, and the
     * first 2048 wins.
     */
    method MergeTiles(cell: Pos, tile: Tile, next: Pos, moved: bool, ghost merges: nat)
      returns (movedAfter: bool, ghost mergesAfter: nat)
      requires Valid() && InBounds(grid.size, tile.pos) && InBounds(grid.size, next)
      modifies this`score, this`won, this`first2048, grid, grid.cells
      ensures Valid()
      ensures Sweep(grid.model, score, won, first2048, movedAfter, mergesAfter) ==
        MergeInto(Sweep(old(grid.model), old(score), old(won), old(first2048), moved, merges), cell, tile, next)
    {
      var merged := Tile(next, tile.value * 2, None, true);
      grid.InsertTile(merged);
      grid.RemoveTile(tile);
      score := score + merged.value;
      if first2048 && merged.value == 2048 {
        first2048 := false;
        won := true;
      }
      mergesAfter := merges + 1;
      movedAfter := moved;
      if !PositionsEqual(cell, next) {
        movedAfter := true;
      }
    }

    /** The body of the inner loop of move, at one cell. */
    method VisitCell(cell: Pos, vector: Pos, moved: bool, ghost merges: nat)
      returns (movedAfter: bool, ghost mergesAfter: nat)
      requires Valid() && Unit(vector)
      modifies this`score, this`won, this`first2048, grid, grid.cells
      ensures Valid()
      ensures Sweep(grid.model, score, won, first2048, movedAfter, mergesAfter) ==
        Visit(Sweep(old(grid.model), old(score), old(won), old(first2048), moved, merges), cell, vector)
    {
      var tile := grid.CellContent(cell);
      if tile.Some? {
        movedAfter, mergesAfter := VisitTile(cell, tile.value, vector, moved, merges);
      } else {
        movedAfter, mergesAfter := moved, merges;
      }
    }

    /** VisitCell at a cell that holds a tile. */
    method VisitTile(cell: Pos, tile: Tile, vector: Pos, moved: bool, ghost merges: nat)
      returns (movedAfter: bool, ghost mergesAfter: nat)
      requires Valid() && Unit(vector) && InBounds(grid.size, cell) && Content(grid.model, cell) == Some(tile)
      modifies this`score, this`won, this`first2048, grid, grid.cells
      ensures Valid()
      ensures Sweep(grid.model, score, won, first2048, movedAfter, mergesAfter) ==
        Visit(Sweep(old(grid.model), old(score), old(won), old(first2048), moved, merges), cell, vector)
    {
      ghost var s := Sweep(grid.model, score, won, first2048, moved, merges);
      VisitCases(s, cell, vector);
      FarthestSpec(grid.model, cell, vector);
      var farthest, next := FindFarthestPosition(cell, vector);
      var other := grid.CellContent(next);
      if other.Some? && other.value.value == tile.value && !other.value.merged {
        assert Visit(s, cell, vector) == MergeInto(s, cell, tile, next);
        movedAfter, mergesAfter := MergeTiles(cell, tile, next, moved, merges);
      } else {
        assert Visit(s, cell, vector) == MoveInto(s, cell, tile, farthest);
        movedAfter := ShiftTile(cell, tile, farthest, moved);
        mergesAfter := merges;
      }
    }

    /** The move branch of VisitTile: the tile goes to its farthest cell, and moved records it. */
    method ShiftTile(cell: Pos, tile: Tile, farthest: Pos, moved: bool) returns (movedAfter: bool)
      requires Valid() && InBounds(grid.size, tile.pos) && InBounds(grid.size, farthest)
      modifies grid, grid.cells
      ensures Valid()
      ensures var s := Sweep(old(grid.model), score, won, first2048, moved, 0);
        Sweep(grid.model, score, won, first2048, movedAfter, 0) == MoveInto(s, cell, tile, farthest)
    {
      MoveTile(tile, farthest);
      movedAfter := moved;
      if !PositionsEqual(cell, farthest) {
        movedAfter := true;
      }
    }

    method AddEvilTile(code: nat) returns (placed: Option<Placement>)
      requires Valid() && grid.size > 0
      modifies grid, grid.cells
      ensures Valid()
      ensures (grid.model, placed) == AddEvil(old(grid.model), code)
    {
      var value := 2;
      var position := code;
      if code >= 16 {
        position := code - 16;
        value := 4;
      }
      var coord := Pos(position % grid.size, position / grid.size);
      var tile := Tile(coord, value, None, false);
      if grid.WithinBounds(coord) {
        grid.InsertTile(tile);
      }
      placed := Some(Placement(if value == 2 then 1 else 2, position));
    }

    method TileMatchesAvailable() returns (b: bool)
      requires Valid()
      ensures b <==> TileMatches(size, grid.model)
    {
      var x := 0;
      while x < size
        invariant 0 <= x <= size
        invariant forall x', y', d :: 0 <= x' < x && 0 <= y' < size && 0 <= d < 4 ==>
          !MatchAt(grid.model, Pos(x', y'), d)
      {
        var y := 0;
        while y < size
          invariant 0 <= y <= size
          invariant forall x', y', d :: 0 <= x' < x && 0 <= y' < size && 0 <= d < 4 ==>
            !MatchAt(grid.model, Pos(x', y'), d)
          invariant forall y', d :: 0 <= y' < y && 0 <= d < 4 ==> !MatchAt(grid.model, Pos(x, y'), d)
        {
          var tile := grid.CellContent(Pos(x, y));
          if tile.Some? {
            var direction := 0;
            while direction < 4
              invariant 0 <= direction <= 4
              invariant forall d :: 0 <= d < direction ==> !MatchAt(grid.model, Pos(x, y), d)
            {
              var vector := GetVector(direction);
              var cell := Pos(x + vector.x, y + vector.y);
              var other := grid.CellContent(cell);
              if other.Some? && other.value.value == tile.value.value {
                assert MatchAt(grid.model, Pos(x, y), direction);
                return true;
              }
              direction := direction + 1;
            }
          }
          y := y + 1;
        }
        assert forall x', y', d :: x' == x && 0 <= y' < size && 0 <= d < 4 ==> !MatchAt(grid.model, Pos(x', y'), d);
        x := x + 1;
      }
      return false;
    }

    method MovesAvailable() returns (b: bool)
      requires Valid()
      ensures b <==> CanMove(size, grid.model)
    {
      b := grid.CellsAvailable();
      if !b {
        b := TileMatchesAvailable();
      }
    }

    /** The slide phase of move: prepareTiles, then the traversal of every cell. */
    method SlideTiles(direction: int) returns (moved: bool)
      requires Valid() && 0 <= direction < 4
      modifies this`score, this`won, this`first2048, grid, grid.cells
      ensures Valid()
      ensures var s := SlideOf(old(State()), direction);
        grid.model == s.cells && score == s.score && won == s.won && first2048 == s.first2048 && moved == s.moved
    {
      ghost var game := State();
      var vector := GetVector(direction);
      var traversals := Traversals(size, vector);
      PrepareTiles();
      ghost var s0 := Sweep(grid.model, score, won, first2048, false, 0);
      assert s0 == Sweep(Prepared(game.cells), game.score, game.won, game.first2048, false, 0);
      ghost var merges;
      moved, merges := TraverseGrid(traversals.0, traversals.1, vector);
    }

    /** The outer loop of move: the columns in the order of xs, starting with nothing moved. */
    method TraverseGrid(xs: seq<int>, ys: seq<int>, vector: Pos) returns (moved: bool, ghost merges: nat)
      requires Valid() && Unit(vector)
      modifies this`score, this`won, this`first2048, grid, grid.cells
      ensures Valid()
      ensures Sweep(grid.model, score, won, first2048, moved, merges) ==
        SweepGrid(Sweep(old(grid.model), old(score), old(won), old(first2048), false, 0), xs, ys, vector)
    {
      ghost var s0 := Sweep(grid.model, score, won, first2048, false, 0);
      moved, merges := false, 0;
      var i := 0;
      while i < |xs|
        invariant 0 <= i <= |xs| && Valid()
        invariant Sweep(grid.model, score, won, first2048, moved, merges) == SweepGrid(s0, xs[..i], ys, vector)
      {
        moved, merges := TraverseColumn(xs[i], ys, vector, moved, merges);
        assert xs[..i + 1][..i] == xs[..i];
        i := i + 1;
      }
      assert xs[..|xs|] == xs;
    }

    /** The inner loop of move: the cells of column x in the order of ys. */
    method TraverseColumn(x: int, ys: seq<int>, vector: Pos, moved: bool, ghost merges: nat)
      returns (movedAfter: bool, ghost mergesAfter: nat)
      requires Valid() && Unit(vector)
      modifies this`score, this`won, this`first2048, grid, grid.cells
      ensures Valid()
      ensures Sweep(grid.model, score, won, first2048, movedAfter, mergesAfter) ==
        SweepColumn(Sweep(old(grid.model), old(score), old(won), old(first2048), moved, merges), x, ys, vector)
    {
      ghost var s := Sweep(grid.model, score, won, first2048, moved, merges);
      movedAfter, mergesAfter := moved, merges;
      var j := 0;
      while j < |ys|
        invariant 0 <= j <= |ys| && Valid()
        invariant Sweep(grid.model, score, won, first2048, movedAfter, mergesAfter) == SweepColumn(s, x, ys[..j], vector)
      {
        movedAfter, mergesAfter := VisitCell(Pos(x, ys[j]), vector, movedAfter, mergesAfter);
        assert ys[..j + 1][..j] == ys[..j];
        j := j + 1;
      }
      assert ys[..|ys|] == ys;
    }

    method Move(direction: int, draw: Draw, evilCode: nat) returns (placed: Option<Placement>)
      requires Valid() && (Terminated(State()) || 0 <= direction < 4)
      modifies this, grid, grid.cells
      ensures Valid()
      ensures (State(), placed) == MoveSpec(old(State()), direction, draw, evilCode)
    {
      if IsGameTerminated() {
        return None;
      }
      var moved := SlideTiles(direction);
      if moved {
        ghost var game := old(State());
        PreparedTiles(game.cells);
        MovedBoardNotEmpty(Sweep(Prepared(game.cells), game.score, game.won, game.first2048, false, 0),
                           game.size, GetVector(direction));
        placed := PlaceTile(draw, evilCode);
      } else {
        placed := None;
      }
    }

    /** The end of a move that moved something: a new tile, then the game-over test. */
    method PlaceTile(draw: Draw, evilCode: nat) returns (placed: Option<Placement>)
      requires Valid() && grid.size > 0
      modifies this`over, grid, grid.cells
      ensures Valid()
      ensures var (cells, p) := if evil then AddEvil(old(grid.model), evilCode) else AddRandom(old(grid.model), draw);
        grid.model == cells && placed == p && over == (old(over) || !CanMove(size, cells))
    {
      if evil {
        placed := AddEvilTile(evilCode);
      } else {
        placed := AddRandomTile(grid, draw);
      }
      var available := MovesAvailable();
      if !available {
        over := true;
      }
    }
  }

  // ---------------------------------------------------------------------
  // What move promises

  /**
   * The slide phase of a move on a board of the manager's size: the sum of
   * the values is kept; each merge removes one tile and leaves one merged
   * tile, and no merged tile is consumed by another merge; the score rises
   * by the total of the merged tiles; a slide that moved nothing leaves the
   * prepared board and the score as they were, and one that moved something
   * leaves an empty cell; the game is won, and first2048 cleared, exactly
   * when a merge produced 2048 while first2048 was set.
   */
  lemma MoveSlide(game: Game, direction: int)
    requires Square(game.cells) && Placed(game.cells) && |game.cells| == game.size && 0 <= direction < 4
    ensures var s := SlideOf(game, direction);
      GridSum(s.cells, ValueSum) == GridSum(game.cells, ValueSum) &&
      GridSum(s.cells, TileCount) == GridSum(game.cells, TileCount) - s.merges &&
      GridSum(s.cells, MergedCount) == s.merges &&
      GridSum(s.cells, MergedValueSum) == s.score - game.score &&
      (if s.moved then HasEmpty(s.cells)
       else s.cells == Prepared(game.cells) && s.score == game.score &&
            s.won == game.won && s.first2048 == game.first2048) &&
      s.first2048 == (game.first2048 && !MergedHolds(s.cells, 2048)) &&
      s.won == (game.won || (game.first2048 && MergedHolds(s.cells, 2048)))
  {
    PreparedTiles(game.cells);
    SlideSound(Sweep(Prepared(game.cells), game.score, game.won, game.first2048, false, 0), GetVector(direction));
  }

  /**
   * The outcome of move: a terminated game is returned as it was; a move that
   * slides nothing only prepares the tiles and places none; a move that
   * slides something places a tile (a random one adds exactly one tile to
   * the board) and sets over when no move is left.
   */
  lemma MoveOutcome(game: Game, direction: int, draw: Draw, evilCode: nat)
    requires Square(game.cells) && Placed(game.cells) && |game.cells| == game.size
    requires Terminated(game) || 0 <= direction < 4
    ensures var (r, placed) := MoveSpec(game, direction, draw, evilCode);
      r.size == game.size && r.keepPlaying == game.keepPlaying && r.evil == game.evil &&
      (Terminated(game) ==> r == game && placed == None) &&
      (!Terminated(game) ==>
        var s := SlideOf(game, direction);
        r.score == s.score && r.won == s.won && r.first2048 == s.first2048 &&
        (!s.moved ==> r == game.(cells := Prepared(game.cells)) && placed == None) &&
        (s.moved ==> placed.Some? && r.over == (game.over || !CanMove(game.size, r.cells))) &&
        (s.moved && !game.evil ==> GridSum(r.cells, TileCount) == GridSum(s.cells, TileCount) + 1))
  {
    if !Terminated(game) {
      MoveSlide(game, direction);
      var s := SlideOf(game, direction);
      if s.moved && !game.evil {
        AddRandomSpec(s.cells, draw);
      }
    }
  }

  // ---------------------------------------------------------------------
  // Placing tiles

  /** The value of the tile a draw places. */
  function DrawValue(draw: Draw): nat
  {
    if draw.two then 2 else 4
  }

  /** r is g with a fresh tile of the given value in the empty cell p, reported as placed there. */
  ghost predicate Fills(g: Cells, r: (Cells, Option<Placement>), p: Pos, value: nat)
    requires Square(g)
  {
    InBounds(|g|, p) && Content(g, p).None? &&
    r.0 == Put(g, p, Some(Tile(p, value, None, false))) &&
    r.1 == Some(Placement(ValueCode(value), CellIndex(p, |g|)))
  }

  /**
   * addRandomTile puts a fresh tile of the drawn value into a cell that was
   * empty and reports that cell, when there is one; otherwise it changes
   * nothing.
   */
  lemma AddRandomSpec(g: Cells, draw: Draw)
    requires Square(g) && Placed(g)
    ensures var r := AddRandom(g, draw);
      (HasEmpty(g) ==> exists p :: Fills(g, r, p, DrawValue(draw))) &&
      (!HasEmpty(g) ==> r == (g, None)) &&
      GridSum(r.0, TileCount) == GridSum(g, TileCount) + (if HasEmpty(g) then 1 else 0) &&
      GridSum(r.0, ValueSum) == GridSum(g, ValueSum) + (if HasEmpty(g) then DrawValue(draw) else 0)
  {
    EmptyCellsExist(g);
    var available := EmptyCells(g);
    if |available| > 0 {
      var p := available[draw.pick % |available|];
      assert p in available;
      var t := Tile(p, DrawValue(draw), None, false);
      assert Fills(g, AddRandom(g, draw), p, DrawValue(draw));
      GridSumPut(g, p, Some(t), TileCount);
      GridSumPut(g, p, Some(t), ValueSum);
    }
  }

  /** The cell index of an in-bounds cell, y * size + x, decodes back to that cell. */
  lemma CellIndexRoundTrip(p: Pos, n: nat)
    requires InBounds(n, p)
    ensures n > 0 && CellIndex(p, n) >= 0 && CellOf(CellIndex(p, n), n) == p
  {
    var a := CellIndex(p, n);
    DivModUnique(a, n, p.y, p.x);
  }

  lemma DivModUnique(a: int, n: int, q: int, r: int)
    requires n > 0 && 0 <= r < n && a == q * n + r
    ensures a / n == q && a % n == r
  {
    var q', r' := a / n, a % n;
    assert a == q' * n + r' && 0 <= r' < n;
    assert (q - q') * n == r' - r;
    if q > q' {
      MulAtLeast(q - q', n);
    } else if q < q' {
      MulAtLeast(q' - q, n);
    }
  }

  lemma MulAtLeast(k: int, n: int)
    requires k >= 1 && n > 0
    ensures k * n >= n
  {
  }

  /**
   * The placement addRandomTile reports decodes to the cell it filled, and its
   * value code to the value of the new tile.
   */
  lemma PlacementDecodes(g: Cells, draw: Draw)
    requires Square(g) && Placed(g) && HasEmpty(g)
    ensures var (h, placed) := AddRandom(g, draw);
      placed.Some? && |g| > 0 && placed.value.position >= 0 &&
      var p := CellOf(placed.value.position, |g|);
      InBounds(|g|, p) && Content(g, p).None? &&
      Content(h, p) == Some(Tile(p, if placed.value.value == 1 then 2 else 4, None, false))
  {
    AddRandomSpec(g, draw);
    var r := AddRandom(g, draw);
    var p :| Fills(g, r, p, DrawValue(draw));
    CellIndexRoundTrip(p, |g|);
  }

  /** The code of the worker for a tile at p: the cell index, plus 16 for a 4. */
  function EvilCode(p: Pos, n: nat, four: bool): nat
    requires InBounds(n, p)
  {
    CellIndex(p, n) + (if four then 16 else 0)
  }

  /**
   * On a board of at most 4 by 4, addEvilTile puts the tile the worker chose
   * at the cell it chose, over whatever the cell held, and reports it.
   */
  lemma EvilCodeRoundTrip(g: Cells, p: Pos, four: bool)
    requires Square(g) && Placed(g) && |g| <= 4 && InBounds(|g|, p)
    ensures |g| > 0 && AddEvil(g, EvilCode(p, |g|, four)) ==
      (Put(g, p, Some(Tile(p, if four then 4 else 2, None, false))),
       Some(Placement(if four then 2 else 1, CellIndex(p, |g|))))
  {
    var n := |g|;
    IndexBelow16(p, n);
    CellIndexRoundTrip(p, n);
  }

  lemma IndexBelow16(p: Pos, n: nat)
    requires n <= 4 && InBounds(n, p)
    ensures CellIndex(p, n) < 16
  {
    assert p.y * n <= 3 * n by {
      MulMono(p.y, 3, n);
    }
  }

  lemma MulMono(a: int, b: int, n: nat)
    requires a <= b
    ensures a * n <= b * n
  {
  }

  // ---------------------------------------------------------------------
  // Game over

  predicate Neighbours(p: Pos, q: Pos)
  {
    (p.x == q.x && (p.y - q.y == 1 || q.y - p.y == 1)) ||
    (p.y == q.y && (p.x - q.x == 1 || q.x - p.x == 1))
  }

  /** Two neighbouring tiles of equal value. */
  ghost predicate AdjacentEqual(g: Cells)
    requires Square(g)
  {
    exists p, q :: Neighbours(p, q) && Content(g, p).Some? && Content(g, q).Some? &&
      Content(g, p).value.value == Content(g, q).value.value
  }

  /** tileMatchesAvailable, on a board of the manager's size, finds exactly the equal neighbours. */
  lemma TileMatchesAdjacent(g: Cells)
    requires Square(g)
    ensures TileMatches(|g|, g) <==> AdjacentEqual(g)
  {
    if TileMatches(|g|, g) {
      var x, y, d :| 0 <= x < |g| && 0 <= y < |g| && 0 <= d < 4 && MatchAt(g, Pos(x, y), d);
      MatchIsAdjacent(g, Pos(x, y), d);
    }
    if AdjacentEqual(g) {
      var p, q :| Neighbours(p, q) && Content(g, p).Some? && Content(g, q).Some? &&
        Content(g, p).value.value == Content(g, q).value.value;
      AdjacentIsMatch(g, p, q);
    }
  }

  lemma MatchIsAdjacent(g: Cells, p: Pos, d: int)
    requires Square(g) && 0 <= d < 4 && MatchAt(g, p, d)
    ensures AdjacentEqual(g)
  {
    assert Neighbours(p, Step(p, GetVector(d)));
  }

  lemma AdjacentIsMatch(g: Cells, p: Pos, q: Pos)
    requires Square(g) && Neighbours(p, q) && Content(g, p).Some? && Content(g, q).Some?
    requires Content(g, p).value.value == Content(g, q).value.value
    ensures TileMatches(|g|, g)
  {
    var d := if q == Pos(p.x, p.y - 1) then 0 else if q == Pos(p.x - 1, p.y) then 1
             else if q == Pos(p.x, p.y + 1) then 2 else 3;
    assert Step(p, GetVector(d)) == q;
    assert InBounds(|g|, p);
    assert MatchAt(g, Pos(p.x, p.y), d);
  }

  /** A full board without equal neighbours. */
  ghost predicate Stuck(g: Cells)
    requires Square(g)
  {
    !HasEmpty(g) && !AdjacentEqual(g)
  }

  /** On a stuck board, visiting a cell changes nothing. */
  lemma StuckVisit(s: Sweep, cell: Pos, v: Pos)
    requires Square(s.cells) && Placed(s.cells) && Unit(v) && Stuck(s.cells)
    ensures Visit(s, cell, v) == s
  {
    if Content(s.cells, cell).Some? {
      var tile := Content(s.cells, cell).value;
      FarthestSpec(s.cells, cell, v);
      var (farthest, next) := Farthest(s.cells, cell, v);
      assert farthest == cell;
      if Content(s.cells, next).Some? {
        assert Neighbours(cell, next);
      }
      SameCells(Relocated(s.cells, tile, cell), s.cells);
    }
  }

  lemma {:induction false} StuckColumn(s: Sweep, x: int, ys: seq<int>, v: Pos)
    requires Square(s.cells) && Placed(s.cells) && Unit(v) && Stuck(s.cells)
    ensures SweepColumn(s, x, ys, v) == s
    decreases |ys|
  {
    if ys != [] {
      StuckColumn(s, x, ys[..|ys| - 1], v);
      StuckVisit(s, Pos(x, ys[|ys| - 1]), v);
    }
  }

  lemma {:induction false} StuckSweep(s: Sweep, xs: seq<int>, ys: seq<int>, v: Pos)
    requires Square(s.cells) && Placed(s.cells) && Unit(v) && Stuck(s.cells)
    ensures SweepGrid(s, xs, ys, v) == s
    decreases |xs|
  {
    if xs != [] {
      StuckSweep(s, xs[..|xs| - 1], ys, v);
      StuckColumn(s, xs[|xs| - 1], ys, v);
    }
  }

  /**
   * movesAvailable is a sound test for the end of the game: on a board of the
   * manager's size where it fails, a move in any direction slides and merges
   * nothing.
   */
  lemma NoMovesLeft(game: Game, direction: int)
    requires Square(game.cells) && Placed(game.cells) && |game.cells| == game.size && 0 <= direction < 4
    requires !CanMove(game.size, game.cells)
    ensures var s := SlideOf(game, direction);
      !s.moved && s.cells == Prepared(game.cells) && s.score == game.score && s.won == game.won
  {
    var g := game.cells;
    TileMatchesAdjacent(g);
    PreparedTiles(g);
    var h := Prepared(g);
    assert !HasEmpty(h) by {
      forall p | InBounds(|h|, p)
        ensures Content(h, p).Some?
      {
        assert Content(g, p).Some?;
      }
    }
    assert !AdjacentEqual(h) by {
      forall p, q | Neighbours(p, q) && Content(h, p).Some? && Content(h, q).Some?
        ensures Content(h, p).value.value != Content(h, q).value.value
      {
        assert Content(g, p).Some? && Content(g, q).Some?;
      }
    }
    var v := GetVector(direction);
    var (xs, ys) := Traversals(game.size, v);
    StuckSweep(Sweep(h, game.score, game.won, game.first2048, false, 0), xs, ys, v);
  }

  // ---------------------------------------------------------------------
  // Setup

  /** A new game on a board of at least 2 by 2 starts with two tiles, no score, and is not over. */
  lemma NewGame(size: nat, draws: seq<Draw>)
    requires size >= 2 && |draws| == StartTiles
    ensures var game := Initial(size, None, draws);
      GridSum(game.cells, TileCount) == StartTiles && game.score == 0 &&
      !Terminated(game) && game.first2048 && !game.evil
  {
    StartTileCount(size, draws);
  }

  /** Two draws on an empty board of at least two cells place two tiles. */
  lemma StartTileCount(size: nat, draws: seq<Draw>)
    requires size >= 2 && |draws| == 2
    ensures GridSum(StartCells(EmptyGrid(size), draws), TileCount) == 2
  {
    var e := EmptyGrid(size);
    GridSumZero(e, TileCount);
    assert InBounds(size, Pos(0, 0)) && Content(e, Pos(0, 0)).None?;
    OneMoreTile(e, draws[0]);
    RoomAfterFirstDraw(size, draws[0]);
    OneMoreTile(AddRandom(e, draws[0]).0, draws[1]);
    TwoDraws(e, draws);
  }

  /** A draw on a board with a free cell adds one tile. */
  lemma OneMoreTile(g: Cells, draw: Draw)
    requires Square(g) && Placed(g) && HasEmpty(g)
    ensures GridSum(AddRandom(g, draw).0, TileCount) == GridSum(g, TileCount) + 1
  {
    AddRandomSpec(g, draw);
  }

  /** A board of at least two cells still has a free cell after the first draw. */
  lemma RoomAfterFirstDraw(size: nat, draw: Draw)
    requires size >= 2
    ensures HasEmpty(AddRandom(EmptyGrid(size), draw).0)
  {
    var e := EmptyGrid(size);
    assert Content(e, Pos(0, 0)).None?;
    AddRandomSpec(e, draw);
    var p :| Fills(e, AddRandom(e, draw), p, DrawValue(draw));
    var q := if p == Pos(0, 0) then Pos(1, 0) else Pos(0, 0);
    assert InBounds(size, q) && Content(AddRandom(e, draw).0, q).None?;
  }

  lemma TwoDraws(g: Cells, draws: seq<Draw>)
    requires Square(g) && Placed(g) && |draws| == 2
    ensures StartCells(g, draws) == AddRandom(AddRandom(g, draws[0]).0, draws[1]).0
  {
    var g1 := AddRandom(g, draws[0]).0;
    assert draws[1..][1..] == [];
    assert StartCells(g1, draws[1..]) == StartCells(AddRandom(g1, draws[1]).0, []);
  }

  /**
   * A reloaded game keeps the saved score and flags, and is set to announce
   * a win on the first 2048 exactly when no saved cell holds 2048.
   */
  lemma ReloadedGame(size: nat, state: Saved, draws: seq<Draw>)
    requires SavedShape(state.size, state.cells)
    ensures var game := Initial(size, Some(state), draws);
      |game.cells| == state.size && game.score == state.score && game.over == state.over &&
      game.won == state.won && game.keepPlaying == state.keepPlaying && !game.evil &&
      (game.first2048 <==>
        forall x, y :: 0 <= x < state.size && 0 <= y < state.size ==> state.cells[x][y] != Some(2048))
  {
    var g := Restored(state.cells);
    if Holds2048(g) {
      var x, y :| 0 <= x < |g| && 0 <= y < |g| && g[x][y].Some? && g[x][y].value.value == 2048;
      assert Content(g, Pos(x, y)) == g[x][y];
    } else {
      forall x, y | 0 <= x < state.size && 0 <= y < state.size
        ensures state.cells[x][y] != Some(2048)
      {
        assert Content(g, Pos(x, y)) == g[x][y];
      }
    }
  }
}
