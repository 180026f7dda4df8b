/**
 * The bit-packed 4x4 board of the search engine (cpp/2048.cpp, cpp/2048.hpp:9-16).
 *
 * A board is one 64-bit word: cell p = 4 * row + column (0..15) holds the base-2
 * logarithm of its tile in bits 4p..4p+3, 0 meaning empty, so the board is stored
 * row by row from the least significant bits.  Whole-board slides combine the
 * row rule of RowRule (one 16-bit row at a time) with a nibble transpose.
 *
 * Cell, row and column indices are 8-bit values below 16 (resp. 4); the engine
 * passes them as C++ ints in that range.
 */
module BitBoard {
  import opened RowRule

  // ---------------------------------------------------------------------------
  // Cells

  /** getTile (cpp/2048.cpp:206-208): the nibble of cell p. */
  function GetTile(board: Board, p: bv8): bv4
    requires p < 16
  {
    ((board >> (4 * p)) & 0xF) as bv4
  }

  /** setTile (cpp/2048.cpp:198-204): ORs the tile code into the nibble of cell p. */
  function SetTile(board: Board, p: bv8, tile: bv4): Board
    requires p < 16
  {
    board | ((tile as Board) << (4 * p))
  }

  lemma SetTileSame(board: Board, p: bv8, tile: bv4)
    requires p < 16
    ensures GetTile(SetTile(board, p, tile), p) == GetTile(board, p) | tile
  {
    var t := tile as Board;
    ShiftOrRight(board, t << (4 * p), p);
    ShiftBack(t, 4 * p);
    assert ((board >> (4 * p)) | t) & 0xF == ((board >> (4 * p)) & 0xF) | t;
  }

  /** Shifting a cell down distributes over OR. */
  lemma ShiftOrRight(a: Board, b: Board, p: bv8)
    requires p < 16
    ensures (a | b) >> (4 * p) == (a >> (4 * p)) | (b >> (4 * p))
  {
    if p == 0 {} else if p == 1 {} else if p == 2 {} else if p == 3 {}
    else if p == 4 {} else if p == 5 {} else if p == 6 {} else if p == 7 {}
    else if p == 8 {} else if p == 9 {} else if p == 10 {} else if p == 11 {}
    else if p == 12 {} else if p == 13 {} else if p == 14 {} else {}
  }

  lemma ShiftBack(t: Board, k: bv8)
    requires t < 16 && k <= 60
    ensures (t << k) >> k == t
  {
  }

  lemma SetTileOther(board: Board, p: bv8, tile: bv4, q: bv8)
    requires p < 16 && q < 16 && q != p
    ensures GetTile(SetTile(board, p, tile), q) == GetTile(board, q)
  {
  }

  /**
   * setTile writes the tile into its own cell and leaves the other fifteen cells
   * as they were; on a blank cell, getTile then reads back exactly the tile.
   */
  lemma SetTileGetTile(board: Board, p: bv8, tile: bv4, q: bv8)
    requires p < 16 && q < 16
    ensures q != p ==> GetTile(SetTile(board, p, tile), q) == GetTile(board, q)
    ensures GetTile(SetTile(board, p, tile), p) == GetTile(board, p) | tile
    ensures GetTile(board, p) == 0 ==> GetTile(SetTile(board, p, tile), p) == tile
  {
    SetTileSame(board, p, tile);
    if q != p {
      SetTileOther(board, p, tile, q);
    }
  }

  // ---------------------------------------------------------------------------
  // createBoard

  function Pow2(k: nat): (v: nat)
    ensures v >= 1
  {
    if k == 0 then 1 else 2 * Pow2(k - 1)
  }

  lemma {:induction false} Pow2Add(a: nat, b: nat)
    ensures Pow2(a + b) == Pow2(a) * Pow2(b)
  {
    if a > 0 {
      Pow2Add(a - 1, b);
    }
  }

  lemma {:induction false} Pow2Monotone(a: nat, b: nat)
    requires a <= b
    ensures Pow2(a) <= Pow2(b)
  {
    if a < b {
      Pow2Monotone(a, b - 1);
    }
  }

  lemma Pow2Constants()
    ensures Pow2(15) == 0x8000 && Pow2(16) == 0x1_0000
  {
    assert Pow2(5) == 32;
    Pow2Add(5, 5);
    Pow2Add(10, 5);
    Pow2Add(15, 1);
  }

  /**
   * std::countr_zero: the number of trailing zero bits of a positive number, as
   * the 64-bit word createBoard ORs in.
   */
  function CountrZero(d: nat): Board
    requires d > 0
  {
    if d % 2 == 1 then 0 else 1 + CountrZero(d / 2)
  }

  /** The bits createBoard ORs in for one cell value, the int read as a 32-bit unsigned. */
  function Digit(value: int): Board
  {
    var digit := value % 0x1_0000_0000;
    if digit == 0 then 0 else CountrZero(digit)
  }

  /** The word createBoard accumulates from the cells, the last cell in the top bits. */
  function Compressed(cells: seq<int>): Board
  {
    if cells == [] then 0 else Pushed(Compressed(cells[1..]), Digit(cells[0]))
  }

  /** One createBoard step: the word moves up one nibble and the digit is ORed in. */
  function Pushed(b: Board, digit: Board): Board
  {
    (b << 4) | digit
  }

  /**
   * createBoard (cpp/2048.cpp:31-42): walks the cells from the last to the first,
   * shifting the word left by one nibble and ORing in the trailing-zero count of
   * each non-zero value.
   */
  method CreateBoard(board: seq<int>) returns (b: Board)
    requires |board| == 16
    ensures b == Compressed(board)
  {
    b := 0;
    var k := |board|;
    while k > 0
      invariant 0 <= k <= |board|
      invariant b == Compressed(board[k..])
    {
      k := k - 1;
      PushDigit(board[k..], b);
      var digit := board[k] % 0x1_0000_0000;
      if digit == 0 {
        b := b << 4;
      } else {
        b := (b << 4) | CountrZero(digit);
      }
    }
  }

  /** One step of createBoard: the word for the remaining cells, pushed up one nibble. */
  lemma PushDigit(cells: seq<int>, b: Board)
    requires cells != [] && b == Compressed(cells[1..])
    ensures cells[0] % 0x1_0000_0000 == 0 ==> b << 4 == Compressed(cells)
    ensures cells[0] % 0x1_0000_0000 != 0 ==> (b << 4) | CountrZero(cells[0] % 0x1_0000_0000) == Compressed(cells)
  {
  }

  /** The tile value a cell code stands for: 0 for an empty cell, 2^k otherwise. */
  function TileValue(k: bv4): nat
  {
    if k == 0 then 0 else Pow2(k as nat)
  }

  lemma {:induction false} CountrZeroOfPower(k: bv4)
    ensures CountrZero(Pow2(k as nat)) == k as Board
  {
    if k > 0 {
      var m := Pow2((k - 1) as nat);
      assert (k - 1) as nat == k as nat - 1;
      assert Pow2(k as nat) == 2 * m;
      CountrZeroOfPower(k - 1);
      CountrZeroDouble(m);
      var c := CountrZero(m);
      assert c == (k - 1) as Board;
      WidenStep(k);
      assert CountrZero(Pow2(k as nat)) == 1 + c;
    } else {
      assert Pow2(k as nat) == 1;
    }
  }

  lemma CountrZeroDouble(m: nat)
    requires m > 0
    ensures CountrZero(2 * m) == 1 + CountrZero(m)
  {
    assert (2 * m) % 2 == 0 && (2 * m) / 2 == m;
  }

  lemma WidenStep(k: bv4)
    requires k > 0
    ensures 1 + ((k - 1) as Board) == k as Board
  {
  }

  lemma DigitOfTile(k: bv4)
    ensures Digit(TileValue(k)) == k as Board
  {
    if k != 0 {
      var v := Pow2(k as nat);
      assert v < 0x1_0000_0000 by {
        Pow2Monotone(k as nat, 15);
        Pow2Constants();
      }
      DigitOfSmall(v);
      CountrZeroOfPower(k);
    }
  }

  /** A positive value that fits 32 bits contributes its trailing-zero count. */
  lemma DigitOfSmall(v: nat)
    requires 0 < v < 0x1_0000_0000
    ensures Digit(v) == CountrZero(v)
  {
    assert v % 0x1_0000_0000 == v;
  }

  lemma ShiftedCell(x: Board, d: Board, p: bv8)
    requires d < 16 && p < 16
    ensures GetTile(Pushed(x, d), p) == if p == 0 then d as bv4 else GetTile(x, p - 1)
  {
  }

  /**
   * For a board of tiles 0 or 2^1 .. 2^15, cell p of the created word holds the
   * base-2 logarithm of board[p] (0 for an empty cell); cell 0 is the lowest nibble.
   */
  lemma {:induction false} CompressedCells(board: seq<int>, codes: seq<bv4>, p: bv8)
    requires |board| == |codes| <= 16 && (p as int) < |board|
    requires forall i :: 0 <= i < |board| ==> board[i] == TileValue(codes[i])
    ensures GetTile(Compressed(board), p) == codes[p]
  {
    DigitOfTile(codes[0]);
    ShiftedCell(Compressed(board[1..]), Digit(board[0]), p);
    if p > 0 {
      CompressedCells(board[1..], codes[1..], p - 1);
      assert codes[1..][p - 1] == codes[p];
    }
  }

  lemma CountrZeroOf65536()
    ensures CountrZero(65536) == 16
  {
    Pow2Constants();
    CountrZeroOfPower(0xF);
    assert CountrZero(0x1_0000) == 1 + CountrZero(0x8000);
  }

  /**
   * A value above 2^15 does not fit its nibble: one createBoard step for 65536
   * leaves its own cell empty and ORs a 1 (a tile 2) into the cell after it.
   */
  lemma DigitOverflow(x: Board)
    ensures Digit(65536) == 16
    ensures GetTile(Pushed(x, Digit(65536)), 0) == 0
    ensures GetTile(Pushed(x, Digit(65536)), 1) == GetTile(x, 0) | 1
  {
    CountrZeroOf65536();
    DigitOfSmall(65536);
    SpilledCells(x);
  }

  lemma SpilledCells(x: Board)
    ensures GetTile(Pushed(x, 16), 0) == 0
    ensures GetTile(Pushed(x, 16), 1) == GetTile(x, 0) | 1
  {
  }

  // ---------------------------------------------------------------------------
  // Transpose

  /** transpose (cpp/2048.cpp:69-79): the nibble at (row r, column c) moves to (c, r). */
  function Transpose(board: Board): Board
  {
    (board & 0xF0000F0000F0000F)
    | ((board & 0x0000F0000F0000F0) << 12)
    | ((board & 0x00000000F0000F00) << 24)
    | ((board & 0x000000000000F000) << 36)
    | ((board & 0x0F0000F0000F0000) >> 12)
    | ((board & 0x00F0000F00000000) >> 24)
    | ((board & 0x000F000000000000) >> 36)
  }

  /** Transpose moves the tile at (row r, column c) to (row c, column r). */
  lemma TransposeCell(board: Board, r: bv8, c: bv8)
    requires r < 4 && c < 4
    ensures GetTile(Transpose(board), 4 * c + r) == GetTile(board, 4 * r + c)
  {
  }

  /** Transposing twice gives the board back. */
  lemma TransposeInvolution(board: Board)
    ensures Transpose(Transpose(board)) == board
  {
  }

  // ---------------------------------------------------------------------------
  // Whole-board slides

  /** The 16-bit row r of a board, row 0 in the lowest bits. */
  function RowOf(board: Board, r: bv8): Row
    requires r < 4
  {
    if r == 0 then (board & 0xFFFF) as Row
    else if r == 1 then ((board >> 16) & 0xFFFF) as Row
    else if r == 2 then ((board >> 32) & 0xFFFF) as Row
    else ((board >> 48) & 0xFFFF) as Row
  }

  /** The board made of four 16-bit rows, row 0 in the lowest bits. */
  function Rows(l0: Row, l1: Row, l2: Row, l3: Row): Board
  {
    (l0 as Board) | ((l1 as Board) << 16) | ((l2 as Board) << 32) | ((l3 as Board) << 48)
  }

  /** The board whose column k holds the 64-bit column value ck (each a column at column 0). */
  function Columns(c0: Board, c1: Board, c2: Board, c3: Board): Board
  {
    c0 | (c1 << 4) | (c2 << 8) | (c3 << 12)
  }

  /** slideLeft (cpp/2048.cpp:170-175): every row through leftSlides. */
  function SlideLeft(board: Board): Board
  {
    Rows(LeftSlides(RowOf(board, 0)), LeftSlides(RowOf(board, 1)),
         LeftSlides(RowOf(board, 2)), LeftSlides(RowOf(board, 3)))
  }

  /** slideRight (cpp/2048.cpp:177-182): every row through rightSlides. */
  function SlideRight(board: Board): Board
  {
    Rows(RightSlides(RowOf(board, 0)), RightSlides(RowOf(board, 1)),
         RightSlides(RowOf(board, 2)), RightSlides(RowOf(board, 3)))
  }

  /**
   * slideUp (cpp/2048.cpp:184-189): row k of the transpose (column k of the board)
   * goes through upSlides, which returns it as a column; it is shifted to column k.
   */
  function SlideUp(board: Board): Board
  {
    var t := Transpose(board);
    Columns(UpSlides(RowOf(t, 0)), UpSlides(RowOf(t, 1)), UpSlides(RowOf(t, 2)), UpSlides(RowOf(t, 3)))
  }

  /** slideDown (cpp/2048.cpp:191-196): as slideUp, through downSlides. */
  function SlideDown(board: Board): Board
  {
    var t := Transpose(board);
    Columns(DownSlides(RowOf(t, 0)), DownSlides(RowOf(t, 1)), DownSlides(RowOf(t, 2)), DownSlides(RowOf(t, 3)))
  }

  /** slide (cpp/2048.cpp:234-239): 0 up, 1 left, 2 down, anything else right. */
  function Slide(board: Board, direction: int): Board
  {
    if direction == 0 then SlideUp(board)
    else if direction == 1 then SlideLeft(board)
    else if direction == 2 then SlideDown(board)
    else SlideRight(board)
  }

  lemma RowOfRows(l0: Row, l1: Row, l2: Row, l3: Row)
    ensures RowOf(Rows(l0, l1, l2, l3), 0) == l0
    ensures RowOf(Rows(l0, l1, l2, l3), 1) == l1
    ensures RowOf(Rows(l0, l1, l2, l3), 2) == l2
    ensures RowOf(Rows(l0, l1, l2, l3), 3) == l3
  {
  }

  /** Row r of slideLeft(board) depends only on row r of board. */
  lemma SlideLeftRowwise(board: Board, r: bv8)
    requires r < 4
    ensures RowOf(SlideLeft(board), r) == LeftSlides(RowOf(board, r))
  {
    RowOfRows(LeftSlides(RowOf(board, 0)), LeftSlides(RowOf(board, 1)),
              LeftSlides(RowOf(board, 2)), LeftSlides(RowOf(board, 3)));
  }

  /** Row r of slideRight(board) depends only on row r of board. */
  lemma SlideRightRowwise(board: Board, r: bv8)
    requires r < 4
    ensures RowOf(SlideRight(board), r) == RightSlides(RowOf(board, r))
  {
    RowOfRows(RightSlides(RowOf(board, 0)), RightSlides(RowOf(board, 1)),
              RightSlides(RowOf(board, 2)), RightSlides(RowOf(board, 3)));
  }

  lemma ColumnsTranspose(l0: Row, l1: Row, l2: Row, l3: Row)
    ensures Columns(Column(Unpack(l0)), Column(Unpack(l1)), Column(Unpack(l2)), Column(Unpack(l3)))
            == Transpose(Rows(l0, l1, l2, l3))
  {
  }

  /** slideUp is slideLeft seen through the transpose. */
  lemma SlideUpIsTransposedLeft(board: Board)
    ensures SlideUp(board) == Transpose(SlideLeft(Transpose(board)))
  {
    var t := Transpose(board);
    var s0, s1, s2, s3 := RowOf(t, 0), RowOf(t, 1), RowOf(t, 2), RowOf(t, 3);
    UpSlidesIsLeftColumn(s0);
    UpSlidesIsLeftColumn(s1);
    UpSlidesIsLeftColumn(s2);
    UpSlidesIsLeftColumn(s3);
    ColumnsTranspose(LeftSlides(s0), LeftSlides(s1), LeftSlides(s2), LeftSlides(s3));
  }

  /** slideDown is slideRight seen through the transpose. */
  lemma SlideDownIsTransposedRight(board: Board)
    ensures SlideDown(board) == Transpose(SlideRight(Transpose(board)))
  {
    var t := Transpose(board);
    var s0, s1, s2, s3 := RowOf(t, 0), RowOf(t, 1), RowOf(t, 2), RowOf(t, 3);
    ColumnsTranspose(RightSlides(s0), RightSlides(s1), RightSlides(s2), RightSlides(s3));
  }

  /** The vertical directions of slide are the horizontal ones through the transpose. */
  lemma SlideDirections(board: Board, direction: int)
    ensures Slide(board, 0) == Transpose(Slide(Transpose(board), 1))
    ensures Slide(board, 2) == Transpose(Slide(Transpose(board), 3))
    ensures direction !in {0, 1, 2} ==> Slide(board, direction) == SlideRight(board)
  {
    SlideUpIsTransposedLeft(board);
    SlideDownIsTransposedRight(board);
  }

  // ---------------------------------------------------------------------------
  // The slides cell by cell

  /** The four tiles of row r, column 0 first. */
  function RowTiles(board: Board, r: bv8): (row: seq<bv4>)
    requires r < 4
    ensures |row| == 4
  {
    [GetTile(board, 4 * r), GetTile(board, 4 * r + 1), GetTile(board, 4 * r + 2), GetTile(board, 4 * r + 3)]
  }

  /** The four tiles of column c, row 0 first. */
  function ColumnTiles(board: Board, c: bv8): (column: seq<bv4>)
    requires c < 4
    ensures |column| == 4
  {
    [GetTile(board, c), GetTile(board, 4 + c), GetTile(board, 8 + c), GetTile(board, 12 + c)]
  }

  lemma UnpackRow(board: Board, r: bv8)
    requires r < 4
    ensures Unpack(RowOf(board, r)) == RowTiles(board, r)
  {
    if r == 0 {} else if r == 1 {} else if r == 2 {} else {}
  }

  /** Row r of slideLeft holds the row rule applied to row r. */
  lemma SlideLeftCells(board: Board, r: bv8)
    requires r < 4
    ensures RowTiles(SlideLeft(board), r) == Collapse(RowTiles(board, r))
  {
    SlideLeftRowwise(board, r);
    UnpackRow(board, r);
    UnpackRow(SlideLeft(board), r);
    UnpackPack(Collapse(RowTiles(board, r)));
  }

  /** Row r of slideRight holds the mirrored row rule applied to row r. */
  lemma SlideRightCells(board: Board, r: bv8)
    requires r < 4
    ensures RowTiles(SlideRight(board), r) == Reversed(Collapse(Reversed(RowTiles(board, r))))
  {
    var row := RowOf(board, r);
    SlideRightRowwise(board, r);
    UnpackRow(board, r);
    UnpackRow(SlideRight(board), r);
    UnpackPack(Reversed(Unpack(row)));
    UnpackPack(Collapse(Reversed(Unpack(row))));
    UnpackPack(Reversed(Collapse(Reversed(Unpack(row)))));
    assert ReverseRow(row) == Pack(Reversed(Unpack(row)));
    assert LeftSlides(ReverseRow(row)) == Pack(Collapse(Reversed(Unpack(row))));
  }

  lemma TransposedTiles(board: Board, c: bv8)
    requires c < 4
    ensures RowTiles(Transpose(board), c) == ColumnTiles(board, c)
  {
    TransposeCell(board, 0, c);
    TransposeCell(board, 1, c);
    TransposeCell(board, 2, c);
    TransposeCell(board, 3, c);
  }

  lemma TransposedColumns(board: Board, c: bv8)
    requires c < 4
    ensures ColumnTiles(Transpose(board), c) == RowTiles(board, c)
  {
    TransposeInvolution(board);
    TransposedTiles(Transpose(board), c);
  }

  /** Column c of slideUp holds the row rule applied to column c, row 0 first. */
  lemma SlideUpCells(board: Board, c: bv8)
    requires c < 4
    ensures ColumnTiles(SlideUp(board), c) == Collapse(ColumnTiles(board, c))
  {
    SlideUpIsTransposedLeft(board);
    TransposedColumns(SlideLeft(Transpose(board)), c);
    SlideLeftCells(Transpose(board), c);
    TransposedTiles(board, c);
  }

  /** Column c of slideDown holds the mirrored row rule applied to column c. */
  lemma SlideDownCells(board: Board, c: bv8)
    requires c < 4
    ensures ColumnTiles(SlideDown(board), c) == Reversed(Collapse(Reversed(ColumnTiles(board, c))))
  {
    SlideDownIsTransposedRight(board);
    TransposedColumns(SlideRight(Transpose(board)), c);
    SlideRightCells(Transpose(board), c);
    TransposedTiles(board, c);
  }
}
