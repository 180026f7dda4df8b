/**
 * The per-row slide rule of the bit-packed 2048 board (cpp/2048.cpp, initTables).
 *
 * A row is a 16-bit word holding four 4-bit tiles; tile k sits in bits 4k..4k+3,
 * so tile 0 is the lowest nibble ("left").  A tile is the base-2 logarithm of its
 * value, 0 meaning an empty cell.  initTables runs the same in-place loop over a
 * decompressed row for every one of the 65536 row words and stores the outcome in
 * four lookup tables; here the loop is the method SlideRowLeft, and each table is
 * the function it memoises (LeftSlides, RightSlides, UpSlides, DownSlides).
 */
module RowRule {

  type Row = bv16
  type Board = bv64

  /** The four tiles of a row word, lowest nibble first (cpp/2048.cpp:122-127). */
  function Unpack(s: Row): (row: seq<bv4>)
    ensures |row| == 4
  {
    [(s & 0xF) as bv4, ((s >> 4) & 0xF) as bv4, ((s >> 8) & 0xF) as bv4, ((s >> 12) & 0xF) as bv4]
  }

  /** Compresses four tiles into a row word, tile 0 in the lowest nibble (cpp/2048.cpp:159). */
  function Pack(row: seq<bv4>): Row
    requires |row| == 4
  {
    (row[0] as Row) | ((row[1] as Row) << 4) | ((row[2] as Row) << 8) | ((row[3] as Row) << 12)
  }

  /** The row word read from the other end (cpp/2048.cpp:129). */
  function ReverseRow(s: Row): Row
  {
    var row := Unpack(s);
    Pack([row[3], row[2], row[1], row[0]])
  }

  /** Spreads four tiles down a column: tile k goes to bits 16k..16k+3 (cpp/2048.cpp:163-166). */
  function Column(row: seq<bv4>): Board
    requires |row| == 4
  {
    (row[0] as Board) | ((row[1] as Board) << 16) | ((row[2] as Board) << 32) | ((row[3] as Board) << 48)
  }

  function Reversed(row: seq<bv4>): (r: seq<bv4>)
    requires |row| == 4
    ensures |r| == 4
  {
    [row[3], row[2], row[1], row[0]]
  }

  lemma PackUnpack(s: Row)
    ensures Pack(Unpack(s)) == s
  {
  }

  lemma UnpackPack(row: seq<bv4>)
    requires |row| == 4
    ensures Unpack(Pack(row)) == row
  {
    NibblesOfPack(row[0], row[1], row[2], row[3]);
    assert row == [row[0], row[1], row[2], row[3]];
  }

  lemma NibblesOfPack(a: bv4, b: bv4, c: bv4, d: bv4)
    ensures var w := (a as Row) | ((b as Row) << 4) | ((c as Row) << 8) | ((d as Row) << 12);
      (w & 0xF) as bv4 == a && ((w >> 4) & 0xF) as bv4 == b &&
      ((w >> 8) & 0xF) as bv4 == c && ((w >> 12) & 0xF) as bv4 == d
  {
  }

  lemma ReverseRowPacks(row: seq<bv4>)
    requires |row| == 4
    ensures ReverseRow(Pack(row)) == Pack(Reversed(row))
  {
    UnpackPack(row);
  }

  /** Reversing a row twice gives the row back. */
  lemma ReverseRowInvolution(s: Row)
    ensures ReverseRow(ReverseRow(s)) == s
  {
  }

  // ---------------------------------------------------------------------------
  // The reference definition of the row rule

  /** A merged pair gains one power of two, except that 0xF (32768) stays 0xF. */
  function Promote(t: bv4): bv4
  {
    if t != 0xF then t + 1 else t
  }

  function Zeros(n: nat): (z: seq<bv4>)
    ensures |z| == n && forall i :: 0 <= i < n ==> z[i] == 0
  {
    if n == 0 then [] else [0] + Zeros(n - 1)
  }

  /** The non-empty tiles of a row, in their order. */
  function NonZero(row: seq<bv4>): (tiles: seq<bv4>)
    ensures |tiles| <= |row|
    ensures forall i :: 0 <= i < |tiles| ==> tiles[i] != 0
  {
    if row == [] then []
    else if row[0] == 0 then NonZero(row[1..])
    else [row[0]] + NonZero(row[1..])
  }

  /**
   * Merges equal neighbours pairwise from the low end: the first two equal tiles
   * become one promoted tile, and that tile takes part in no further merge.
   */
  function Merge(tiles: seq<bv4>): (merged: seq<bv4>)
    ensures |merged| <= |tiles|
    ensures (forall i :: 0 <= i < |tiles| ==> tiles[i] != 0) ==>
              forall i :: 0 <= i < |merged| ==> merged[i] != 0
  {
    if |tiles| < 2 then tiles
    else if tiles[0] == tiles[1] then [Promote(tiles[0])] + Merge(tiles[2..])
    else [tiles[0]] + Merge(tiles[1..])
  }

  /** A row slid towards its low end: merged tiles first, then empty cells. */
  function Collapse(row: seq<bv4>): (r: seq<bv4>)
    ensures |r| == |row|
  {
    var m := Merge(NonZero(row));
    m + Zeros(|row| - |m|)
  }

  // ---------------------------------------------------------------------------
  // Lemmas that drive the loop of SlideRowLeft

  lemma {:induction false} NonZeroSkipsZeros(t: seq<bv4>, a: nat, b: nat)
    requires a <= b <= |t|
    requires forall k :: a <= k < b ==> t[k] == 0
    ensures NonZero(t[a..]) == NonZero(t[b..])
    decreases b - a
  {
    if a < b {
      assert t[a..][1..] == t[a + 1..];
      NonZeroSkipsZeros(t, a + 1, b);
    }
  }

  lemma NonZeroOfZeros(n: nat)
    ensures NonZero(Zeros(n)) == []
  {
    NonZeroSkipsZeros(Zeros(n), 0, n);
    assert Zeros(n)[0..] == Zeros(n);
  }

  /** The tile at the front is final: nothing behind it merges into it. */
  lemma CollapseKeepsHead(t: seq<bv4>)
    requires |t| >= 1
    requires t[0] == 0 ==> NonZero(t[1..]) == []
    requires t[0] != 0 && NonZero(t[1..]) != [] ==> NonZero(t[1..])[0] != t[0]
    ensures Collapse(t) == [t[0]] + Collapse(t[1..])
  {
    var rest := NonZero(t[1..]);
    if t[0] == 0 {
      assert NonZero(t) == [];
      assert Zeros(|t|) == [0] + Zeros(|t| - 1);
    } else {
      assert NonZero(t) == [t[0]] + rest;
      if rest == [] {
        assert Merge(NonZero(t)) == [t[0]];
      } else {
        assert ([t[0]] + rest)[1..] == rest;
        assert Merge(NonZero(t)) == [t[0]] + Merge(rest);
      }
    }
  }

  /** The front tile and the next tile, equal, merge into one promoted tile. */
  lemma CollapseMergesHead(t: seq<bv4>, j: nat)
    requires 0 < j < |t| && t[0] != 0 && t[j] == t[0]
    requires forall k :: 0 < k < j ==> t[k] == 0
    ensures Collapse(t) == [Promote(t[0])] + Collapse(t[j := 0][1..])
  {
    var u := t[j := 0][1..];
    NonZeroSkipsZeros(t, 1, j);
    assert t[j..][1..] == t[j + 1..];
    assert NonZero(t[1..]) == [t[j]] + NonZero(t[j + 1..]);
    assert NonZero(t) == [t[0], t[0]] + NonZero(t[j + 1..]);
    assert [t[0], t[0]] + NonZero(t[j + 1..]) == [t[0]] + ([t[0]] + NonZero(t[j + 1..]));
    NonZeroSkipsZeros(u, 0, j);
    assert u[j..] == t[j + 1..];
    assert u[0..] == u;
    assert NonZero(u) == NonZero(t[j + 1..]);
    assert (NonZero(t))[2..] == NonZero(t[j + 1..]);
  }

  /** Pulling the next tile into an empty front cell does not change the outcome. */
  lemma CollapsePullsTile(t: seq<bv4>, j: nat)
    requires 0 < j < |t| && t[0] == 0 && t[j] != 0
    requires forall k :: 0 < k < j ==> t[k] == 0
    ensures Collapse(t[0 := t[j]][j := 0]) == Collapse(t)
  {
    var u := t[0 := t[j]][j := 0];
    NonZeroSkipsZeros(t, 0, j);
    assert t[0..] == t;
    assert t[j..][1..] == t[j + 1..];
    assert NonZero(t) == [t[j]] + NonZero(t[j + 1..]);
    NonZeroSkipsZeros(u, 1, j + 1);
    assert u[j + 1..] == t[j + 1..];
    assert NonZero(u) == [t[j]] + NonZero(u[1..]);
  }

  lemma CollapseOfZeros(n: nat)
    ensures Collapse(Zeros(n)) == Zeros(n)
  {
    NonZeroOfZeros(n);
  }

  /** Loop step: an empty cell i takes over the next tile j. */
  lemma PullStep(row: seq<bv4>, i: nat, j: nat)
    requires i < j < |row| && row[i] == 0 && row[j] != 0
    requires forall k :: i < k < j ==> row[k] == 0
    ensures var r := row[i := row[j]][j := 0];
      r[..i] + Collapse(r[i..]) == row[..i] + Collapse(row[i..])
  {
    var t := row[i..];
    CollapsePullsTile(t, j - i);
    assert row[i := row[j]][j := 0][i..] == t[0 := t[j - i]][j - i := 0];
    assert row[i := row[j]][j := 0][..i] == row[..i];
  }

  /** Loop step: tile i and the equal next tile j merge into cell i. */
  lemma MergeStep(row: seq<bv4>, i: nat, j: nat)
    requires i < j < |row| && row[i] != 0 && row[j] == row[i]
    requires forall k :: i < k < j ==> row[k] == 0
    ensures var r := row[i := Promote(row[i])][j := 0];
      r[..i + 1] + Collapse(r[i + 1..]) == row[..i] + Collapse(row[i..])
  {
    var t := row[i..];
    CollapseMergesHead(t, j - i);
    var r := row[i := Promote(row[i])][j := 0];
    assert r[..i + 1] == row[..i] + [Promote(row[i])];
    assert r[i + 1..] == t[j - i := 0][1..];
  }

  /** Loop step: tile i is final, because no tile follows or the next one differs. */
  lemma KeepStep(row: seq<bv4>, i: nat, j: nat)
    requires i < j <= |row|
    requires forall k :: i < k < j ==> row[k] == 0
    requires j < |row| ==> row[i] != 0 && row[j] != 0 && row[j] != row[i]
    ensures row[..i + 1] + Collapse(row[i + 1..]) == row[..i] + Collapse(row[i..])
  {
    var t := row[i..];
    NonZeroSkipsZeros(t, 1, j - i);
    assert t[1..][0..] == t[1..];
    if j < |row| {
      assert t[j - i..] == [t[j - i]] + t[j - i + 1..];
    } else {
      assert t[|t|..] == [];
    }
    CollapseKeepsHead(t);
    assert row[..i + 1] == row[..i] + [row[i]];
    assert t[1..] == row[i + 1..];
  }

  /** After the loop: a single last cell is already in its final place. */
  lemma LastCellFinal(row: seq<bv4>)
    requires |row| == 4
    ensures row[..3] + Collapse(row[3..]) == row
  {
    assert row[3..] == [row[3]];
    assert NonZero([row[3]]) == if row[3] == 0 then [] else [row[3]];
    assert row[..3] + [row[3]] == row;
  }

  /** The empty row word is left as it is. */
  lemma EmptyRowFinal(s: Row)
    requires s == 0
    ensures Unpack(s) == Collapse(Unpack(s))
  {
    assert Unpack(s) == Zeros(4);
    CollapseOfZeros(4);
  }

  /** The inner search of the row-slide loop: the first non-empty cell after i, or 4 when there is none. */
  method NextTile(row: seq<bv4>, i: int) returns (j: int)
    requires 0 <= i < 3 && |row| == 4
    ensures i + 1 <= j <= 4 && (j < 4 ==> row[j] != 0)
    ensures forall k :: i < k < j ==> row[k] == 0
  {
    j := i + 1;
    while j < 4 && row[j] == 0
      invariant i + 1 <= j <= 4
      invariant forall k :: i < k < j ==> row[k] == 0
    {
      j := j + 1;
    }
  }

  /**
   * The body of the row-slide loop at cell i, whose next tile is j (4 when
   * there is none): an empty cell i takes tile j and is looked at again
   * (the cell index steps back), an equal tile j merges into i, and any
   * other tile i is final.
   */
  method SlideStepAt(row: seq<bv4>, i: int, j: int) returns (next: seq<bv4>, back: int)
    requires 0 <= i < 3 && |row| == 4 && i + 1 <= j <= 4 && (j < 4 ==> row[j] != 0)
    requires forall k :: i < k < j ==> row[k] == 0
    ensures |next| == 4
    ensures back == i || (back == i - 1 && row[i] == 0 && next[i] != 0)
    ensures next[..back + 1] + Collapse(next[back + 1..]) == row[..i] + Collapse(row[i..])
  {
    next, back := row, i;
    if j < 4 {
      if row[i] == 0 {
        // Current tile is blank: move tile j over and look at cell i again
        next := PullTile(row, i, j);
        back := i - 1;
      } else if row[i] == row[j] {
        // Matching pair: combine into cell i
        next := MergePair(row, i, j);
      } else {
        KeepStep(row, i, j);
      }
    } else {
      KeepStep(row, i, j);
    }
  }

  /** The blank-cell branch of SlideStepAt: tile j moves into the empty cell i. */
  method PullTile(row: seq<bv4>, i: int, j: int) returns (next: seq<bv4>)
    requires 0 <= i < j < |row| && row[i] == 0 && row[j] != 0
    requires forall k :: i < k < j ==> row[k] == 0
    ensures |next| == |row| && next[i] != 0
    ensures next[..i] + Collapse(next[i..]) == row[..i] + Collapse(row[i..])
  {
    PullStep(row, i, j);
    next := row[i := row[j]][j := 0];
  }

  /** The matching-pair branch of SlideStepAt: cell i is promoted (capped at 0xF), cell j cleared. */
  method MergePair(row: seq<bv4>, i: int, j: int) returns (next: seq<bv4>)
    requires 0 <= i < j < |row| && row[i] != 0 && row[j] == row[i]
    requires forall k :: i < k < j ==> row[k] == 0
    ensures |next| == |row|
    ensures next[..i + 1] + Collapse(next[i + 1..]) == row[..i] + Collapse(row[i..])
  {
    MergeStep(row, i, j);
    next := row;
    if row[i] != 0xF {
      next := row[i := row[i] + 1];
    }
    next := next[j := 0];
    assert next == row[i := Promote(row[i])][j := 0];
  }

  /**
   * The row-slide loop of initTables (cpp/2048.cpp:120-156): decompress the row
   * word, then, for i = 0, 1, 2, find the next non-empty tile j after i; pull it
   * into an empty cell i and look at cell i again, or merge it into an equal
   * tile i (promoting, capped at 0xF) and clear cell j.
   */
  method SlideRowLeft(s: Row) returns (row: seq<bv4>)
    ensures row == Collapse(Unpack(s))
  {
    row := Unpack(s);
    if s > 0 {
      var i: int := 0;
      while i < 3
        invariant 0 <= i <= 3 && |row| == 4
        invariant row[..i] + Collapse(row[i..]) == Collapse(Unpack(s))
        decreases 3 - i, if row[i] == 0 then 1 else 0
      {
        var j := NextTile(row, i);
        row, i := SlideStepAt(row, i, j);
        i := i + 1;
      }
      LastCellFinal(row);
    } else {
      EmptyRowFinal(s);
    }
  }

  // ---------------------------------------------------------------------------
  // The four lookup tables, as the functions they memoise

  /** leftSlides[s]: the row word slid towards its low nibble. */
  function LeftSlides(s: Row): Row
  {
    Pack(Collapse(Unpack(s)))
  }

  /** rightSlides[t]: slide towards the high nibble, through the reversed row. */
  function RightSlides(t: Row): Row
  {
    ReverseRow(LeftSlides(ReverseRow(t)))
  }

  /** upSlides[s]: the left-slid row spread down a column of the board. */
  function UpSlides(s: Row): Board
  {
    Column(Collapse(Unpack(s)))
  }

  /** downSlides[t]: the right-slid row spread down a column of the board. */
  function DownSlides(t: Row): Board
  {
    Column(Unpack(RightSlides(t)))
  }

  /**
   * One iteration of initTables for the row word s (cpp/2048.cpp:121-166): the
   * reversed word and the four entries it stores, leftSlides[s], rightSlides[reverse],
   * upSlides[s] and downSlides[reverse].  They are exactly the memoised functions.
   */
  method InitTablesEntry(s: Row) returns (reverse: Row, left: Row, right: Row, up: Board, down: Board)
    ensures reverse == ReverseRow(s)
    ensures left == LeftSlides(s) && right == RightSlides(reverse)
    ensures up == UpSlides(s) && down == DownSlides(reverse)
  {
    var row0 := Unpack(s);
    reverse := Pack([row0[3], row0[2], row0[1], row0[0]]);
    var row := SlideRowLeft(s);
    left := Pack(row);
    right := Pack([row[3], row[2], row[1], row[0]]);
    up := Column(row);
    down := Column([row[3], row[2], row[1], row[0]]);
    TableEntries(s, row);
  }

  lemma TableEntries(s: Row, row: seq<bv4>)
    requires row == Collapse(Unpack(s))
    ensures RightSlides(ReverseRow(s)) == Pack(Reversed(row))
    ensures DownSlides(ReverseRow(s)) == Column(Reversed(row))
  {
    ReverseRowInvolution(s);
    ReverseRowPacks(row);
    UnpackPack(Reversed(row));
  }

  /** Mirror symmetry: rightSlides[reverse(s)] == reverse(leftSlides[s]). */
  lemma RightSlidesMirror(s: Row)
    ensures RightSlides(ReverseRow(s)) == ReverseRow(LeftSlides(s))
  {
    ReverseRowInvolution(s);
  }

  /** upSlides[s] is leftSlides[s] read down a column. */
  lemma UpSlidesIsLeftColumn(s: Row)
    ensures UpSlides(s) == Column(Unpack(LeftSlides(s)))
  {
    UnpackPack(Collapse(Unpack(s)));
  }

  // ---------------------------------------------------------------------------
  // Properties of the row rule

  /** Tiles end up at the low end: no tile follows an empty cell. */
  lemma CollapsePacked(row: seq<bv4>)
    ensures forall i, j :: 0 <= i < j < |row| && Collapse(row)[i] == 0 ==> Collapse(row)[j] == 0
  {
    var m := Merge(NonZero(row));
    var r := Collapse(row);
    forall i, j | 0 <= i < j < |row| && r[i] == 0 ensures r[j] == 0 {
      assert i >= |m|;
    }
  }

  predicate NoEqualNeighbours(tiles: seq<bv4>)
  {
    forall i :: 0 <= i < |tiles| - 1 ==> tiles[i] != tiles[i + 1]
  }

  lemma {:induction false} MergeWithoutPairs(tiles: seq<bv4>)
    requires NoEqualNeighbours(tiles)
    ensures Merge(tiles) == tiles
  {
    if |tiles| >= 2 {
      MergeWithoutPairs(tiles[1..]);
    }
  }

  /** Without equal neighbours the tiles only close up, in their original order. */
  lemma CollapseKeepsOrder(row: seq<bv4>)
    requires NoEqualNeighbours(NonZero(row))
    ensures Collapse(row) == NonZero(row) + Zeros(|row| - |NonZero(row)|)
  {
    MergeWithoutPairs(NonZero(row));
  }

  /**
   * Each output tile absorbs at most two input tiles, so no tile merges twice;
   * and there is at least one output tile per input tile pair.
   */
  lemma {:induction false} MergeAbsorbsAtMostPairs(tiles: seq<bv4>)
    ensures |tiles| <= 2 * |Merge(tiles)|
  {
    if |tiles| >= 2 {
      if tiles[0] == tiles[1] {
        MergeAbsorbsAtMostPairs(tiles[2..]);
      } else {
        MergeAbsorbsAtMostPairs(tiles[1..]);
      }
    }
  }

  /** The empty row stays empty. */
  lemma LeftSlidesOfEmptyRow()
    ensures LeftSlides(0) == 0
  {
    EmptyRowFinal(0);
  }

  /** [1,1,1,1] becomes [2,2,0,0], not [3,0,0,0]; [1,1,2,0] becomes [2,2,0,0]. */
  lemma LeftSlidesMergesPairwise()
    ensures LeftSlides(0x1111) == 0x0022
    ensures LeftSlides(0x0211) == 0x0022
  {
    assert Unpack(0x1111) == [1, 1, 1, 1];
    assert NonZero([1, 1, 1, 1]) == [1, 1, 1, 1];
    assert Merge([1, 1, 1, 1]) == [2] + Merge([1, 1]);
    assert Collapse([1, 1, 1, 1]) == [2, 2, 0, 0];
    assert Unpack(0x0211) == [1, 1, 2, 0];
    assert NonZero([1, 1, 2, 0]) == [1, 1, 2];
    assert Merge([1, 1, 2]) == [2] + Merge([2]);
    assert Collapse([1, 1, 2, 0]) == [2, 2, 0, 0];
  }

  /** Two 0xF tiles (32768) merge into 0xF and the partner cell is cleared. */
  lemma LeftSlidesSaturates()
    ensures LeftSlides(0x00FF) == 0x000F
  {
    assert Unpack(0x00FF) == [0xF, 0xF, 0, 0];
    assert NonZero([0xF, 0xF, 0, 0]) == [0xF, 0xF];
    assert Merge([0xF, 0xF]) == [0xF] + Merge([]);
    assert Collapse([0xF, 0xF, 0, 0]) == [0xF, 0, 0, 0];
  }
}
