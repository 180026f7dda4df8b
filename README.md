# 2048: the browser game, the bit-packed board and the solver channel

This project models three parts of the 2048 repository in Dafny and proves their properties.

- **The browser game's move engine** (`js/game_manager.js`). This is the `GameManager`: its grid of tiles, score and flags, and `setup`, `move`, `prepareTiles`, `moveTile`, `findFarthestPosition`, `buildTraversals`, `getVector`, `movesAvailable`, `tileMatchesAvailable`, `addRandomTile` and `addEvilTile`.
  - Module `GameGrid` (`grid.dfy`) defines the grid the manager relies on. It is a class over a `size`×`size` `array2` of optional tiles, with a ghost value model kept equal to the array.
  - Module `MoveEngine` (`move_engine.dfy`) gives the move as value-level specification functions: `Farthest`, `Visit`, `SweepColumn`, `SweepGrid` and `Slide`. It proves what one move keeps: the value sum, one tile fewer per merge, the merge-once rule, and the first-2048 win.
  - Module `Manager` (`game_manager.dfy`) holds the class `GameManager`. Its methods run the source's loops on the array and are proved equal to those functions. `Move` is proved equal to `MoveSpec`.
- **The bit-packed board of the C++ solver** (`cpp/2048.cpp`). A 4×4 board is a `bv64` with one nibble per cell.
  - Module `RowRule` (`row_rule.dfy`) holds the row loop of `initTables` as a method. The method is proved equal to a functional slide rule, `Collapse`. The four tables are that rule's memo functions.
  - Module `BitBoard` (`bitboard.dfy`) covers `createBoard`, `getTile`, `setTile`, `transpose` and the four whole-board slides, with their algebraic laws.
- **The request/response channel to the search worker** (`js/solver.js`), in module `WorkerChannel` (`solver.dfy`).
  - Each of the five request methods pushes a promise on its own queue and posts one message.
  - Each `*_DONE` reply resolves the oldest promise of its kind.
  - The model proves that replies of each kind resolve requests of that kind in request order, whatever the interleaving.

The browser's randomness is a parameter:
- `Draw(pick, two)` chooses an index into the available cells and whether the new tile is a 2;
- the evil tile's code is passed to `Move`.

The solver's asynchronous calls inside `move` count as already finished.

## Model

| member | source | states |
|---|---|---|
| GameGrid.Put | js/game_manager.js:217-218 | writing a cell sets that cell and leaves every other cell as it was |
| GameGrid.EmptyGrid | js/game_manager.js:110 | a new grid is size by size with every cell empty |
| GameGrid.Restored | js/game_manager.js:103 | a reloaded grid has the saved shape; each saved value becomes a tile at its own cell, and each saved null an empty cell |
| GameGrid.GridSumPut | js/game_manager.js:217-218 | writing one cell changes any board total by exactly the new cell's weight minus the old one's |
| GameGrid.EmptyCells | js/game_manager.js:136 | the available cells are exactly the in-bounds empty cells, each listed once, column by column and each column from y = 0 |
| GameGrid.EmptyCellsExist | js/game_manager.js:134-136 | the list of available cells is non-empty iff some cell is empty |
| GameGrid.Grid.constructor | js/game_manager.js:110 | a new grid object holds an empty size-by-size board |
| GameGrid.Grid.FromState | js/game_manager.js:103 | a grid rebuilt from a saved state holds exactly the restored board |
| GameGrid.Grid.CellContent | js/game_manager.js:272 | the content of a cell, and nothing for a position outside the board |
| GameGrid.Grid.CellAvailable | js/game_manager.js:360 | true exactly when the cell holds no tile |
| GameGrid.Grid.WithinBounds | js/game_manager.js:360 | withinBounds: true exactly when both coordinates lie in 0..size-1; the search of findFarthestPosition stops at the first cell for which it is false |
| GameGrid.Grid.InsertTile | js/game_manager.js:139 | the tile is written at its own position and nothing else changes |
| GameGrid.Grid.RemoveTile | js/game_manager.js:284 | the tile's cell is emptied and nothing else changes |
| GameGrid.Grid.AvailableCells | js/game_manager.js:136 | the nested loop collects exactly the empty cells, column by column |
| GameGrid.Grid.CellsAvailable | js/game_manager.js:134 | true exactly when some cell is empty |
| MoveEngine.GetVector | js/game_manager.js:325-335 | each direction maps to a unit vector; odd directions are horizontal; up and left point to lower coordinates, down and right to higher ones |
| MoveEngine.PositionsEqual | js/game_manager.js:400-402 | true exactly when both coordinates agree |
| MoveEngine.Traversals | js/game_manager.js:338-351 | both orders list 0..size-1, reversed exactly on an axis whose vector component is +1 |
| MoveEngine.Farthest | js/game_manager.js:353-366 | the do-while loop as a function: step from the cell while the next cell is on the board and empty, and answer the last cell reached with the cell that stopped the search; FarthestSpec and FarthestPassesEmpty state what that pair is |
| MoveEngine.FarthestSpec | js/game_manager.js:353-366 | farthest is in bounds, ahead of the tile, and either the start cell or empty; next is one step past farthest and is off the board or occupied |
| MoveEngine.FarthestPassesEmpty | js/game_manager.js:356-360 | every cell strictly between the start and next is an in-bounds empty cell |
| MoveEngine.Prepared | js/game_manager.js:206-213 | prepareTiles on a board: the same shape, and each cell's tile with its position saved and its merge mark cleared; PreparedTiles states what it keeps |
| MoveEngine.Relocated | js/game_manager.js:216-220 | moveTile on a board: the tile's own cell emptied and the tile, at its new position, stored in the target; the board stays square and every tile stays at its own cell |
| MoveEngine.MergeInto | js/game_manager.js:279-297 | the merge branch: a merged tile of twice the value at next, the mover's cell emptied, the score raised by the new value, won set and first2048 cleared on the first 2048, and one more merge counted; MergeStepTotals, MergeEffect and VisitWins state its effects |
| MoveEngine.MoveInto | js/game_manager.js:298-304 | the move branch: the tile relocated to the farthest cell, and moved set when that is not its own cell; MoveStepTotals and MoveEffect state its effects |
| MoveEngine.Visit | js/game_manager.js:271-305 | one cell of the traversal: an empty cell changes nothing; a tile merges into an equal, unmerged next tile and otherwise moves to the farthest cell; VisitEffect, VisitMeasure, VisitOrder and VisitWins state what it keeps |
| MoveEngine.SweepColumn | js/game_manager.js:270-306 | the inner forEach: Visit of (x, y) for each y of the column order, in order; ColumnSound states what it keeps |
| MoveEngine.SweepGrid | js/game_manager.js:269-307 | the outer forEach: SweepColumn for each x of the row order, in order; GridSound states what it keeps |
| MoveEngine.Slide | js/game_manager.js:261-307 | the traversal of move in direction v: SweepGrid over the two orders of Traversals; SlideSound states what a whole slide keeps |
| MoveEngine.PreparedTiles | js/game_manager.js:206-213 | prepareTiles keeps every tile and value, saves each tile's position, clears every merged mark, and keeps the tile count and value sum |
| MoveEngine.MergeStepTotals | js/game_manager.js:279-290 | a merge removes the mover and the target from the board totals and adds one tile of twice the value |
| MoveEngine.MoveStepTotals | js/game_manager.js:216-220 | moveTile moves the tile's weight from its cell to the target cell |
| MoveEngine.MergeEffect | js/game_manager.js:279-304 | after a merge the mover's cell is empty and the move counts as moved |
| MoveEngine.MoveEffect | js/game_manager.js:298-304 | a move to a different cell empties the old cell and sets moved; a move to the same cell changes nothing |
| MoveEngine.VisitEffect | js/game_manager.js:272-305 | visiting a cell either changes nothing or empties that cell and sets moved |
| MoveEngine.VisitMeasure | js/game_manager.js:274-300 | one visit keeps the value sum; each merge removes one tile, adds one merged tile, and adds its value to the score |
| MoveEngine.VisitOrder | js/game_manager.js:278-281 | after each visit, merged tiles lie only on cells the traversal has already passed, so a merged tile is never merged again |
| MoveEngine.MergeHolds | js/game_manager.js:280-297 | after a merge, some merged tile holds a value iff one did before or the new tile does |
| MoveEngine.MoveHolds | js/game_manager.js:298-299 | moving a tile does not change which values merged tiles hold |
| MoveEngine.VisitWins | js/game_manager.js:292-297 | won is set and first2048 cleared exactly on the first merge that makes 2048; later 2048 merges change neither |
| MoveEngine.VisitSound | js/game_manager.js:269-307 | the invariant of the traversal, with its totals, merge order and win flags, holds after each visit |
| MoveEngine.ColumnSound | js/game_manager.js:270-306 | the traversal invariant holds after the cells of one column |
| MoveEngine.ColumnDone | js/game_manager.js:269-307 | after column i the invariant holds at the start of column i+1 |
| MoveEngine.SoundStart | js/game_manager.js:266 | the invariant holds on the prepared board before the first visit |
| MoveEngine.GridSound | js/game_manager.js:269-307 | the invariant holds after every prefix of the column order |
| MoveEngine.SlideSound | js/game_manager.js:266-307 | a whole slide keeps the value sum; it removes one tile per merge; the board's merged tiles number the merges and sum to the score gained; the board is unchanged or moved with a free cell; won and first2048 follow the first 2048 merge |
| MoveEngine.EmptyBoardSweep | js/game_manager.js:269-307 | a board with no cells is left unchanged by the traversal |
| Manager.Terminated | js/game_manager.js:93-95 | isGameTerminated of a game state: over, or won without keepPlaying; MoveOutcome states that a terminated game is left unchanged by move |
| Manager.AddRandom | js/game_manager.js:133-146 | addRandomTile on a board: with an available cell, a 2 or a 4 in the cell the draw picks from EmptyCells, reported as value code and index; on a full board the board and no placement; AddRandomSpec and PlacementDecodes state its effect |
| Manager.AddEvil | js/game_manager.js:148-170 | addEvilTile on a board: code 16 and above is a 4 at code-16, otherwise a 2 at code; the cell is x = index % size, y = floor(index / size); the placement reports the value code and index; EvilCodeRoundTrip states its effect |
| Manager.TileMatches | js/game_manager.js:373-398 | tileMatchesAvailable as a predicate: some cell of the size-by-size traversal holds a tile whose neighbour in one of the four directions holds an equal tile; TileMatchesAdjacent restates it over neighbours |
| Manager.CanMove | js/game_manager.js:368-370 | movesAvailable as a predicate: an empty cell or TileMatches; NoMovesLeft states that without it a slide moves nothing |
| Manager.MoveSpec | js/game_manager.js:253-322 | move on a game state: a terminated game is returned unchanged with no tile; otherwise prepareTiles and the traversal, and only if a tile moved, AddEvil or AddRandom by the evil flag and over set when CanMove fails; MoveOutcome and MoveSlide state its effect |
| Manager.StartCells | js/game_manager.js:126-130 | addStartTiles on a board: AddRandom once per draw, in order; NewGame states the result on an empty board |
| Manager.Initial | js/game_manager.js:98-119 | setup as a state: a saved game is restored with its score and flags and first2048 iff no saved 2048; otherwise an empty board with StartCells, score 0, over, won and keepPlaying false and first2048 true; NewGame and ReloadedGame state its properties |
| Manager.AddRandomTile | js/game_manager.js:133-146 | the grid object and the returned placement are those of AddRandom |
| Manager.Setup | js/game_manager.js:98-123 | setup builds the grid, score and flags of Initial, from the saved game when there is one |
| Manager.AddStartTiles | js/game_manager.js:126-130 | the loop adds one random tile per draw to an empty grid |
| Manager.GameManager.constructor | js/game_manager.js:1-24 | a new manager starts with evil off and the state setup gives |
| Manager.GameManager.IsGameTerminated | js/game_manager.js:93-95 | isGameTerminated on the manager's fields equals Terminated of its state |
| Manager.GameManager.KeepPlaying | js/game_manager.js:87-90 | only keepPlaying changes, to true |
| Manager.GameManager.ToggleEvil | js/game_manager.js:61-64 | only the evil flag changes, and it flips |
| Manager.GameManager.PrepareTiles | js/game_manager.js:206-213 | the nested loop leaves the board prepared, with positions saved and merge marks cleared |
| Manager.GameManager.MoveTile | js/game_manager.js:216-220 | the old cell is cleared and the tile, at its new position, is written to the target cell |
| Manager.GameManager.FindFarthestPosition | js/game_manager.js:353-366 | the do-while loop returns the farthest free cell and the next cell of Farthest |
| Manager.GameManager.MergeTiles | js/game_manager.js:279-297 | the doubled tile replaces next, the mover's cell is emptied, the score rises by the new value, and the win flags follow the first 2048 |
| Manager.GameManager.VisitCell | js/game_manager.js:271-305 | one cell of the traversal updates board, score, flags and moved as Visit does |
| Manager.GameManager.VisitTile | js/game_manager.js:274-304 | a cell holding a tile merges into an equal unmerged next tile, and otherwise moves to the farthest cell |
| Manager.GameManager.ShiftTile | js/game_manager.js:298-304 | the move branch relocates the tile and sets moved exactly when the tile left its cell |
| Manager.GameManager.AddEvilTile | js/game_manager.js:148-170 | the board and the returned placement are those of AddEvil for the supplied code |
| Manager.GameManager.TileMatchesAvailable | js/game_manager.js:373-398 | the triple loop returns true iff some tile has an equal tile in one of the four directions |
| Manager.GameManager.MovesAvailable | js/game_manager.js:368-370 | true iff a cell is empty or tileMatchesAvailable holds |
| Manager.GameManager.SlideTiles | js/game_manager.js:259-307 | after prepareTiles and the traversal, board, score, won, first2048 and moved are those of SlideOf |
| Manager.GameManager.TraverseGrid | js/game_manager.js:269-307 | the outer loop over the columns computes SweepGrid, starting with nothing moved |
| Manager.GameManager.TraverseColumn | js/game_manager.js:270-306 | the inner loop over one column computes SweepColumn |
| Manager.GameManager.PlaceTile | js/game_manager.js:309-317 | after a move that moved, one evil or random tile is added and over is set iff no move remains |
| Manager.GameManager.Move | js/game_manager.js:253-322 | the whole move, with its new state and returned tile, equals MoveSpec |
| Manager.MoveSlide | js/game_manager.js:266-307 | a slide keeps the value sum and removes one tile per merge; the merged tiles count the merges and sum to the score gained; if nothing moved the board is only prepared and score and flags stay; if something moved a cell is free |
| Manager.MoveOutcome | js/game_manager.js:253-322 | a terminated game is unchanged and returns no tile; if nothing moved, only the preparation changes and no tile is returned; if something moved, one tile is returned, over is recomputed, and a random tile adds one tile; size, keepPlaying and evil never change |
| Manager.AddRandomSpec | js/game_manager.js:133-146 | with a free cell, the drawn value goes into one empty cell and nothing else changes; count and value sum grow by one tile of that value; on a full board nothing happens and no tile is returned |
| Manager.CellIndexRoundTrip | js/game_manager.js:158-161 | the reported index y*size+x decodes back to the same cell by x = index % size, y = floor(index / size) |
| Manager.PlacementDecodes | js/game_manager.js:141-144 | the placement a random tile reports decodes to the empty cell it filled and to its value, code 1 for a 2 and code 2 for a 4 |
| Manager.EvilCodeRoundTrip | js/game_manager.js:151-169 | on a board of at most 4 by 4, the code for a cell is the index for a 2 and the index plus 16 for a 4; addEvilTile puts that tile at that cell and reports that code |
| Manager.TileMatchesAdjacent | js/game_manager.js:373-398 | the four-direction check finds exactly the pairs of equal orthogonal neighbours |
| Manager.StuckSweep | js/game_manager.js:269-307 | on a full board with no equal neighbours, the traversal changes nothing |
| Manager.NoMovesLeft | js/game_manager.js:368-398 | when movesAvailable is false, a slide moves nothing: the board is only prepared, and the score and won stay |
| Manager.NewGame | js/game_manager.js:109-130 | a new game on a board of at least 2 by 2 has two tiles, score 0, is not terminated, waits for its first 2048, and has evil off |
| Manager.ReloadedGame | js/game_manager.js:102-108 | a reloaded game keeps the saved size, score and flags, and sets first2048 iff no saved cell holds 2048 |
| RowRule.PackUnpack | cpp/2048.cpp:122-127 | packing the unpacked nibbles of a row gives the row back |
| RowRule.UnpackPack | cpp/2048.cpp:122-127 | unpacking a packed row of four nibbles gives the nibbles back |
| RowRule.ReverseRowPacks | cpp/2048.cpp:129 | the reversed row word packs the nibbles in reverse order |
| RowRule.ReverseRowInvolution | cpp/2048.cpp:129 | reversing a row twice gives it back |
| RowRule.Collapse | cpp/2048.cpp:136-156 | the slide of one row towards its low end as a function: the non-zero tiles in order, equal neighbours merged pairwise from the low end, then zeros; the length is kept; SlideRowLeft proves the loop computes it, and CollapsePacked, CollapseKeepsOrder and MergeAbsorbsAtMostPairs state its properties |
| RowRule.CollapseKeepsHead | cpp/2048.cpp:136-156 | a final first tile stays in place and the slide goes on with the rest |
| RowRule.CollapseMergesHead | cpp/2048.cpp:146-153 | a first tile equal to the next tile becomes the promoted tile, and the partner is cleared |
| RowRule.CollapsePullsTile | cpp/2048.cpp:141-145 | pulling the next tile into an empty first cell does not change the slide's result |
| RowRule.PullStep | cpp/2048.cpp:141-145 | the pull branch keeps the loop invariant with i moved one cell back |
| RowRule.MergeStep | cpp/2048.cpp:146-153 | the merge branch keeps the loop invariant with cell i final |
| RowRule.KeepStep | cpp/2048.cpp:139-154 | a tile with no equal tile after it, or no tile after it, is final |
| RowRule.NextTile | cpp/2048.cpp:138-139 | j is the first non-zero cell after i, or 4 |
| RowRule.SlideStepAt | cpp/2048.cpp:140-154 | one iteration keeps the invariant that the finished prefix plus the slide of the rest equals the slide of the row; i goes back only after a pull into an empty cell |
| RowRule.PullTile | cpp/2048.cpp:141-145 | tile j moves into the empty cell i and the slide of the row is unchanged |
| RowRule.MergePair | cpp/2048.cpp:146-153 | cell i is promoted (capped at 0xF), cell j cleared, and cell i becomes final |
| RowRule.SlideRowLeft | cpp/2048.cpp:120-156 | the loop of initTables computes Collapse of the unpacked row |
| RowRule.LeftSlides | cpp/2048.cpp:159 | the leftSlides entry of a row word: the packed Collapse of its nibbles |
| RowRule.RightSlides | cpp/2048.cpp:160-161 | the rightSlides entry of a row word: the reverse of the leftSlides entry of the reversed word; RightSlidesMirror and TableEntries state it |
| RowRule.UpSlides | cpp/2048.cpp:163-164 | the upSlides entry of a row word: the nibbles of Collapse placed down column 0 of a board, one per 16-bit row; UpSlidesIsLeftColumn states it |
| RowRule.DownSlides | cpp/2048.cpp:165-166 | the downSlides entry of a row word: the nibbles of its rightSlides entry placed down column 0 of a board; TableEntries states it |
| RowRule.InitTablesEntry | cpp/2048.cpp:119-168 | one iteration of initTables writes the reverse row and the entries of the four tables |
| RowRule.TableEntries | cpp/2048.cpp:159-166 | rightSlides and downSlides at the reversed row hold the reversed slide |
| RowRule.RightSlidesMirror | cpp/2048.cpp:159-161 | rightSlides of a reversed row is the reverse of leftSlides of the row |
| RowRule.UpSlidesIsLeftColumn | cpp/2048.cpp:163-164 | upSlides holds leftSlides' nibbles spread down a column |
| RowRule.CollapsePacked | cpp/2048.cpp:136-156 | after a slide no tile follows an empty cell |
| RowRule.MergeWithoutPairs | cpp/2048.cpp:146 | tiles with no equal neighbours are not merged |
| RowRule.CollapseKeepsOrder | cpp/2048.cpp:136-156 | without equal neighbours, a slide packs the non-zero tiles at the low end in their order |
| RowRule.MergeAbsorbsAtMostPairs | cpp/2048.cpp:146-153 | each merge takes two tiles only: at least half the tiles survive |
| RowRule.LeftSlidesOfEmptyRow | cpp/2048.cpp:134 | the empty row is unchanged |
| RowRule.LeftSlidesMergesPairwise | cpp/2048.cpp:136-156 | [1,1,1,1] and [1,1,2,0] both slide to [2,2,0,0] |
| RowRule.LeftSlidesSaturates | cpp/2048.cpp:148-152 | two 0xF tiles merge into 0xF and the partner is cleared |
| BitBoard.GetTile | cpp/2048.cpp:206-208 | getTile: the nibble of cell p, bits 4p..4p+3 of the board |
| BitBoard.SetTile | cpp/2048.cpp:198-204 | setTile: the tile code ORed into the nibble of cell p; SetTileSame, SetTileOther and SetTileGetTile state its effect |
| BitBoard.CountrZero | cpp/2048.cpp:38 | std::countr_zero of a positive number: the number of times it halves evenly; CountrZeroOfPower states it for 2^k |
| BitBoard.Compressed | cpp/2048.cpp:31-42 | the word createBoard builds: the compressed rest of the cells shifted up a nibble, with the first cell's digit ORed in; CompressedCells and DigitOverflow state its cells |
| BitBoard.SetTileSame | cpp/2048.cpp:198-208 | setTile ORs the tile into its own nibble |
| BitBoard.SetTileOther | cpp/2048.cpp:198-208 | setTile leaves the other 15 nibbles unchanged |
| BitBoard.SetTileGetTile | cpp/2048.cpp:198-208 | on a blank position getTile returns the tile set; other positions are unchanged |
| BitBoard.CountrZeroOfPower | cpp/2048.cpp:38 | the trailing-zero count of 2^k is k |
| BitBoard.DigitOfTile | cpp/2048.cpp:34-39 | the digit createBoard ORs in for 0 or 2^k is 0 or k |
| BitBoard.CreateBoard | cpp/2048.cpp:31-42 | the loop over the cells from last to first computes Compressed, the board word with one nibble per cell |
| BitBoard.PushDigit | cpp/2048.cpp:35-39 | both branches of the loop body compute one step of Compressed |
| BitBoard.CompressedCells | cpp/2048.cpp:31-42 | for cells 0 or 2^1..2^15, getTile of the created board at p is log2 of cell p, 0 for an empty cell, with cell 0 in the lowest nibble |
| BitBoard.DigitOverflow | cpp/2048.cpp:34-39 | a 65536 does not fit its nibble: its cell reads 0 and a 1 is ORed into the next cell |
| BitBoard.Transpose | cpp/2048.cpp:69-79 | transpose: the board ORed from its seven masked and shifted diagonals; TransposeCell and TransposeInvolution state its effect |
| BitBoard.TransposeCell | cpp/2048.cpp:69-79 | the nibble at row r, column c moves to row c, column r |
| BitBoard.TransposeInvolution | cpp/2048.cpp:69-79 | transposing twice gives the board back |
| BitBoard.SlideLeft | cpp/2048.cpp:170-175 | slideLeft: each 16-bit row replaced by its leftSlides entry; SlideLeftRowwise and SlideLeftCells state its effect |
| BitBoard.SlideRight | cpp/2048.cpp:177-182 | slideRight: each 16-bit row replaced by its rightSlides entry; SlideRightRowwise and SlideRightCells state its effect |
| BitBoard.SlideUp | cpp/2048.cpp:184-189 | slideUp: row k of the transpose through upSlides, shifted into column k; SlideUpIsTransposedLeft and SlideUpCells state its effect |
| BitBoard.SlideDown | cpp/2048.cpp:191-196 | slideDown: row k of the transpose through downSlides, shifted into column k; SlideDownIsTransposedRight and SlideDownCells state its effect |
| BitBoard.Slide | cpp/2048.cpp:234-239 | slide: 0 up, 1 left, 2 down, any other direction right; SlideDirections states it |
| BitBoard.SlideLeftRowwise | cpp/2048.cpp:170-175 | each row of slideLeft is leftSlides of the same row |
| BitBoard.SlideRightRowwise | cpp/2048.cpp:177-182 | each row of slideRight is rightSlides of the same row |
| BitBoard.ColumnsTranspose | cpp/2048.cpp:163-166 | placing four rows as columns is the transpose of the board made of those rows |
| BitBoard.SlideUpIsTransposedLeft | cpp/2048.cpp:184-189 | slideUp(b) == transpose(slideLeft(transpose(b))) |
| BitBoard.SlideDownIsTransposedRight | cpp/2048.cpp:191-196 | slideDown(b) == transpose(slideRight(transpose(b))) |
| BitBoard.SlideDirections | cpp/2048.cpp:234-239 | direction 0 is left through the transpose, 2 is right through the transpose, and anything but 0, 1, 2 is right |
| BitBoard.SlideLeftCells | cpp/2048.cpp:170-175 | the tiles of row r after slideLeft are the row rule applied to row r |
| BitBoard.SlideRightCells | cpp/2048.cpp:177-182 | the tiles of row r after slideRight are the mirrored row rule applied to row r |
| BitBoard.TransposedTiles | cpp/2048.cpp:69-79 | row c of the transpose is column c of the board |
| BitBoard.TransposedColumns | cpp/2048.cpp:69-79 | column c of the transpose is row c of the board |
| BitBoard.SlideUpCells | cpp/2048.cpp:184-189 | the tiles of column c after slideUp are the row rule applied to column c |
| BitBoard.SlideDownCells | cpp/2048.cpp:191-196 | the tiles of column c after slideDown are the mirrored row rule applied to column c |
| WorkerChannel.Initial | js/solver.js:2-8 | a new solver has five empty queues and has posted nothing |
| WorkerChannel.Send | js/solver.js:33-66 | a request appends its handle to its own queue only and posts exactly its message |
| WorkerChannel.Receivable | js/solver.js:14-28 | a reply the handler can take without calling undefined: a `*_DONE` reply finds a handle in the queue of its kind; any other reply always can |
| WorkerChannel.Receive | js/solver.js:11-30 | READY calls onload and changes nothing; a `*_DONE` reply removes the oldest handle of its kind only and resolves it, with the solution for SOLVE_DONE and no value otherwise; any other reply changes nothing; nothing is posted |
| WorkerChannel.SendFresh | js/solver.js:33-66 | the handle a request creates is in no queue yet, and after the request every pending handle is still below the next one |
| WorkerChannel.ReceiveKeepsValid | js/solver.js:11-30 | handling a reply keeps every pending handle below the next one |
| WorkerChannel.Solver.constructor | js/solver.js:1-31 | a new Solver object is in the initial state |
| WorkerChannel.Solver.Post | js/solver.js:33-66 | pushing a handle and posting a message is one Send |
| WorkerChannel.Solver.SetupRequest | js/solver.js:33-38 | setup is a Send of a SETUP message with the seed |
| WorkerChannel.Solver.SetBoard | js/solver.js:40-45 | setBoard is a Send of a BOARD message with the tiles |
| WorkerChannel.Solver.AddTile | js/solver.js:47-52 | addTile is a Send of an ADD message with position and value |
| WorkerChannel.Solver.GetMove | js/solver.js:54-59 | getMove is a Send of a SOLVE message |
| WorkerChannel.Solver.ResetRequest | js/solver.js:61-66 | reset is a Send of a RESET message with the seed |
| WorkerChannel.Solver.OnMessage | js/solver.js:11-30 | the onmessage handler does what Receive says |
| WorkerChannel.Solver.Shift | js/solver.js:15-28 | shift removes and returns the oldest handle of one queue and touches nothing else |
| WorkerChannel.FifoPerKind | js/solver.js:11-66 | over any run, the pending handles of a kind plus those issued equal those resolved plus those still pending, in order |
| WorkerChannel.ResolvedInRequestOrder | js/solver.js:11-66 | from a new solver, the i-th resolved handle of a kind is the i-th handle issued for that kind, whatever the interleaving of other kinds |
| WorkerChannel.EchoedTagIgnored | js/solver.js:11-30 | a reply carrying a bare request tag (SETUP, BOARD, ...) is ignored and resolves nothing |

## Left out

- The search and evaluation in cpp/2048.cpp are left out because they compute floating-point scores that only choose a move. This covers `calculateHeuristic`, `evaluate`, `expectimax`, `getBestMove`, `minimax`, `getWorstTile` and the `heuristic` table.
- The C++ `addRandomTile` is left out because it draws from a Mersenne twister.
- `printRow` and `printBoard` are left out because they only print.
- The four slide tables are not arrays. `LeftSlides`, `RightSlides`, `UpSlides` and `DownSlides` are the functions the tables memoise. `InitTablesEntry` computes one index's entries; the 65536-iteration fill is not modelled.
- Randomness becomes parameters:
  - `Math.random` and `randomAvailableCell` become a `Draw`: an index into the available cells, taken modulo their number, and whether the tile is a 2;
  - the solver's evil tile code is a natural number passed to `Move`.
- The solver calls `this.solver.move` and `this.solver.getTile` inside `move` are treated as finished steps. js/solver.js defines neither method.
- The asynchronous parts of js/game_manager.js are left out: the `await`s, `throttleMove`, `autorun`, `solverReady`, `stopSolver` and `restart`.
- The actuator, storage manager and `serialize` calls in js/game_manager.js are left out because they only display and persist state.
- js/grid.js and js/tile.js are not part of this model. Tiles are values with no object identity, and `mergedFrom` is reduced to whether it is set.
- js/worker.js, cpp/wasm.cpp, cpp/main.cpp and js/keyboard_input_manager.js are not part of this model.
- Manager.GameManager.Move: a direction outside 0..3 on a game that is not terminated is excluded by the precondition. The source would fail reading the undefined vector.
- Manager.MoveSlide, Manager.MoveOutcome, Manager.NoMovesLeft: these lemmas assume the board has the manager's size. A reloaded game keeps the saved grid's size, which the source never compares with the manager's.
- Manager.AddEvil: an index past the last row leaves the board as it was. The source writes the tile to an array slot outside the grid that the game later reads as absent. A code below 16 on an occupied cell overwrites that tile, as insertTile does.
- Manager.EvilCodeRoundTrip: holds only for boards of at most 4 by 4. On larger boards, the cell codes 16 and above collide with the codes for a 4.
- Manager.GameManager.MovesAvailable: true on a board with an empty cell, even when nothing can slide (for example, an empty board). This is the source's own approximation.
- WorkerChannel.Solver.OnMessage: a `*_DONE` reply whose queue is empty makes the source call `undefined` and throw; `Receivable` excludes it as a precondition.
- Promises are numbered handles. A resolution is the returned Effect naming the handle, not a call of the promise's resolve function.
