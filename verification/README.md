# 2048 board engine, modelled in Dafny

A model of the `Game` class of `game.py`, the engine of a 2048 clone. The
board is a grid of cells. Each cell is empty (0) or holds a power of two.

A move works in four steps:

1. It turns the board with numpy's `rot90`, so that the chosen direction
   points at row 0.
2. It sweeps the turned board row by row and left to right. Every tile steps
   up one cell at a time. A tile stops at the top edge, below a cell already
   merged during this move, or below a different tile. It merges once into an
   equal tile.
3. It turns the board back.
4. It sets `ended` when no cell is empty or some cell holds 2048. When the
   game goes on and the board changed, it draws a new 2 or 4 into a random
   empty cell.

The project has one module per file:

| file | module | what it holds |
|---|---|---|
| `seqs.dfy` | `Seqs` | sums, tile masks and reversals of integer sequences |
| `grid.dfy` | `Grids` | the board as `seq<seq<int>>`, columns, one-cell updates, total and tile count, tile values |
| `rotation.dfy` | `Rotation` | `Action`; the quarter and half turns as index maps; the turn before the sweep and the turn after it |
| `reference.dfy` | `Reference` | an independent account of one line's slide: drop the empty cells, merge equal neighbours pairwise from the edge, pad with empty cells (`SlideLine`); `Stack` builds the same result tile by tile |
| `linemerges.dfy` | `LineMerges` | single lines whose slide merges nothing: the slide keeps their tiles in order; the column sweep merges once per tile the collapse drops |
| `column.dfy` | `ColumnSweep` | the per-tile walk of the sweep, acting on one column of the turned board, proved equal to `SlideLine` |
| `sweep.dfy` | `Sweep` | the sweep of the whole turned board, one column sweep per column |
| `loop.dfy` | `SweepLoop` | the sweep as the nested loops of `move`, written as methods over the board and the marker grid; it includes the out-of-range marker reads |
| `results.dfy` | `Results` | `Result` and the two Python exceptions that can occur |
| `slides.dfy` | `Slides` | turn, sweep and turn back, together with the row and column picture of the same slide; the corrected and the as-written sweep |
| `boardmerges.dfy` | `BoardMerges` | a slide of the whole board that merges nothing: every row or column keeps its tiles in order |
| `game.dfy` | `Game` | construction, the new piece, the end test and `move` |

Each random draw of `_new_piece` is a parameter `Piece(row, col, four)`. It
names the empty cell the retry loop settles on and says whether the piece is
a 4.

## Model

| member | source | states |
|---|---|---|
| Rotation.Forward | game.py:47-57 | `_rotate_board` with `backward=False`. Its own contract states only that the turned board is again a non-empty rectangle; `Rotation.ForwardRows` states which line lands in each row and `Rotation.RoundTrip` that `Rotation.Backward` undoes it |
| Rotation.Backward | game.py:47-57 | `_rotate_board` with `backward=True`. Its own contract states only that the result is a non-empty rectangle; `Rotation.RoundTrip`, `Rotation.RoundTripBack` and `Rotation.BackwardInjective` carry its meaning |
| Rotation.ForwardRows | game.py:47-57 | after the forward turn, row k of the board is the line k steps from the edge the action points at, read from rows and columns of the original; height and width swap exactly for left and right moves |
| Rotation.RoundTrip | game.py:47-57 | for every action, turning back after turning forward gives back the original board (left and right use opposite quarter turns, the half turn undoes itself) |
| Rotation.RoundTripBack | game.py:47-57 | for every action, turning forward after turning back gives back the board as well |
| Rotation.BackwardInjective | game.py:106 | two swept boards turned back are equal exactly when they were equal before the turn |
| Rotation.TotalTurned | game.py:47-57 | turning in either sense keeps the sum of the cells |
| Rotation.TileCountTurned | game.py:47-57 | turning in either sense keeps the number of tiles |
| Rotation.ValidTurned | game.py:47-57 | turning keeps every cell empty or a tile value |
| Reference.StackCollapses | game.py:82-103 | pushing the tiles of a line one by one against the edge, where a tile merges into an equal top tile that is not itself a merge result, gives the pairwise collapse of the line |
| Reference.StackSum | game.py:91-103 | stacking keeps the sum of the tiles |
| Reference.StackMerges | game.py:91-96 | the number of tiles lost by stacking equals the number of merge results in the stack |
| Reference.StackTiles | game.py:92 | stacking powers of two from 2 up yields only such values |
| ColumnSweep.MergeUp | game.py:91-96 | a merge doubles the unmarked equal cell above, marks it and empties the tile's cell; it leaves every other cell and marker alone, counts one merge and sets the changed flag; the sum is kept and there is one tile fewer |
| ColumnSweep.SlideUp | game.py:100-103 | a step moves the tile into the empty cell above it and sets the changed flag; markers and merge count are unchanged and the sum and tile count are kept |
| ColumnSweep.Walk | game.py:82-103 | the walk of one tile changes no cell below its start and no marked cell, and unmarks nothing; it merges at most once, keeps the sum and loses one tile per merge; if the column is unchanged the whole state is, otherwise the start cell is empty and the changed flag is set |
| ColumnSweep.SweepPrefix | game.py:78-103 | after the first n cells of a column have been visited, the sum is kept, the tile count has dropped by the merge count, and exactly one marker is set per merge |
| ColumnSweep.SweepPrefixLayout | game.py:78-103 | after the first n cells are visited, the column holds the reference stack of the first n tiles against row 0, then empty cells, then the cells not yet visited; markers sit exactly on merge results |
| ColumnSweep.SweepStacks | game.py:78-103 | a swept column is the stack of its tiles followed by empty cells; its markers are the stack's merge flags; its merge count is the number of tiles lost; the changed flag is set exactly when a merge happened or the column was not compact |
| ColumnSweep.SweepMatchesReference | game.py:78-103 | the sweep of a column equals the reference slide of that column |
| ColumnSweep.SweepCompacts | game.py:78-103 | after the sweep no empty cell lies between row 0 and a tile |
| ColumnSweep.SweepMergesOnce | game.py:89-93 | the merge count equals the number of marked cells, so no cell is a merge target twice; a column of n cells has fewer than n merges |
| ColumnSweep.SweepChanged | game.py:94-103 | the changed flag is set exactly when the swept column differs from the column before |
| ColumnSweep.SweepKeepsTiles | game.py:92 | a column of empty cells and tiles stays one |
| Sweep.SweepGrid | game.py:72-103 | the swept board and the marker grid have the turned board's shape, and the merge count is never negative |
| Sweep.SweepGridTotal | game.py:91-103 | the sweep keeps the sum of the cells |
| Sweep.SweepGridTiles | game.py:91-96 | the sweep lowers the tile count by exactly the number of merges |
| Sweep.SweepGridSlides | game.py:78-103 | every swept column equals the reference slide of the original column and is compact toward row 0 |
| Sweep.SweepGridMergesOnce | game.py:89-93 | in every column the number of marked cells equals that column's merge count, and the board's merge count is their sum |
| Sweep.SweepGridChanged | game.py:75-103 | `board_changed` ends true exactly when the swept board differs from the turned board |
| Sweep.SweepGridValid | game.py:92 | the sweep keeps every cell empty or a tile value |
| SweepLoop.MergeInto | game.py:91-96 | the merge written as updates to the board and marker grids leaves them as the column merge describes |
| SweepLoop.SlideInto | game.py:100-103 | the step written as board updates leaves the board as the column step describes |
| SweepLoop.WalkStep | game.py:85-103 | one probe raises IndexError exactly when it reads a marker outside the marker grid; otherwise it stops the walk with the column's walk done, or takes one step that leaves the rest of the walk the same |
| SweepLoop.WalkTile | game.py:81-103 | the probe loop of one tile raises IndexError exactly when its first probe lies outside the marker grid; otherwise the board and markers end as the column walk says, and `board_changed` takes up the walk's change |
| SweepLoop.SweepBoard | game.py:72-103 | the nested loops with an mh by mw marker grid raise IndexError exactly when some tile's first probe lies outside that grid; otherwise they produce the swept board and changed flag of `Sweep.SweepGrid`, in which every column is swept on its own, so the row-by-row visiting order lets no column affect another |
| Slides.Slide | game.py:71-106 | turn, sweep and turn back. Its own contract states only that the board keeps its height and width; `Slides.SlideByLines` states what happens to every row or column, and the lemmas that follow state the sum, tile count, changed flag and merge count |
| Slides.SlideByLines | game.py:72-106 | after turning back, each row (for left and right) or column (for top and bottom) is slid toward the target edge on its own: tiles packed against the edge, equal neighbours merged pairwise from the edge |
| Slides.SlideTotal | game.py:91-106 | a slide keeps the sum of the cells |
| Slides.SlideTiles | game.py:91-106 | a slide lowers the tile count by exactly its merge count, which is not negative |
| Slides.SlideChanged | game.py:75-106 | the slide's changed flag is set exactly when the board after the slide differs from the board before |
| Slides.SlideValid | game.py:92-106 | a slide keeps every cell empty or a tile value |
| Slides.OwnShapeNeverCrashes | game.py:78-89 | a marker grid shaped like the turned board is never read out of range |
| Slides.SlideBoard | game.py:72-106 | the loops run with a marker grid shaped like the turned board never fail and compute the slide |
| Slides.SlideBoardAsWritten | game.py:72-106 | the loops with the marker grid shaped like the unturned board raise IndexError exactly when some tile's first probe reads outside it, and otherwise compute the slide |
| Slides.AsWrittenFineWhenSquare | game.py:74 | on a square board, or for moves up and down, the marker grid has the turned board's shape and no move raises |
| Slides.NearSquareNeverCrashes | game.py:74-89 | a left or right move on a board that is square or one column wider than high never reads outside the marker grid, although the grid has the unturned board's shape; a 2 by 3 board is such a board |
| Slides.WideRowCrashes | game.py:74-89 | the one-row board [v, v, v, v] moved left raises IndexError as written |
| Slides.WideRowSlides | game.py:91-106 | the slide turns the one-row board [v, v, v, v] moved left into [2v, 2v, 0, 0] |
| LineMerges.SlideLineKeepsTiles | game.py:82-103 | sliding a line keeps its tiles, in the same order, exactly when no two of them merge; then the slid line is those tiles followed by empty cells |
| LineMerges.SweepMergeCount | game.py:89-96 | the column sweep performs one merge for every tile the collapse of the line drops, so it merges nothing exactly when the line's slide merges nothing |
| BoardMerges.SweepGridWithoutMerges | game.py:78-103 | the sweep of the turned board merges nothing exactly when no column's slide merges |
| BoardMerges.LineKeepsTiles | game.py:71-106 | for every action, a row (left, right) or column (up, down) of the board keeps its tiles in order through the slide exactly when the turned column that carries it merges nothing |
| BoardMerges.SlideWithoutMerges | game.py:71-106 | a slide performs no merge exactly when every row (left, right) or column (up, down) keeps its tiles, in order: the tiles only change position |
| Game.Place | game.py:37-45 | the piece fills its empty cell with a 2 or a 4; every other cell is unchanged; the tile count grows by one and the sum by the piece |
| Game.CheckEnded | game.py:59-60 | `_check_ended`. It has no contract of its own; `Game.NotEndedHasRoom` and `Game.FullOrGoalEnds` give its two directions: the game goes on exactly when some cell is empty and no cell holds 2048 |
| Game.NotEndedHasRoom | game.py:59-60 | a board that does not end the game has an empty cell a piece fits into, and no 2048 tile |
| Game.FullOrGoalEnds | game.py:59-60 | a board with no empty cell, or with a 2048 tile, ends the game |
| Game.PlaceAll | game.py:28-29 | every start piece holds its value in its own cell; cells no piece covers are unchanged; the tile count grows by the number of pieces |
| Game.PlacedValid | game.py:23-29 | after construction every cell is empty, 2 or 4 |
| Game.ZeroBoard | game.py:23 | the new board has the requested shape and no tile |
| Game.Init | game.py:14-29 | construction fails with ValueError exactly for a negative size, or for a size with no cells and at least one start piece; otherwise the board has the requested shape, holds exactly the start pieces, and `ended` is false |
| Game.Spawns | game.py:108-111 | whether the move draws a piece. It has no contract of its own; `Game.SpawnsWhenChanged` states both directions of the condition |
| Game.Settle | game.py:106-111 | the end of `move` after the slide. Its own contract states only that the game keeps its shape; `Game.NoChangeNoSpawn`, `Game.ChangeSpawnsOne` and `Game.FullButNotEnded` state what it does with `ended` and the new piece |
| Game.Move | game.py:62-111 | a move keeps the board's height and width; what it does to the cells, the flag and the new piece is stated by the lemmas that follow |
| Game.EndedIsTerminal | game.py:68-69 | a move on an ended game leaves it exactly as it was |
| Game.NoChangeNoSpawn | game.py:106-111 | when the slide changes nothing, no piece is drawn, the board stays as it was, and `ended` is recomputed from it |
| Game.SpawnsWhenChanged | game.py:108-111 | a piece is drawn exactly when the slide changed the board and the slid board does not end the game |
| Game.ChangeSpawnsOne | game.py:108-111 | when a piece is drawn, the slid board changed, exactly one of its empty cells becomes 2 or 4, every other cell is the slid board's, and `ended` stays false |
| Game.MoveTotal | game.py:62-111 | a move raises the sum of the cells by the drawn piece's value, and by nothing when no piece is drawn |
| Game.MoveTiles | game.py:62-111 | a move lowers the tile count by its merges and raises it by one when it draws a piece |
| Game.MoveKeepsTiles | game.py:62-111 | moves keep every cell empty or a power of two from 2 up |
| Game.SpawnHasRoom | game.py:37-40 | whenever a move draws a piece, the slid board has an empty cell for it, so the retry loop finds one |
| Game.FullButNotEnded | game.py:108-111 | a drawn piece can fill the last empty cell and `ended` stays false: [0, v] moved left becomes [v, 2] |
| Game.MoveAsWritten | game.py:62-111 | the move as written fails only with IndexError |
| Game.AsWrittenIsMoveWhenSquare | game.py:74 | on a square board, or for moves up and down, the move as written is the move |
| Game.WideRowMove | game.py:62-111 | the one-row game [v, v, v, v] moved left raises IndexError as written; with the corrected marker grid it becomes [2v, 2v, 2, 0] |

## Left out

- Randomness. `_random_pos`, the retry loop and the comparison with `prob_of_new_4_piece` (game.py:31-45) are modelled as a `Piece` parameter: the empty cell the loop settles on and whether the piece is a 4. `Game.SpawnHasRoom` shows that such a cell exists whenever a piece is drawn.
- Game.Init: start-piece draws that do not fit are excluded by its precondition. The pieces must lie on different cells of the board. With more start pieces than cells, the retry loop of game.py:39-40 never ends, and a non-terminating constructor has no result to model.
- Floating point. `np.zeros` stores float64 cells (game.py:23). Every value the game produces is a small integer, so cells are `int`.
- Array copies. The copy at game.py:72 and numpy's row views are not modelled as aliasing; they need not be. `SweepLoop.VisitCell` reads each cell from the live board when the loop reaches it, as the row view `row` of game.py:79-80 does. The sweep writes only to the visited tile's own cell and to cells above it in the same column, so no cell is written before the loop visits it. `Slides.SlideBoard` runs on values.
- Arguments that are not integers. Python would accept a float width or height and fail inside numpy; the model takes `int` sizes.
- Game.Move: it models the corrected marker grid, shaped like the turned board. `Game.MoveAsWritten` is the code as written, and the Findings table explains the difference.
- `window.py`: it is the pygame window, drawing and key handling. This is user interface and I/O with no game logic of its own.

## Findings

| source | as written | input that shows it | evidently intended | confidence | as-written member | corrected member |
|---|---|---|---|---|---|---|
| game.py:74 | The marker grid `already_summed_board` takes the shape of the unturned board. After a quarter turn of a board that is not square, the probe at game.py:89 can read outside it and raise IndexError. It does so exactly when some tile of the turned board below row 0 has its first probe at a row at or past the marker grid's height, or in a column at or past its width (`Slides.SlideCrashes`). Not every such board raises: a 2×3 board moved left never does (`Slides.NearSquareNeverCrashes`). | A game with the single row [2, 2, 2, 2] (any [v, v, v, v] with v ≠ 0) moved TO_LEFT. The turned board is 4×1 and the marker grid is 1×4, so the third tile's probe reads marker row 1. | The marker grid has the turned board's shape. The row then becomes [4, 4, 0, 0] and a piece is drawn. | not executed | Slides.SlideBoardAsWritten, Slides.WideRowCrashes, Game.MoveAsWritten | Slides.SlideBoard, Slides.WideRowSlides, Game.Move |
