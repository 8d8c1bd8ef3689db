/** One slide of the board in a direction (game.py:71-106): turn the board so
    the direction points at row 0, sweep, turn back. */
module Slides {
  import opened Seqs
  import opened Grids
  import opened Rotation
  import opened Reference
  import opened Sweep
  import opened Results
  import L = SweepLoop

  /** The board after the slide, `board_changed`, and the number of merges. */
  datatype Slid = Slid(board: Grid, changed: bool, merges: int)

  function Slide(b: Grid, a: Action): (r: Slid)
    requires Rect(b)
    ensures Rect(r.board) && |r.board| == |b| && Width(r.board) == Width(b)
  {
    var t := Forward(a, b);
    var o := SweepGrid(t);
    ForwardRows(a, b);
    Slid(Backward(a, o.board), o.changed, o.merges)
  }

  /** A line slid toward its far end: the reference slide of the reversed line, reversed back. */
  function SlideLineBack(line: seq<int>): (r: seq<int>)
    ensures |r| == |line|
  {
    Reverse(SlideLine(Reverse(line)))
  }

  /** A cell of a half-turned grid whose mirror cell holds the reference
      slide of the reversed line holds the slide of the line toward its far end. */
  lemma HalfBackCell(o: Grid, line: seq<int>, i: nat, j: nat)
    requires Rect(o) && i < |o| && j < Width(o) && |line| == |o|
    requires o[|o| - 1 - i][Width(o) - 1 - j] == SlideLine(Reverse(line))[|o| - 1 - i]
    ensures RotateHalf(o)[i][j] == SlideLineBack(line)[i]
  {
  }

  /** What a slide does, line by line, with no turning: every row (for a move
      to the left or right) or every column (for a move up or down) is slid
      toward the edge the move points at. */
  function LineSlide(b: Grid, a: Action): (r: Grid)
    requires Rect(b)
  {
    var h, w := |b|, Width(b);
    match a
    case ToLeft => seq(h, i requires 0 <= i < h => SlideLine(b[i]))
    case ToRight => seq(h, i requires 0 <= i < h => SlideLineBack(b[i]))
    case ToTop => FromCols(seq(w, j requires 0 <= j < w => SlideLine(Col(b, j))), h)
    case ToBottom => FromCols(seq(w, j requires 0 <= j < w => SlideLineBack(Col(b, j))), h)
  }

  /** Column `j` of the swept turned board is the reference slide of column
      `j` of the turned board. */
  lemma TurnedCell(t: Grid, i: nat, j: nat)
    requires Rect(t) && i < |t| && j < Width(t)
    ensures SweepGrid(t).board[i][j] == SlideLine(Col(t, j))[i]
  {
    SweepGridSlides(t);
    assert SweepGrid(t).board[i][j] == Col(SweepGrid(t).board, j)[i];
  }

  /** Column |b|-1-i of the board turned clockwise is row i read left to right. */
  lemma CwCol(b: Grid, i: nat)
    requires Rect(b) && i < |b|
    ensures Col(RotateCw(b), |b| - 1 - i) == b[i]
  {
    var c := Col(RotateCw(b), |b| - 1 - i);
    forall k | 0 <= k < |c|
      ensures c[k] == b[i][k]
    {
    }
  }

  /** Column i of the board turned counter-clockwise is row i read right to left. */
  lemma CcwCol(b: Grid, i: nat)
    requires Rect(b) && i < |b|
    ensures Col(RotateCcw(b), i) == Reverse(b[i])
  {
    var c := Col(RotateCcw(b), i);
    forall k | 0 <= k < |c|
      ensures c[k] == Reverse(b[i])[k]
    {
    }
  }

  lemma LeftCell(b: Grid, i: nat, j: nat)
    requires Rect(b) && i < |b| && j < Width(b)
    ensures RotateCcw(SweepGrid(RotateCw(b)).board)[i][j] == SlideLine(b[i])[j]
  {
    var t := RotateCw(b);
    var i': nat := |b| - 1 - i;
    CwCol(b, i);
    TurnedCell(t, j, i');
  }

  lemma RightCell(b: Grid, i: nat, j: nat)
    requires Rect(b) && i < |b| && j < Width(b)
    ensures RotateCw(SweepGrid(RotateCcw(b)).board)[i][j] == SlideLineBack(b[i])[j]
  {
    var t := RotateCcw(b);
    var o := SweepGrid(t).board;
    var j': nat := Width(b) - 1 - j;
    var line := Reverse(b[i]);
    CcwCol(b, i);
    TurnedCell(t, j', i);
    assert RotateCw(o)[i][j] == o[j'][i] == SlideLine(line)[j'];
  }

  lemma TopCell(b: Grid, i: nat, j: nat)
    requires Rect(b) && i < |b| && j < Width(b)
    ensures SweepGrid(b).board[i][j] == SlideLine(Col(b, j))[i]
  {
    TurnedCell(b, i, j);
  }

  /** Column Width(b)-1-j of the board turned half way is column j read bottom up. */
  lemma HalfCol(b: Grid, j: nat)
    requires Rect(b) && j < Width(b)
    ensures Col(RotateHalf(b), Width(b) - 1 - j) == Reverse(Col(b, j))
  {
    var c := Col(RotateHalf(b), Width(b) - 1 - j);
    forall k | 0 <= k < |c|
      ensures c[k] == Reverse(Col(b, j))[k]
    {
    }
  }

  /** The turned cell that lands on (i, j) after a move down is the reference
      slide of column j read bottom up. */
  lemma BottomTurnedCell(b: Grid, i: nat, j: nat)
    requires Rect(b) && i < |b| && j < Width(b)
    ensures SweepGrid(RotateHalf(b)).board[|b| - 1 - i][Width(b) - 1 - j]
         == SlideLine(Reverse(Col(b, j)))[|b| - 1 - i]
  {
    HalfCol(b, j);
    TurnedCell(RotateHalf(b), |b| - 1 - i, Width(b) - 1 - j);
  }

  lemma BottomCell(b: Grid, i: nat, j: nat)
    requires Rect(b) && i < |b| && j < Width(b)
    ensures RotateHalf(SweepGrid(RotateHalf(b)).board)[i][j] == SlideLineBack(Col(b, j))[i]
  {
    var o := SweepGrid(RotateHalf(b)).board;
    BottomTurnedCell(b, i, j);
    HalfBackCell(o, Col(b, j), i, j);
  }

  lemma SlideLeft(b: Grid)
    requires Rect(b)
    ensures Slide(b, ToLeft).board == LineSlide(b, ToLeft)
  {
    var h, w := |b|, Width(b);
    var r, e := RotateCcw(SweepGrid(RotateCw(b)).board), LineSlide(b, ToLeft);
    forall i, j | 0 <= i < h && 0 <= j < w
      ensures r[i][j] == e[i][j]
    {
      LeftCell(b, i, j);
    }
    CellsEqual(r, e, h, w);
  }

  lemma SlideRight(b: Grid)
    requires Rect(b)
    ensures Slide(b, ToRight).board == LineSlide(b, ToRight)
  {
    var h, w := |b|, Width(b);
    var r, e := RotateCw(SweepGrid(RotateCcw(b)).board), LineSlide(b, ToRight);
    forall i, j | 0 <= i < h && 0 <= j < w
      ensures r[i][j] == e[i][j]
    {
      RightCell(b, i, j);
    }
    CellsEqual(r, e, h, w);
  }

  lemma SlideTop(b: Grid)
    requires Rect(b)
    ensures Slide(b, ToTop).board == LineSlide(b, ToTop)
  {
    var h, w := |b|, Width(b);
    var r, e := SweepGrid(b).board, LineSlide(b, ToTop);
    forall i, j | 0 <= i < h && 0 <= j < w
      ensures r[i][j] == e[i][j]
    {
      TopCell(b, i, j);
    }
    CellsEqual(r, e, h, w);
  }

  lemma SlideBottom(b: Grid)
    requires Rect(b)
    ensures Slide(b, ToBottom).board == LineSlide(b, ToBottom)
  {
    var h, w := |b|, Width(b);
    var r, e := RotateHalf(SweepGrid(RotateHalf(b)).board), LineSlide(b, ToBottom);
    forall i, j | 0 <= i < h && 0 <= j < w
      ensures r[i][j] == e[i][j]
    {
      BottomCell(b, i, j);
    }
    CellsEqual(r, e, h, w);
  }

  /** Turning, sweeping and turning back slides every line toward the edge
      the move points at. */
  lemma SlideByLines(b: Grid, a: Action)
    requires Rect(b)
    ensures Slide(b, a).board == LineSlide(b, a)
  {
    match a
    case ToLeft => SlideLeft(b);
    case ToRight => SlideRight(b);
    case ToTop => SlideTop(b);
    case ToBottom => SlideBottom(b);
  }

  /** The slide keeps the sum of the cells. */
  lemma SlideTotal(b: Grid, a: Action)
    requires Rect(b)
    ensures Total(Slide(b, a).board) == Total(b)
  {
    var t := Forward(a, b);
    ForwardRows(a, b);
    TotalTurned(a, b);
    SweepGridTotal(t);
    TotalTurned(a, SweepGrid(t).board);
  }

  /** Every merge removes one tile and nothing else does. */
  lemma SlideTiles(b: Grid, a: Action)
    requires Rect(b)
    ensures TileCount(Slide(b, a).board) + Slide(b, a).merges == TileCount(b)
    ensures Slide(b, a).merges >= 0
  {
    var t := Forward(a, b);
    ForwardRows(a, b);
    TileCountTurned(a, b);
    SweepGridTiles(t);
    TileCountTurned(a, SweepGrid(t).board);
  }

  /** `board_changed` is set exactly when the slide altered the board. */
  lemma SlideChanged(b: Grid, a: Action)
    requires Rect(b)
    ensures Slide(b, a).changed <==> Slide(b, a).board != b
  {
    var t := Forward(a, b);
    ForwardRows(a, b);
    SweepGridChanged(t);
    RoundTrip(a, b);
    BackwardInjective(a, SweepGrid(t).board, t);
  }

  /** A board of empty cells and tile values stays one. */
  lemma SlideValid(b: Grid, a: Action)
    requires Rect(b) && ValidCells(b)
    ensures ValidCells(Slide(b, a).board)
  {
    var t := Forward(a, b);
    ForwardRows(a, b);
    ValidTurned(a, b);
    SweepGridValid(t);
    ValidTurned(a, SweepGrid(t).board);
  }

  /** The sweep reads markers only inside a marker grid shaped like the
      board it sweeps. */
  lemma OwnShapeNeverCrashes(t: Grid)
    requires Rect(t)
    ensures !L.Crashes(t, |t|, Width(t))
  {
  }

  /** game.py:71-106 with the marker grid shaped like the turned board. */
  method SlideBoard(b: Grid, a: Action) returns (board: Grid, changed: bool)
    requires Rect(b)
    ensures board == Slide(b, a).board && changed == Slide(b, a).changed
  {
    var t := Forward(a, b);
    OwnShapeNeverCrashes(t);
    var crashed, swept;
    crashed, swept, changed := L.SweepBoard(t, |t|, |t[0]|);
    board := Backward(a, swept);
  }

  /** game.py:74 as written shapes the marker grid like the board before it
      is turned: a quarter turn of a board that is not square leaves the
      markers with the wrong shape, and a walk can read outside them. */
  predicate SlideCrashes(b: Grid, a: Action)
    requires Rect(b)
  {
    L.Crashes(Forward(a, b), |b|, Width(b))
  }

  /** game.py:71-106 as written: the sweep runs with markers shaped like the
      board before turning, and raises IndexError exactly when `SlideCrashes`. */
  method SlideBoardAsWritten(b: Grid, a: Action) returns (r: Result<Grid>, changed: bool)
    requires Rect(b)
    ensures r.Err? <==> SlideCrashes(b, a)
    ensures r.Err? ==> r.error == IndexError
    ensures r.Ok? ==> r.value == Slide(b, a).board && changed == Slide(b, a).changed
  {
    var t := Forward(a, b);
    var crashed, swept;
    crashed, swept, changed := L.SweepBoard(t, |b|, |b[0]|);
    if crashed {
      return Err(IndexError), changed;
    }
    r := Ok(Backward(a, swept));
  }

  /** Up and down moves, and any move on a square board, never raise. */
  lemma AsWrittenFineWhenSquare(b: Grid, a: Action)
    requires Rect(b) && (!Lateral(a) || |b| == Width(b))
    ensures !SlideCrashes(b, a)
  {
    ForwardRows(a, b);
    OwnShapeNeverCrashes(Forward(a, b));
  }

  /** A left or right move on a board one column wider than high, or square,
      never raises either: the turned board has at most one row more than the
      marker grid, and no more columns. A 2 by 3 board is such a board. */
  lemma NearSquareNeverCrashes(b: Grid, a: Action)
    requires Rect(b) && Lateral(a) && |b| <= Width(b) <= |b| + 1
    ensures !SlideCrashes(b, a)
  {
  }

  /** A single row of four equal tiles [v, v, v, v] moved left: as written,
      the walk of the third tile reads the marker at row 1 of a one-row
      marker grid. */
  lemma WideRowCrashes(v: int)
    requires v != 0
    ensures SlideCrashes([[v, v, v, v]], ToLeft)
  {
    var b: Grid := [[v, v, v, v]];
    var t := Forward(ToLeft, b);
    assert t[2][0] == v;
    assert L.CrashesAt(t, 1, 4, 2, 0);
  }

  /** ... while the slide merges the two pairs: [2v, 2v, 0, 0]. */
  lemma WideRowSlides(v: int)
    requires v != 0
    ensures Slide([[v, v, v, v]], ToLeft).board == [[2 * v, 2 * v, 0, 0]]
  {
    var line := [v, v, v, v];
    SlideByLines([line], ToLeft);
    FourEqual(v);
    assert LineSlide([line], ToLeft) == [SlideLine(line)];
  }

  lemma FourEqual(v: int)
    requires v != 0
    ensures SlideLine([v, v, v, v]) == [2 * v, 2 * v, 0, 0]
  {
    assert NonZeros([v]) == [v] by { assert [v][..0] == []; }
    assert NonZeros([v, v]) == [v, v] by { assert [v, v][..1] == [v]; }
    assert NonZeros([v, v, v]) == [v, v, v] by { assert [v, v, v][..2] == [v, v]; }
    assert NonZeros([v, v, v, v]) == [v, v, v, v] by { assert [v, v, v, v][..3] == [v, v, v]; }
    assert Collapse([v, v]) == [2 * v] by { assert [v, v][2..] == []; }
    assert Collapse([v, v, v, v]) == [2 * v, 2 * v] by { assert [v, v, v, v][2..] == [v, v]; }
  }
}
