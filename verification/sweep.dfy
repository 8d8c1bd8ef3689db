/** The sweep of game.py:78-103 over the whole turned board: every tile, in
    row-major order, walks toward row 0. */
module Sweep {
  import opened Seqs
  import opened Grids
  import opened Reference
  import C = ColumnSweep

  /** The turned board after the sweep, the merge markers, `board_changed`,
      and the number of merges performed. */
  datatype Outcome = Outcome(board: Grid, marked: seq<seq<bool>>, changed: bool, merges: int)

  /** Every column of `g` swept on its own. */
  function SweptColumns(g: Grid): (cols: seq<C.State>)
    requires Rect(g)
    ensures |cols| == Width(g)
    ensures forall j :: 0 <= j < Width(g) ==> cols[j] == C.Sweep(Col(g, j))
  {
    seq(Width(g), j requires 0 <= j < Width(g) => C.Sweep(Col(g, j)))
  }

  function CellsOf(cols: seq<C.State>): (r: seq<seq<int>>)
    ensures |r| == |cols| && forall j :: 0 <= j < |cols| ==> r[j] == cols[j].cells
  {
    seq(|cols|, j requires 0 <= j < |cols| => cols[j].cells)
  }

  function MarksOf(cols: seq<C.State>): (r: seq<seq<bool>>)
    ensures |r| == |cols| && forall j :: 0 <= j < |cols| ==> r[j] == cols[j].marked
  {
    seq(|cols|, j requires 0 <= j < |cols| => cols[j].marked)
  }

  function MergesOf(cols: seq<C.State>): (r: seq<int>)
    ensures |r| == |cols| && forall j :: 0 <= j < |cols| ==> r[j] == cols[j].merges
  {
    seq(|cols|, j requires 0 <= j < |cols| => cols[j].merges)
  }

  /** The whole sweep, column by column. */
  function SweepGrid(g: Grid): (o: Outcome)
    requires Rect(g)
    ensures IsRect(o.board, |g|, Width(g)) && IsRect(o.marked, |g|, Width(g))
    ensures o.merges >= 0
  {
    var cols := SweptColumns(g);
    SumNonNegative(MergesOf(cols));
    Outcome(FromCols(CellsOf(cols), |g|), FromCols(MarksOf(cols), |g|),
            exists j :: 0 <= j < |cols| && cols[j].changed, Sum(MergesOf(cols)))
  }

  /** Column `j` of the swept board and of its markers is column `j` of the
      turned board swept on its own. */
  lemma SweepGridColumns(g: Grid)
    requires Rect(g)
    ensures forall j :: 0 <= j < Width(g) ==> Col(SweepGrid(g).board, j) == C.Sweep(Col(g, j)).cells
    ensures forall j :: 0 <= j < Width(g) ==> Col(SweepGrid(g).marked, j) == C.Sweep(Col(g, j)).marked
  {
    var o, cols := SweepGrid(g), SweptColumns(g);
    forall j | 0 <= j < Width(g)
      ensures Col(o.board, j) == cols[j].cells && Col(o.marked, j) == cols[j].marked
    {
    }
  }

  /** The sweep keeps the sum of the cells. */
  lemma SweepGridTotal(g: Grid)
    requires Rect(g)
    ensures Total(SweepGrid(g).board) == Total(g)
  {
    var w, b := Width(g), SweepGrid(g).board;
    SweepGridColumns(g);
    forall j | 0 <= j < w
      ensures ColSums(b, w)[j] == ColSums(g, w)[j]
    {
    }
    assert ColSums(b, w) == ColSums(g, w);
    TotalByColumns(b, w);
    TotalByColumns(g, w);
  }

  lemma ColMask(g: Grid, w: nat, j: nat)
    requires IsRect(g, |g|, w) && j < w
    ensures IsRect(MaskGrid(g), |g|, w)
    ensures Col(MaskGrid(g), j) == Mask(Col(g, j))
  {
  }

  /** Every merge removes one tile and nothing else does: the tiles after the
      sweep plus the merges are the tiles before it. */
  lemma SweepGridTiles(g: Grid)
    requires Rect(g)
    ensures TileCount(SweepGrid(g).board) + SweepGrid(g).merges == TileCount(g)
  {
    var w, o, cols := Width(g), SweepGrid(g), SweptColumns(g);
    var mb, mg := MaskGrid(o.board), MaskGrid(g);
    SweepGridColumns(g);
    forall j | 0 <= j < w
      ensures AddEach(ColSums(mb, w), MergesOf(cols))[j] == ColSums(mg, w)[j]
    {
      ColMask(o.board, w, j);
      ColMask(g, w, j);
    }
    assert AddEach(ColSums(mb, w), MergesOf(cols)) == ColSums(mg, w);
    SumAddEach(ColSums(mb, w), MergesOf(cols));
    TotalByColumns(mb, w);
    TotalByColumns(mg, w);
  }

  /** Every column of the swept board is the reference slide of the same
      column before: its tiles packed toward row 0, equal neighbours merged
      pairwise starting from row 0; no empty cell is left above a tile. */
  lemma SweepGridSlides(g: Grid)
    requires Rect(g)
    ensures forall j :: 0 <= j < Width(g) ==> Col(SweepGrid(g).board, j) == SlideLine(Col(g, j))
    ensures forall j :: 0 <= j < Width(g) ==> Compact(Col(SweepGrid(g).board, j))
  {
    SweepGridColumns(g);
    forall j | 0 <= j < Width(g)
      ensures Col(SweepGrid(g).board, j) == SlideLine(Col(g, j))
      ensures Compact(Col(SweepGrid(g).board, j))
    {
      C.SweepMatchesReference(Col(g, j));
      C.SweepCompacts(Col(g, j));
    }
  }

  /** Each cell is merged into at most once: in every column the marked cells
      are exactly as many as the merges, and the merges add up to the total. */
  lemma SweepGridMergesOnce(g: Grid)
    requires Rect(g)
    ensures forall j :: 0 <= j < Width(g) ==> CountTrue(Col(SweepGrid(g).marked, j)) == C.Sweep(Col(g, j)).merges
    ensures SweepGrid(g).merges == Sum(seq(Width(g), j requires 0 <= j < Width(g) => C.Sweep(Col(g, j)).merges))
  {
    var cols := SweptColumns(g);
    SweepGridColumns(g);
    forall j | 0 <= j < Width(g)
      ensures CountTrue(Col(SweepGrid(g).marked, j)) == C.Sweep(Col(g, j)).merges
    {
      C.SweepMergesOnce(Col(g, j));
    }
    assert MergesOf(cols) == seq(Width(g), j requires 0 <= j < Width(g) => C.Sweep(Col(g, j)).merges);
  }

  /** A column that changed is a column whose cells differ. */
  lemma ChangedColumnDiffers(g: Grid, j: nat)
    requires Rect(g) && j < Width(g) && SweptColumns(g)[j].changed
    ensures SweepGrid(g).board != g
  {
    SweepGridColumns(g);
    C.SweepChanged(Col(g, j));
    assert Col(SweepGrid(g).board, j) != Col(g, j);
  }

  /** A cell that differs lies in a column that changed. */
  lemma DifferingCellChanged(g: Grid, i: nat, j: nat)
    requires Rect(g) && i < |g| && j < Width(g) && SweepGrid(g).board[i][j] != g[i][j]
    ensures SweptColumns(g)[j].changed
  {
    SweepGridColumns(g);
    assert Col(SweepGrid(g).board, j)[i] != Col(g, j)[i];
    C.SweepChanged(Col(g, j));
  }

  /** `board_changed` is set exactly when the sweep altered some cell. */
  lemma SweepGridChanged(g: Grid)
    requires Rect(g)
    ensures SweepGrid(g).changed <==> SweepGrid(g).board != g
  {
    var w, o, cols := Width(g), SweepGrid(g), SweptColumns(g);
    if o.changed {
      var j :| 0 <= j < w && cols[j].changed;
      ChangedColumnDiffers(g, j);
    }
    if o.board != g {
      var i :| 0 <= i < |g| && o.board[i] != g[i];
      var j :| 0 <= j < w && o.board[i][j] != g[i][j];
      DifferingCellChanged(g, i, j);
    }
  }

  /** A board of empty cells and tile values stays one. */
  lemma SweepGridValid(g: Grid)
    requires Rect(g) && ValidCells(g)
    ensures ValidCells(SweepGrid(g).board)
  {
    var o := SweepGrid(g);
    SweepGridColumns(g);
    forall i, j | 0 <= i < |g| && 0 <= j < Width(g)
      ensures o.board[i][j] == 0 || IsTile(o.board[i][j])
    {
      C.SweepKeepsTiles(Col(g, j));
      assert o.board[i][j] == Col(o.board, j)[i];
    }
  }
}
