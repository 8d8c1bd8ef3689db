/** Turning the board so that the chosen direction points at row 0, and back
    (game.py:47-57). The quarter and half turns are those of numpy's `rot90`,
    written as index maps. */
module Rotation {
  import opened Seqs
  import opened Grids

  /** The four move directions (game.py:6-10). */
  datatype Action = ToLeft | ToRight | ToTop | ToBottom

  /** `rot90(g, k=1)`: a quarter turn counter-clockwise; the right column becomes row 0. */
  function RotateCcw(g: Grid): (r: Grid)
    requires Rect(g)
    ensures Rect(r) && |r| == Width(g) && Width(r) == |g|
    ensures forall i, j :: 0 <= i < Width(g) && 0 <= j < |g| ==> r[i][j] == g[j][Width(g) - 1 - i]
  {
    var h, w := |g|, |g[0]|;
    seq(w, i requires 0 <= i < w => seq(h, j requires 0 <= j < h => g[j][w - 1 - i]))
  }

  /** `rot90(g, k=-1)`: a quarter turn clockwise; the left column becomes row 0. */
  function RotateCw(g: Grid): (r: Grid)
    requires Rect(g)
    ensures Rect(r) && |r| == Width(g) && Width(r) == |g|
    ensures forall i, j :: 0 <= i < Width(g) && 0 <= j < |g| ==> r[i][j] == g[|g| - 1 - j][i]
  {
    var h, w := |g|, |g[0]|;
    seq(w, i requires 0 <= i < w => seq(h, j requires 0 <= j < h => g[h - 1 - j][i]))
  }

  /** `rot90(g, k=2)`: a half turn; the bottom row becomes row 0. */
  function RotateHalf(g: Grid): (r: Grid)
    requires Rect(g)
    ensures Rect(r) && |r| == |g| && Width(r) == Width(g)
    ensures forall i, j :: 0 <= i < |g| && 0 <= j < Width(g) ==> r[i][j] == g[|g| - 1 - i][Width(g) - 1 - j]
  {
    var h, w := |g|, |g[0]|;
    seq(h, i requires 0 <= i < h => seq(w, j requires 0 <= j < w => g[h - 1 - i][w - 1 - j]))
  }

  /** The turn applied before the sweep. */
  function Forward(a: Action, g: Grid): (r: Grid)
    requires Rect(g)
    ensures Rect(r)
  {
    match a
    case ToTop => g
    case ToBottom => RotateHalf(g)
    case ToLeft => RotateCw(g)
    case ToRight => RotateCcw(g)
  }

  /** The turn applied after the sweep (`backward=True`). */
  function Backward(a: Action, g: Grid): (r: Grid)
    requires Rect(g)
    ensures Rect(r)
  {
    match a
    case ToTop => g
    case ToBottom => RotateHalf(g)
    case ToLeft => RotateCcw(g)
    case ToRight => RotateCw(g)
  }

  /** Whether the direction turns the board a quarter, swapping height and width. */
  predicate Lateral(a: Action)
  {
    a == ToLeft || a == ToRight
  }

  /** The line of cells lying `k` steps from the edge `a` points at, read in the
      order the turned board holds it. Defined from rows and columns only. */
  function EdgeLine(a: Action, g: Grid, k: nat): seq<int>
    requires Rect(g)
    requires if Lateral(a) then k < Width(g) else k < |g|
  {
    match a
    case ToTop => g[k]
    case ToBottom => Reverse(g[|g| - 1 - k])
    case ToLeft => Reverse(Col(g, k))
    case ToRight => Col(g, Width(g) - 1 - k)
  }

  /** The turned board has one row per line parallel to the target edge (height
      and width swap exactly for lateral moves), and its row `k` is the line `k`
      steps away from that edge: the direction of the move points at row 0. */
  lemma ForwardRows(a: Action, g: Grid)
    requires Rect(g)
    ensures |Forward(a, g)| == (if Lateral(a) then Width(g) else |g|)
    ensures Width(Forward(a, g)) == (if Lateral(a) then |g| else Width(g))
    ensures forall k :: 0 <= k < |Forward(a, g)| ==> Forward(a, g)[k] == EdgeLine(a, g, k)
  {
    var r := Forward(a, g);
    forall k | 0 <= k < |r|
      ensures r[k] == EdgeLine(a, g, k)
    {
      assert |r[k]| == |EdgeLine(a, g, k)|;
    }
  }

  lemma CcwThenCw(g: Grid)
    requires Rect(g)
    ensures RotateCw(RotateCcw(g)) == g
  {
    var r := RotateCw(RotateCcw(g));
    forall i | 0 <= i < |g|
      ensures r[i] == g[i]
    {
    }
  }

  lemma CwThenCcw(g: Grid)
    requires Rect(g)
    ensures RotateCcw(RotateCw(g)) == g
  {
    var r := RotateCcw(RotateCw(g));
    forall i | 0 <= i < |g|
      ensures r[i] == g[i]
    {
    }
  }

  lemma HalfThenHalf(g: Grid)
    requires Rect(g)
    ensures RotateHalf(RotateHalf(g)) == g
  {
    var r := RotateHalf(RotateHalf(g));
    forall i | 0 <= i < |g|
      ensures r[i] == g[i]
    {
    }
  }

  /** Turning back after turning forward restores the board, for every direction. */
  lemma RoundTrip(a: Action, g: Grid)
    requires Rect(g)
    ensures Backward(a, Forward(a, g)) == g
  {
    match a
    case ToTop =>
    case ToBottom => HalfThenHalf(g);
    case ToLeft => CwThenCcw(g);
    case ToRight => CcwThenCw(g);
  }

  /** ... and turning forward after turning back does too. */
  lemma RoundTripBack(a: Action, g: Grid)
    requires Rect(g)
    ensures Forward(a, Backward(a, g)) == g
  {
    match a
    case ToTop =>
    case ToBottom => HalfThenHalf(g);
    case ToLeft => CcwThenCw(g);
    case ToRight => CwThenCcw(g);
  }

  /** Turning back loses nothing: distinct boards stay distinct. */
  lemma BackwardInjective(a: Action, x: Grid, y: Grid)
    requires Rect(x) && Rect(y)
    ensures Backward(a, x) == Backward(a, y) <==> x == y
  {
    RoundTripBack(a, x);
    RoundTripBack(a, y);
  }

  lemma TotalCw(g: Grid)
    requires Rect(g)
    ensures Total(RotateCw(g)) == Total(g)
  {
    var w := Width(g);
    var r := RotateCw(g);
    forall i | 0 <= i < w
      ensures RowSums(r)[i] == ColSums(g, w)[i]
    {
      assert r[i] == Reverse(Col(g, i));
      SumReverse(Col(g, i));
    }
    assert RowSums(r) == ColSums(g, w);
    TotalByColumns(g, w);
  }

  lemma TotalCcw(g: Grid)
    requires Rect(g)
    ensures Total(RotateCcw(g)) == Total(g)
  {
    var w := Width(g);
    var r := RotateCcw(g);
    forall i | 0 <= i < w
      ensures RowSums(r)[i] == Reverse(ColSums(g, w))[i]
    {
      assert r[i] == Col(g, w - 1 - i);
    }
    assert RowSums(r) == Reverse(ColSums(g, w));
    SumReverse(ColSums(g, w));
    TotalByColumns(g, w);
  }

  lemma TotalHalf(g: Grid)
    requires Rect(g)
    ensures Total(RotateHalf(g)) == Total(g)
  {
    var h := |g|;
    var r := RotateHalf(g);
    forall i | 0 <= i < h
      ensures RowSums(r)[i] == Reverse(RowSums(g))[i]
    {
      assert r[i] == Reverse(g[h - 1 - i]);
      SumReverse(g[h - 1 - i]);
    }
    assert RowSums(r) == Reverse(RowSums(g));
    SumReverse(RowSums(g));
  }

  /** Turning the board in either sense keeps the sum of its cells. */
  lemma TotalTurned(a: Action, g: Grid)
    requires Rect(g)
    ensures Total(Forward(a, g)) == Total(g)
    ensures Total(Backward(a, g)) == Total(g)
  {
    match a
    case ToTop =>
    case ToBottom => TotalHalf(g);
    case ToLeft => TotalCw(g); TotalCcw(g);
    case ToRight => TotalCcw(g); TotalCw(g);
  }

  lemma MaskCw(g: Grid)
    requires Rect(g)
    ensures Rect(MaskGrid(g)) && MaskGrid(RotateCw(g)) == RotateCw(MaskGrid(g))
  {
    var f, f' := MaskGrid(RotateCw(g)), RotateCw(MaskGrid(g));
    forall i | 0 <= i < |f|
      ensures f[i] == f'[i]
    {
    }
  }

  lemma MaskCcw(g: Grid)
    requires Rect(g)
    ensures Rect(MaskGrid(g)) && MaskGrid(RotateCcw(g)) == RotateCcw(MaskGrid(g))
  {
    var f, f' := MaskGrid(RotateCcw(g)), RotateCcw(MaskGrid(g));
    forall i | 0 <= i < |f|
      ensures f[i] == f'[i]
    {
    }
  }

  lemma MaskHalf(g: Grid)
    requires Rect(g)
    ensures Rect(MaskGrid(g)) && MaskGrid(RotateHalf(g)) == RotateHalf(MaskGrid(g))
  {
    var f, f' := MaskGrid(RotateHalf(g)), RotateHalf(MaskGrid(g));
    forall i | 0 <= i < |f|
      ensures f[i] == f'[i]
    {
    }
  }

  /** Masking tiles commutes with turning. */
  lemma MaskTurned(a: Action, g: Grid)
    requires Rect(g)
    ensures Rect(MaskGrid(g))
    ensures MaskGrid(Forward(a, g)) == Forward(a, MaskGrid(g))
    ensures MaskGrid(Backward(a, g)) == Backward(a, MaskGrid(g))
  {
    MaskCw(g);
    MaskCcw(g);
    MaskHalf(g);
  }

  /** Turning the board in either sense keeps the number of tiles. */
  lemma TileCountTurned(a: Action, g: Grid)
    requires Rect(g)
    ensures TileCount(Forward(a, g)) == TileCount(g)
    ensures TileCount(Backward(a, g)) == TileCount(g)
  {
    MaskTurned(a, g);
    TotalTurned(a, MaskGrid(g));
  }

  lemma ValidCw(g: Grid)
    requires Rect(g) && ValidCells(g)
    ensures ValidCells(RotateCw(g))
  {
    var r := RotateCw(g);
    forall i, j | 0 <= i < |r| && 0 <= j < |r[i]|
      ensures r[i][j] == 0 || IsTile(r[i][j])
    {
      assert r[i][j] == g[|g| - 1 - j][i];
    }
  }

  lemma ValidCcw(g: Grid)
    requires Rect(g) && ValidCells(g)
    ensures ValidCells(RotateCcw(g))
  {
    var r := RotateCcw(g);
    forall i, j | 0 <= i < |r| && 0 <= j < |r[i]|
      ensures r[i][j] == 0 || IsTile(r[i][j])
    {
      assert r[i][j] == g[j][Width(g) - 1 - i];
    }
  }

  lemma ValidHalf(g: Grid)
    requires Rect(g) && ValidCells(g)
    ensures ValidCells(RotateHalf(g))
  {
    var r := RotateHalf(g);
    forall i, j | 0 <= i < |r| && 0 <= j < |r[i]|
      ensures r[i][j] == 0 || IsTile(r[i][j])
    {
      assert r[i][j] == g[|g| - 1 - i][Width(g) - 1 - j];
    }
  }

  /** Turning only moves cells: a board of tile values stays one. */
  lemma ValidTurned(a: Action, g: Grid)
    requires Rect(g) && ValidCells(g)
    ensures ValidCells(Forward(a, g)) && ValidCells(Backward(a, g))
  {
    ValidCw(g);
    ValidCcw(g);
    ValidHalf(g);
  }
}
