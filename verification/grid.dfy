/** The board: a rectangular grid of integer cells, 0 for an empty cell and a
    power of two for a tile (game.py:23 stores it as a numpy array). */
module Grids {
  import opened Seqs

  type Grid = seq<seq<int>>

  /** `g` has `h` rows of `w` cells each. */
  predicate IsRect<T>(g: seq<seq<T>>, h: nat, w: nat)
  {
    |g| == h && forall i :: 0 <= i < h ==> |g[i]| == w
  }

  /** A board with at least one row and one column, every row as wide as the first. */
  predicate Rect(g: Grid)
  {
    |g| > 0 && |g[0]| > 0 && IsRect(g, |g|, |g[0]|)
  }

  function Width(g: Grid): nat
  {
    if |g| == 0 then 0 else |g[0]|
  }

  /** Column `j`, read from row 0 down. */
  function Col<T>(g: seq<seq<T>>, j: nat): (c: seq<T>)
    requires forall i :: 0 <= i < |g| ==> j < |g[i]|
    ensures |c| == |g|
    ensures forall i :: 0 <= i < |g| ==> c[i] == g[i][j]
  {
    seq(|g|, i requires 0 <= i < |g| => g[i][j])
  }

  /** The grid whose columns, left to right, are `cols`. */
  function FromCols<T>(cols: seq<seq<T>>, h: nat): (g: seq<seq<T>>)
    requires forall j :: 0 <= j < |cols| ==> |cols[j]| == h
    ensures IsRect(g, h, |cols|)
    ensures forall i, j :: 0 <= i < h && 0 <= j < |cols| ==> g[i][j] == cols[j][i]
  {
    seq(h, i requires 0 <= i < h => seq(|cols|, j requires 0 <= j < |cols| => cols[j][i]))
  }

  /** Two grids of the same shape that agree on every cell are equal. */
  lemma CellsEqual<T>(a: seq<seq<T>>, b: seq<seq<T>>, h: nat, w: nat)
    requires IsRect(a, h, w) && IsRect(b, h, w)
    requires forall i, j :: 0 <= i < h && 0 <= j < w ==> a[i][j] == b[i][j]
    ensures a == b
  {
    forall i | 0 <= i < h
      ensures a[i] == b[i]
    {
    }
  }

  /** `g` with cell (r, c) set to `v`; every other cell as before. */
  function SetCell<T>(g: seq<seq<T>>, r: nat, c: nat, v: T): (g': seq<seq<T>>)
    requires r < |g| && c < |g[r]|
    ensures |g'| == |g| && forall i :: 0 <= i < |g| ==> |g'[i]| == |g[i]|
    ensures g'[r][c] == v
    ensures forall i, j :: 0 <= i < |g| && 0 <= j < |g[i]| && (i != r || j != c) ==> g'[i][j] == g[i][j]
  {
    g[r := g[r][c := v]]
  }

  function RowSums(g: Grid): (r: seq<int>)
    ensures |r| == |g|
  {
    seq(|g|, i requires 0 <= i < |g| => Sum(g[i]))
  }

  /** Sum of every cell of the board. */
  function Total(g: Grid): int
  {
    Sum(RowSums(g))
  }

  function ColSums(g: Grid, w: nat): (r: seq<int>)
    requires IsRect(g, |g|, w)
    ensures |r| == w
  {
    seq(w, j requires 0 <= j < w => Sum(Col(g, j)))
  }

  /** The board with every tile replaced by 1. */
  function MaskGrid(g: Grid): (m: Grid)
    ensures |m| == |g|
    ensures forall i :: 0 <= i < |g| ==> m[i] == Mask(g[i])
  {
    seq(|g|, i requires 0 <= i < |g| => Mask(g[i]))
  }

  /** Number of tiles (nonzero cells) on the board. */
  function TileCount(g: Grid): int
  {
    Total(MaskGrid(g))
  }

  /** Some cell holds `v` (numpy's `v in board`). */
  predicate Contains(g: Grid, v: int)
  {
    exists i, j :: 0 <= i < |g| && 0 <= j < |g[i]| && g[i][j] == v
  }

  predicate IsPowerOfTwo(n: int)
    decreases if n < 0 then 0 else n
  {
    n == 1 || (n > 1 && n % 2 == 0 && IsPowerOfTwo(n / 2))
  }

  /** A value a tile may hold: 2, 4, 8, ... */
  predicate IsTile(v: int)
  {
    v >= 2 && IsPowerOfTwo(v)
  }

  /** Every cell is empty or holds a tile value. */
  predicate ValidCells(g: Grid)
  {
    forall i, j :: 0 <= i < |g| && 0 <= j < |g[i]| ==> g[i][j] == 0 || IsTile(g[i][j])
  }

  lemma DoubleTile(v: int)
    requires IsTile(v)
    ensures IsTile(2 * v)
  {
    assert (2 * v) / 2 == v;
  }

  /** Writing `v` into one cell changes the total by what was lost and what was gained. */
  lemma TotalSetCell(g: Grid, r: nat, c: nat, v: int)
    requires r < |g| && c < |g[r]|
    ensures Total(SetCell(g, r, c, v)) == Total(g) - g[r][c] + v
  {
    var g' := SetCell(g, r, c, v);
    assert g'[r] == g[r][c := v];
    SumUpdate(g[r], c, v);
    assert RowSums(g') == RowSums(g)[r := Sum(g'[r])];
    SumUpdate(RowSums(g), r, Sum(g'[r]));
  }

  /** Writing `v` into one cell changes the tile count by what was lost and what was gained. */
  lemma TileCountSetCell(g: Grid, r: nat, c: nat, v: int)
    requires r < |g| && c < |g[r]|
    ensures TileCount(SetCell(g, r, c, v))
            == TileCount(g) - (if g[r][c] != 0 then 1 else 0) + (if v != 0 then 1 else 0)
  {
    var bit := if v != 0 then 1 else 0;
    var m := MaskGrid(g);
    assert MaskGrid(SetCell(g, r, c, v)) == SetCell(m, r, c, bit) by {
      assert MaskGrid(SetCell(g, r, c, v))[r] == Mask(g[r][c := v]) == Mask(g[r])[c := bit];
    }
    TotalSetCell(m, r, c, bit);
  }

  /** Summing by columns gives the same total as summing by rows. */
  lemma {:induction false} TotalByColumns(g: Grid, w: nat)
    requires IsRect(g, |g|, w)
    ensures Sum(ColSums(g, w)) == Total(g)
    decreases |g|
  {
    if |g| == 0 {
      assert ColSums(g, w) == Zeros(w);
      SumZeros(w);
    } else {
      var h := |g| - 1;
      var up := g[..h];
      var last := g[h];
      assert RowSums(g)[..h] == RowSums(up);
      forall j | 0 <= j < w
        ensures ColSums(g, w)[j] == ColSums(up, w)[j] + last[j]
      {
        assert Col(g, j)[..h] == Col(up, j);
      }
      assert ColSums(g, w) == AddEach(ColSums(up, w), last);
      SumAddEach(ColSums(up, w), last);
      TotalByColumns(up, w);
    }
  }
}
