/** Merge-free slides of the whole board (game.py:78-106), built on the
    single-line facts of `LineMerges`: a slide that merges nothing only moves
    tiles, and every row or column it slides keeps its tiles in order. */
module BoardMerges {
  import opened Seqs
  import opened Grids
  import opened Rotation
  import opened Reference
  import opened LineMerges
  import C = ColumnSweep
  import opened Sweep
  import opened Slides

  /** The sweep merges nothing exactly when no column's reference slide merges. */
  lemma SweepGridWithoutMerges(g: Grid)
    requires Rect(g)
    ensures SweepGrid(g).merges == 0 <==> forall j :: 0 <= j < Width(g) ==> NoMerge(Col(g, j))
  {
    var ms := seq(Width(g), j requires 0 <= j < Width(g) => C.Sweep(Col(g, j)).merges);
    SweepGridMergesOnce(g);
    SumZero(ms);
    forall j | 0 <= j < Width(g)
      ensures ms[j] == 0 <==> NoMerge(Col(g, j))
    {
      SweepMergeCount(Col(g, j));
    }
  }

  /** Number of lines a move slides: rows for a move to the left or right,
      columns for a move up or down. */
  function LineCount(g: Grid, a: Action): nat
  {
    if Lateral(a) then |g| else Width(g)
  }

  /** Line `k` of the lines a move slides, in board order. */
  function MovedLine(g: Grid, a: Action, k: nat): (line: seq<int>)
    requires Rect(g) && k < LineCount(g, a)
  {
    if Lateral(a) then g[k] else Col(g, k)
  }

  /** The column of the turned board that holds line `k`. */
  function TurnedIndex(b: Grid, a: Action, k: nat): (c: nat)
    requires Rect(b) && k < LineCount(b, a)
    ensures c < LineCount(b, a)
  {
    match a
    case ToLeft => |b| - 1 - k
    case ToRight => k
    case ToTop => k
    case ToBottom => Width(b) - 1 - k
  }

  /** The column of the turned board that carries line `k`. */
  function Carried(b: Grid, a: Action, k: nat): (c: seq<int>)
    requires Rect(b) && k < LineCount(b, a)
  {
    ForwardRows(a, b);
    Col(Forward(a, b), TurnedIndex(b, a, k))
  }

  /** The same line after the slide. */
  function SlidLine(b: Grid, a: Action, k: nat): (line: seq<int>)
    requires Rect(b) && k < LineCount(b, a)
  {
    MovedLine(Slide(b, a).board, a, k)
  }

  /** Sliding a line toward its far end keeps its tiles exactly when the
      reversed line merges nothing. */
  lemma SlideLineBackKeepsTiles(line: seq<int>)
    ensures NoMerge(Reverse(line)) <==> NonZeros(SlideLineBack(line)) == NonZeros(line)
  {
    var r := Reverse(line);
    var x, y := NonZeros(SlideLine(r)), NonZeros(r);
    SlideLineKeepsTiles(r);
    NonZerosReverse(SlideLine(r));
    ReverseTwice(line);
    NonZerosReverse(r);
    ReverseEqual(x, y);
  }

  /** Column `k` after a move up is column `k` slid by the reference. */
  lemma TopCol(b: Grid, k: nat)
    requires Rect(b) && k < Width(b)
    ensures Col(Slide(b, ToTop).board, k) == SlideLine(Col(b, k))
  {
    SlideTop(b);
    var cols := seq(Width(b), j requires 0 <= j < Width(b) => SlideLine(Col(b, j)));
    assert Col(FromCols(cols, |b|), k) == cols[k];
  }

  /** Column `k` after a move down is column `k` slid toward its far end. */
  lemma BottomCol(b: Grid, k: nat)
    requires Rect(b) && k < Width(b)
    ensures Col(Slide(b, ToBottom).board, k) == SlideLineBack(Col(b, k))
  {
    SlideBottom(b);
    var cols := seq(Width(b), j requires 0 <= j < Width(b) => SlideLineBack(Col(b, j)));
    assert Col(FromCols(cols, |b|), k) == cols[k];
  }

  lemma LeftCarried(b: Grid, k: nat)
    requires Rect(b) && k < |b|
    ensures Carried(b, ToLeft, k) == b[k]
  {
    CwCol(b, k);
  }

  lemma LeftSlid(b: Grid, k: nat)
    requires Rect(b) && k < |b|
    ensures SlidLine(b, ToLeft, k) == SlideLine(b[k])
  {
    SlideLeft(b);
  }

  lemma LeftKeepsTiles(b: Grid, k: nat)
    requires Rect(b) && k < |b|
    ensures NoMerge(Carried(b, ToLeft, k)) <==> NonZeros(SlidLine(b, ToLeft, k)) == NonZeros(MovedLine(b, ToLeft, k))
  {
    LeftCarried(b, k);
    LeftSlid(b, k);
    SlideLineKeepsTiles(b[k]);
  }

  lemma RightCarried(b: Grid, k: nat)
    requires Rect(b) && k < |b|
    ensures Carried(b, ToRight, k) == Reverse(b[k])
  {
    CcwCol(b, k);
  }

  lemma RightSlid(b: Grid, k: nat)
    requires Rect(b) && k < |b|
    ensures SlidLine(b, ToRight, k) == SlideLineBack(b[k])
  {
    SlideRight(b);
  }

  lemma RightKeepsTiles(b: Grid, k: nat)
    requires Rect(b) && k < |b|
    ensures NoMerge(Carried(b, ToRight, k)) <==> NonZeros(SlidLine(b, ToRight, k)) == NonZeros(MovedLine(b, ToRight, k))
  {
    RightCarried(b, k);
    RightSlid(b, k);
    SlideLineBackKeepsTiles(b[k]);
  }

  lemma TopCarried(b: Grid, k: nat)
    requires Rect(b) && k < Width(b)
    ensures Carried(b, ToTop, k) == Col(b, k)
  {
  }

  lemma TopSlid(b: Grid, k: nat)
    requires Rect(b) && k < Width(b)
    ensures SlidLine(b, ToTop, k) == SlideLine(Col(b, k))
  {
    TopCol(b, k);
  }

  lemma TopKeepsTiles(b: Grid, k: nat)
    requires Rect(b) && k < Width(b)
    ensures NoMerge(Carried(b, ToTop, k)) <==> NonZeros(SlidLine(b, ToTop, k)) == NonZeros(MovedLine(b, ToTop, k))
  {
    TopCarried(b, k);
    TopSlid(b, k);
    SlideLineKeepsTiles(Col(b, k));
  }

  lemma BottomCarried(b: Grid, k: nat)
    requires Rect(b) && k < Width(b)
    ensures Carried(b, ToBottom, k) == Reverse(Col(b, k))
  {
    HalfCol(b, k);
  }

  lemma BottomSlid(b: Grid, k: nat)
    requires Rect(b) && k < Width(b)
    ensures SlidLine(b, ToBottom, k) == SlideLineBack(Col(b, k))
  {
    BottomCol(b, k);
  }

  lemma BottomKeepsTiles(b: Grid, k: nat)
    requires Rect(b) && k < Width(b)
    ensures NoMerge(Carried(b, ToBottom, k)) <==> NonZeros(SlidLine(b, ToBottom, k)) == NonZeros(MovedLine(b, ToBottom, k))
  {
    BottomCarried(b, k);
    BottomSlid(b, k);
    SlideLineBackKeepsTiles(Col(b, k));
  }

  lemma SlideMergesTurned(b: Grid, a: Action)
    requires Rect(b)
    ensures Width(Forward(a, b)) == LineCount(b, a)
    ensures Slide(b, a).merges == SweepGrid(Forward(a, b)).merges
  {
    ForwardRows(a, b);
  }

  /** Each turned column carries exactly one line. */
  lemma TurnedIndexTwice(b: Grid, a: Action, c: nat)
    requires Rect(b) && c < LineCount(b, a)
    ensures TurnedIndex(b, a, TurnedIndex(b, a, c)) == c
  {
  }

  /** Line `k` keeps its tiles through the slide exactly when the turned
      column that carries it merges nothing. */
  lemma LineKeepsTiles(b: Grid, a: Action, k: nat)
    requires Rect(b) && k < LineCount(b, a)
    ensures NoMerge(Carried(b, a, k)) <==> NonZeros(SlidLine(b, a, k)) == NonZeros(MovedLine(b, a, k))
  {
    match a
    case ToLeft => LeftKeepsTiles(b, k);
    case ToRight => RightKeepsTiles(b, k);
    case ToTop => TopKeepsTiles(b, k);
    case ToBottom => BottomKeepsTiles(b, k);
  }

  /** A slide merges nothing exactly when no line it slides merges. */
  lemma SlideMergeFree(b: Grid, a: Action)
    requires Rect(b)
    ensures Slide(b, a).merges == 0 <==> forall k :: 0 <= k < LineCount(b, a) ==> NoMerge(Carried(b, a, k))
  {
    var t := Forward(a, b);
    SlideMergesTurned(b, a);
    SweepGridWithoutMerges(t);
    forall c | 0 <= c < Width(t)
      ensures NoMerge(Col(t, c)) == NoMerge(Carried(b, a, TurnedIndex(b, a, c)))
    {
      TurnedIndexTwice(b, a, c);
    }
    forall k | 0 <= k < LineCount(b, a)
      ensures NoMerge(Carried(b, a, k)) == NoMerge(Col(t, TurnedIndex(b, a, k)))
    {
    }
  }

  /** A slide merges nothing exactly when every line it slides keeps its
      tiles, in order: the tiles only move toward the edge. */
  lemma SlideWithoutMerges(b: Grid, a: Action)
    requires Rect(b)
    ensures Slide(b, a).merges == 0
        <==> forall k :: 0 <= k < LineCount(b, a) ==> NonZeros(SlidLine(b, a, k)) == NonZeros(MovedLine(b, a, k))
  {
    SlideMergeFree(b, a);
    forall k | 0 <= k < LineCount(b, a)
      ensures NoMerge(Carried(b, a, k)) <==> NonZeros(SlidLine(b, a, k)) == NonZeros(MovedLine(b, a, k))
    {
      LineKeepsTiles(b, a, k);
    }
  }
}
