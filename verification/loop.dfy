/** The sweep of game.py:78-103 as the source runs it: a row-major pass over
    the turned board in which every tile walks toward row 0, with the merge
    markers held in a separate boolean grid (`already_summed_board`, created at
    game.py:74). The marker grid's shape is a parameter: numpy raises an
    IndexError when the walk reads a marker outside it. */
module SweepLoop {
  import opened Grids
  import opened Sweep
  import C = ColumnSweep

  /** Visiting cell (i, j) reads the marker at (i - 1, j) outside a marker grid
      of `mh` rows and `mw` columns: the cell holds a tile that is not in row 0. */
  predicate CrashesAt(g: Grid, mh: nat, mw: nat, i: nat, j: nat)
  {
    1 <= i < |g| && j < |g[i]| && g[i][j] != 0 && (i - 1 >= mh || j >= mw)
  }

  /** Some visit reads a marker outside the marker grid. */
  predicate Crashes(g: Grid, mh: nat, mw: nat)
  {
    exists i: nat, j: nat | i < |g| && j < |g[i]| :: CrashesAt(g, mh, mw, i, j)
  }

  /** The markers agree with the columns' marks wherever both exist. */
  ghost predicate MarksAgree(marked: seq<seq<bool>>, mh: nat, mw: nat, cols: seq<C.State>, h: nat)
    requires IsRect(marked, mh, mw)
    requires forall c :: 0 <= c < |cols| ==> |cols[c].marked| == h
  {
    forall r, c :: 0 <= r < mh && r < h && 0 <= c < mw && c < |cols| ==> marked[r][c] == cols[c].marked[r]
  }

  /** During the walk in column `j`: the board's column `j` and the markers'
      column `j` are those of the column state `t`, and every other column of
      both is as it was before the walk. */
  ghost predicate Mirrors(b: Grid, m: seq<seq<bool>>, board: Grid, marked: seq<seq<bool>>,
                          h: nat, w: nat, mh: nat, mw: nat, j: nat, t: C.State)
  {
    && IsRect(b, h, w) && IsRect(m, mh, mw) && IsRect(board, h, w) && IsRect(marked, mh, mw) && j < w
    && C.WellFormed(t) && |t.cells| == h
    && (forall r :: 0 <= r < h ==> b[r][j] == t.cells[r])
    && (forall r, c :: 0 <= r < h && 0 <= c < w && c != j ==> b[r][c] == board[r][c])
    && (forall r, c :: 0 <= r < mh && 0 <= c < mw && c != j ==> m[r][c] == marked[r][c])
    && (forall r :: 0 <= r < mh && r < h && j < mw ==> m[r][j] == t.marked[r])
  }

  /** What the walk reads from the board and the markers is what the column
      state holds. */
  lemma MirrorsReads(b: Grid, m: seq<seq<bool>>, board: Grid, marked: seq<seq<bool>>,
                     h: nat, w: nat, mh: nat, mw: nat, j: nat, t: C.State, p: nat)
    requires Mirrors(b, m, board, marked, h, w, mh, mw, j, t) && p < h
    ensures b[p][j] == t.cells[p]
    ensures p < mh && j < mw ==> m[p][j] == t.marked[p]
  {
  }

  /** The merge of game.py:92-95: the cell above doubles and is marked, the
      tile's own cell empties; on the column state this is `MergeUp`. */
  method MergeInto(b: Grid, m: seq<seq<bool>>, h: nat, w: nat, mh: nat, mw: nat,
                   j: nat, pos: nat, up: nat, item: int,
                   ghost board: Grid, ghost marked: seq<seq<bool>>, ghost t: C.State)
    returns (b': Grid, m': seq<seq<bool>>)
    requires Mirrors(b, m, board, marked, h, w, mh, mw, j, t)
    requires 0 < pos < h && up == pos - 1 && up < mh && j < mw && item != 0
    requires t.cells[pos] == item && t.cells[up] == item && !t.marked[up]
    ensures Mirrors(b', m', board, marked, h, w, mh, mw, j, C.MergeUp(t, pos, item))
  {
    b' := SetCell(b, up, j, item * 2);
    m' := SetCell(m, up, j, true);
    b' := SetCell(b', pos, j, 0);
  }

  /** The slide of game.py:100-103: the tile moves into the empty cell above;
      on the column state this is `SlideUp`. */
  method SlideInto(b: Grid, m: seq<seq<bool>>, h: nat, w: nat, mh: nat, mw: nat,
                   j: nat, pos: nat, up: nat, item: int,
                   ghost board: Grid, ghost marked: seq<seq<bool>>, ghost t: C.State)
    returns (b': Grid)
    requires Mirrors(b, m, board, marked, h, w, mh, mw, j, t)
    requires 0 < pos < h && up == pos - 1 && item != 0
    requires t.cells[pos] == item && t.cells[up] == 0
    ensures Mirrors(b', m, board, marked, h, w, mh, mw, j, C.SlideUp(t, pos, item))
  {
    b' := SetCell(b, up, j, item);
    b' := SetCell(b', pos, j, 0);
  }

  /** One round of the `for k` loop of game.py:82-103 for the tile `item`
      now at (pos, j): stop at the edge, fail on a marker read outside the
      marker grid, stop under a marked cell, merge into an equal tile, stop
      under a different tile, or slide into the empty cell above and go on.
      On the column state it is one step of `ColumnSweep.Walk`. */
  method WalkStep(b: Grid, m: seq<seq<bool>>, changed: bool, h: nat, w: nat, mh: nat, mw: nat,
                  j: nat, pos: nat, item: int,
                  ghost board: Grid, ghost marked: seq<seq<bool>>, ghost t: C.State)
    returns (crashed: bool, walking: bool, b': Grid, m': seq<seq<bool>>, changed': bool, pos': nat,
             ghost t': C.State)
    requires Mirrors(b, m, board, marked, h, w, mh, mw, j, t)
    requires pos < h && item != 0 && t.cells[pos] == item
    ensures crashed <==> pos >= 1 && (pos - 1 >= mh || j >= mw)
    ensures !crashed ==> Mirrors(b', m', board, marked, h, w, mh, mw, j, t') && pos' <= pos
    ensures !crashed ==> (t' == t && changed' == changed) || (t'.changed && changed')
    ensures !crashed && walking ==> pos' < pos && t'.cells[pos'] == item
    ensures !crashed && walking ==> C.Walk(t', pos', item) == C.Walk(t, pos, item)
    ensures !crashed && !walking ==> t' == C.Walk(t, pos, item)
  {
    b', m', changed', pos', t' := b, m, changed, pos, t;
    crashed, walking := false, false;
    if pos == 0 {
      // the next position would have row -1
      C.WalkStops(t, pos, item);
      return;
    }
    var up: nat := pos - 1;
    if up >= mh || j >= mw {
      // numpy's IndexError on the marker grid
      crashed := true;
      return;
    }
    MirrorsReads(b, m, board, marked, h, w, mh, mw, j, t, up);
    if m[up][j] {
      C.WalkStops(t, pos, item);
    } else if b[up][j] == item {
      C.WalkMerges(t, pos, up, item);
      b', m' := MergeInto(b, m, h, w, mh, mw, j, pos, up, item, board, marked, t);
      changed' := true;
      t' := C.MergeUp(t, pos, item);
    } else if b[up][j] != 0 {
      C.WalkStops(t, pos, item);
    } else {
      C.WalkSlides(t, pos, up, item);
      b' := SlideInto(b, m, h, w, mh, mw, j, pos, up, item, board, marked, t);
      changed' := true;
      t' := C.SlideUp(t, pos, item);
      pos' := up;
      walking := true;
    }
  }

  /** The walk of the tile `item` from cell (i, j) (game.py:81-103), on the
      board and the markers. `s` is column `j` as the column model sees it;
      the walk does to column `j` what `ColumnSweep.Walk` does to `s`, and
      nothing to any other column. It fails exactly when its first step reads
      a marker outside the marker grid. */
  method WalkTile(board: Grid, marked: seq<seq<bool>>, changed: bool, h: nat, w: nat, mh: nat, mw: nat,
                  i: nat, j: nat, item: int, ghost s: C.State)
    returns (crashed: bool, board': Grid, marked': seq<seq<bool>>, changed': bool)
    requires Mirrors(board, marked, board, marked, h, w, mh, mw, j, s)
    requires i < h && item != 0 && s.cells[i] == item
    requires s.changed ==> changed
    ensures crashed <==> i >= 1 && (i - 1 >= mh || j >= mw)
    ensures !crashed ==> Mirrors(board', marked', board, marked, h, w, mh, mw, j, C.Walk(s, i, item))
    ensures !crashed ==> changed' == (changed || C.Walk(s, i, item).changed)
  {
    board', marked', changed' := board, marked, changed;
    crashed := false;
    ghost var t := s;
    var pos: nat := i;
    var walking := true;
    while walking
      invariant Mirrors(board', marked', board, marked, h, w, mh, mw, j, t)
      invariant pos <= i && pos < h && (walking ==> t.cells[pos] == item)
      invariant walking ==> C.Walk(t, pos, item) == C.Walk(s, i, item)
      invariant !walking ==> t == C.Walk(s, i, item)
      invariant (i >= 1 && (i - 1 >= mh || j >= mw)) ==> walking && pos == i
      invariant changed' == (changed || t.changed)
      decreases if walking then pos + 1 else 0
    {
      crashed, walking, board', marked', changed', pos, t :=
        WalkStep(board', marked', changed', h, w, mh, mw, j, pos, item, board, marked, t);
      if crashed {
        return;
      }
    }
  }

  /** The board, the markers and the column states have their shapes, and
      each column's state is the column model's after visiting its first `i`
      cells, or `i + 1` for the columns before `j`. */
  ghost predicate SweptShape(board: Grid, marked: seq<seq<bool>>, g: Grid,
                             h: nat, w: nat, mh: nat, mw: nat, cols: seq<C.State>, i: nat, j: nat)
  {
    && IsRect(g, h, w) && IsRect(board, h, w) && IsRect(marked, mh, mw)
    && |cols| == w && j <= w && (i < h || (i == h && j == 0))
    && (forall c :: 0 <= c < w ==> cols[c] == C.SweepPrefix(Col(g, c), if c < j then i + 1 else i))
  }

  /** The board and the markers hold the column states wherever they exist,
      and `changed` says whether some column changed. */
  ghost predicate SweptState(board: Grid, marked: seq<seq<bool>>, changed: bool,
                             h: nat, w: nat, mh: nat, mw: nat, cols: seq<C.State>)
    requires IsRect(board, h, w) && IsRect(marked, mh, mw) && |cols| == w
    requires forall c :: 0 <= c < w ==> |cols[c].cells| == h && |cols[c].marked| == h
  {
    && (forall r, c :: 0 <= r < h && 0 <= c < w ==> board[r][c] == cols[c].cells[r])
    && MarksAgree(marked, mh, mw, cols, h)
    && (changed <==> exists c :: 0 <= c < w && cols[c].changed)
  }

  /** No visit before (i, j) has read a marker outside the marker grid. */
  ghost predicate NoCrashBefore(g: Grid, h: nat, w: nat, mh: nat, mw: nat, i: nat, j: nat)
  {
    forall r, c :: 0 <= r < h && 0 <= c < w && (r < i || (r == i && c < j)) ==> !CrashesAt(g, mh, mw, r, c)
  }

  /** The sweep has visited every cell before (i, j) in row-major order. */
  ghost predicate Swept(board: Grid, marked: seq<seq<bool>>, changed: bool, g: Grid,
                        h: nat, w: nat, mh: nat, mw: nat, cols: seq<C.State>, i: nat, j: nat)
  {
    && SweptShape(board, marked, g, h, w, mh, mw, cols, i, j)
    && SweptState(board, marked, changed, h, w, mh, mw, cols)
    && NoCrashBefore(g, h, w, mh, mw, i, j)
  }

  lemma SweptStart(g: Grid, mh: nat, mw: nat, marked: seq<seq<bool>>, cols: seq<C.State>)
    requires Rect(g) && marked == seq(mh, _ => seq(mw, _ => false))
    requires cols == seq(Width(g), c requires 0 <= c < Width(g) => C.Start(Col(g, c)))
    ensures Swept(g, marked, false, g, |g|, Width(g), mh, mw, cols, 0, 0)
  {
  }

  /** The cell about to be visited still holds its original value. */
  lemma SweptCell(board: Grid, marked: seq<seq<bool>>, changed: bool, g: Grid,
                  h: nat, w: nat, mh: nat, mw: nat, cols: seq<C.State>, i: nat, j: nat)
    requires Swept(board, marked, changed, g, h, w, mh, mw, cols, i, j) && i < h && j < w
    ensures board[i][j] == g[i][j] == cols[j].cells[i]
    ensures Mirrors(board, marked, board, marked, h, w, mh, mw, j, cols[j])
    ensures cols[j].changed ==> changed
  {
    C.SweepPrefixRest(Col(g, j), i);
  }

  /** Visiting an empty cell changes nothing but the position. */
  lemma SweptSkip(board: Grid, marked: seq<seq<bool>>, changed: bool, g: Grid,
                  h: nat, w: nat, mh: nat, mw: nat, cols: seq<C.State>, i: nat, j: nat)
    requires Swept(board, marked, changed, g, h, w, mh, mw, cols, i, j) && i < h && j < w
    requires board[i][j] == 0
    ensures Swept(board, marked, changed, g, h, w, mh, mw, cols[j := C.Visit(cols[j], i)], i, j + 1)
  {
    SweptCell(board, marked, changed, g, h, w, mh, mw, cols, i, j);
    assert cols[j := C.Visit(cols[j], i)] == cols;
  }

  /** After the walk from (i, j), the board and the markers hold the new
      column states `cols'`. */
  lemma WalkedCells(board: Grid, marked: seq<seq<bool>>, changed: bool,
                    board': Grid, marked': seq<seq<bool>>, g: Grid,
                    h: nat, w: nat, mh: nat, mw: nat, cols: seq<C.State>, i: nat, j: nat,
                    t: C.State, cols': seq<C.State>)
    requires Swept(board, marked, changed, g, h, w, mh, mw, cols, i, j) && i < h && j < w
    requires Mirrors(board', marked', board, marked, h, w, mh, mw, j, t) && cols' == cols[j := t]
    ensures IsRect(board', h, w) && IsRect(marked', mh, mw) && |cols'| == w
    ensures forall c :: 0 <= c < w ==> |cols'[c].cells| == h && |cols'[c].marked| == h
    ensures forall r, c :: 0 <= r < h && 0 <= c < w ==> board'[r][c] == cols'[c].cells[r]
    ensures MarksAgree(marked', mh, mw, cols', h)
  {
  }

  /** After the walk from (i, j), column `j` has its first `i + 1` cells visited. */
  lemma WalkedShape(board: Grid, marked: seq<seq<bool>>, changed: bool,
                    board': Grid, marked': seq<seq<bool>>, g: Grid,
                    h: nat, w: nat, mh: nat, mw: nat, cols: seq<C.State>, i: nat, j: nat,
                    t: C.State, cols': seq<C.State>)
    requires Swept(board, marked, changed, g, h, w, mh, mw, cols, i, j) && i < h && j < w
    requires board[i][j] == cols[j].cells[i] != 0
    requires t == C.Walk(cols[j], i, board[i][j]) && cols' == cols[j := t]
    requires Mirrors(board', marked', board, marked, h, w, mh, mw, j, t)
    ensures SweptShape(board', marked', g, h, w, mh, mw, cols', i, j + 1)
  {
    assert C.Visit(cols[j], i) == t;
  }

  /** After the walk from (i, j), `changed` still says whether some column changed. */
  lemma WalkedChanged(changed: bool, changed': bool, w: nat, cols: seq<C.State>, j: nat,
                      t: C.State, cols': seq<C.State>)
    requires |cols| == w && j < w && cols' == cols[j := t]
    requires changed <==> exists c :: 0 <= c < w && cols[c].changed
    requires cols[j].changed ==> t.changed
    requires changed' == (changed || t.changed)
    ensures changed' <==> exists c :: 0 <= c < w && cols'[c].changed
  {
    if changed' {
      if t.changed {
        assert cols'[j].changed;
      } else {
        var c :| 0 <= c < w && cols[c].changed;
        assert cols'[c].changed;
      }
    }
  }

  /** Walking the tile from (i, j) moves the sweep on to the next cell. */
  lemma SweptWalk(board: Grid, marked: seq<seq<bool>>, changed: bool,
                  board': Grid, marked': seq<seq<bool>>, changed': bool, g: Grid,
                  h: nat, w: nat, mh: nat, mw: nat, cols: seq<C.State>, i: nat, j: nat)
    requires Swept(board, marked, changed, g, h, w, mh, mw, cols, i, j) && i < h && j < w
    requires board[i][j] == cols[j].cells[i] != 0
    requires !(i >= 1 && (i - 1 >= mh || j >= mw))
    requires Mirrors(board', marked', board, marked, h, w, mh, mw, j, C.Walk(cols[j], i, board[i][j]))
    requires changed' == (changed || C.Walk(cols[j], i, board[i][j]).changed)
    ensures Swept(board', marked', changed', g, h, w, mh, mw, cols[j := C.Visit(cols[j], i)], i, j + 1)
  {
    var t := C.Walk(cols[j], i, board[i][j]);
    var cols' := cols[j := t];
    SweptCell(board, marked, changed, g, h, w, mh, mw, cols, i, j);
    WalkedShape(board, marked, changed, board', marked', g, h, w, mh, mw, cols, i, j, t, cols');
    WalkedCells(board, marked, changed, board', marked', g, h, w, mh, mw, cols, i, j, t, cols');
    WalkedChanged(changed, changed', w, cols, j, t, cols');
    assert NoCrashBefore(g, h, w, mh, mw, i, j + 1) by {
      assert !CrashesAt(g, mh, mw, i, j);
    }
  }

  /** A visit that fails on the markers shows `Crashes`. */
  lemma SweptCrash(board: Grid, marked: seq<seq<bool>>, changed: bool, g: Grid,
                   h: nat, w: nat, mh: nat, mw: nat, cols: seq<C.State>, i: nat, j: nat)
    requires Swept(board, marked, changed, g, h, w, mh, mw, cols, i, j) && i < h && j < w
    requires board[i][j] != 0 && i >= 1 && (i - 1 >= mh || j >= mw)
    ensures Crashes(g, mh, mw)
  {
    SweptCell(board, marked, changed, g, h, w, mh, mw, cols, i, j);
    assert CrashesAt(g, mh, mw, i, j);
  }

  /** A finished sweep that never failed is the column-wise `SweepGrid`. */
  lemma SweptDone(board: Grid, marked: seq<seq<bool>>, changed: bool, g: Grid,
                  h: nat, w: nat, mh: nat, mw: nat, cols: seq<C.State>)
    requires Rect(g) && Swept(board, marked, changed, g, h, w, mh, mw, cols, h, 0)
    ensures !Crashes(g, mh, mw)
    ensures board == SweepGrid(g).board && changed == SweepGrid(g).changed
  {
    var o := SweepGrid(g);
    assert cols == SweptColumns(g);
    SweepGridColumns(g);
    forall r, c | 0 <= r < h && 0 <= c < w
      ensures board[r][c] == o.board[r][c]
    {
      assert o.board[r][c] == Col(o.board, c)[r];
    }
    CellsEqual(board, o.board, h, w);
  }

  /** Visiting cell (i, j) (game.py:79-103): an empty cell is skipped, a
      tile walks. */
  method VisitCell(board: Grid, marked: seq<seq<bool>>, changed: bool, g: Grid,
                   h: nat, w: nat, mh: nat, mw: nat, i: nat, j: nat, ghost cols: seq<C.State>)
    returns (crashed: bool, board': Grid, marked': seq<seq<bool>>, changed': bool)
    requires Swept(board, marked, changed, g, h, w, mh, mw, cols, i, j) && i < h && j < w
    ensures crashed ==> Crashes(g, mh, mw)
    ensures !crashed ==> Swept(board', marked', changed', g, h, w, mh, mw, cols[j := C.Visit(cols[j], i)], i, j + 1)
  {
    SweptCell(board, marked, changed, g, h, w, mh, mw, cols, i, j);
    board', marked', changed' := board, marked, changed;
    crashed := false;
    var item := board[i][j];
    if item != 0 {
      crashed, board', marked', changed' := WalkTile(board, marked, changed, h, w, mh, mw, i, j, item, cols[j]);
      if crashed {
        SweptCrash(board, marked, changed, g, h, w, mh, mw, cols, i, j);
      } else {
        SweptWalk(board, marked, changed, board', marked', changed', g, h, w, mh, mw, cols, i, j);
      }
    } else {
      SweptSkip(board, marked, changed, g, h, w, mh, mw, cols, i, j);
    }
  }

  /** A finished row hands over to the next. */
  lemma SweptNextRow(board: Grid, marked: seq<seq<bool>>, changed: bool, g: Grid,
                     h: nat, w: nat, mh: nat, mw: nat, cols: seq<C.State>, i: nat)
    requires Swept(board, marked, changed, g, h, w, mh, mw, cols, i, w) && i < h
    ensures Swept(board, marked, changed, g, h, w, mh, mw, cols, i + 1, 0)
  {
  }

  /** Row `i` of the sweep (game.py:79): its cells visited left to right. */
  method SweepRow(board: Grid, marked: seq<seq<bool>>, changed: bool, g: Grid,
                  h: nat, w: nat, mh: nat, mw: nat, i: nat, ghost cols: seq<C.State>)
    returns (crashed: bool, board': Grid, marked': seq<seq<bool>>, changed': bool, ghost cols': seq<C.State>)
    requires Swept(board, marked, changed, g, h, w, mh, mw, cols, i, 0) && i < h
    ensures crashed ==> Crashes(g, mh, mw)
    ensures !crashed ==> Swept(board', marked', changed', g, h, w, mh, mw, cols', i + 1, 0)
  {
    board', marked', changed', cols' := board, marked, changed, cols;
    crashed := false;
    var j: nat := 0;
    while j < w
      invariant j <= w
      invariant Swept(board', marked', changed', g, h, w, mh, mw, cols', i, j)
    {
      crashed, board', marked', changed' := VisitCell(board', marked', changed', g, h, w, mh, mw, i, j, cols');
      if crashed {
        return;
      }
      cols' := cols'[j := C.Visit(cols'[j], i)];
      j := j + 1;
    }
    SweptNextRow(board', marked', changed', g, h, w, mh, mw, cols', i);
  }

  /** The sweep of game.py:78-103 as written, over the turned board `g`, with
      a marker grid of `mh` rows and `mw` columns. It fails exactly when some
      visit reads a marker outside that grid; otherwise it computes the
      column-wise `SweepGrid`: the same board and the same `board_changed`. */
  method SweepBoard(g: Grid, mh: nat, mw: nat) returns (crashed: bool, board: Grid, changed: bool)
    requires Rect(g)
    ensures crashed <==> Crashes(g, mh, mw)
    ensures !crashed ==> board == SweepGrid(g).board && changed == SweepGrid(g).changed
  {
    var h, w := |g|, |g[0]|;
    board := g;
    var marked := seq(mh, _ => seq(mw, _ => false));
    changed := false;
    crashed := false;
    ghost var cols := seq(w, c requires 0 <= c < w => C.Start(Col(g, c)));
    SweptStart(g, mh, mw, marked, cols);
    var i: nat := 0;
    while i < h
      invariant i <= h
      invariant Swept(board, marked, changed, g, h, w, mh, mw, cols, i, 0)
    {
      crashed, board, marked, changed, cols := SweepRow(board, marked, changed, g, h, w, mh, mw, i, cols);
      if crashed {
        return;
      }
      i := i + 1;
    }
    SweptDone(board, marked, changed, g, h, w, mh, mw, cols);
  }
}
