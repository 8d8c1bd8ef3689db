/** The sweep of game.py:78-103 as it acts on one column of the turned board.
    Visiting cell (i, j) only ever reads and writes cells of column j, and the
    tile read at (i, j) is still the one the turned board held there, so the
    sweep is the same walk run down every column independently. */
module ColumnSweep {
  import opened Seqs
  import Grids
  import opened Reference

  /** One column during the sweep: its cells, its slice of the merge markers
      (`already_summed_board`, game.py:74), the merges performed so far and
      the `board_changed` flag as far as this column is concerned. */
  datatype State = State(cells: seq<int>, marked: seq<bool>, merges: nat, changed: bool)

  predicate WellFormed(s: State)
  {
    |s.cells| == |s.marked|
  }

  /** No marker set, nothing changed (game.py:74-75). */
  function Start(col: seq<int>): (s: State)
    ensures WellFormed(s) && s.cells == col
    ensures CountTrue(s.marked) == 0
  {
    CountTrueFalses([], |col|);
    assert [] + seq(|col|, _ => false) == seq(|col|, _ => false);
    State(col, seq(|col|, _ => false), 0, false)
  }

  /** The tile at `pos` merges into the equal, unmarked tile above it, which is
      doubled and marked; its own cell empties (game.py:91-96). */
  function MergeUp(s: State, pos: nat, item: int): (r: State)
    requires WellFormed(s) && 0 < pos < |s.cells| && item != 0
    requires s.cells[pos] == item && s.cells[pos - 1] == item && !s.marked[pos - 1]
    ensures WellFormed(r) && |r.cells| == |s.cells|
    ensures r.cells[pos - 1] == 2 * item && r.cells[pos] == 0 && r.marked[pos - 1]
    ensures forall p :: 0 <= p < |s.cells| && p != pos - 1 && p != pos ==> r.cells[p] == s.cells[p]
    ensures forall p :: 0 <= p < |s.cells| && p != pos - 1 ==> r.marked[p] == s.marked[p]
    ensures r.merges == s.merges + 1 && r.changed
    ensures CountTrue(r.marked) == CountTrue(s.marked) + 1
    ensures Sum(r.cells) == Sum(s.cells)
    ensures Tiles(r.cells) == Tiles(s.cells) - 1
  {
    SumUpdate(s.cells, pos - 1, item * 2);
    SumUpdate(s.cells[pos - 1 := item * 2], pos, 0);
    TilesUpdate(s.cells, pos - 1, item * 2);
    TilesUpdate(s.cells[pos - 1 := item * 2], pos, 0);
    CountTrueSet(s.marked, pos - 1);
    State(s.cells[pos - 1 := item * 2][pos := 0], s.marked[pos - 1 := true], s.merges + 1, true)
  }

  /** The tile at `pos` slides into the empty cell above it (game.py:100-103). */
  function SlideUp(s: State, pos: nat, item: int): (r: State)
    requires WellFormed(s) && 0 < pos < |s.cells| && item != 0
    requires s.cells[pos] == item && s.cells[pos - 1] == 0
    ensures WellFormed(r) && |r.cells| == |s.cells|
    ensures r.cells[pos - 1] == item && r.cells[pos] == 0 && r.marked == s.marked
    ensures forall p :: 0 <= p < |s.cells| && p != pos - 1 && p != pos ==> r.cells[p] == s.cells[p]
    ensures r.merges == s.merges && r.changed
    ensures Sum(r.cells) == Sum(s.cells)
    ensures Tiles(r.cells) == Tiles(s.cells)
  {
    SumUpdate(s.cells, pos - 1, item);
    SumUpdate(s.cells[pos - 1 := item], pos, 0);
    TilesUpdate(s.cells, pos - 1, item);
    TilesUpdate(s.cells[pos - 1 := item], pos, 0);
    State(s.cells[pos - 1 := item][pos := 0], s.marked, s.merges, true)
  }

  /** The walk of the tile `item`, now at `pos`, toward index 0 (game.py:82-103):
      it stops at the edge, under a cell marked as merged, or under a tile of a
      different value; it merges into an equal unmarked tile; it slides into
      an empty cell and keeps walking. The walk keeps the column's sum, loses
      one tile per merge, merges at most once and only into an unmarked cell,
      never alters a marked cell, and leaves the cells below the tile alone. */
  function Walk(s: State, pos: nat, item: int): (r: State)
    requires WellFormed(s) && pos < |s.cells| && s.cells[pos] == item && item != 0
    ensures WellFormed(r) && |r.cells| == |s.cells|
    ensures forall p :: pos < p < |s.cells| ==> r.cells[p] == s.cells[p] && r.marked[p] == s.marked[p]
    ensures forall p :: 0 <= p < |s.cells| && s.marked[p] ==> r.marked[p]
    ensures forall p :: 0 <= p < pos && s.marked[p] ==> r.cells[p] == s.cells[p]
    ensures r.merges <= s.merges + 1
    ensures CountTrue(r.marked) == CountTrue(s.marked) + (r.merges - s.merges)
    ensures Sum(r.cells) == Sum(s.cells)
    ensures Tiles(r.cells) == Tiles(s.cells) - (r.merges - s.merges)
    ensures r.cells == s.cells ==> r == s
    ensures r.cells != s.cells ==> r.changed && r.cells[pos] == 0
    decreases pos
  {
    if pos == 0 then s
    else if s.marked[pos - 1] then s
    else if s.cells[pos - 1] == item then MergeUp(s, pos, item)
    else if s.cells[pos - 1] != 0 then s
    else Walk(SlideUp(s, pos, item), pos - 1, item)
  }

  /** Visiting cell `i`: an empty cell is skipped, a tile walks (game.py:80). */
  function Visit(s: State, i: nat): (r: State)
    requires WellFormed(s) && i < |s.cells|
    ensures WellFormed(r) && |r.cells| == |s.cells|
  {
    if s.cells[i] != 0 then Walk(s, i, s.cells[i]) else s
  }

  /** The column after visiting its first `n` cells, from index 0 down. The
      cell sum never changes, the tiles lost are the merges performed, and
      every merge marked its own cell. */
  function SweepPrefix(col: seq<int>, n: nat): (s: State)
    requires n <= |col|
    ensures WellFormed(s) && |s.cells| == |col|
    ensures Sum(s.cells) == Sum(col)
    ensures Tiles(s.cells) == Tiles(col) - s.merges
    ensures CountTrue(s.marked) == s.merges
  {
    if n == 0 then Start(col) else Visit(SweepPrefix(col, n - 1), n - 1)
  }

  /** The whole column swept. */
  function Sweep(col: seq<int>): (s: State)
    ensures WellFormed(s) && |s.cells| == |col|
  {
    SweepPrefix(col, |col|)
  }

  /** The stack of the tiles among the first `n` cells of `col`. */
  ghost function StackAt(col: seq<int>, n: nat): seq<Tile>
    requires n <= |col|
  {
    Stack(NonZeros(col[..n]))
  }

  /** The merges the stack of the first `n` cells took. */
  ghost function MergesAt(col: seq<int>, n: nat): int
    requires n <= |col|
  {
    |NonZeros(col[..n])| - |StackAt(col, n)|
  }

  /** Whether some tile among the first `n` cells has had to move: a merge, or
      an empty cell above a tile. */
  ghost function ChangedAt(col: seq<int>, n: nat): bool
    requires n <= |col|
  {
    MergesAt(col, n) > 0 || !Compact(col[..n])
  }

  /** Whether pushing `v` onto `st` merges it into the top. */
  predicate MergesOnto(st: seq<Tile>, v: int)
  {
    |st| > 0 && !st[|st| - 1].merged && st[|st| - 1].value == v
  }

  /** The column holds the stack `st` against index 0 with its merge marks,
      empty unmarked cells up to `n`, and the cells of `col` from `n` on,
      unmarked; its counters read `merges` and `changed`. */
  ghost predicate Layout(s: State, col: seq<int>, n: nat, st: seq<Tile>, merges: int, changed: bool)
  {
    && n <= |col| && WellFormed(s) && |s.cells| == |col| && |st| <= n
    && (forall p :: 0 <= p < |st| ==> s.cells[p] == st[p].value && s.marked[p] == st[p].merged)
    && (forall p :: |st| <= p < n ==> s.cells[p] == 0 && !s.marked[p])
    && (forall p :: n <= p < |col| ==> s.cells[p] == col[p] && !s.marked[p])
    && s.merges == merges && s.changed == changed
  }

  /** While the tile from cell `n` walks and now sits at `pos`: the stack
      `st` of the first `n` cells against index 0, the tile at `pos` in the run
      of empty cells below it, the cells after `n` untouched; the column counts
      as changed once the tile has moved. */
  ghost predicate Sliding(t: State, col: seq<int>, n: nat, pos: nat, st: seq<Tile>, merges: int, changed: bool)
  {
    && n < |col| && WellFormed(t) && |t.cells| == |col|
    && |st| <= pos <= n
    && (forall p :: 0 <= p < |st| ==> t.cells[p] == st[p].value && t.marked[p] == st[p].merged)
    && (forall p :: |st| <= p <= n && p != pos ==> t.cells[p] == 0 && !t.marked[p])
    && t.cells[pos] == col[n] && !t.marked[pos]
    && (forall p :: n < p < |col| ==> t.cells[p] == col[p] && !t.marked[p])
    && t.merges == merges && t.changed == (changed || pos < n)
  }

  /** How the stack and the counters grow when cell `n` is visited. */
  lemma NextPrefix(col: seq<int>, n: nat)
    requires n < |col|
    ensures |StackAt(col, n)| <= |NonZeros(col[..n])| <= n
    ensures forall p :: 0 <= p < |StackAt(col, n)| ==> StackAt(col, n)[p].value != 0
    ensures col[n] == 0 ==> StackAt(col, n + 1) == StackAt(col, n)
    ensures col[n] == 0 ==> MergesAt(col, n + 1) == MergesAt(col, n)
    ensures col[n] == 0 ==> ChangedAt(col, n + 1) == ChangedAt(col, n)
    ensures col[n] != 0 ==> StackAt(col, n + 1) == Push(StackAt(col, n), col[n])
    ensures col[n] != 0 ==> MergesAt(col, n + 1)
                            == MergesAt(col, n) + (if MergesOnto(StackAt(col, n), col[n]) then 1 else 0)
    ensures col[n] != 0 ==> ChangedAt(col, n + 1)
                            == if MergesOnto(StackAt(col, n), col[n]) then true
                               else ChangedAt(col, n) || |StackAt(col, n)| < n
  {
    var pre := col[..n];
    assert col[..n + 1] == pre + [col[n]];
    assert col[..n + 1][..n] == pre;
    var nz := NonZeros(pre);
    if col[n] != 0 {
      var nz' := nz + [col[n]];
      assert nz'[..|nz'| - 1] == nz;
    } else {
      assert nz + [] == nz;
    }
    StackShorter(nz);
    NonZerosShorter(pre);
    StackNonZero(nz);
    CompactSnoc(pre, col[n]);
  }

  /** With an empty cell above it, the walk slides the tile and carries on. */
  lemma WalkSlides(t: State, pos: nat, above: nat, v: int)
    requires WellFormed(t) && 0 < pos < |t.cells| && above == pos - 1 && v != 0
    requires t.cells[pos] == v && t.cells[above] == 0 && !t.marked[above]
    ensures Walk(t, pos, v) == Walk(SlideUp(t, pos, v), above, v)
  {
    assert !(t.cells[pos - 1] == v);
  }

  /** Under an equal unmarked tile, named as the cell above, the walk merges. */
  lemma WalkMerges(t: State, pos: nat, above: nat, v: int)
    requires WellFormed(t) && 0 < pos < |t.cells| && above == pos - 1 && v != 0
    requires t.cells[pos] == v && t.cells[above] == v && !t.marked[above]
    ensures Walk(t, pos, v) == MergeUp(t, pos, v)
  {
    assert t.cells[pos - 1] == v && !t.marked[pos - 1];
  }

  /** At the edge, under a marked cell or under a different tile, the walk stops. */
  lemma WalkStops(t: State, pos: nat, v: int)
    requires WellFormed(t) && pos < |t.cells| && v != 0 && t.cells[pos] == v
    requires pos == 0 || t.marked[pos - 1] || (t.cells[pos - 1] != v && t.cells[pos - 1] != 0)
    ensures Walk(t, pos, v) == t
  {
  }

  /** One slide step keeps the `Sliding` shape, one cell higher. */
  lemma SlideKeepsSliding(t: State, col: seq<int>, n: nat, pos: nat, above: nat,
                          st: seq<Tile>, merges: int, changed: bool)
    requires Sliding(t, col, n, pos, st, merges, changed) && col[n] != 0
    requires pos > |st| && above == pos - 1
    ensures t.cells[above] == 0 && !t.marked[above]
    ensures Sliding(SlideUp(t, pos, col[n]), col, n, above, st, merges, changed)
  {
  }

  /** The tile stops on top of the stack without merging: it is pushed as a new entry. */
  lemma StopLays(t: State, col: seq<int>, n: nat, st: seq<Tile>, merges: int, changed: bool)
    requires Sliding(t, col, n, |st|, st, merges, changed) && !MergesOnto(st, col[n])
    ensures Layout(t, col, n + 1, Push(st, col[n]), merges, changed || |st| < n)
  {
    assert Push(st, col[n]) == st + [Tile(col[n], false)];
  }

  /** The tile merges into the top of the stack: the top is doubled and marked. */
  lemma MergeLays(t: State, col: seq<int>, n: nat, st: seq<Tile>, merges: int, changed: bool)
    requires Sliding(t, col, n, |st|, st, merges, changed) && col[n] != 0 && MergesOnto(st, col[n])
    ensures t.cells[|st| - 1] == col[n] && !t.marked[|st| - 1]
    ensures Layout(MergeUp(t, |st|, col[n]), col, n + 1, Push(st, col[n]), merges + 1, true)
  {
    var v := col[n];
    var k := |st|;
    var st' := st[..k - 1] + [Tile(2 * v, true)];
    assert Push(st, v) == st';
    var r := MergeUp(t, k, v);
    forall p | 0 <= p < |st'|
      ensures r.cells[p] == st'[p].value && r.marked[p] == st'[p].merged
    {
      if p < k - 1 {
        assert st'[p] == st[p];
      }
    }
  }

  /** A walk that starts in the `Sliding` shape lays the tile exactly as `Push`
      places it on the stack. */
  lemma {:induction false} WalkLays(t: State, col: seq<int>, n: nat, pos: nat,
                                    st: seq<Tile>, merges: int, changed: bool)
    requires Sliding(t, col, n, pos, st, merges, changed) && col[n] != 0
    requires forall p :: 0 <= p < |st| ==> st[p].value != 0
    ensures Layout(Walk(t, pos, col[n]), col, n + 1, Push(st, col[n]),
                   if MergesOnto(st, col[n]) then merges + 1 else merges,
                   if MergesOnto(st, col[n]) then true else changed || |st| < n)
    decreases pos
  {
    var k := |st|;
    if pos > k {
      var above: nat := pos - 1;
      SlideKeepsSliding(t, col, n, pos, above, st, merges, changed);
      WalkSlides(t, pos, above, col[n]);
      WalkLays(SlideUp(t, pos, col[n]), col, n, above, st, merges, changed);
    } else if MergesOnto(st, col[n]) {
      MergeLays(t, col, n, st, merges, changed);
      WalkMerges(t, pos, pos - 1, col[n]);
    } else {
      WalkStops(t, pos, col[n]);
      StopLays(t, col, n, st, merges, changed);
    }
  }

  /** Visiting cell `n` turns the layout of the first `n` cells into the
      layout of the first `n + 1`, as the stack and counters prescribe. */
  lemma VisitLays(s: State, col: seq<int>, n: nat, st: seq<Tile>, merges: int, changed: bool)
    requires n < |col| && Layout(s, col, n, st, merges, changed)
    requires forall p :: 0 <= p < |st| ==> st[p].value != 0
    ensures col[n] == 0 ==> Layout(Visit(s, n), col, n + 1, st, merges, changed)
    ensures col[n] != 0 ==> Layout(Visit(s, n), col, n + 1, Push(st, col[n]),
                                   if MergesOnto(st, col[n]) then merges + 1 else merges,
                                   if MergesOnto(st, col[n]) then true else changed || |st| < n)
  {
    if col[n] != 0 {
      assert Sliding(s, col, n, n, st, merges, changed);
      WalkLays(s, col, n, n, st, merges, changed);
    }
  }

  /** Every prefix of the sweep has the expected layout. */
  lemma {:induction false} SweepPrefixLayout(col: seq<int>, n: nat)
    requires n <= |col|
    ensures Layout(SweepPrefix(col, n), col, n, StackAt(col, n), MergesAt(col, n), ChangedAt(col, n))
    decreases n
  {
    if n == 0 {
      assert col[..0] == [];
    } else {
      var m := n - 1;
      SweepPrefixLayout(col, m);
      var s, st := SweepPrefix(col, m), StackAt(col, m);
      assert SweepPrefix(col, n) == Visit(s, m);
      NextPrefix(col, m);
      VisitLays(s, col, m, st, MergesAt(col, m), ChangedAt(col, m));
      if col[m] != 0 {
        assert StackAt(col, n) == Push(st, col[m]);
      } else {
        assert StackAt(col, n) == st;
      }
    }
  }

  /** Before cell `n` is visited, it and every cell after it still hold the
      column's original values, unmarked. */
  lemma SweepPrefixRest(col: seq<int>, n: nat)
    requires n <= |col|
    ensures forall p :: n <= p < |col| ==> SweepPrefix(col, n).cells[p] == col[p]
    ensures forall p :: n <= p < |col| ==> !SweepPrefix(col, n).marked[p]
  {
    SweepPrefixLayout(col, n);
  }

  /** A full layout is the stack followed by empty cells. */
  lemma LayoutFull(s: State, col: seq<int>, st: seq<Tile>, merges: int, changed: bool)
    requires Layout(s, col, |col|, st, merges, changed)
    ensures s.cells == Values(st) + Zeros(|col| - |st|)
    ensures s.marked == MergedFlags(st) + seq(|col| - |st|, _ => false)
  {
  }

  /** The swept column is the column's tiles stacked against index 0 and padded
      with empty cells; its marks are the stack's merge marks. */
  lemma SweepStacks(col: seq<int>)
    ensures |Stack(NonZeros(col))| <= |col|
    ensures Sweep(col).cells == Values(Stack(NonZeros(col))) + Zeros(|col| - |Stack(NonZeros(col))|)
    ensures Sweep(col).marked
         == MergedFlags(Stack(NonZeros(col))) + seq(|col| - |Stack(NonZeros(col))|, _ => false)
    ensures Sweep(col).merges == |NonZeros(col)| - |Stack(NonZeros(col))|
    ensures Sweep(col).changed == (Sweep(col).merges > 0 || !Compact(col))
  {
    SweepPrefixLayout(col, |col|);
    assert col[..|col|] == col;
    LayoutFull(Sweep(col), col, StackAt(col, |col|), MergesAt(col, |col|), ChangedAt(col, |col|));
  }

  /** The sweep of a column computes the reference slide: tiles packed toward
      index 0 with equal neighbours merged pairwise from that end. */
  lemma SweepMatchesReference(col: seq<int>)
    ensures Sweep(col).cells == SlideLine(col)
  {
    SweepStacks(col);
    StackCollapses(NonZeros(col));
  }

  /** After the sweep no empty cell lies above a tile. */
  lemma SweepCompacts(col: seq<int>)
    ensures Compact(Sweep(col).cells)
  {
    SweepStacks(col);
    StackNonZero(NonZeros(col));
  }

  /** Each merge lands on its own cell: the marked cells are exactly as many as
      the merges, and a column of `h` cells sees fewer than `h` merges. */
  lemma SweepMergesOnce(col: seq<int>)
    ensures Sweep(col).merges == CountTrue(Sweep(col).marked)
    ensures |col| > 0 ==> Sweep(col).merges < |col|
  {
    var nz := NonZeros(col);
    SweepStacks(col);
    StackMerges(nz);
    CountTrueFalses(MergedFlags(Stack(nz)), |col| - |Stack(nz)|);
    NonZerosShorter(col);
    if |nz| > 0 {
      assert |Stack(nz)| > 0 by {
        assert Stack(nz) == Push(Stack(nz[..|nz| - 1]), nz[|nz| - 1]);
      }
    }
  }

  /** `board_changed` for a column is set exactly when the column's cells differ
      after the sweep. */
  lemma SweepChanged(col: seq<int>)
    ensures Sweep(col).changed <==> Sweep(col).cells != col
  {
    var s := Sweep(col);
    var nz := NonZeros(col);
    var st := Stack(nz);
    SweepStacks(col);
    SweepCompacts(col);
    NonZerosCount(col);
    if s.merges > 0 {
      assert Tiles(s.cells) < Tiles(col);
    } else if Compact(col) {
      StackWithoutMerge(nz);
      CompactLine(col);
    }
  }

  lemma {:induction false} NonZerosTiles(xs: seq<int>)
    requires forall i :: 0 <= i < |xs| ==> xs[i] == 0 || Grids.IsTile(xs[i])
    ensures forall i :: 0 <= i < |NonZeros(xs)| ==> Grids.IsTile(NonZeros(xs)[i])
    decreases |xs|
  {
    if |xs| > 0 {
      NonZerosTiles(xs[..|xs| - 1]);
    }
  }

  /** A column of empty cells and tile values stays one. */
  lemma SweepKeepsTiles(col: seq<int>)
    requires forall i :: 0 <= i < |col| ==> col[i] == 0 || Grids.IsTile(col[i])
    ensures forall i :: 0 <= i < |col| ==> Sweep(col).cells[i] == 0 || Grids.IsTile(Sweep(col).cells[i])
  {
    SweepStacks(col);
    NonZerosTiles(col);
    StackTiles(NonZeros(col));
  }
}
