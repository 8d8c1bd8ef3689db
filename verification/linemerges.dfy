/** Merge-free slides of a single line: a line whose slide merges nothing
    keeps its tiles, in order, and only closes the gaps. The whole-board
    statement built on it is in `BoardMerges`. */
module LineMerges {
  import opened Seqs
  import opened Reference
  import C = ColumnSweep

  /** A line whose slide joins no two tiles: collapsing its tiles shortens nothing. */
  predicate NoMerge(line: seq<int>)
  {
    |Collapse(NonZeros(line))| == |NonZeros(line)|
  }

  lemma {:induction false} NonZerosConcat(a: seq<int>, b: seq<int>)
    ensures NonZeros(a + b) == NonZeros(a) + NonZeros(b)
    decreases |b|
  {
    if |b| == 0 {
      assert a + b == a;
    } else {
      var n := |b| - 1;
      assert (a + b)[..|a + b| - 1] == a + b[..n];
      NonZerosConcat(a, b[..n]);
    }
  }

  lemma {:induction false} NonZerosZeros(n: nat)
    ensures NonZeros(Zeros(n)) == []
    decreases n
  {
    if n > 0 {
      assert Zeros(n)[..n - 1] == Zeros(n - 1);
      NonZerosZeros(n - 1);
    }
  }

  /** A line with no empty cell is its own list of tiles. */
  lemma {:induction false} NonZerosOfTiles(xs: seq<int>)
    requires forall i :: 0 <= i < |xs| ==> xs[i] != 0
    ensures NonZeros(xs) == xs
    decreases |xs|
  {
    if |xs| > 0 {
      var n := |xs| - 1;
      NonZerosOfTiles(xs[..n]);
      assert xs[..n] + [xs[n]] == xs;
    }
  }

  /** Reading a line backwards reads its tiles backwards. */
  lemma {:induction false} NonZerosReverse(xs: seq<int>)
    ensures NonZeros(Reverse(xs)) == Reverse(NonZeros(xs))
    decreases |xs|
  {
    if |xs| > 0 {
      var n := |xs| - 1;
      var init, v := xs[..n], xs[n];
      var tail := if v != 0 then [v] else [];
      assert Reverse(xs) == [v] + Reverse(init);
      NonZerosConcat([v], Reverse(init));
      assert NonZeros([v]) == tail by {
        assert [v][..0] == [];
      }
      NonZerosReverse(init);
      assert Reverse(NonZeros(init) + tail) == tail + Reverse(NonZeros(init));
    }
  }

  /** Collapsing keeps a sequence exactly when it keeps its length. */
  lemma CollapseWithoutMerge(xs: seq<int>)
    ensures |Collapse(xs)| == |xs| <==> Collapse(xs) == xs
  {
    StackCollapses(xs);
    if |Collapse(xs)| == |xs| {
      StackWithoutMerge(xs);
    }
  }

  /** Tiles followed by empty cells: the empty cells drop out. */
  lemma NonZerosPadded(c: seq<int>, n: nat)
    requires forall i :: 0 <= i < |c| ==> c[i] != 0
    ensures NonZeros(c + Zeros(n)) == c
  {
    NonZerosOfTiles(c);
    NonZerosZeros(n);
    NonZerosConcat(c, Zeros(n));
    assert c + [] == c;
  }

  /** Collapsing tiles never produces an empty cell. */
  lemma CollapseNonZero(xs: seq<int>)
    requires forall i :: 0 <= i < |xs| ==> xs[i] != 0
    ensures forall i :: 0 <= i < |Collapse(xs)| ==> Collapse(xs)[i] != 0
  {
    StackCollapses(xs);
    StackNonZero(xs);
  }

  /** The tiles of a slid line are the collapsed tiles of the line. */
  lemma SlideLineTiles(line: seq<int>)
    ensures NonZeros(SlideLine(line)) == Collapse(NonZeros(line))
  {
    var nz := NonZeros(line);
    NonZerosShorter(line);
    CollapseShorter(nz);
    CollapseNonZero(nz);
    NonZerosPadded(Collapse(nz), |line| - |Collapse(nz)|);
  }

  /** A slide keeps a line's tiles, in order, exactly when it merges nothing;
      then it only closes the gaps. */
  lemma SlideLineKeepsTiles(line: seq<int>)
    ensures NoMerge(line) <==> NonZeros(SlideLine(line)) == NonZeros(line)
    ensures NoMerge(line) ==> SlideLine(line) == NonZeros(line) + Zeros(|line| - |NonZeros(line)|)
  {
    SlideLineTiles(line);
    CollapseWithoutMerge(NonZeros(line));
  }

  /** The sweep merges once for every tile the reference collapse drops, so it
      merges nothing exactly when the reference slide merges nothing. */
  lemma SweepMergeCount(col: seq<int>)
    ensures C.Sweep(col).merges == |NonZeros(col)| - |Collapse(NonZeros(col))|
    ensures C.Sweep(col).merges == 0 <==> NoMerge(col)
  {
    C.SweepStacks(col);
    StackCollapses(NonZeros(col));
  }
}
