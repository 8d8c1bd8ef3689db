/** An independent description of what one move does to a single line of the
    turned board: drop the empty cells, merge equal neighbours pairwise from
    the target edge, and pad with empty cells. `Stack` builds the same result
    tile by tile, the way the sweep of game.py:78-103 meets the tiles. */
module Reference {
  import opened Seqs
  import opened Grids

  /** A tile already placed against the edge, and whether it is the result of
      a merge during the current move. */
  datatype Tile = Tile(value: int, merged: bool)

  function Values(st: seq<Tile>): (v: seq<int>)
    ensures |v| == |st|
    ensures forall i :: 0 <= i < |st| ==> v[i] == st[i].value
  {
    seq(|st|, i requires 0 <= i < |st| => st[i].value)
  }

  /** Number of `true` entries. */
  function CountTrue(bs: seq<bool>): nat
  {
    if |bs| == 0 then 0 else CountTrue(bs[..|bs| - 1]) + (if bs[|bs| - 1] then 1 else 0)
  }

  function MergedFlags(st: seq<Tile>): (f: seq<bool>)
    ensures |f| == |st|
    ensures forall i :: 0 <= i < |st| ==> f[i] == st[i].merged
  {
    seq(|st|, i requires 0 <= i < |st| => st[i].merged)
  }

  /** The next tile arrives at the stack: it merges into the top tile when both
      hold the same value and the top is not already a merge result;
      otherwise it comes to rest on top. */
  function Push(st: seq<Tile>, v: int): seq<Tile>
  {
    if |st| > 0 && !st[|st| - 1].merged && st[|st| - 1].value == v
    then st[..|st| - 1] + [Tile(2 * v, true)]
    else st + [Tile(v, false)]
  }

  /** The stack after pushing every tile of `xs`, first to last. */
  function Stack(xs: seq<int>): seq<Tile>
  {
    if |xs| == 0 then [] else Push(Stack(xs[..|xs| - 1]), xs[|xs| - 1])
  }

  /** Pushing `xs` onto an existing stack, peeling `xs` from the front. */
  function StackFrom(st: seq<Tile>, xs: seq<int>): seq<Tile>
    decreases |xs|
  {
    if |xs| == 0 then st else StackFrom(Push(st, xs[0]), xs[1..])
  }

  /** The nonzero entries of `xs`, in order. */
  function NonZeros(xs: seq<int>): (nz: seq<int>)
    ensures forall i :: 0 <= i < |nz| ==> nz[i] != 0
  {
    if |xs| == 0 then []
    else NonZeros(xs[..|xs| - 1]) + (if xs[|xs| - 1] != 0 then [xs[|xs| - 1]] else [])
  }

  /** Equal neighbours merge pairwise, starting at the front. */
  function Collapse(xs: seq<int>): seq<int>
    decreases |xs|
  {
    if |xs| < 2 then xs
    else if xs[0] == xs[1] then [2 * xs[0]] + Collapse(xs[2..])
    else [xs[0]] + Collapse(xs[1..])
  }

  lemma {:induction false} CollapseShorter(xs: seq<int>)
    ensures |Collapse(xs)| <= |xs|
    decreases |xs|
  {
    if |xs| >= 2 {
      if xs[0] == xs[1] {
        CollapseShorter(xs[2..]);
      } else {
        CollapseShorter(xs[1..]);
      }
    }
  }

  lemma {:induction false} NonZerosShorter(xs: seq<int>)
    ensures |NonZeros(xs)| <= |xs|
    decreases |xs|
  {
    if |xs| > 0 {
      NonZerosShorter(xs[..|xs| - 1]);
    }
  }

  /** What a move does to one line: the tiles, merged pairwise, packed
      against index 0, then empty cells. */
  function SlideLine(line: seq<int>): (r: seq<int>)
    ensures |r| == |line|
  {
    NonZerosShorter(line);
    CollapseShorter(NonZeros(line));
    var c := Collapse(NonZeros(line));
    c + Zeros(|line| - |c|)
  }

  lemma {:induction false} StackFromSnoc(st: seq<Tile>, xs: seq<int>, x: int)
    ensures StackFrom(st, xs + [x]) == Push(StackFrom(st, xs), x)
    decreases |xs|
  {
    if |xs| == 0 {
      assert xs + [x] == [x];
      assert [x][1..] == [];
    } else {
      assert (xs + [x])[0] == xs[0];
      assert (xs + [x])[1..] == xs[1..] + [x];
      StackFromSnoc(Push(st, xs[0]), xs[1..], x);
    }
  }

  /** The tile-by-tile stack is a left fold of `Push`. */
  lemma {:induction false} StackIsFold(xs: seq<int>)
    ensures Stack(xs) == StackFrom([], xs)
    decreases |xs|
  {
    if |xs| > 0 {
      var init := xs[..|xs| - 1];
      StackIsFold(init);
      StackFromSnoc([], init, xs[|xs| - 1]);
      assert init + [xs[|xs| - 1]] == xs;
    }
  }

  /** On a stack whose top cannot take a merge, the rest of the line collapses on its own. */
  lemma {:induction false} FoldOnClosed(st: seq<Tile>, xs: seq<int>)
    requires |st| == 0 || st[|st| - 1].merged
    ensures Values(StackFrom(st, xs)) == Values(st) + Collapse(xs)
    decreases |xs|, 1
  {
    if |xs| == 0 {
      assert Values(st) + Collapse(xs) == Values(st);
    } else {
      assert Push(st, xs[0]) == st + [Tile(xs[0], false)];
      FoldOnOpen(st, xs[0], xs[1..]);
      assert [xs[0]] + xs[1..] == xs;
    }
  }

  /** On a stack whose top `a` can still take a merge, `a` collapses together
      with the rest of the line. */
  lemma {:induction false} FoldOnOpen(st: seq<Tile>, a: int, xs: seq<int>)
    ensures Values(StackFrom(st + [Tile(a, false)], xs)) == Values(st) + Collapse([a] + xs)
    decreases |xs|, 0
  {
    var top := st + [Tile(a, false)];
    assert Values(top) == Values(st) + [a];
    if |xs| == 0 {
      assert [a] + xs == [a];
    } else {
      var x, rest := xs[0], xs[1..];
      assert ([a] + xs)[0] == a && ([a] + xs)[1] == x;
      if x == a {
        assert top[..|top| - 1] == st;
        var closed := st + [Tile(2 * a, true)];
        assert Push(top, x) == closed;
        FoldOnClosed(closed, rest);
        assert Values(closed) == Values(st) + [2 * a];
        assert ([a] + xs)[2..] == rest;
      } else {
        assert Push(top, x) == top + [Tile(x, false)];
        FoldOnOpen(top, x, rest);
        assert ([a] + xs)[1..] == [x] + rest;
        assert [x] + rest == xs;
      }
    }
  }

  /** Building the stack tile by tile yields exactly the pairwise collapse. */
  lemma StackCollapses(xs: seq<int>)
    ensures Values(Stack(xs)) == Collapse(xs)
  {
    StackIsFold(xs);
    FoldOnClosed([], xs);
  }

  lemma {:induction false} StackShorter(xs: seq<int>)
    ensures |Stack(xs)| <= |xs|
    decreases |xs|
  {
    if |xs| > 0 {
      StackShorter(xs[..|xs| - 1]);
    }
  }

  /** A push adds its value to the stack's sum: a merge turns `v + v` into `2 * v`. */
  lemma PushSum(st: seq<Tile>, v: int)
    ensures Sum(Values(Push(st, v))) == Sum(Values(st)) + v
  {
    var n := |st|;
    if n > 0 && !st[n - 1].merged && st[n - 1].value == v {
      var below := Values(st[..n - 1]);
      assert Values(st)[..n - 1] == below;
      assert Values(Push(st, v))[..n - 1] == below;
    } else {
      assert Values(Push(st, v))[..n] == Values(st);
    }
  }

  /** Merging keeps the sum of the line. */
  lemma {:induction false} StackSum(xs: seq<int>)
    ensures Sum(Values(Stack(xs))) == Sum(xs)
    decreases |xs|
  {
    if |xs| > 0 {
      StackSum(xs[..|xs| - 1]);
      PushSum(Stack(xs[..|xs| - 1]), xs[|xs| - 1]);
    }
  }

  /** A push either adds an unmarked entry or marks the top it merges into. */
  lemma PushMerges(st: seq<Tile>, v: int)
    ensures CountTrue(MergedFlags(Push(st, v))) + |Push(st, v)| == CountTrue(MergedFlags(st)) + |st| + 1
  {
    var n := |st|;
    if n > 0 && !st[n - 1].merged && st[n - 1].value == v {
      var below := MergedFlags(st[..n - 1]);
      assert MergedFlags(st)[..n - 1] == below;
      assert MergedFlags(Push(st, v))[..n - 1] == below;
    } else {
      assert MergedFlags(Push(st, v))[..n] == MergedFlags(st);
    }
  }

  /** Every merge removes one tile from the line and marks exactly one stack
      entry, and an entry is marked at most once: the tiles lost equal the
      number of marked entries. */
  lemma {:induction false} StackMerges(xs: seq<int>)
    ensures |xs| - |Stack(xs)| == CountTrue(MergedFlags(Stack(xs)))
    decreases |xs|
  {
    if |xs| > 0 {
      StackMerges(xs[..|xs| - 1]);
      PushMerges(Stack(xs[..|xs| - 1]), xs[|xs| - 1]);
    }
  }

  /** Pushing a tile onto a stack of tiles leaves a stack of tiles. */
  lemma PushTile(st: seq<Tile>, v: int)
    requires forall i :: 0 <= i < |st| ==> IsTile(st[i].value)
    requires IsTile(v)
    ensures forall i :: 0 <= i < |Push(st, v)| ==> IsTile(Push(st, v)[i].value)
  {
    DoubleTile(v);
    var n := |st|;
    if n > 0 && !st[n - 1].merged && st[n - 1].value == v {
      assert Push(st, v) == st[..n - 1] + [Tile(2 * v, true)];
    } else {
      assert Push(st, v) == st + [Tile(v, false)];
    }
  }

  /** Tiles stay tiles: stacking nonzero powers of two yields nonzero powers of two. */
  lemma {:induction false} StackTiles(xs: seq<int>)
    requires forall i :: 0 <= i < |xs| ==> IsTile(xs[i])
    ensures forall i :: 0 <= i < |Stack(xs)| ==> IsTile(Stack(xs)[i].value)
    decreases |xs|
  {
    if |xs| > 0 {
      var init, v := xs[..|xs| - 1], xs[|xs| - 1];
      assert forall i :: 0 <= i < |init| ==> init[i] == xs[i];
      StackTiles(init);
      PushTile(Stack(init), v);
    }
  }

  /** Stacking nonzero values never produces an empty cell. */
  lemma {:induction false} StackNonZero(xs: seq<int>)
    requires forall i :: 0 <= i < |xs| ==> xs[i] != 0
    ensures forall i :: 0 <= i < |Stack(xs)| ==> Stack(xs)[i].value != 0
    decreases |xs|
  {
    if |xs| > 0 {
      StackNonZero(xs[..|xs| - 1]);
    }
  }

  /** A stack as long as its input performed no merge and holds the input unchanged. */
  lemma {:induction false} StackWithoutMerge(xs: seq<int>)
    requires |Stack(xs)| == |xs|
    ensures Values(Stack(xs)) == xs
    decreases |xs|
  {
    if |xs| > 0 {
      var init, v := xs[..|xs| - 1], xs[|xs| - 1];
      var st := Stack(init);
      StackShorter(init);
      if |st| > 0 && !st[|st| - 1].merged && st[|st| - 1].value == v {
        assert false;
      } else {
        StackWithoutMerge(init);
        assert Values(Push(st, v)) == Values(st) + [v];
        assert init + [v] == xs;
      }
    }
  }

  lemma {:induction false} NonZerosSum(xs: seq<int>)
    ensures Sum(NonZeros(xs)) == Sum(xs)
    decreases |xs|
  {
    if |xs| > 0 {
      var init, v := xs[..|xs| - 1], xs[|xs| - 1];
      NonZerosSum(init);
      SumConcat(NonZeros(init), if v != 0 then [v] else []);
      if v != 0 {
        assert [v][..0] == [];
      }
    }
  }

  lemma {:induction false} NonZerosCount(xs: seq<int>)
    ensures |NonZeros(xs)| == Tiles(xs)
    decreases |xs|
  {
    if |xs| > 0 {
      var init := xs[..|xs| - 1];
      NonZerosCount(init);
      assert Mask(xs)[..|xs| - 1] == Mask(init);
    }
  }

  /** A line with no gap before a tile is its tiles followed by empty cells. */
  lemma {:induction false} CompactLine(xs: seq<int>)
    requires Compact(xs)
    ensures |NonZeros(xs)| <= |xs|
    ensures xs == NonZeros(xs) + Zeros(|xs| - |NonZeros(xs)|)
    decreases |xs|
  {
    NonZerosShorter(xs);
    if |xs| > 0 {
      var init, v := xs[..|xs| - 1], xs[|xs| - 1];
      assert Compact(init);
      CompactLine(init);
      NonZerosShorter(init);
      if v != 0 {
        assert forall i :: 0 <= i < |init| ==> init[i] != 0;
        assert |NonZeros(init)| == |init| by {
          NonZerosCount(init);
          TilesAllNonZero(init);
        }
        assert xs == init + [v];
      } else {
        assert Zeros(|xs| - |NonZeros(xs)|) == Zeros(|init| - |NonZeros(init)|) + [0];
        assert xs == init + [0];
      }
    }
  }

  lemma {:induction false} CountTrueSet(bs: seq<bool>, p: nat)
    requires p < |bs| && !bs[p]
    ensures CountTrue(bs[p := true]) == CountTrue(bs) + 1
    decreases |bs|
  {
    var n := |bs| - 1;
    if p == n {
      assert bs[p := true][..n] == bs[..n];
    } else {
      assert bs[p := true][..n] == bs[..n][p := true];
      CountTrueSet(bs[..n], p);
    }
  }

  lemma {:induction false} CountTrueFalses(bs: seq<bool>, n: nat)
    ensures CountTrue(bs + seq(n, _ => false)) == CountTrue(bs)
    decreases n
  {
    if n > 0 {
      assert (bs + seq(n, _ => false))[..|bs| + n - 1] == bs + seq(n - 1, _ => false);
      CountTrueFalses(bs, n - 1);
    } else {
      assert bs + seq(n, _ => false) == bs;
    }
  }

  /** A line keeps all its cells among its nonzero entries exactly when it has no empty cell. */
  lemma {:induction false} NonZerosFull(xs: seq<int>)
    ensures |NonZeros(xs)| == |xs| <==> forall i :: 0 <= i < |xs| ==> xs[i] != 0
    decreases |xs|
  {
    if |xs| > 0 {
      var init := xs[..|xs| - 1];
      NonZerosFull(init);
      NonZerosShorter(init);
    }
  }

  /** Appending a cell keeps a line gap-free exactly when the cell is empty or
      the line had no empty cell. */
  lemma CompactSnoc(xs: seq<int>, v: int)
    ensures Compact(xs + [v]) == (Compact(xs) && (v == 0 || |NonZeros(xs)| == |xs|))
  {
    NonZerosFull(xs);
    var ys := xs + [v];
    if Compact(ys) {
      assert forall i, k :: 0 <= i < k < |xs| && xs[i] == 0 ==> ys[i] == 0 && ys[k] == xs[k];
      if v != 0 {
        forall i | 0 <= i < |xs|
          ensures xs[i] != 0
        {
          assert ys[i] == xs[i] && ys[|xs|] == v;
        }
      }
    }
  }
}
