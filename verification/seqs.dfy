/** Sums, masks and reversals of integer sequences: the arithmetic the board
    invariants are stated in. */
module Seqs {

  /** Sum of a sequence, peeled from the end. */
  function Sum(s: seq<int>): int
  {
    if |s| == 0 then 0 else Sum(s[..|s| - 1]) + s[|s| - 1]
  }

  /** A run of `n` empty cells. */
  function Zeros(n: nat): (z: seq<int>)
    ensures |z| == n
  {
    seq(n, _ => 0)
  }

  /** 1 for every nonzero entry, 0 for every zero entry. */
  function Mask(s: seq<int>): (m: seq<int>)
    ensures |m| == |s|
  {
    seq(|s|, i requires 0 <= i < |s| => if s[i] != 0 then 1 else 0)
  }

  /** Number of nonzero entries (tiles) of a sequence of cells. */
  function Tiles(s: seq<int>): int
  {
    Sum(Mask(s))
  }

  function Reverse<T>(s: seq<T>): (r: seq<T>)
    ensures |r| == |s|
  {
    seq(|s|, i requires 0 <= i < |s| => s[|s| - 1 - i])
  }

  /** Entry-wise sum of two sequences of the same length. */
  function AddEach(a: seq<int>, b: seq<int>): (r: seq<int>)
    requires |a| == |b|
    ensures |r| == |a|
  {
    seq(|a|, i requires 0 <= i < |a| => a[i] + b[i])
  }

  /** No zero entry precedes a nonzero entry. */
  predicate Compact(s: seq<int>)
  {
    forall i, k :: 0 <= i < k < |s| && s[i] == 0 ==> s[k] == 0
  }

  lemma {:induction false} SumConcat(a: seq<int>, b: seq<int>)
    ensures Sum(a + b) == Sum(a) + Sum(b)
    decreases |b|
  {
    if |b| == 0 {
      assert a + b == a;
    } else {
      assert (a + b)[..|a + b| - 1] == a + b[..|b| - 1];
      SumConcat(a, b[..|b| - 1]);
    }
  }

  lemma {:induction false} SumZeros(n: nat)
    ensures Sum(Zeros(n)) == 0
  {
    if n > 0 {
      assert Zeros(n)[..n - 1] == Zeros(n - 1);
      SumZeros(n - 1);
    }
  }

  lemma {:induction false} SumReverse(s: seq<int>)
    ensures Sum(Reverse(s)) == Sum(s)
    decreases |s|
  {
    if |s| > 0 {
      var init := s[..|s| - 1];
      assert Reverse(s) == [s[|s| - 1]] + Reverse(init);
      SumConcat([s[|s| - 1]], Reverse(init));
      assert [s[|s| - 1]][..0] == [];
      SumReverse(init);
    }
  }

  lemma {:induction false} SumAddEach(a: seq<int>, b: seq<int>)
    requires |a| == |b|
    ensures Sum(AddEach(a, b)) == Sum(a) + Sum(b)
    decreases |a|
  {
    if |a| > 0 {
      var n := |a| - 1;
      assert AddEach(a, b)[..n] == AddEach(a[..n], b[..n]);
      SumAddEach(a[..n], b[..n]);
    }
  }

  lemma {:induction false} SumNonNegative(s: seq<int>)
    requires forall k :: 0 <= k < |s| ==> s[k] >= 0
    ensures Sum(s) >= 0
    decreases |s|
  {
    if |s| > 0 {
      SumNonNegative(s[..|s| - 1]);
    }
  }

  /** A sequence with no zero entry has one tile per entry. */
  lemma {:induction false} TilesAllNonZero(s: seq<int>)
    requires forall i :: 0 <= i < |s| ==> s[i] != 0
    ensures Tiles(s) == |s|
    decreases |s|
  {
    if |s| > 0 {
      var n := |s| - 1;
      assert Mask(s)[..n] == Mask(s[..n]);
      TilesAllNonZero(s[..n]);
    }
  }

  lemma {:induction false} SumUpdate(s: seq<int>, p: nat, x: int)
    requires p < |s|
    ensures Sum(s[p := x]) == Sum(s) - s[p] + x
    decreases |s|
  {
    var n := |s| - 1;
    if p == n {
      assert s[p := x][..n] == s[..n];
    } else {
      assert s[p := x][..n] == s[..n][p := x];
      SumUpdate(s[..n], p, x);
    }
  }

  /** Writing `x` into cell `p` changes the tile count by what was lost and what was gained. */
  lemma TilesUpdate(s: seq<int>, p: nat, x: int)
    requires p < |s|
    ensures Tiles(s[p := x]) == Tiles(s) - (if s[p] != 0 then 1 else 0) + (if x != 0 then 1 else 0)
  {
    assert Mask(s[p := x]) == Mask(s)[p := if x != 0 then 1 else 0];
    SumUpdate(Mask(s), p, if x != 0 then 1 else 0);
  }

  /** A sum of nonnegative entries is zero exactly when every entry is. */
  lemma {:induction false} SumZero(s: seq<int>)
    requires forall k :: 0 <= k < |s| ==> s[k] >= 0
    ensures Sum(s) == 0 <==> forall k :: 0 <= k < |s| ==> s[k] == 0
    decreases |s|
  {
    if |s| > 0 {
      var n := |s| - 1;
      SumZero(s[..n]);
      SumNonNegative(s[..n]);
      assert forall k :: 0 <= k < n ==> s[..n][k] == s[k];
    }
  }

  lemma ReverseTwice<T>(s: seq<T>)
    ensures Reverse(Reverse(s)) == s
  {
  }

  /** Reversal is one-to-one. */
  lemma ReverseEqual<T>(a: seq<T>, b: seq<T>)
    ensures Reverse(a) == Reverse(b) <==> a == b
  {
    ReverseTwice(a);
    ReverseTwice(b);
  }
}
