/** Column blocks: a sequence of widths laid side by side, as used for the
    tasks of a multi-task loss and the branches of a parallel component.
    `PrefixSums(d)[i]` is the first column of block `i`, and the last entry
    is the total width. */
module ColumnBlocks {

  /** Sum of a sequence of integers, folded from the back so that it extends
      naturally as a loop walks forwards. */
  function SumInts(d: seq<int>): int
  {
    if |d| == 0 then 0 else SumInts(d[..|d| - 1]) + d[|d| - 1]
  }

  /** Cumulative offsets: entry `k` is the sum of the first `k` widths. */
  function PrefixSums(d: seq<int>): (o: seq<int>)
    ensures |o| == |d| + 1
    ensures o[0] == 0
    ensures o[|d|] == SumInts(d)
    ensures forall k {:trigger d[k]} :: 0 <= k < |d| ==> o[k + 1] == o[k] + d[k]
  {
    var o := seq(|d| + 1, k requires 0 <= k <= |d| => SumInts(d[..k]));
    assert d[..|d|] == d;
    forall k | 0 <= k < |d| ensures o[k + 1] == o[k] + d[k] {
      assert d[..k + 1][..k] == d[..k];
    }
    o
  }

  predicate AllNonNegative(d: seq<int>)
  {
    forall k :: 0 <= k < |d| ==> d[k] >= 0
  }

  /** With non-negative widths the offsets never decrease. */
  lemma {:induction false} OffsetsMonotone(d: seq<int>, i: int, j: int)
    requires AllNonNegative(d)
    requires 0 <= i <= j <= |d|
    ensures PrefixSums(d)[i] <= PrefixSums(d)[j]
    decreases j - i
  {
    if i < j {
      OffsetsMonotone(d, i + 1, j);
    }
  }

  /** Dropping the last width leaves the earlier offsets as they were. */
  lemma PrefixSumsOfPrefix(d: seq<int>, n: nat, k: nat)
    requires n <= |d| && k <= n
    ensures PrefixSums(d[..n])[k] == PrefixSums(d)[k]
  {
    assert d[..n][..k] == d[..k];
  }

  /** The block holding column `c` of the total width, provided the widths
      are non-negative. */
  function BlockIndex(d: seq<int>, c: int): (l: nat)
    requires AllNonNegative(d)
    requires 0 <= c < SumInts(d)
    ensures l < |d| && PrefixSums(d)[l] <= c < PrefixSums(d)[l + 1]
    decreases |d|
  {
    var n := |d|;
    PrefixSumsOfPrefix(d, n - 1, n - 1);
    if c < PrefixSums(d)[n - 1] then
      var l := BlockIndex(d[..n - 1], c);
      PrefixSumsOfPrefix(d, n - 1, l);
      PrefixSumsOfPrefix(d, n - 1, l + 1);
      l
    else
      n - 1
  }

  /** No column lies in two blocks, provided the widths are non-negative. */
  lemma BlocksDisjoint(d: seq<int>, c: int, l: int, l': int)
    requires AllNonNegative(d)
    requires 0 <= l < |d| && 0 <= l' < |d|
    requires PrefixSums(d)[l] <= c < PrefixSums(d)[l + 1]
    requires PrefixSums(d)[l'] <= c < PrefixSums(d)[l' + 1]
    ensures l == l'
  {
    if l < l' {
      OffsetsMonotone(d, l + 1, l');
    } else if l' < l {
      OffsetsMonotone(d, l' + 1, l);
    }
  }

  /** A block that fits: its start is non-negative and its end does not pass
      the total width. */
  lemma BlockWithinTotal(d: seq<int>, l: int)
    requires AllNonNegative(d)
    requires 0 <= l < |d|
    ensures 0 <= PrefixSums(d)[l] && PrefixSums(d)[l] + d[l] <= SumInts(d)
  {
    OffsetsMonotone(d, 0, l);
    OffsetsMonotone(d, l + 1, |d|);
    assert PrefixSums(d)[l + 1] == PrefixSums(d)[l] + d[l];
  }
}
