/** Which frames a task of the multi-task loss sees: those whose Posterior
    entry names one of the task's columns (nnet-loss.cc, `MultiTaskLoss::Eval`,
    the `frmwei_have_tgt` masks). */
module FrameMasks {
  import opened ColumnBlocks
  import opened LossMath

  predicate HasTargetIn(entries: seq<(int, real)>, lo: int, hi: int)
  {
    exists p :: 0 <= p < |entries| && lo <= entries[p].0 < hi
  }

  /** The frame weights a task sees: the original weight where the frame has
      a Posterior entry among the task's columns, zero elsewhere. */
  function MaskedWeights(w: seq<real>, post: Posterior, lo: int, hi: int): (m: seq<real>)
    requires |post| == |w|
    ensures |m| == |w|
  {
    seq(|w|, f requires 0 <= f < |w| => if HasTargetIn(post[f], lo, hi) then w[f] else 0.0)
  }

  /** A frame labelled with the single column `c` keeps its weight in
      exactly one task, the one whose columns hold `c`. */
  lemma SingleLabelOneTask(dims: seq<int>, entries: seq<(int, real)>, l: nat)
    requires AllNonNegative(dims) && l < |dims|
    requires |entries| == 1 && 0 <= entries[0].0 < SumInts(dims)
    ensures HasTargetIn(entries, PrefixSums(dims)[l], PrefixSums(dims)[l + 1]) <==>
      l == BlockIndex(dims, entries[0].0)
  {
    var c := entries[0].0;
    var o := PrefixSums(dims);
    var b := BlockIndex(dims, c);
    assert HasTargetIn(entries, o[l], o[l + 1]) <==> o[l] <= c < o[l + 1] by {
      if HasTargetIn(entries, o[l], o[l + 1]) {
        var p :| 0 <= p < |entries| && o[l] <= entries[p].0 < o[l + 1];
        assert p == 0;
      }
    }
    if o[l] <= c < o[l + 1] {
      BlocksDisjoint(dims, c, l, b);
    }
  }

  /** The masking loop of nnet-loss.cc: a copy of the weights, with the
      weight of every frame whose Posterior entry has no column in
      `[lo, hi)` set to zero; the scan of a frame's entries stops at the
      first one inside. */
  method MaskFrameWeights(w: seq<real>, post: Posterior, lo: int, hi: int) returns (m: seq<real>)
    requires |post| == |w|
    ensures m == MaskedWeights(w, post, lo, hi)
  {
    m := w;
    var f := 0;
    while f < |post|
      invariant 0 <= f <= |post| && |m| == |w|
      invariant forall g :: 0 <= g < f ==> m[g] == MaskedWeights(w, post, lo, hi)[g]
      invariant forall g :: f <= g < |w| ==> m[g] == w[g]
    {
      var defined := false;
      var p := 0;
      while p < |post[f]|
        invariant 0 <= p <= |post[f]|
        invariant !defined
        invariant forall q :: 0 <= q < p ==> !(lo <= post[f][q].0 < hi)
      {
        if lo <= post[f][p].0 && post[f][p].0 < hi {
          defined := true;
          break;
        }
        p := p + 1;
      }
      assert defined <==> HasTargetIn(post[f], lo, hi);
      if !defined {
        m := m[f := 0.0];
      }
      f := f + 1;
    }
  }
}
