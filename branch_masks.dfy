/** The per-frame, per-branch 0/1 mask that a parallel component's backward
    pass puts on the incoming gradient (`row_diff_mask`: one row per frame,
    one column per nested network).

    A branch whose last component is a softmax is kept at a frame when the
    absolute sum of the incoming gradient over the branch's columns is below
    `eps = 1e-6`, and zeroed otherwise. A branch whose last component is not
    a softmax is kept at a frame exactly when every softmax branch is zeroed
    there.

    Kaldi's `VectorBase::LowerThreshold` is not part of this model: after
    `ApplyAbs` it is taken to be the 0/1 step that the comments beside the
    call describe (0 below the threshold, 1 from it on), so that the mask,
    one minus that step, is 1 to keep and 0 to zero out. */
module BranchMasks {
  import opened Matrices
  import opened ColumnBlocks
  import opened NestedNnets

  /** `eps`, a `float` in the source. */
  const Eps: real := 0.000001

  /** `LowerThreshold(eps, 0)` on a non-negative value, as the comments
      describe it: 0 below `eps`, 1 otherwise. */
  function LowerThreshold(x: real): (r: real)
    ensures r == 0.0 || r == 1.0
  {
    if x < Eps then 0.0 else 1.0
  }

  /** `MatrixBase::IsZero` on a single cell, with Kaldi's default cutoff. */
  predicate IsZeroCell(x: real)
  {
    -0.00001 <= x <= 0.00001
  }

  /** The branches' output widths add up to the gradient's width. */
  predicate OutFits(ns: seq<Nnet>, outDiff: Mat)
  {
    SumInts(OutputDims(ns)) == outDiff.cols
  }

  /** Branch `i`'s columns of the incoming gradient. */
  function OutBlock(ns: seq<Nnet>, outDiff: Mat, i: nat): (b: Mat)
    requires OutFits(ns, outDiff) && i < |ns|
    ensures b.rows == outDiff.rows && b.cols == ns[i].outputDim
    ensures ColRangeOk(outDiff, PrefixSums(OutputDims(ns))[i], ns[i].outputDim)
  {
    BlockWithinTotal(OutputDims(ns), i);
    ColRange(outDiff, PrefixSums(OutputDims(ns))[i], ns[i].outputDim)
  }

  /** A softmax branch's mask at frame `j`. */
  function SoftmaxMask(ns: seq<Nnet>, outDiff: Mat, i: nat, j: nat): real
    requires OutFits(ns, outDiff) && i < |ns| && j < outDiff.rows
  {
    1.0 - LowerThreshold(Abs(RowSum(OutBlock(ns, outDiff, i), j)))
  }

  /** Every softmax branch is zeroed at frame `j`. */
  predicate SoftmaxInactive(ns: seq<Nnet>, outDiff: Mat, j: nat)
    requires OutFits(ns, outDiff) && j < outDiff.rows
  {
    forall k :: 0 <= k < |ns| && ns[k].lastIsSoftmax ==> IsZeroCell(SoftmaxMask(ns, outDiff, k, j))
  }

  /** The mask of branch `i` at frame `j`. */
  function MaskCell(ns: seq<Nnet>, outDiff: Mat, j: nat, i: nat): real
    requires OutFits(ns, outDiff) && i < |ns| && j < outDiff.rows
  {
    if ns[i].lastIsSoftmax then SoftmaxMask(ns, outDiff, i, j)
    else if SoftmaxInactive(ns, outDiff, j) then 1.0
    else 0.0
  }

  /** Branch `i`'s mask column. */
  function MaskColumn(ns: seq<Nnet>, outDiff: Mat, i: nat): (m: seq<real>)
    requires OutFits(ns, outDiff) && i < |ns|
    ensures |m| == outDiff.rows
    ensures forall j :: 0 <= j < outDiff.rows ==> m[j] == MaskCell(ns, outDiff, j, i)
  {
    seq(outDiff.rows, j requires 0 <= j < outDiff.rows => MaskCell(ns, outDiff, j, i))
  }

  /** The indices below `k` of the softmax branches, in increasing order
      (`softmax_indices`). */
  function SoftmaxIndices(ns: seq<Nnet>, k: nat): (s: seq<nat>)
    requires k <= |ns|
    ensures forall t :: 0 <= t < |s| ==> s[t] < k && ns[s[t]].lastIsSoftmax
    ensures forall c :: 0 <= c < k && ns[c].lastIsSoftmax ==> c in s
  {
    if k == 0 then []
    else SoftmaxIndices(ns, k - 1) + (if ns[k - 1].lastIsSoftmax then [k - 1] else [])
  }

  // ---------------------------------------------------------------------
  // What the mask means

  /** Every mask entry is 0 or 1. */
  lemma MaskIsBinary(ns: seq<Nnet>, outDiff: Mat, j: nat, i: nat)
    requires OutFits(ns, outDiff) && i < |ns| && j < outDiff.rows
    ensures MaskCell(ns, outDiff, j, i) == 0.0 || MaskCell(ns, outDiff, j, i) == 1.0
  {
  }

  /** A softmax branch is kept exactly when the absolute sum of its
      incoming gradient at that frame is below `eps`. */
  lemma SoftmaxKeptIff(ns: seq<Nnet>, outDiff: Mat, j: nat, i: nat)
    requires OutFits(ns, outDiff) && i < |ns| && j < outDiff.rows && ns[i].lastIsSoftmax
    ensures MaskCell(ns, outDiff, j, i) == 1.0 <==> Abs(RowSum(OutBlock(ns, outDiff, i), j)) < Eps
    ensures MaskCell(ns, outDiff, j, i) == 0.0 <==> Abs(RowSum(OutBlock(ns, outDiff, i), j)) >= Eps
  {
  }

  /** A non-softmax branch is kept at a frame exactly when every softmax
      branch is zeroed there; with no softmax branch at all it is always
      kept. */
  lemma NonSoftmaxKeptIff(ns: seq<Nnet>, outDiff: Mat, j: nat, i: nat)
    requires OutFits(ns, outDiff) && i < |ns| && j < outDiff.rows && !ns[i].lastIsSoftmax
    ensures MaskCell(ns, outDiff, j, i) == 1.0 <==>
      forall k :: 0 <= k < |ns| && ns[k].lastIsSoftmax ==> MaskCell(ns, outDiff, j, k) == 0.0
    ensures (forall k :: 0 <= k < |ns| ==> !ns[k].lastIsSoftmax) ==> MaskCell(ns, outDiff, j, i) == 1.0
  {
    if !SoftmaxInactive(ns, outDiff, j) {
      var k :| 0 <= k < |ns| && ns[k].lastIsSoftmax && !IsZeroCell(SoftmaxMask(ns, outDiff, k, j));
      assert MaskCell(ns, outDiff, j, k) != 0.0;
    }
  }

  /** All non-softmax branches get the same mask. */
  lemma NonSoftmaxMasksAgree(ns: seq<Nnet>, outDiff: Mat, j: nat, i: nat, i': nat)
    requires OutFits(ns, outDiff) && i < |ns| && i' < |ns| && j < outDiff.rows
    requires !ns[i].lastIsSoftmax && !ns[i'].lastIsSoftmax
    ensures MaskCell(ns, outDiff, j, i) == MaskCell(ns, outDiff, j, i')
  {
  }

  /** When some branch is not a softmax, every frame is kept by at least
      one branch. */
  lemma SomeBranchKeepsEachFrame(ns: seq<Nnet>, outDiff: Mat, j: nat, i: nat)
    requires OutFits(ns, outDiff) && i < |ns| && j < outDiff.rows && !ns[i].lastIsSoftmax
    ensures exists k :: 0 <= k < |ns| && MaskCell(ns, outDiff, j, k) == 1.0
  {
    if !SoftmaxInactive(ns, outDiff, j) {
      var k :| 0 <= k < |ns| && ns[k].lastIsSoftmax && !IsZeroCell(SoftmaxMask(ns, outDiff, k, j));
      assert MaskCell(ns, outDiff, j, k) == 1.0;
    } else {
      assert MaskCell(ns, outDiff, j, i) == 1.0;
    }
  }

  // ---------------------------------------------------------------------
  // Building the mask

  /** The whole mask, frame by frame. */
  function MaskMatrix(ns: seq<Nnet>, outDiff: Mat): (m: seq<seq<real>>)
    requires OutFits(ns, outDiff)
    ensures |m| == outDiff.rows && forall j :: 0 <= j < |m| ==> |m[j]| == |ns|
    ensures forall j, c :: 0 <= j < outDiff.rows && 0 <= c < |ns| ==> m[j][c] == MaskCell(ns, outDiff, j, c)
  {
    seq(outDiff.rows, j requires 0 <= j < outDiff.rows =>
      seq(|ns|, c requires 0 <= c < |ns| => MaskCell(ns, outDiff, j, c)))
  }

  /** The mask as the backward pass builds it: first the softmax columns,
      each from the row sums of its branch's gradient, then every other
      column, cell by cell, from the softmax columns. */
  method ComputeMask(ns: seq<Nnet>, outDiff: Mat) returns (mask: array2<real>)
    requires OutFits(ns, outDiff)
    ensures fresh(mask) && mask.Length0 == outDiff.rows && mask.Length1 == |ns|
    ensures forall j, i :: 0 <= j < outDiff.rows && 0 <= i < |ns| ==> mask[j, i] == MaskCell(ns, outDiff, j, i)
  {
    ghost var M := MaskMatrix(ns, outDiff);
    var nrows, ncols := outDiff.rows, |ns|;
    mask := new real[nrows, ncols]((_, _) => 0.0);
    var softmaxIdx: seq<nat> := [];
    var outOff := 0;
    var i := 0;
    while i < ncols
      invariant 0 <= i <= ncols && outOff == PrefixSums(OutputDims(ns))[i]
      invariant softmaxIdx == SoftmaxIndices(ns, i)
      invariant Filled(mask, ns, M, i, 0, true)
    {
      if ns[i].lastIsSoftmax {
        softmaxIdx := softmaxIdx + [i];
        SetSoftmaxColumn(mask, ns, outDiff, M, i, outOff);
      }
      outOff := outOff + ns[i].outputDim;
      i := i + 1;
    }
    i := 0;
    while i < ncols
      invariant 0 <= i <= ncols
      invariant Filled(mask, ns, M, i, 0, false)
    {
      if !ns[i].lastIsSoftmax {
        SetOtherColumn(mask, ns, outDiff, M, i, softmaxIdx);
      }
      i := i + 1;
    }
  }

  /** The mask is filled up to cell `(j, i)` of `M`, column by column:
      while `softmaxOnly` holds only the softmax columns count as filled,
      afterwards the softmax columns are all filled. Every other cell is
      still 0. */
  ghost predicate Filled(mask: array2<real>, ns: seq<Nnet>, M: seq<seq<real>>, i: nat, j: nat, softmaxOnly: bool)
    reads mask
  {
    i <= |ns| && mask.Length0 == |M| && mask.Length1 == |ns| &&
    (forall r :: 0 <= r < |M| ==> |M[r]| == |ns|) &&
    forall r, c :: 0 <= r < |M| && 0 <= c < |ns| ==>
      mask[r, c] ==
        (if (if softmaxOnly then ns[c].lastIsSoftmax && (c < i || (c == i && r < j))
             else ns[c].lastIsSoftmax || c < i || (c == i && r < j))
         then M[r][c] else 0.0)
  }

  /** Softmax column `i`: the absolute row sums of the branch's gradient,
      thresholded, then `1 - x`. */
  method SetSoftmaxColumn(mask: array2<real>, ns: seq<Nnet>, outDiff: Mat, ghost M: seq<seq<real>>, i: nat, outOff: int)
    requires OutFits(ns, outDiff) && i < |ns| && ns[i].lastIsSoftmax && M == MaskMatrix(ns, outDiff)
    requires outOff == PrefixSums(OutputDims(ns))[i]
    requires Filled(mask, ns, M, i, 0, true)
    modifies mask
    ensures Filled(mask, ns, M, i + 1, 0, true)
  {
    BlockWithinTotal(OutputDims(ns), i);
    var src := ColRange(outDiff, outOff, ns[i].outputDim);
    assert src == OutBlock(ns, outDiff, i);
    var j := 0;
    while j < outDiff.rows
      invariant 0 <= j <= outDiff.rows
      invariant Filled(mask, ns, M, i, j, true)
    {
      var keep := 1.0 - LowerThreshold(Abs(RowSum(src, j)));
      assert keep == M[j][i];
      mask[j, i] := keep;
      j := j + 1;
    }
  }

  /** Non-softmax column `i`: 1 at every frame where all softmax columns
      are zero. */
  method SetOtherColumn(mask: array2<real>, ns: seq<Nnet>, outDiff: Mat, ghost M: seq<seq<real>>, i: nat, softmaxIdx: seq<nat>)
    requires OutFits(ns, outDiff) && i < |ns| && !ns[i].lastIsSoftmax && M == MaskMatrix(ns, outDiff)
    requires softmaxIdx == SoftmaxIndices(ns, |ns|)
    requires Filled(mask, ns, M, i, 0, false)
    modifies mask
    ensures Filled(mask, ns, M, i + 1, 0, false)
  {
    var j := 0;
    while j < outDiff.rows
      invariant 0 <= j <= outDiff.rows
      invariant Filled(mask, ns, M, i, j, false)
    {
      var inactive := SoftmaxColumnsZero(mask, ns, outDiff, M, i, j, softmaxIdx);
      if inactive {
        mask[j, i] := 1.0;
      }
      j := j + 1;
    }
  }

  /** Whether the softmax columns of row `j` are all zero: what cell
      `(j, i)` of a non-softmax column is set from. */
  method SoftmaxColumnsZero(mask: array2<real>, ns: seq<Nnet>, outDiff: Mat, ghost M: seq<seq<real>>,
                            i: nat, j: nat, softmaxIdx: seq<nat>) returns (inactive: bool)
    requires OutFits(ns, outDiff) && i < |ns| && !ns[i].lastIsSoftmax && M == MaskMatrix(ns, outDiff)
    requires softmaxIdx == SoftmaxIndices(ns, |ns|) && j < outDiff.rows
    requires Filled(mask, ns, M, i, j, false)
    ensures M[j][i] == if inactive then 1.0 else 0.0
  {
    InactiveColumns(mask, ns, outDiff, j);
    inactive := FrameInactive(mask, j, softmaxIdx);
  }

  /** Whether the cells of row `j` in the columns `idx` are all zero,
      stopping at the first that is not. */
  method FrameInactive(mask: array2<real>, j: nat, idx: seq<nat>) returns (inactive: bool)
    requires j < mask.Length0 && forall t :: 0 <= t < |idx| ==> idx[t] < mask.Length1
    ensures inactive <==> forall t :: 0 <= t < |idx| ==> IsZeroCell(mask[j, idx[t]])
  {
    inactive := true;
    var k := 0;
    while k < |idx| && inactive
      invariant 0 <= k <= |idx|
      invariant inactive ==> forall t :: 0 <= t < k ==> IsZeroCell(mask[j, idx[t]])
      invariant !inactive ==> 0 < k && !IsZeroCell(mask[j, idx[k - 1]])
    {
      if !IsZeroCell(mask[j, idx[k]]) {
        inactive := false;
      }
      k := k + 1;
    }
  }

  /** The softmax columns of row `j` are all zero exactly when every
      softmax branch is zeroed at frame `j`. */
  lemma InactiveColumns(mask: array2<real>, ns: seq<Nnet>, outDiff: Mat, j: nat)
    requires OutFits(ns, outDiff) && j < outDiff.rows
    requires mask.Length0 == outDiff.rows && mask.Length1 == |ns|
    requires forall c :: 0 <= c < |ns| && ns[c].lastIsSoftmax ==> mask[j, c] == SoftmaxMask(ns, outDiff, c, j)
    ensures var idx := SoftmaxIndices(ns, |ns|);
      (forall t :: 0 <= t < |idx| ==> IsZeroCell(mask[j, idx[t]])) <==> SoftmaxInactive(ns, outDiff, j)
  {
    var idx := SoftmaxIndices(ns, |ns|);
    if forall t :: 0 <= t < |idx| ==> IsZeroCell(mask[j, idx[t]]) {
      ZeroColumnsInactive(mask, ns, outDiff, j, idx);
    } else {
      var t :| 0 <= t < |idx| && !IsZeroCell(mask[j, idx[t]]);
      NonZeroColumnActive(mask, ns, outDiff, j, idx, t);
    }
  }

  /** All softmax columns zero: every softmax branch is zeroed. */
  lemma ZeroColumnsInactive(mask: array2<real>, ns: seq<Nnet>, outDiff: Mat, j: nat, idx: seq<nat>)
    requires OutFits(ns, outDiff) && j < outDiff.rows
    requires mask.Length0 == outDiff.rows && mask.Length1 == |ns|
    requires forall c :: 0 <= c < |ns| && ns[c].lastIsSoftmax ==> mask[j, c] == SoftmaxMask(ns, outDiff, c, j)
    requires idx == SoftmaxIndices(ns, |ns|) && forall t :: 0 <= t < |idx| ==> IsZeroCell(mask[j, idx[t]])
    ensures SoftmaxInactive(ns, outDiff, j)
  {
    forall c | 0 <= c < |ns| && ns[c].lastIsSoftmax
      ensures IsZeroCell(SoftmaxMask(ns, outDiff, c, j))
    {
      assert c in idx;
      var t :| 0 <= t < |idx| && idx[t] == c;
      assert IsZeroCell(mask[j, idx[t]]);
    }
  }

  /** A non-zero softmax column: its branch is not zeroed. */
  lemma NonZeroColumnActive(mask: array2<real>, ns: seq<Nnet>, outDiff: Mat, j: nat, idx: seq<nat>, t: nat)
    requires OutFits(ns, outDiff) && j < outDiff.rows
    requires mask.Length0 == outDiff.rows && mask.Length1 == |ns|
    requires forall c :: 0 <= c < |ns| && ns[c].lastIsSoftmax ==> mask[j, c] == SoftmaxMask(ns, outDiff, c, j)
    requires idx == SoftmaxIndices(ns, |ns|) && t < |idx| && !IsZeroCell(mask[j, idx[t]])
    ensures !SoftmaxInactive(ns, outDiff, j)
  {
    var c := idx[t];
    assert c < |ns| && ns[c].lastIsSoftmax && mask[j, c] == SoftmaxMask(ns, outDiff, c, j);
  }

  /** Branch `i`'s mask column read back from the array
      (`CopyColFromMat`). */
  function Column(mask: array2<real>, i: nat): (v: seq<real>)
    requires i < mask.Length1
    reads mask
    ensures |v| == mask.Length0 && forall j :: 0 <= j < mask.Length0 ==> v[j] == mask[j, i]
  {
    seq(mask.Length0, j requires 0 <= j < mask.Length0 reads mask => mask[j, i])
  }
}
