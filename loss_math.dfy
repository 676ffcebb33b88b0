/** The numeric formulas behind the nnet1 loss functions (nnet-loss.cc):
    frame classification by arg-max, the weighted count of correct frames,
    target interpolation, the cross-entropy and mean-square-error gradients
    and loss values, and the conversion of sparse targets (a Posterior) to a
    dense matrix. */
module LossMath {
  import opened Wrappers
  import opened Matrices

  /** Added before taking a logarithm, to avoid log(0). */
  const LogFloor: real := 0.00000000000000000001

  /** Length of the progress-report window: one hour of 10 ms frames
      (`progress_step = 3600*100`). */
  const ProgressStep: real := 360000.0

  // ---------------------------------------------------------------------
  // Frame classification

  /** The arg-max of a row, as `FindRowMaxId` reports it. That routine is
      not part of this model; it is assumed to return the first index of a
      maximal entry, and -1 for a row with no entries. */
  function RowMaxId(row: seq<real>): (k: int)
    ensures |row| == 0 ==> k == -1
    ensures |row| > 0 ==> 0 <= k < |row|
  {
    if |row| == 0 then -1
    else
      var k := RowMaxId(row[..|row| - 1]);
      if k == -1 || row[|row| - 1] > row[k] then |row| - 1 else k
  }

  /** `RowMaxId` picks a maximal entry, and the first of several equal
      maxima. */
  lemma {:induction false} RowMaxIdIsFirstMax(row: seq<real>)
    requires |row| > 0
    ensures forall j :: 0 <= j < |row| ==> row[j] <= row[RowMaxId(row)]
    ensures forall j :: 0 <= j < RowMaxId(row) ==> row[j] < row[RowMaxId(row)]
  {
    var n := |row| - 1;
    if n > 0 {
      RowMaxIdIsFirstMax(row[..n]);
    }
  }

  function FindRowMaxId(m: Mat): (ids: seq<int>)
    ensures |ids| == m.rows
    ensures forall i :: 0 <= i < m.rows ==> ids[i] == RowMaxId(m.cells[i])
  {
    seq(m.rows, i requires 0 <= i < m.rows => RowMaxId(m.cells[i]))
  }

  /** Sum of `w[i]` over the positions where `v1` and `v2` agree. */
  function WeightedMatches(v1: seq<int>, v2: seq<int>, w: seq<real>): real
    requires |v1| == |v2| == |w|
  {
    if |w| == 0 then 0.0
    else
      var n := |w| - 1;
      WeightedMatches(v1[..n], v2[..n], w[..n]) + w[n] * (if v1[n] == v2[n] then 1.0 else 0.0)
  }

  /** nnet-loss.cc CountCorrectFramesWeighted: the loop over frames. */
  method CountCorrectFramesWeighted(v1: seq<int>, v2: seq<int>, weights: seq<real>) returns (correct: real)
    requires |v1| == |v2| && |v1| == |weights|
    ensures correct == WeightedMatches(v1, v2, weights)
  {
    var corr := 0.0;
    var i := 0;
    while i < |weights|
      invariant 0 <= i <= |weights|
      invariant corr == WeightedMatches(v1[..i], v2[..i], weights[..i])
    {
      assert v1[..i + 1][..i] == v1[..i] && v2[..i + 1][..i] == v2[..i] && weights[..i + 1][..i] == weights[..i];
      corr := corr + weights[i] * (if v1[i] == v2[i] then 1.0 else 0.0);
      i := i + 1;
    }
    assert v1[..i] == v1 && v2[..i] == v2 && weights[..i] == weights;
    correct := corr;
  }

  /** With non-negative weights the weighted count of correct frames lies
      between 0 and the total weight, and reaches the total weight exactly
      when every frame is classified correctly. */
  lemma {:induction false} WeightedMatchesBounds(v1: seq<int>, v2: seq<int>, w: seq<real>)
    requires |v1| == |v2| == |w|
    requires forall i :: 0 <= i < |w| ==> w[i] >= 0.0
    ensures 0.0 <= WeightedMatches(v1, v2, w) <= SumSeq(w)
    ensures v1 == v2 ==> WeightedMatches(v1, v2, w) == SumSeq(w)
  {
    if |w| > 0 {
      var n := |w| - 1;
      WeightedMatchesBounds(v1[..n], v2[..n], w[..n]);
    }
  }

  // ---------------------------------------------------------------------
  // Target interpolation

  /** Rows that are 1 at column `ids[i]` and 0 elsewhere; an id outside the
      row (the -1 of an empty row) sets nothing. */
  function OneHotRows(ids: seq<int>, cols: nat): (h: Mat)
    ensures h.rows == |ids| && h.cols == cols
    ensures forall i, j :: 0 <= i < |ids| && 0 <= j < cols ==> h.cells[i][j] == if j == ids[i] then 1.0 else 0.0
  {
    Matrix(|ids|, cols,
      seq(|ids|, i requires 0 <= i < |ids| => seq(cols, j => if j == ids[i] then 1.0 else 0.0)))
  }

  /** nnet-loss.cc lines 104-112: the "hard" matrix is built by setting one
      cell per row of a zero matrix. */
  method HardTargets(ids: seq<int>, cols: nat) returns (h: Mat)
    ensures h == OneHotRows(ids, cols)
  {
    var rows := seq(|ids|, _ => seq(cols, _ => 0.0));
    var ri := 0;
    while ri < |ids|
      invariant 0 <= ri <= |ids| && |rows| == |ids|
      invariant forall i :: 0 <= i < |ids| ==> |rows[i]| == cols
      invariant forall i, j :: 0 <= i < ri && 0 <= j < cols ==> rows[i][j] == if j == ids[i] then 1.0 else 0.0
      invariant forall i, j :: ri <= i < |ids| && 0 <= j < cols ==> rows[i][j] == 0.0
    {
      if 0 <= ids[ri] < cols {
        rows := rows[ri := rows[ri][ids[ri] := 1.0]];
      }
      ri := ri + 1;
    }
    h := Matrix(|ids|, cols, rows);
    forall i | 0 <= i < |ids| ensures rows[i] == OneHotRows(ids, cols).cells[i] {
    }
  }

  /** Whether a mode and weight switch interpolation on: any mode other than
      "none", with a weight strictly between 0 and 1. */
  predicate Interpolates(mode: string, wt: real)
  {
    mode != "none" && 0.0 < wt < 1.0
  }

  /** The effective target of the cross-entropy gradient (nnet-loss.cc lines
      94-116): the target itself unless interpolation is on; then
      `wt * t + (1 - wt) * y` for "soft", `wt * t + (1 - wt) * onehot(argmax y)`
      for "hard", and `wt * t` alone for any other mode. */
  function InterpTarget(mode: string, wt: real, y: Mat, t: Mat): (ti: Mat)
    requires SameShape(y, t)
    ensures SameShape(ti, t)
  {
    if Interpolates(mode, wt) then
      var scaled := Scale(wt, t);
      if mode == "soft" then AddMat(scaled, 1.0 - wt, y)
      else if mode == "hard" then AddMat(scaled, 1.0 - wt, OneHotRows(FindRowMaxId(y), y.cols))
      else scaled
    else t
  }

  // ---------------------------------------------------------------------
  // Gradients and loss values

  /** `diff = w .* (y - t')` with `t'` the effective target. */
  function XentGradient(mode: string, wt: real, w: seq<real>, y: Mat, t: Mat): (d: Mat)
    requires SameShape(y, t) && |w| == y.rows
    ensures SameShape(d, y)
  {
    MulRowsVec(AddMat(y, -1.0, InterpTarget(mode, wt, y, t)), w)
  }

  /** One cell of the effective target, stated on scalars: `t` without
      interpolation, `wt * t + (1 - wt) * y` for "soft",
      `wt * t + (1 - wt) * h` for "hard" (with `h` the one-hot arg-max cell)
      and `wt * t` for any other mode. */
  function InterpCell(mode: string, wt: real, y: real, t: real, h: real): real
  {
    if !Interpolates(mode, wt) then t
    else if mode == "soft" then wt * t + (1.0 - wt) * y
    else if mode == "hard" then wt * t + (1.0 - wt) * h
    else wt * t
  }

  /** The effective target agrees with the scalar statement in every cell. */
  lemma InterpTargetCell(mode: string, wt: real, y: Mat, t: Mat, i: nat, j: nat)
    requires SameShape(y, t)
    requires i < y.rows && j < y.cols
    ensures InterpTarget(mode, wt, y, t).cells[i][j] ==
      InterpCell(mode, wt, y.cells[i][j], t.cells[i][j], OneHotRows(FindRowMaxId(y), y.cols).cells[i][j])
  {
  }

  /** Row `i` of the effective target, cell by cell. */
  function InterpRow(mode: string, wt: real, y: Mat, t: Mat, i: nat): (r: seq<real>)
    requires SameShape(y, t) && i < y.rows
    ensures |r| == y.cols
    ensures forall j :: 0 <= j < y.cols ==>
      r[j] == InterpCell(mode, wt, y.cells[i][j], t.cells[i][j], OneHotRows(FindRowMaxId(y), y.cols).cells[i][j])
  {
    var hr := OneHotRows(FindRowMaxId(y), y.cols).cells[i];
    seq(y.cols, j requires 0 <= j < y.cols => InterpCell(mode, wt, y.cells[i][j], t.cells[i][j], hr[j]))
  }

  /** Every cell of the gradient is the frame weight times the distance of
      the output from the effective target. */
  lemma XentGradientCell(mode: string, wt: real, w: seq<real>, y: Mat, t: Mat, i: nat, j: nat)
    requires SameShape(y, t) && |w| == y.rows
    requires i < y.rows && j < y.cols
    ensures XentGradient(mode, wt, w, y, t).cells[i][j] ==
      w[i] * (y.cells[i][j] - InterpCell(mode, wt, y.cells[i][j], t.cells[i][j], OneHotRows(FindRowMaxId(y), y.cols).cells[i][j]))
  {
    InterpTargetCell(mode, wt, y, t, i, j);
    var x := InterpTarget(mode, wt, y, t).cells[i][j];
    assert XentGradient(mode, wt, w, y, t).cells[i][j] == (y.cells[i][j] + -1.0 * x) * w[i];
    CellArith(y.cells[i][j], x, w[i]);
  }

  lemma CellArith(y: real, x: real, w: real)
    ensures (y + -1.0 * x) * w == w * (y - x)
  {
  }

  /** Row `i` of the gradient is the frame weight times the distance of
      the output row from the effective target row. */
  lemma XentGradientRow(mode: string, wt: real, w: seq<real>, y: Mat, t: Mat, i: nat)
    requires SameShape(y, t) && |w| == y.rows && i < y.rows
    ensures ScaledDiff(XentGradient(mode, wt, w, y, t).cells[i], y.cells[i], InterpRow(mode, wt, y, t, i), w[i])
  {
    forall j | 0 <= j < y.cols
      ensures XentGradient(mode, wt, w, y, t).cells[i][j] == w[i] * (y.cells[i][j] - InterpRow(mode, wt, y, t, i)[j])
    {
      XentGradientCell(mode, wt, w, y, t, i, j);
    }
  }

  /** A frame with weight zero receives an all-zero cross-entropy gradient
      row, whatever the interpolation. */
  lemma XentGradientZeroWeight(mode: string, wt: real, w: seq<real>, y: Mat, t: Mat, i: nat)
    requires SameShape(y, t) && |w| == y.rows
    requires i < y.rows && w[i] == 0.0
    ensures forall j :: 0 <= j < y.cols ==> XentGradient(mode, wt, w, y, t).cells[i][j] == 0.0
  {
  }

  /** For a probability row of the output (a softmax row, summing to 1) and a
      target row that also sums to 1, the cross-entropy gradient row sums to
      zero under "none", "soft" and "hard" interpolation alike. This is the
      quantity the parallel component's backward pass thresholds. */
  lemma XentGradientRowSumVanishes(mode: string, wt: real, w: seq<real>, y: Mat, t: Mat, i: nat)
    requires SameShape(y, t) && |w| == y.rows && i < y.rows
    requires RowSum(y, i) == 1.0 && RowSum(t, i) == 1.0
    requires !Interpolates(mode, wt) || mode == "soft" || mode == "hard"
    ensures RowSum(XentGradient(mode, wt, w, y, t), i) == 0.0
  {
    var d, ti := XentGradient(mode, wt, w, y, t).cells[i], InterpRow(mode, wt, y, t, i);
    XentGradientRow(mode, wt, w, y, t, i);
    InterpRowSum(mode, wt, y, t, i);
    SumScaledDiff(d, y.cells[i], ti, w[i]);
  }

  /** `d` is `w * (a - b)`, entry by entry. */
  predicate ScaledDiff(d: seq<real>, a: seq<real>, b: seq<real>, w: real)
  {
    |d| == |a| == |b| && forall j :: 0 <= j < |d| ==> d[j] == w * (a[j] - b[j])
  }

  /** The sum of `w * (a - b)` is `w` times the difference of the sums. */
  lemma {:induction false} SumScaledDiff(d: seq<real>, a: seq<real>, b: seq<real>, w: real)
    requires ScaledDiff(d, a, b, w)
    ensures SumSeq(d) == w * (SumSeq(a) - SumSeq(b))
  {
    if |d| > 0 {
      var n := |d| - 1;
      SumScaledDiff(d[..n], a[..n], b[..n], w);
      DistributeSum(w, SumSeq(a[..n]), SumSeq(b[..n]), a[n], b[n]);
    }
  }

  lemma DistributeSum(w: real, sa: real, sb: real, x: real, y: real)
    ensures w * (sa - sb) + w * (x - y) == w * ((sa + x) - (sb + y))
  {
  }

  /** Under "none", "soft" and "hard" interpolation the effective target of
      a frame whose output and target rows each sum to 1 sums to 1 too. */
  lemma InterpRowSum(mode: string, wt: real, y: Mat, t: Mat, i: nat)
    requires SameShape(y, t) && i < y.rows
    requires RowSum(y, i) == 1.0 && RowSum(t, i) == 1.0
    requires !Interpolates(mode, wt) || mode == "soft" || mode == "hard"
    ensures SumSeq(InterpRow(mode, wt, y, t, i)) == 1.0
  {
    var yr, tr := y.cells[i], t.cells[i];
    var hr := OneHotRows(FindRowMaxId(y), y.cols).cells[i];
    var ti := InterpRow(mode, wt, y, t, i);
    if !Interpolates(mode, wt) {
      assert ti == tr;
    } else if mode == "soft" {
      forall k | 0 <= k < |ti| ensures ti[k] == wt * tr[k] + (1.0 - wt) * yr[k] {
        assert ti[k] == InterpCell(mode, wt, yr[k], tr[k], hr[k]);
      }
      SumSeqLinear(tr, yr, ti, wt, 1.0 - wt);
    } else {
      OneHotRowSum(hr, RowMaxId(yr));
      forall k | 0 <= k < |ti| ensures ti[k] == wt * tr[k] + (1.0 - wt) * hr[k] {
        assert ti[k] == InterpCell(mode, wt, yr[k], tr[k], hr[k]);
      }
      SumSeqLinear(tr, hr, ti, wt, 1.0 - wt);
    }
  }

  lemma {:induction false} OneHotRowSum(h: seq<real>, k: int)
    requires 0 <= k < |h|
    requires forall j :: 0 <= j < |h| ==> h[j] == if j == k then 1.0 else 0.0
    ensures SumSeq(h) == 1.0
  {
    var n := |h| - 1;
    if k == n {
      SumSeqZeros(h[..n]);
    } else {
      OneHotRowSum(h[..n], k);
    }
  }

  /** Minus the weighted sum of `t' * log(y + 1e-20)` (nnet-loss.cc lines
      125-131); `ln` stands for the natural logarithm. */
  function CrossEntropy(w: seq<real>, y: Mat, ti: Mat, ln: real -> real): real
    requires SameShape(y, ti) && |w| == y.rows
  {
    -Sum(MulRowsVec(MulElements(ApplyShifted(y, LogFloor, ln), ti), w))
  }

  /** Minus the weighted sum of `t * log(t + 1e-20)` (nnet-loss.cc lines
      134-139), taken over the original, not the interpolated, target. */
  function TargetEntropy(w: seq<real>, t: Mat, ln: real -> real): real
    requires |w| == t.rows
  {
    -Sum(MulRowsVec(MulElements(ApplyShifted(t, LogFloor, ln), t), w))
  }

  /** Frames of weight zero contribute nothing: with every weight zero the
      cross-entropy and the target entropy are both zero. */
  lemma XentLossZeroWeights(w: seq<real>, y: Mat, ti: Mat, t: Mat, ln: real -> real)
    requires SameShape(y, ti) && SameShape(y, t) && |w| == y.rows
    requires forall i :: 0 <= i < |w| ==> w[i] == 0.0
    ensures CrossEntropy(w, y, ti, ln) == 0.0 && TargetEntropy(w, t, ln) == 0.0
  {
    SumOfZeroMatrix(MulRowsVec(MulElements(ApplyShifted(y, LogFloor, ln), ti), w));
    SumOfZeroMatrix(MulRowsVec(MulElements(ApplyShifted(t, LogFloor, ln), t), w));
  }

  /** `diff = w .* (y - t)` (nnet-loss.cc lines 459-461). */
  function MseGradient(w: seq<real>, y: Mat, t: Mat): (d: Mat)
    requires SameShape(y, t) && |w| == y.rows
    ensures SameShape(d, y)
    ensures forall i, j :: 0 <= i < y.rows && 0 <= j < y.cols ==> d.cells[i][j] == w[i] * (y.cells[i][j] - t.cells[i][j])
  {
    MulRowsVec(AddMat(y, -1.0, t), w)
  }

  /** `0.5 * sum(w .* diff .* diff)` over the already weighted gradient
      (nnet-loss.cc lines 464-467). */
  function MseLoss(w: seq<real>, y: Mat, t: Mat): real
    requires SameShape(y, t) && |w| == y.rows
  {
    var d := MseGradient(w, y, t);
    0.5 * Sum(MulRowsVec(MulElements(d, d), w))
  }

  /** When the output equals the target on every frame of non-zero weight,
      both the mean-square-error gradient and its loss are zero. */
  lemma MseMatchedIsZero(w: seq<real>, y: Mat, t: Mat)
    requires SameShape(y, t) && |w| == y.rows
    requires forall i :: 0 <= i < y.rows && w[i] != 0.0 ==> y.cells[i] == t.cells[i]
    ensures IsZero(MseGradient(w, y, t))
    ensures MseLoss(w, y, t) == 0.0
  {
    var d := MseGradient(w, y, t);
    forall i, j | 0 <= i < y.rows && 0 <= j < y.cols ensures d.cells[i][j] == 0.0 {
      if w[i] != 0.0 {
        assert y.cells[i][j] == t.cells[i][j];
      }
    }
    SumOfZeroMatrix(MulRowsVec(MulElements(d, d), w));
  }

  /** With non-negative frame weights the mean-square-error loss is
      non-negative. */
  lemma MseLossNonNegative(w: seq<real>, y: Mat, t: Mat)
    requires SameShape(y, t) && |w| == y.rows
    requires forall i :: 0 <= i < |w| ==> w[i] >= 0.0
    ensures MseLoss(w, y, t) >= 0.0
  {
    var d := MseGradient(w, y, t);
    var sq := MulRowsVec(MulElements(d, d), w);
    forall i, j | 0 <= i < y.rows && 0 <= j < y.cols ensures sq.cells[i][j] >= 0.0 {
      assert sq.cells[i][j] == (d.cells[i][j] * d.cells[i][j]) * w[i];
    }
    SumOfNonNegativeMatrix(sq);
  }

  /** C++ conversion of a floating-point value to an integer: truncation
      toward zero (`int32 num_frames = frame_weights.Sum()`). */
  function TruncateToInt(x: real): (n: int)
    ensures x >= 0.0 ==> 0 <= n && n as real <= x < n as real + 1.0
    ensures x < 0.0 ==> n <= 0 && n as real - 1.0 < x <= n as real
  {
    if x >= 0.0 then x.Floor else -((-x).Floor)
  }

  // ---------------------------------------------------------------------
  // Sparse targets

  /** A Posterior: per frame, a list of (column, value) pairs. */
  type Posterior = seq<seq<(int, real)>>

  /** The value a frame's pairs give to column `c`: the last pair naming `c`
      wins, and a column no pair names is 0. */
  function PostEntry(entries: seq<(int, real)>, c: int): real
  {
    if |entries| == 0 then 0.0
    else if entries[|entries| - 1].0 == c then entries[|entries| - 1].1
    else PostEntry(entries[..|entries| - 1], c)
  }

  /** A column that no pair names is 0 in the dense target. */
  lemma {:induction false} PostEntryUnnamed(entries: seq<(int, real)>, c: int)
    requires forall p :: 0 <= p < |entries| ==> entries[p].0 != c
    ensures PostEntry(entries, c) == 0.0
  {
    if |entries| > 0 {
      PostEntryUnnamed(entries[..|entries| - 1], c);
    }
  }

  predicate PosteriorFits(post: Posterior, cols: nat)
  {
    forall f, p :: 0 <= f < |post| && 0 <= p < |post[f]| ==> 0 <= post[f][p].0 < cols
  }

  /** `PosteriorToMatrix`, which is not part of this model, is assumed to
      write the pairs of each frame in order into a zero matrix and to fail
      on a column outside the matrix. */
  function PosteriorToMatrix(post: Posterior, cols: nat): (r: Result<Mat>)
    ensures r.Ok? <==> PosteriorFits(post, cols)
    ensures r.Ok? ==> r.value.rows == |post| && r.value.cols == cols
    ensures r.Ok? ==> forall f, c :: 0 <= f < |post| && 0 <= c < cols ==> r.value.cells[f][c] == PostEntry(post[f], c)
  {
    if PosteriorFits(post, cols) then
      Ok(Matrix(|post|, cols,
        seq(|post|, f requires 0 <= f < |post| => seq(cols, c => PostEntry(post[f], c)))))
    else
      Err("Out-of-bound Posterior element")
  }
}
