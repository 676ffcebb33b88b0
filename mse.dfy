/** The mean-square-error loss object of nnet1 (class `Mse`, nnet-loss.h and
    nnet-loss.cc): overall totals, a one-hour progress window whose averages
    are kept in `lossVec`, and no target interpolation. The frame count of a
    mini-batch is the weight sum truncated to an integer. */
module MseLossObject {
  import opened Wrappers
  import opened Matrices
  import opened LossMath

  /** The accumulators of an `Mse` object, as one value. */
  datatype MseTotals = MseTotals(
    frames: real, loss: real, framesProgress: real, lossProgress: real, lossVec: seq<real>)

  const NoMseTotals := MseTotals(0.0, 0.0, 0.0, 0.0, [])

  /** The totals after a mini-batch of `n` frames with loss `mse`; a window
      that passes one hour is closed, its average `loss / frames` appended to
      `lossVec`, and reopened empty. */
  function MseAccumulate(s: MseTotals, n: int, mse: real): MseTotals
  {
    var fp, lp := s.framesProgress + n as real, s.lossProgress + mse;
    var s' := s.(frames := s.frames + n as real, loss := s.loss + mse);
    if fp > ProgressStep then
      s'.(framesProgress := 0.0, lossProgress := 0.0, lossVec := s.lossVec + [lp / fp])
    else
      s'.(framesProgress := fp, lossProgress := lp)
  }

  /** The open window never holds more than an hour of frames, and the closed
      windows and the open one together hold no more than `frames`. */
  predicate MseWindowOk(s: MseTotals)
  {
    0.0 <= s.framesProgress <= ProgressStep &&
    |s.lossVec| as real * ProgressStep + s.framesProgress <= s.frames
  }

  /** A mini-batch with a non-negative frame count keeps the window
      invariant; the new window average times the window's frames is the
      window's loss. */
  lemma MseAccumulateKeepsWindow(s: MseTotals, n: int, mse: real)
    requires MseWindowOk(s) && n >= 0
    ensures MseWindowOk(NoMseTotals)
    ensures MseWindowOk(MseAccumulate(s, n, mse))
    ensures var r := MseAccumulate(s, n, mse);
      r.lossVec[..|s.lossVec|] == s.lossVec &&
      (|r.lossVec| == |s.lossVec| + 1 <==> s.framesProgress + n as real > ProgressStep) &&
      (|r.lossVec| == |s.lossVec| + 1 ==>
        r.lossVec[|s.lossVec|] * (s.framesProgress + n as real) == s.lossProgress + mse)
  {
    var r := MseAccumulate(s, n, mse);
    if s.framesProgress + n as real > ProgressStep {
      assert |r.lossVec| as real == |s.lossVec| as real + 1.0;
      assert r.lossVec[..|s.lossVec|] == s.lossVec;
    }
  }

  /** The frame-average loss, 0 before any frame was seen. */
  function MseAvgLossOf(s: MseTotals): (r: real)
    ensures s.frames == 0.0 ==> r == 0.0
    ensures s.frames != 0.0 ==> r * s.frames == s.loss
  {
    if s.frames == 0.0 then 0.0 else s.loss / s.frames
  }

  class Mse {
    var frames: real
    var loss: real
    var framesProgress: real
    var lossProgress: real
    var lossVec: seq<real>

    function Totals(): MseTotals
      reads this
    {
      MseTotals(frames, loss, framesProgress, lossProgress, lossVec)
    }

    ghost predicate Valid()
      reads this
    {
      MseWindowOk(Totals())
    }

    constructor ()
      ensures Valid() && Totals() == NoMseTotals
    {
      frames, loss, framesProgress, lossProgress := 0.0, 0.0, 0.0, 0.0;
      lossVec := [];
    }

    /** `Set_Target_Interp`: the mean-square error has no interpolation and
        the call changes nothing. */
    method SetTargetInterp(mode: string, wt: real)
      ensures Totals() == old(Totals())
    {
    }

    function AvgLoss(): (r: real)
      reads this
      ensures r == MseAvgLossOf(Totals())
    {
      if frames == 0.0 then 0.0 else loss / frames
    }

    /** Adds one mini-batch to the overall and the window totals. */
    method Record(n: int, mse: real)
      requires Valid() && n >= 0
      modifies this
      ensures Valid()
      ensures Totals() == MseAccumulate(old(Totals()), n, mse)
    {
      MseAccumulateKeepsWindow(Totals(), n, mse);
      loss := loss + mse;
      frames := frames + n as real;
      framesProgress := framesProgress + n as real;
      lossProgress := lossProgress + mse;
      if framesProgress > ProgressStep {
        lossVec := lossVec + [lossProgress / framesProgress];
        framesProgress, lossProgress := 0.0, 0.0;
      }
    }

    /** `Eval` with a dense target: checks the shapes and that the truncated
        weight sum is not negative, returns `w .* (y - t)` and adds the
        truncated frame count and `0.5 * sum(w .* diff .* diff)` to the
        totals. */
    method Eval(w: seq<real>, y: Mat, t: Mat) returns (r: Result<Mat>)
      requires Valid()
      modifies this
      ensures Valid()
      ensures r.Ok? <==> SameShape(y, t) && |w| == y.rows && TruncateToInt(SumSeq(w)) >= 0
      ensures r.Err? ==> Totals() == old(Totals())
      ensures r.Ok? ==> r.value == MseGradient(w, y, t)
      ensures r.Ok? ==> Totals() == MseAccumulate(old(Totals()), TruncateToInt(SumSeq(w)), MseLoss(w, y, t))
    {
      if y.rows != t.rows || y.cols != t.cols || |w| != y.rows {
        return Err("Mse::Eval: dimension mismatch");
      }
      var numFrames := TruncateToInt(SumSeq(w));
      if numFrames < 0 {
        return Err("Mse::Eval: negative frame count");
      }
      var diff := MulRowsVec(AddMat(y, -1.0, t), w);
      var squares := MulRowsVec(MulElements(diff, diff), w);
      Record(numFrames, 0.5 * Sum(squares));
      r := Ok(diff);
    }

    /** `Eval` with sparse targets: one Posterior entry per frame, turned
        into a dense target of the output's width. */
    method EvalPosterior(w: seq<real>, y: Mat, post: Posterior) returns (r: Result<Mat>)
      requires Valid()
      modifies this
      ensures Valid()
      ensures r.Ok? <==>
        (|post| == y.rows && PosteriorFits(post, y.cols) && |w| == y.rows && TruncateToInt(SumSeq(w)) >= 0)
      ensures r.Err? ==> Totals() == old(Totals())
      ensures r.Ok? ==>
        var t := PosteriorToMatrix(post, y.cols).value;
        r.value == MseGradient(w, y, t) &&
        Totals() == MseAccumulate(old(Totals()), TruncateToInt(SumSeq(w)), MseLoss(w, y, t))
    {
      if |post| != y.rows {
        return Err("Mse::Eval: posterior length differs from the number of frames");
      }
      var tgt := PosteriorToMatrix(post, y.cols);
      if tgt.Err? {
        return Err(tgt.msg);
      }
      r := Eval(w, y, tgt.value);
    }
  }

  /** The truncation of the weight sum lets a slightly negative sum through:
      any sum in (-1, 0) counts as zero frames and is accepted. */
  lemma NegativeWeightSumAccepted()
    ensures TruncateToInt(SumSeq([-0.5])) == 0
  {
    assert SumSeq([-0.5]) == SumSeq([-0.5][..0]) + -0.5;
  }
}
