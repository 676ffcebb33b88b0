/** The cross-entropy loss object of nnet1 (class `Xent`, nnet-loss.h and
    nnet-loss.cc): running totals over every mini-batch seen, a one-hour
    progress window whose averages are kept in `lossVec`, and the
    target-interpolation setting. */
module XentLoss {
  import opened Wrappers
  import opened Matrices
  import opened LossMath

  /** The accumulators of a `Xent` object, as one value. */
  datatype XentTotals = XentTotals(
    frames: real, correct: real, loss: real, entropy: real,
    framesProgress: real, lossProgress: real, entropyProgress: real,
    lossVec: seq<real>)

  const NoTotals := XentTotals(0.0, 0.0, 0.0, 0.0, 0.0, 0.0, 0.0, [])

  /** The totals after one mini-batch of `n` weighted frames with
      cross-entropy `xent`, target entropy `ent` and `corr` weighted correct
      frames: everything is added to the overall and the window totals; a
      window holding more than an hour of frames is closed, its average
      `(loss - entropy) / frames` appended to `lossVec`, and reopened empty. */
  function Accumulate(s: XentTotals, n: real, xent: real, ent: real, corr: real): XentTotals
  {
    var fp, lp, ep := s.framesProgress + n, s.lossProgress + xent, s.entropyProgress + ent;
    var s' := s.(frames := s.frames + n, correct := s.correct + corr,
                 loss := s.loss + xent, entropy := s.entropy + ent);
    if fp > ProgressStep then
      s'.(framesProgress := 0.0, lossProgress := 0.0, entropyProgress := 0.0,
          lossVec := s.lossVec + [(lp - ep) / fp])
    else
      s'.(framesProgress := fp, lossProgress := lp, entropyProgress := ep)
  }

  /** The window invariant: the open window never holds more than an hour of
      frames, and each closed window held more than an hour of the frames
      counted in `frames`. */
  predicate WindowOk(s: XentTotals)
  {
    0.0 <= s.framesProgress <= ProgressStep &&
    |s.lossVec| as real * ProgressStep + s.framesProgress <= s.frames
  }

  /** Fresh totals satisfy the window invariant, and a mini-batch with a
      non-negative frame count keeps it. */
  lemma AccumulateKeepsWindow(s: XentTotals, n: real, xent: real, ent: real, corr: real)
    requires WindowOk(s) && n >= 0.0
    ensures WindowOk(NoTotals)
    ensures WindowOk(Accumulate(s, n, xent, ent, corr))
  {
    var r := Accumulate(s, n, xent, ent, corr);
    if s.framesProgress + n > ProgressStep {
      assert |r.lossVec| as real == |s.lossVec| as real + 1.0;
    }
  }

  /** `lossVec` only grows: the old entries stay, and exactly one entry is
      appended, the window average, when the window passes one hour;
      the window totals are then zero again. */
  lemma AccumulateProgress(s: XentTotals, n: real, xent: real, ent: real, corr: real)
    ensures var r := Accumulate(s, n, xent, ent, corr);
      |s.lossVec| <= |r.lossVec| <= |s.lossVec| + 1 && r.lossVec[..|s.lossVec|] == s.lossVec
    ensures var r := Accumulate(s, n, xent, ent, corr);
      |r.lossVec| == |s.lossVec| + 1 <==> s.framesProgress + n > ProgressStep
    ensures var r := Accumulate(s, n, xent, ent, corr);
      s.framesProgress + n > ProgressStep ==>
        r.framesProgress == r.lossProgress == r.entropyProgress == 0.0 &&
        r.lossVec[|s.lossVec|] * (s.framesProgress + n) ==
          (s.lossProgress + xent) - (s.entropyProgress + ent)
  {
    var r := Accumulate(s, n, xent, ent, corr);
    if s.framesProgress + n > ProgressStep {
      assert r.lossVec[..|s.lossVec|] == s.lossVec;
    }
  }

  /** The overall totals advance by exactly the mini-batch's contribution,
      whether or not the window closes, and the open window together with
      the closed ones accounts for every frame since the start. */
  lemma AccumulateTotals(s: XentTotals, n: real, xent: real, ent: real, corr: real)
    ensures var r := Accumulate(s, n, xent, ent, corr);
      r.frames - s.frames == n && r.correct - s.correct == corr &&
      r.loss - r.entropy == (s.loss - s.entropy) + (xent - ent)
    ensures var r := Accumulate(s, n, xent, ent, corr);
      r.framesProgress == (if s.framesProgress + n > ProgressStep then 0.0 else s.framesProgress + n)
  {
  }

  /** The frame-average loss `(loss - entropy) / frames`, and 0 before any
      frame was seen (nnet-loss.h lines 86-89). */
  function AvgLossOf(s: XentTotals): (r: real)
    ensures s.frames == 0.0 ==> r == 0.0
    ensures s.frames != 0.0 ==> r * s.frames == s.loss - s.entropy
  {
    if s.frames == 0.0 then 0.0 else (s.loss - s.entropy) / s.frames
  }

  /** The effective target, built step by step as nnet-loss.cc does: a copy
      of `t`, scaled by `wt` and mixed with the output or with its one-hot
      arg-max when interpolation is on. */
  method EffectiveTarget(mode: string, wt: real, y: Mat, t: Mat) returns (ti: Mat)
    requires SameShape(y, t)
    ensures ti == InterpTarget(mode, wt, y, t)
  {
    ti := t;
    if mode != "none" && wt > 0.0 && wt < 1.0 {
      ti := Scale(wt, t);
      if mode == "soft" {
        ti := AddMat(ti, 1.0 - wt, y);
      } else if mode == "hard" {
        var hard := HardTargets(FindRowMaxId(y), y.cols);
        ti := AddMat(ti, 1.0 - wt, hard);
      }
    }
  }

  class Xent {
    var frames: real
    var correct: real
    var loss: real
    var entropy: real
    var interpMode: string
    var interpWt: real
    var framesProgress: real
    var lossProgress: real
    var entropyProgress: real
    var lossVec: seq<real>

    function Totals(): XentTotals
      reads this
    {
      XentTotals(frames, correct, loss, entropy, framesProgress, lossProgress, entropyProgress, lossVec)
    }

    ghost predicate Valid()
      reads this
    {
      WindowOk(Totals())
    }

    /** All accumulators zero, no interpolation (mode "none", weight 1). */
    constructor ()
      ensures Valid() && Totals() == NoTotals
      ensures interpMode == "none" && interpWt == 1.0
    {
      frames, correct, loss, entropy := 0.0, 0.0, 0.0, 0.0;
      interpMode, interpWt := "none", 1.0;
      framesProgress, lossProgress, entropyProgress := 0.0, 0.0, 0.0;
      lossVec := [];
    }

    /** `Set_Target_Interp`: the mode is stored; the weight too, except that
        mode "none" forces it to 1. */
    method SetTargetInterp(mode: string, wt: real)
      modifies this
      ensures interpMode == mode && interpWt == (if mode == "none" then 1.0 else wt)
      ensures Totals() == old(Totals())
    {
      interpMode := mode;
      if mode == "none" {
        interpWt := 1.0;
      } else {
        interpWt := wt;
      }
    }

    function AvgLoss(): (r: real)
      reads this
      ensures r == AvgLossOf(Totals())
    {
      if frames == 0.0 then 0.0 else (loss - entropy) / frames
    }

    /** `Eval` with a dense target: checks the shapes and that the weight sum
        is not negative, then returns `w .* (y - t')` for the effective target
        `t'` and adds the batch's frames, weighted correct frames,
        cross-entropy and target entropy to the totals. */
    method Eval(w: seq<real>, y: Mat, t: Mat, ln: real -> real) returns (r: Result<Mat>)
      requires Valid()
      modifies this
      ensures Valid()
      ensures interpMode == old(interpMode) && interpWt == old(interpWt)
      ensures r.Ok? <==> SameShape(y, t) && |w| == y.rows && SumSeq(w) >= 0.0
      ensures r.Err? ==> Totals() == old(Totals())
      ensures r.Ok? ==> r.value == XentGradient(interpMode, interpWt, w, y, t)
      ensures r.Ok? ==> Totals() == Accumulate(old(Totals()), SumSeq(w),
        CrossEntropy(w, y, InterpTarget(interpMode, interpWt, y, t), ln), TargetEntropy(w, t, ln),
        WeightedMatches(FindRowMaxId(y), FindRowMaxId(t), w))
      ensures r.Ok? && (forall i :: 0 <= i < |w| ==> w[i] >= 0.0) ==>
        old(correct) <= correct <= old(correct) + SumSeq(w)
    {
      if y.rows != t.rows || y.cols != t.cols || |w| != y.rows {
        return Err("Xent::Eval: dimension mismatch");
      }
      var numFrames := SumSeq(w);
      if numFrames < 0.0 {
        return Err("Xent::Eval: negative frame-weight sum");
      }
      var idsOut, idsTgt := FindRowMaxId(y), FindRowMaxId(t);
      var corr := CountCorrectFramesWeighted(idsOut, idsTgt, w);
      var targetInterp := EffectiveTarget(interpMode, interpWt, y, t);
      var diff := MulRowsVec(AddMat(y, -1.0, targetInterp), w);
      if forall i :: 0 <= i < |w| ==> w[i] >= 0.0 {
        WeightedMatchesBounds(idsOut, idsTgt, w);
      }
      Record(numFrames, CrossEntropy(w, y, targetInterp, ln), TargetEntropy(w, t, ln), corr);
      r := Ok(diff);
    }

    /** Adds one mini-batch to the overall and the window totals and closes
        the window once it holds more than an hour of frames. */
    method Record(n: real, xent: real, ent: real, corr: real)
      requires Valid() && n >= 0.0
      modifies this
      ensures Valid()
      ensures interpMode == old(interpMode) && interpWt == old(interpWt)
      ensures Totals() == Accumulate(old(Totals()), n, xent, ent, corr)
    {
      AccumulateKeepsWindow(Totals(), n, xent, ent, corr);
      loss := loss + xent;
      entropy := entropy + ent;
      correct := correct + corr;
      frames := frames + n;
      framesProgress := framesProgress + n;
      lossProgress := lossProgress + xent;
      entropyProgress := entropyProgress + ent;
      if framesProgress > ProgressStep {
        lossVec := lossVec + [(lossProgress - entropyProgress) / framesProgress];
        framesProgress, lossProgress, entropyProgress := 0.0, 0.0, 0.0;
      }
    }

    /** `Eval` with sparse targets: the Posterior must have one entry per
        frame; it is converted to a dense target of the output's width and
        the dense `Eval` runs on it. */
    method EvalPosterior(w: seq<real>, y: Mat, post: Posterior, ln: real -> real) returns (r: Result<Mat>)
      requires Valid()
      modifies this
      ensures Valid()
      ensures interpMode == old(interpMode) && interpWt == old(interpWt)
      ensures r.Ok? <==> |post| == y.rows && PosteriorFits(post, y.cols) && |w| == y.rows && SumSeq(w) >= 0.0
      ensures r.Err? ==> Totals() == old(Totals())
      ensures r.Ok? ==>
        var t := PosteriorToMatrix(post, y.cols).value;
        r.value == XentGradient(interpMode, interpWt, w, y, t) &&
        Totals() == Accumulate(old(Totals()), SumSeq(w),
          CrossEntropy(w, y, InterpTarget(interpMode, interpWt, y, t), ln), TargetEntropy(w, t, ln),
          WeightedMatches(FindRowMaxId(y), FindRowMaxId(t), w))
    {
      if |post| != y.rows {
        return Err("Xent::Eval: posterior length differs from the number of frames");
      }
      var tgt := PosteriorToMatrix(post, y.cols);
      if tgt.Err? {
        return Err(tgt.msg);
      }
      r := Eval(w, y, tgt.value, ln);
    }
  }
}
