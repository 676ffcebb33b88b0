/** What the multi-task loss of nnet1 (class `MultiTaskLoss`, nnet-loss.cc)
    computes, stated on values: how its definition string reads, which frames
    each task sees, and the gradient and per-task totals one evaluation
    produces. The class in module MultiTask is proved against these
    functions. */
module MultiTaskSpec {
  import opened Wrappers
  import opened Matrices
  import opened ColumnBlocks
  import opened BlockMatrices
  import opened LossMath
  import opened TaskDefinition
  import opened FrameMasks
  import opened XentLoss
  import opened MseLossObject

  // ---------------------------------------------------------------------
  // The state of one task's loss object, as a value

  datatype TaskState =
    | XentState(totals: XentTotals, mode: string, wt: real)
    | MseState(mse: MseTotals)

  /** The task's loss object after the `Set_Target_Interp` call that
      precedes its evaluation: the first task gets the multi-task loss's own
      mode and weight when that mode is not "none"; every other task, and the
      first one otherwise, gets mode "none" with weight 1. */
  function Configured(st: TaskState, l: nat, mode: string, wt: real): TaskState
  {
    match st
    case XentState(tot, _, _) =>
      if mode != "none" && l == 0 then XentState(tot, mode, wt) else XentState(tot, "none", 1.0)
    case MseState(_) => st
  }

  /** Whether the task's `Eval` accepts the weights: a non-negative weight
      sum for the cross-entropy, a non-negative truncated sum for the mean
      square error. */
  predicate TaskAccepts(st: TaskState, w: seq<real>)
  {
    match st
    case XentState(_, _, _) => SumSeq(w) >= 0.0
    case MseState(_) => TruncateToInt(SumSeq(w)) >= 0
  }

  function TaskGradient(st: TaskState, w: seq<real>, y: Mat, t: Mat): (d: Mat)
    requires SameShape(y, t) && |w| == y.rows
    ensures SameShape(d, y)
  {
    match st
    case XentState(_, mode, wt) => XentGradient(mode, wt, w, y, t)
    case MseState(_) => MseGradient(w, y, t)
  }

  function TaskUpdate(st: TaskState, w: seq<real>, y: Mat, t: Mat, ln: real -> real): TaskState
    requires SameShape(y, t) && |w| == y.rows
  {
    match st
    case XentState(tot, mode, wt) =>
      XentState(Accumulate(tot, SumSeq(w), CrossEntropy(w, y, InterpTarget(mode, wt, y, t), ln),
                           TargetEntropy(w, t, ln), WeightedMatches(FindRowMaxId(y), FindRowMaxId(t), w)),
                mode, wt)
    case MseState(m) => MseState(MseAccumulate(m, TruncateToInt(SumSeq(w)), MseLoss(w, y, t)))
  }

  /** A zero weight gives a zero gradient row, whatever the task. */
  lemma TaskGradientZeroWeight(st: TaskState, w: seq<real>, y: Mat, t: Mat, i: nat)
    requires SameShape(y, t) && |w| == y.rows && i < y.rows && w[i] == 0.0
    ensures forall j :: 0 <= j < y.cols ==> TaskGradient(st, w, y, t).cells[i][j] == 0.0
  {
    if st.XentState? {
      XentGradientZeroWeight(st.mode, st.wt, w, y, t, i);
    }
  }

  // ---------------------------------------------------------------------
  // One evaluation of the multi-task loss

  /** The multi-task loss's own settings. */
  datatype Config = Config(dims: seq<int>, weights: seq<real>, mode: string, wt: real)

  /** The arguments match the settings: one Posterior entry and one weight
      per frame, as many output columns as the tasks have together, and every
      Posterior column inside the output. */
  predicate Inputs(cfg: Config, states: seq<TaskState>, w: seq<real>, y: Mat, post: Posterior)
  {
    |states| == |cfg.dims| == |cfg.weights| &&
    |post| == y.rows && |w| == y.rows && y.cols == SumInts(cfg.dims) &&
    PosteriorFits(post, y.cols)
  }

  predicate Fits(cfg: Config, y: Mat, l: nat)
    requires l < |cfg.dims|
  {
    ColRangeOk(y, PrefixSums(cfg.dims)[l], cfg.dims[l])
  }

  function TaskInput(cfg: Config, states: seq<TaskState>, l: nat): TaskState
    requires l < |states|
  {
    Configured(states[l], l, cfg.mode, cfg.wt)
  }

  function TaskWeights(cfg: Config, w: seq<real>, post: Posterior, l: nat): (m: seq<real>)
    requires |post| == |w| && l < |cfg.dims|
    ensures |m| == |w|
  {
    MaskedWeights(w, post, PrefixSums(cfg.dims)[l], PrefixSums(cfg.dims)[l + 1])
  }

  function Target(y: Mat, post: Posterior): (t: Mat)
    requires |post| == y.rows && PosteriorFits(post, y.cols)
    ensures SameShape(t, y)
  {
    PosteriorToMatrix(post, y.cols).value
  }

  /** Every task's columns lie inside the output. */
  predicate AllFit(cfg: Config, y: Mat)
  {
    forall l :: 0 <= l < |cfg.dims| ==> Fits(cfg, y, l)
  }

  /** The evaluation as a whole succeeds: the arguments match, every task's
      columns lie in the output and every task's loss accepts its masked
      weights. */
  predicate EvalOk(cfg: Config, states: seq<TaskState>, w: seq<real>, y: Mat, post: Posterior)
  {
    Inputs(cfg, states, w, y, post) && AllFit(cfg, y) &&
    forall l :: 0 <= l < |cfg.dims| ==> TaskAccepts(TaskInput(cfg, states, l), TaskWeights(cfg, w, post, l))
  }

  /** Task `l`'s block of the gradient: its loss's gradient on its columns,
      under its masked weights, scaled by its weight. */
  function TaskDiff(cfg: Config, states: seq<TaskState>, w: seq<real>, y: Mat, post: Posterior, l: nat): (d: Mat)
    requires Inputs(cfg, states, w, y, post) && l < |cfg.dims| && Fits(cfg, y, l)
    ensures d.rows == y.rows && d.cols == cfg.dims[l]
  {
    var o := PrefixSums(cfg.dims)[l];
    var dim := cfg.dims[l];
    Scale(cfg.weights[l], TaskGradient(TaskInput(cfg, states, l), TaskWeights(cfg, w, post, l),
                                       ColRange(y, o, dim), ColRange(Target(y, post), o, dim)))
  }

  /** Task `l`'s loss object after its evaluation. */
  function TaskAfter(cfg: Config, states: seq<TaskState>, w: seq<real>, y: Mat, post: Posterior,
                     ln: real -> real, l: nat): TaskState
    requires Inputs(cfg, states, w, y, post) && l < |cfg.dims| && Fits(cfg, y, l)
  {
    var o := PrefixSums(cfg.dims)[l];
    var dim := cfg.dims[l];
    TaskUpdate(TaskInput(cfg, states, l), TaskWeights(cfg, w, post, l),
               ColRange(y, o, dim), ColRange(Target(y, post), o, dim), ln)
  }

  /** The blocks of the first `k` tasks. */
  function TaskDiffs(cfg: Config, states: seq<TaskState>, w: seq<real>, y: Mat, post: Posterior, k: nat): (ds: seq<Mat>)
    requires Inputs(cfg, states, w, y, post) && k <= |cfg.dims|
    requires forall l :: 0 <= l < k ==> Fits(cfg, y, l)
    ensures |ds| == k && BlocksFit(y, PrefixSums(cfg.dims), ds, k)
  {
    var ds := seq(k, l requires 0 <= l < k => TaskDiff(cfg, states, w, y, post, l));
    assert BlocksFit(y, PrefixSums(cfg.dims), ds, k) by {
      forall l | 0 <= l < k
        ensures ds[l].rows == y.rows && ColRangeOk(y, PrefixSums(cfg.dims)[l], ds[l].cols)
      {
        var d := TaskDiff(cfg, states, w, y, post, l);
        assert ds[l] == d;
        assert d.rows == y.rows && d.cols == cfg.dims[l];
        assert Fits(cfg, y, l);
      }
    }
    ds
  }

  /** The gradient of a successful evaluation: a zero matrix of the output's
      shape with every task's block copied into its columns. */
  function EvalDiff(cfg: Config, states: seq<TaskState>, w: seq<real>, y: Mat, post: Posterior): (d: Mat)
    requires EvalOk(cfg, states, w, y, post)
    ensures SameShape(d, y)
  {
    var n := |cfg.dims|;
    var z := Zeros(y.rows, y.cols);
    ZerosFit(y, z, cfg.dims, TaskDiffs(cfg, states, w, y, post, n));
    Assemble(z, PrefixSums(cfg.dims), TaskDiffs(cfg, states, w, y, post, n), n)
  }

  lemma ZerosFit(y: Mat, z: Mat, dims: seq<int>, ds: seq<Mat>)
    requires |ds| == |dims| && BlocksFit(y, PrefixSums(dims), ds, |dims|) && SameShape(y, z)
    ensures BlocksFit(z, PrefixSums(dims), ds, |dims|)
  {
  }

  /** Every task's columns of the gradient hold its scaled, masked
      gradient. */
  lemma EvalBlocks(cfg: Config, states: seq<TaskState>, w: seq<real>, y: Mat, post: Posterior, l: nat)
    requires EvalOk(cfg, states, w, y, post) && l < |cfg.dims|
    ensures Fits(cfg, y, l)
    ensures ColRange(EvalDiff(cfg, states, w, y, post), PrefixSums(cfg.dims)[l], cfg.dims[l]) ==
      TaskDiff(cfg, states, w, y, post, l)
  {
    var n := |cfg.dims|;
    var ds := TaskDiffs(cfg, states, w, y, post, n);
    var z := Zeros(y.rows, y.cols);
    ZerosFit(y, z, cfg.dims, ds);
    forall j | 0 <= j < n ensures cfg.dims[j] >= 0 {
      assert Fits(cfg, y, j);
    }
    SideBySide(cfg.dims, ds);
    AssembleBlock(z, PrefixSums(cfg.dims), ds, n, l);
  }

  /** A frame with no Posterior entry among task `l`'s columns contributes
      nothing to that task: its row of the task's block is zero. */
  lemma MaskedFrameZero(cfg: Config, states: seq<TaskState>, w: seq<real>, y: Mat, post: Posterior,
                        l: nat, f: nat)
    requires Inputs(cfg, states, w, y, post) && l < |cfg.dims| && Fits(cfg, y, l) && f < y.rows
    requires !HasTargetIn(post[f], PrefixSums(cfg.dims)[l], PrefixSums(cfg.dims)[l + 1])
    ensures forall j :: 0 <= j < cfg.dims[l] ==> TaskDiff(cfg, states, w, y, post, l).cells[f][j] == 0.0
  {
    var o := PrefixSums(cfg.dims)[l];
    var dim := cfg.dims[l];
    var mw := TaskWeights(cfg, w, post, l);
    assert mw[f] == 0.0;
    TaskGradientZeroWeight(TaskInput(cfg, states, l), mw, ColRange(y, o, dim), ColRange(Target(y, post), o, dim), f);
  }

  /** Only the first task can be interpolated: every later cross-entropy
      task runs with mode "none" and weight 1, and the first one runs with the
      multi-task loss's mode and weight unless that mode is "none". */
  lemma OnlyFirstTaskInterpolated(cfg: Config, states: seq<TaskState>, l: nat)
    requires l < |states| && states[l].XentState?
    ensures var c := TaskInput(cfg, states, l);
      c.XentState? && c.totals == states[l].totals &&
      (if l == 0 && cfg.mode != "none" then c.mode == cfg.mode && c.wt == cfg.wt
       else c.mode == "none" && c.wt == 1.0)
    ensures var c := TaskInput(cfg, states, l);
      l > 0 ==> !Interpolates(c.mode, c.wt)
  {
  }

  // ---------------------------------------------------------------------
  // The overall average loss

  function TaskAvgLoss(st: TaskState): real
  {
    match st
    case XentState(tot, _, _) => AvgLossOf(tot)
    case MseState(m) => MseAvgLossOf(m)
  }

  /** `sum_l weight_l * AvgLoss_l`, summed in task order. */
  function WeightedAvgLoss(weights: seq<real>, states: seq<TaskState>): real
    requires |weights| == |states|
  {
    if |states| == 0 then 0.0
    else
      var n := |states| - 1;
      WeightedAvgLoss(weights[..n], states[..n]) + weights[n] * TaskAvgLoss(states[n])
  }

  /** One more task adds its weighted average to the running sum. */
  lemma WeightedAvgLossStep(weights: seq<real>, states: seq<TaskState>, i: nat, acc: real, a: real, acc': real)
    requires |weights| == |states| && i < |states|
    requires acc == WeightedAvgLoss(weights[..i], states[..i]) && a == TaskAvgLoss(states[i])
    requires acc' == acc + weights[i] * a
    ensures WeightedAvgLoss(weights[..i + 1], states[..i + 1]) == acc'
  {
    assert weights[..i + 1][..i] == weights[..i];
    assert states[..i + 1][..i] == states[..i];
  }

  /** With non-negative weights and non-negative per-task averages the
      overall average is non-negative, and with zero weights it is zero. */
  lemma {:induction false} WeightedAvgLossBounds(weights: seq<real>, states: seq<TaskState>)
    requires |weights| == |states|
    requires forall k :: 0 <= k < |weights| ==> weights[k] >= 0.0
    ensures (forall k :: 0 <= k < |states| ==> TaskAvgLoss(states[k]) >= 0.0) ==>
      WeightedAvgLoss(weights, states) >= 0.0
    ensures (forall k :: 0 <= k < |weights| ==> weights[k] == 0.0) ==>
      WeightedAvgLoss(weights, states) == 0.0
  {
    if |states| > 0 {
      var n := |states| - 1;
      WeightedAvgLossBounds(weights[..n], states[..n]);
      if forall k :: 0 <= k < |states| ==> TaskAvgLoss(states[k]) >= 0.0 {
        assert TaskAvgLoss(states[n]) >= 0.0;
        assert weights[n] * TaskAvgLoss(states[n]) >= 0.0;
      }
    }
  }
}
