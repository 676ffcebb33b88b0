/** The multi-task loss object of nnet1 (class `MultiTaskLoss`,
    nnet-loss.h and nnet-loss.cc): a list of cross-entropy and
    mean-square-error loss objects, each owning a block of the network's
    output columns and carrying a weight, plus the target-interpolation
    setting that only the first task receives. Its methods are proved
    against the value-level description in module MultiTaskSpec. */
module MultiTask {
  import opened Wrappers
  import opened Matrices
  import opened ColumnBlocks
  import opened BlockMatrices
  import opened LossMath
  import opened TaskDefinition
  import opened FrameMasks
  import opened XentLoss
  import opened MseLossObject
  import opened MultiTaskSpec

  /** One entry of `loss_vec_`: a cross-entropy or a mean-square-error
      object. */
  datatype TaskLoss = XentTask(x: Xent) | MseTask(m: Mse)
  {
    function Obj(): object
    {
      match this
      case XentTask(x) => x
      case MseTask(m) => m
    }
  }

  /** The object's accumulators and interpolation setting, as a value. */
  function StateOf(t: TaskLoss): TaskState
    reads t.Obj()
  {
    match t
    case XentTask(x) => XentState(x.Totals(), x.interpMode, x.interpWt)
    case MseTask(m) => MseState(m.Totals())
  }

  /** The object's `AvgLoss`. */
  function TaskLossAvg(t: TaskLoss): (a: real)
    reads t.Obj()
    ensures a == TaskAvgLoss(StateOf(t))
  {
    match t
    case XentTask(x) => x.AvgLoss()
    case MseTask(m) => m.AvgLoss()
  }

  ghost predicate TaskValid(t: TaskLoss)
    reads t.Obj()
  {
    match t
    case XentTask(x) => x.Valid()
    case MseTask(m) => m.Valid()
  }

  /** The states of the loss objects `ts`, which all lie in `objs`, in
      order. */
  ghost function StatesIn(ts: seq<TaskLoss>, objs: set<object>): (ss: seq<TaskState>)
    requires forall l :: 0 <= l < |ts| ==> ts[l].Obj() in objs
    reads objs
    ensures |ss| == |ts|
    ensures forall l :: 0 <= l < |ts| ==> ss[l] == StateOf(ts[l])
  {
    if |ts| == 0 then []
    else StatesIn(ts[..|ts| - 1], objs) + [StateOf(ts[|ts| - 1])]
  }

  /** The state of a newly created loss object of the given kind. */
  function FreshState(kind: LossKind): TaskState
  {
    match kind
    case XentKind => XentState(NoTotals, "none", 1.0)
    case MseKind => MseState(NoMseTotals)
  }

  function FreshStates(ts: seq<TaskSpec>): (ss: seq<TaskState>)
    ensures |ss| == |ts|
  {
    seq(|ts|, k requires 0 <= k < |ts| => FreshState(ts[k].kind))
  }

  function DimsOf(ts: seq<TaskSpec>): (ds: seq<int>)
    ensures |ds| == |ts|
  {
    seq(|ts|, k requires 0 <= k < |ts| => ts[k].dim)
  }

  function WeightsOf(ts: seq<TaskSpec>): (ws: seq<real>)
    ensures |ws| == |ts|
  {
    seq(|ts|, k requires 0 <= k < |ts| => ts[k].weight)
  }

  /** `new Xent()` or `new Mse()`. */
  method NewTask(kind: LossKind) returns (t: TaskLoss)
    ensures fresh(t.Obj()) && TaskValid(t)
    ensures StateOf(t) == FreshState(kind)
  {
    match kind
    case XentKind =>
      var x := new Xent();
      t := XentTask(x);
    case MseKind =>
      var m := new Mse();
      t := MseTask(m);
  }

  /** One task's turn in `MultiTaskLoss::Eval`: `Set_Target_Interp` with the
      multi-task loss's setting for the first task when that is not "none",
      with "none" and 1 otherwise, then the task's own `Eval` on its
      columns. */
  method EvalTask(t: TaskLoss, l: nat, mode: string, wt: real, w: seq<real>, y: Mat, tg: Mat, ln: real -> real)
    returns (r: Result<Mat>)
    requires TaskValid(t) && SameShape(y, tg) && |w| == y.rows
    modifies t.Obj()
    ensures TaskValid(t)
    ensures r.Ok? <==> TaskAccepts(Configured(old(StateOf(t)), l, mode, wt), w)
    ensures r.Ok? ==> r.value == TaskGradient(Configured(old(StateOf(t)), l, mode, wt), w, y, tg)
    ensures r.Ok? ==> StateOf(t) == TaskUpdate(Configured(old(StateOf(t)), l, mode, wt), w, y, tg, ln)
  {
    match t
    case XentTask(x) =>
      if mode != "none" && l == 0 {
        x.SetTargetInterp(mode, wt);
      } else {
        x.SetTargetInterp("none", 1.0);
      }
      r := x.Eval(w, y, tg, ln);
    case MseTask(m) =>
      if mode != "none" && l == 0 {
        m.SetTargetInterp(mode, wt);
      } else {
        m.SetTargetInterp("none", 1.0);
      }
      r := m.Eval(w, y, tg);
  }

  lemma SpecsSnoc(ts: seq<TaskSpec>, i: nat)
    requires i < |ts|
    ensures DimsOf(ts[..i + 1]) == DimsOf(ts[..i]) + [ts[i].dim]
    ensures WeightsOf(ts[..i + 1]) == WeightsOf(ts[..i]) + [ts[i].weight]
    ensures FreshStates(ts[..i + 1]) == FreshStates(ts[..i]) + [FreshState(ts[i].kind)]
  {
  }

  /** The offsets recomputed from the widths as nnet-loss.cc does: the old
      offsets resized to one entry more than there are widths (new entries
      0, surplus ones dropped), then entry `i` set to entry `i - 1` plus
      width `i - 1`. */
  method ComputeOffsets(old_offsets: seq<int>, dims: seq<int>) returns (o: seq<int>)
    requires |old_offsets| == 0 || old_offsets[0] == 0
    ensures o == PrefixSums(dims)
  {
    var n := |dims|;
    o := old_offsets;
    if |o| < n + 1 {
      o := o + seq(n + 1 - |o|, _ => 0);
    } else {
      o := o[..n + 1];
    }
    ghost var p := PrefixSums(dims);
    var i := 1;
    while i <= n
      invariant 1 <= i <= n + 1 && |o| == n + 1
      invariant forall k :: 0 <= k < i ==> o[k] == p[k]
    {
      o := o[i := o[i - 1] + dims[i - 1]];
      i := i + 1;
    }
  }

  /** The first loop of `MultiTaskLoss::Eval`: one masked copy of the frame
      weights per task. */
  method ComputeMasks(w: seq<real>, post: Posterior, offs: seq<int>, n: nat) returns (masks: seq<seq<real>>)
    requires |post| == |w| && n < |offs|
    ensures |masks| == n
    ensures forall k :: 0 <= k < n ==> masks[k] == MaskedWeights(w, post, offs[k], offs[k + 1])
  {
    masks := [];
    var l := 0;
    while l < n
      invariant 0 <= l <= n && |masks| == l
      invariant forall k :: 0 <= k < l ==> masks[k] == MaskedWeights(w, post, offs[k], offs[k + 1])
    {
      var m := MaskFrameWeights(w, post, offs[l], offs[l + 1]);
      masks := masks + [m];
      l := l + 1;
    }
  }

  /** After the first `l` tasks of the second loop of
      `MultiTaskLoss::Eval`: each of them fitted and accepted its weights,
      `blocks` holds their scaled gradients and `diff` is the zero matrix
      `z` with those blocks copied in. */
  ghost predicate Done(cfg: Config, states: seq<TaskState>, w: seq<real>, y: Mat, post: Posterior,
                       z: Mat, blocks: seq<Mat>, diff: Mat, l: nat)
  {
    Inputs(cfg, states, w, y, post) && z == Zeros(y.rows, y.cols) && l <= |cfg.dims| && |blocks| == l &&
    (forall k :: 0 <= k < l ==>
      Fits(cfg, y, k) && TaskAccepts(TaskInput(cfg, states, k), TaskWeights(cfg, w, post, k)) &&
      blocks[k] == TaskDiff(cfg, states, w, y, post, k)) &&
    BlocksFit(z, PrefixSums(cfg.dims), blocks, l) && diff == Assemble(z, PrefixSums(cfg.dims), blocks, l)
  }

  lemma DoneStart(cfg: Config, states: seq<TaskState>, w: seq<real>, y: Mat, post: Posterior)
    requires Inputs(cfg, states, w, y, post)
    ensures Done(cfg, states, w, y, post, Zeros(y.rows, y.cols), [], Zeros(y.rows, y.cols), 0)
  {
  }

  lemma DoneNext(cfg: Config, states: seq<TaskState>, w: seq<real>, y: Mat, post: Posterior,
                 z: Mat, blocks: seq<Mat>, diff: Mat, l: nat, block: Mat)
    requires Done(cfg, states, w, y, post, z, blocks, diff, l) && l < |cfg.dims|
    requires Fits(cfg, y, l) && TaskAccepts(TaskInput(cfg, states, l), TaskWeights(cfg, w, post, l))
    requires block == TaskDiff(cfg, states, w, y, post, l)
    ensures Done(cfg, states, w, y, post, z, blocks + [block],
                 CopyToColRange(diff, PrefixSums(cfg.dims)[l], block), l + 1)
  {
    var o := PrefixSums(cfg.dims);
    assert Fits(cfg, y, l);
    AssembleNext(z, o, blocks, block, l, diff);
  }

  /** Once every task is done, the evaluation as a whole succeeds and `diff`
      is its gradient. */
  lemma DoneAll(cfg: Config, states: seq<TaskState>, w: seq<real>, y: Mat, post: Posterior,
                z: Mat, blocks: seq<Mat>, diff: Mat)
    requires Done(cfg, states, w, y, post, z, blocks, diff, |cfg.dims|)
    ensures EvalOk(cfg, states, w, y, post)
    ensures diff == EvalDiff(cfg, states, w, y, post)
  {
    assert blocks == TaskDiffs(cfg, states, w, y, post, |cfg.dims|);
  }

  /** A task whose columns do not fit, or whose loss refuses its weights,
      makes the whole evaluation fail. */
  lemma Refused(cfg: Config, states: seq<TaskState>, w: seq<real>, y: Mat, post: Posterior, l: nat)
    requires Inputs(cfg, states, w, y, post) && l < |cfg.dims|
    requires !Fits(cfg, y, l) || !TaskAccepts(TaskInput(cfg, states, l), TaskWeights(cfg, w, post, l))
    ensures !EvalOk(cfg, states, w, y, post)
  {
  }

  /** What the checks at the start of `Eval` test, when the evaluation as
      a whole succeeds. */
  lemma InputsNeed(cfg: Config, states: seq<TaskState>, w: seq<real>, y: Mat, post: Posterior)
    ensures EvalOk(cfg, states, w, y, post) ==>
      |post| == y.rows && |w| == y.rows && y.cols == PrefixSums(cfg.dims)[|cfg.dims|] &&
      PosteriorToMatrix(post, y.cols).Ok?
  {
  }

  class MultiTaskLoss {
    var interpMode: string
    var interpWt: real
    var losses: seq<TaskLoss>
    var dims: seq<int>
    var weights: seq<real>
    var offsets: seq<int>
    ghost var Repr: set<object>

    /** The loss objects are distinct and valid, there is one width and one
        non-negative weight per task, and the offsets are the prefix sums of
        the widths (or still empty before the first definition was read). */
    ghost predicate Valid()
      reads this, Repr
    {
      Objects() && (offsets == PrefixSums(dims) || (offsets == [] && losses == []))
    }

    /** `Valid` without the offsets, which are stale while a definition is
        being read. */
    ghost predicate Objects()
      reads this`losses, this`dims, this`weights, this`Repr, Repr
    {
      Owned() && this !in Repr &&
      |dims| == |losses| && |weights| == |losses| &&
      (forall l, l' :: 0 <= l < l' < |losses| ==> losses[l].Obj() != losses[l'].Obj()) &&
      (forall l :: 0 <= l < |losses| ==> TaskValid(losses[l])) &&
      (forall l :: 0 <= l < |weights| ==> weights[l] >= 0.0)
    }

    /** Every loss object belongs to the representation. */
    ghost predicate Owned()
      reads this`losses, this`Repr
    {
      forall l :: 0 <= l < |losses| ==> losses[l].Obj() in Repr
    }

    /** The loss objects' states, in task order. */
    ghost function States(): (ss: seq<TaskState>)
      requires Owned()
      reads this`losses, this`Repr, Repr
      ensures |ss| == |losses|
    {
      StatesIn(losses, Repr)
    }

    function Cfg(): Config
      reads this
    {
      Config(dims, weights, interpMode, interpWt)
    }

    /** No tasks yet, no interpolation. */
    constructor ()
      ensures Valid() && fresh(Repr)
      ensures interpMode == "none" && interpWt == 1.0
      ensures losses == [] && dims == [] && weights == [] && offsets == []
    {
      interpMode, interpWt := "none", 1.0;
      losses, dims, weights, offsets := [], [], [], [];
      Repr := {};
    }

    /** `Set_Target_Interp`: the mode is stored; the weight too, except that
        mode "none" forces it to 1. */
    method SetTargetInterp(mode: string, wt: real)
      requires Valid()
      modifies this
      ensures Valid()
      ensures interpMode == mode && interpWt == (if mode == "none" then 1.0 else wt)
      ensures losses == old(losses) && dims == old(dims) && weights == old(weights)
      ensures offsets == old(offsets) && Repr == old(Repr)
    {
      interpMode := mode;
      if mode == "none" {
        interpWt := 1.0;
      } else {
        interpWt := wt;
      }
    }

    /** `InitFromString`: reads the definition and appends one new loss
        object, one width and one weight per task to what is already there,
        then recomputes the offsets; the definition must be well formed and
        leave at least one task in all. */
    method InitFromString(s: string) returns (r: Result<seq<TaskSpec>>)
      requires Valid()
      modifies this
      ensures Valid() && fresh(Repr - old(Repr))
      ensures interpMode == old(interpMode) && interpWt == old(interpWt)
      ensures r.Ok? <==> ParseDefinition(s).Ok? && |old(losses)| + |ParseDefinition(s).value| > 0
      ensures r.Err? ==>
        (losses == old(losses) && dims == old(dims) && weights == old(weights) &&
         offsets == old(offsets) && Repr == old(Repr))
      ensures r.Ok? ==>
        (r.value == ParseDefinition(s).value &&
         dims == old(dims) + DimsOf(r.value) && weights == old(weights) + WeightsOf(r.value) &&
         offsets == PrefixSums(dims) && States() == old(States()) + FreshStates(r.value))
    {
      var parsed := ParseDefinition(s);
      if parsed.Err? {
        return Err(parsed.msg);
      }
      var ts := parsed.value;
      if |losses| + |ts| == 0 {
        return Err("MultiTaskLoss::InitFromString: no loss functions");
      }
      Define(ts);
      r := Ok(ts);
    }

    /** The loop of `InitFromString` over the triplets, then the offsets. */
    method Define(ts: seq<TaskSpec>)
      requires Valid() && |losses| + |ts| > 0
      requires forall k :: 0 <= k < |ts| ==> ts[k].weight >= 0.0
      modifies this
      ensures Valid() && fresh(Repr - old(Repr))
      ensures interpMode == old(interpMode) && interpWt == old(interpWt)
      ensures dims == old(dims) + DimsOf(ts) && weights == old(weights) + WeightsOf(ts)
      ensures offsets == PrefixSums(dims) && States() == old(States()) + FreshStates(ts)
    {
      ghost var D0, W0, S0, O0 := dims, weights, States(), offsets;
      var i := 0;
      while i < |ts|
        invariant 0 <= i <= |ts| && fresh(Repr - old(Repr))
        invariant Pushed(D0, W0, S0, O0, old(interpMode), old(interpWt), ts, i)
      {
        ghost var D, W, S := dims, weights, States();
        PushTask(ts[i]);
        PushedNext(D0, W0, S0, O0, old(interpMode), old(interpWt), ts, i, D, W, S);
        i := i + 1;
      }
      assert ts[..i] == ts;
      SetOffsets();
    }

    /** The offsets rebuilt from the widths, nothing else touched. */
    method SetOffsets()
      requires Objects() && (|offsets| == 0 || offsets[0] == 0)
      modifies this`offsets
      ensures Valid() && offsets == PrefixSums(dims)
    {
      offsets := ComputeOffsets(offsets, dims);
    }

    /** The first `i` tasks of `ts` have been appended to the widths `D0`,
        the weights `W0` and the loss objects with states `S0`; the rest is
        as it was. */
    ghost predicate Pushed(D0: seq<int>, W0: seq<real>, S0: seq<TaskState>, O0: seq<int>,
                           mode: string, wt: real, ts: seq<TaskSpec>, i: nat)
      reads this, Repr
    {
      Objects() && i <= |ts| && interpMode == mode && interpWt == wt && offsets == O0 &&
      dims == D0 + DimsOf(ts[..i]) && weights == W0 + WeightsOf(ts[..i]) &&
      States() == S0 + FreshStates(ts[..i])
    }

    lemma PushedNext(D0: seq<int>, W0: seq<real>, S0: seq<TaskState>, O0: seq<int>,
                     mode: string, wt: real, ts: seq<TaskSpec>, i: nat,
                     D: seq<int>, W: seq<real>, S: seq<TaskState>)
      requires i < |ts| && Objects() && interpMode == mode && interpWt == wt && offsets == O0
      requires D == D0 + DimsOf(ts[..i]) && W == W0 + WeightsOf(ts[..i]) && S == S0 + FreshStates(ts[..i])
      requires dims == D + [ts[i].dim] && weights == W + [ts[i].weight] && States() == S + [FreshState(ts[i].kind)]
      ensures Pushed(D0, W0, S0, O0, mode, wt, ts, i + 1)
    {
      SpecsSnoc(ts, i);
    }

    /** One triplet of the definition: a new loss object of its kind, its
        width and its weight are appended. */
    method PushTask(t: TaskSpec)
      requires Objects() && t.weight >= 0.0
      modifies this
      ensures Objects() && fresh(Repr - old(Repr))
      ensures interpMode == old(interpMode) && interpWt == old(interpWt) && offsets == old(offsets)
      ensures dims == old(dims) + [t.dim] && weights == old(weights) + [t.weight]
      ensures States() == old(States()) + [FreshState(t.kind)]
    {
      ghost var S0 := States();
      var task := NewTask(t.kind);
      losses, dims, weights, Repr := losses + [task], dims + [t.dim], weights + [t.weight], Repr + {task.Obj()};
      assert forall l :: 0 <= l < |losses| - 1 ==> losses[l] == old(losses)[l];
      assert States() == S0 + [FreshState(t.kind)] by {
        forall l | 0 <= l < |losses| ensures States()[l] == (S0 + [FreshState(t.kind)])[l] {
        }
      }
    }

    /** `Eval` with a dense target is refused: a multi-task loss needs a
        Posterior. */
    method EvalDense(w: seq<real>, y: Mat, t: Mat) returns (r: Result<Mat>)
      ensures r.Err?
    {
      r := Err("MultiTaskLoss::Eval: this is not supposed to be called!");
    }

    /** `Eval` with sparse targets: checks the frame count and the output
        width, turns the Posterior into a dense target, masks the frame
        weights per task, then lets every task's loss evaluate its columns
        and copies its gradient, scaled by the task weight, into those
        columns of a zero matrix. */
    method Eval(w: seq<real>, y: Mat, post: Posterior, ln: real -> real) returns (r: Result<Mat>)
      requires Valid()
      modifies Repr
      ensures Valid()
      ensures r.Ok? <==> |offsets| > 0 && EvalOk(Cfg(), old(States()), w, y, post)
      ensures r.Ok? ==> r.value == EvalDiff(Cfg(), old(States()), w, y, post)
      ensures r.Ok? ==> forall l :: 0 <= l < |losses| ==>
        States()[l] == TaskAfter(Cfg(), old(States()), w, y, post, ln, l)
    {
      InputsNeed(Cfg(), States(), w, y, post);
      if |offsets| == 0 {
        return Err("MultiTaskLoss::Eval: no loss functions");
      }
      if |post| != y.rows {
        return Err("MultiTaskLoss::Eval: the Posterior does not have one entry per frame");
      }
      if y.cols != offsets[|offsets| - 1] {
        return Err("MultiTaskLoss::Eval: the output width is not the sum of the task widths");
      }
      var tgt := PosteriorToMatrix(post, y.cols);
      if tgt.Err? {
        return Err(tgt.msg);
      }
      if |w| != y.rows {
        return Err("MultiTaskLoss::Eval: the frame weights do not have one entry per frame");
      }
      r := EvalChecked(w, y, post, ln, tgt.value);
    }

    /** `Eval` once the arguments have passed its checks. */
    method EvalChecked(w: seq<real>, y: Mat, post: Posterior, ln: real -> real, tgt: Mat) returns (r: Result<Mat>)
      requires Valid() && |offsets| > 0 && Inputs(Cfg(), States(), w, y, post) && tgt == Target(y, post)
      modifies Repr
      ensures Valid()
      ensures r.Ok? <==> EvalOk(Cfg(), old(States()), w, y, post)
      ensures r.Ok? ==> r.value == EvalDiff(Cfg(), old(States()), w, y, post)
      ensures r.Ok? ==> forall l :: 0 <= l < |losses| ==>
        States()[l] == TaskAfter(Cfg(), old(States()), w, y, post, ln, l)
    {
      ghost var cfg := Cfg();
      ghost var S0 := States();
      var masks := ComputeMasks(w, post, offsets, |losses|);
      r := EvalTasks(cfg, S0, w, y, post, ln, tgt, masks);
    }

    /** The second loop of `Eval`: every task in turn, stopping at the first
        one whose columns or weights its loss refuses. */
    method EvalTasks(ghost cfg: Config, ghost S0: seq<TaskState>, w: seq<real>, y: Mat, post: Posterior,
                     ln: real -> real, tgt: Mat, masks: seq<seq<real>>) returns (r: Result<Mat>)
      requires Valid() && cfg == Cfg() && S0 == States() && |offsets| > 0
      requires Inputs(cfg, S0, w, y, post) && tgt == Target(y, post)
      requires |masks| == |losses|
      requires forall k :: 0 <= k < |losses| ==> masks[k] == TaskWeights(cfg, w, post, k)
      modifies Repr
      ensures Valid() && cfg == Cfg() && Repr == old(Repr) && losses == old(losses)
      ensures r.Ok? <==> EvalOk(cfg, S0, w, y, post)
      ensures r.Ok? ==> r.value == EvalDiff(cfg, S0, w, y, post)
      ensures r.Ok? ==> forall l :: 0 <= l < |losses| ==> StateOf(losses[l]) == TaskAfter(cfg, S0, w, y, post, ln, l)
    {
      var n := |losses|;
      var diff := Zeros(y.rows, y.cols);
      ghost var blocks: seq<Mat> := [];
      ProgressStart(cfg, S0, w, y, post, ln);
      var l := 0;
      while l < n
        invariant 0 <= l <= n && Repr == old(Repr) && losses == old(losses)
        invariant Progress(cfg, S0, w, y, post, ln, blocks, diff, l)
      {
        var sub;
        sub, blocks := EvalStep(cfg, S0, w, y, post, ln, tgt, masks[l], l, diff, blocks);
        if sub.Err? {
          return Err(sub.msg);
        }
        diff := sub.value;
        l := l + 1;
      }
      ProgressEnd(cfg, S0, w, y, post, ln, blocks, diff);
      r := Ok(diff);
    }

    /** After the first `l` tasks of `EvalTasks`: the object is valid, those
        tasks are done (module-level `Done`) and their loss objects updated,
        and the later ones are untouched. */
    ghost predicate Progress(cfg: Config, S0: seq<TaskState>, w: seq<real>, y: Mat, post: Posterior,
                             ln: real -> real, blocks: seq<Mat>, diff: Mat, l: nat)
      reads this, Repr
    {
      Valid() && cfg == Cfg() && |offsets| > 0 && l <= |losses| &&
      Done(cfg, S0, w, y, post, Zeros(y.rows, y.cols), blocks, diff, l) &&
      (forall k :: 0 <= k < l ==> StateOf(losses[k]) == TaskAfter(cfg, S0, w, y, post, ln, k)) &&
      (forall k :: l <= k < |losses| ==> StateOf(losses[k]) == S0[k])
    }

    lemma ProgressStart(cfg: Config, S0: seq<TaskState>, w: seq<real>, y: Mat, post: Posterior, ln: real -> real)
      requires Valid() && cfg == Cfg() && S0 == States() && |offsets| > 0 && Inputs(cfg, S0, w, y, post)
      ensures Progress(cfg, S0, w, y, post, ln, [], Zeros(y.rows, y.cols), 0)
    {
      DoneStart(cfg, S0, w, y, post);
    }

    lemma ProgressEnd(cfg: Config, S0: seq<TaskState>, w: seq<real>, y: Mat, post: Posterior, ln: real -> real,
                      blocks: seq<Mat>, diff: Mat)
      requires Progress(cfg, S0, w, y, post, ln, blocks, diff, |losses|)
      ensures EvalOk(cfg, S0, w, y, post) && diff == EvalDiff(cfg, S0, w, y, post)
      ensures forall l :: 0 <= l < |losses| ==> StateOf(losses[l]) == TaskAfter(cfg, S0, w, y, post, ln, l)
    {
      DoneAll(cfg, S0, w, y, post, Zeros(y.rows, y.cols), blocks, diff);
    }

    /** One task of the second loop of `Eval`: its loss evaluates its
        columns and its scaled gradient is copied into `diff`. */
    method EvalStep(ghost cfg: Config, ghost S0: seq<TaskState>, w: seq<real>, y: Mat, post: Posterior,
                    ln: real -> real, tgt: Mat, mw: seq<real>, l: nat, diff: Mat, ghost blocks: seq<Mat>)
      returns (r: Result<Mat>, ghost blocks': seq<Mat>)
      requires Progress(cfg, S0, w, y, post, ln, blocks, diff, l) && l < |losses|
      requires tgt == Target(y, post) && mw == TaskWeights(cfg, w, post, l)
      modifies losses[l].Obj()
      ensures Valid() && cfg == Cfg() && Repr == old(Repr) && losses == old(losses)
      ensures r.Err? ==> !EvalOk(cfg, S0, w, y, post)
      ensures r.Ok? ==> Progress(cfg, S0, w, y, post, ln, blocks', r.value, l + 1)
    {
      blocks' := blocks;
      if !ColRangeOk(y, offsets[l], dims[l]) {
        Refused(cfg, S0, w, y, post, l);
        return Err("MultiTaskLoss::Eval: a task's columns lie outside the output"), blocks';
      }
      var yl := ColRange(y, offsets[l], dims[l]);
      var tl := ColRange(tgt, offsets[l], dims[l]);
      var sub := RunTask(l, mw, yl, tl, ln);
      if sub.Err? {
        Refused(cfg, S0, w, y, post, l);
        return Err(sub.msg), blocks';
      }
      var block := Scale(weights[l], sub.value);
      ProgressNext(cfg, S0, w, y, post, ln, blocks, diff, l, sub.value);
      r := Ok(CopyToColRange(diff, offsets[l], block));
      blocks' := blocks + [block];
    }

    /** Task `l` evaluated to `g` and left its loss object updated, the
        others as they were: the progress moves on by one task. */
    lemma ProgressNext(cfg: Config, S0: seq<TaskState>, w: seq<real>, y: Mat, post: Posterior, ln: real -> real,
                       blocks: seq<Mat>, diff: Mat, l: nat, g: Mat)
      requires Valid() && cfg == Cfg() && |offsets| > 0 && l < |losses|
      requires Done(cfg, S0, w, y, post, Zeros(y.rows, y.cols), blocks, diff, l) && Fits(cfg, y, l)
      requires var c, mw := TaskInput(cfg, S0, l), TaskWeights(cfg, w, post, l);
        var yl, tl := ColRange(y, offsets[l], dims[l]), ColRange(Target(y, post), offsets[l], dims[l]);
        TaskAccepts(c, mw) && g == TaskGradient(c, mw, yl, tl) && StateOf(losses[l]) == TaskUpdate(c, mw, yl, tl, ln)
      requires forall k :: 0 <= k < l ==> StateOf(losses[k]) == TaskAfter(cfg, S0, w, y, post, ln, k)
      requires forall k :: l < k < |losses| ==> StateOf(losses[k]) == S0[k]
      ensures Progress(cfg, S0, w, y, post, ln, blocks + [Scale(weights[l], g)],
                       CopyToColRange(diff, offsets[l], Scale(weights[l], g)), l + 1)
    {
      DoneNext(cfg, S0, w, y, post, Zeros(y.rows, y.cols), blocks, diff, l, Scale(weights[l], g));
    }

    /** Task `l`'s loss object evaluates its columns; no other loss object
        changes. */
    method RunTask(l: nat, mw: seq<real>, yl: Mat, tl: Mat, ln: real -> real) returns (r: Result<Mat>)
      requires Valid() && l < |losses| && SameShape(yl, tl) && |mw| == yl.rows
      modifies losses[l].Obj()
      ensures Valid() && Cfg() == old(Cfg()) && Repr == old(Repr)
      ensures losses == old(losses) && offsets == old(offsets)
      ensures forall k :: 0 <= k < |losses| && k != l ==> StateOf(losses[k]) == old(StateOf(losses[k]))
      ensures var c := Configured(old(StateOf(losses[l])), l, interpMode, interpWt);
        (r.Ok? <==> TaskAccepts(c, mw)) &&
        (r.Ok? ==> r.value == TaskGradient(c, mw, yl, tl) && StateOf(losses[l]) == TaskUpdate(c, mw, yl, tl, ln))
    {
      r := EvalTask(losses[l], l, interpMode, interpWt, mw, yl, tl, ln);
    }

    /** `AvgLoss`: the tasks' frame-average losses, each times its task's
        weight, summed in task order. */
    method AvgLoss() returns (ans: real)
      requires Valid()
      ensures ans == WeightedAvgLoss(weights, States())
    {
      ghost var ss := States();
      ans := 0.0;
      var i := 0;
      while i < |losses|
        invariant 0 <= i <= |losses|
        invariant ans == WeightedAvgLoss(weights[..i], ss[..i])
      {
        var a := TaskLossAvg(losses[i]);
        var ans' := ans + weights[i] * a;
        WeightedAvgLossStep(weights, ss, i, ans, a, ans');
        ans, i := ans', i + 1;
      }
      assert weights[..i] == weights && ss[..i] == ss;
    }
  }
}
