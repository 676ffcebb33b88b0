/** What a parallel component computes, as functions of its nested networks:
    the networks `InitData` and `ReadData` leave behind, the forward output
    assembled from the branches' outputs, and the backward pass that feeds
    every branch its masked columns of the incoming gradient. The class in
    ParallelComp is proved against these. */
module ParallelSpec {
  import opened Wrappers
  import opened Matrices
  import opened ColumnBlocks
  import opened BlockMatrices
  import opened NestedNnets
  import opened ParallelConfig
  import opened ParallelStream
  import opened BranchMasks

  // ---------------------------------------------------------------------
  // Building the list of nested networks

  /** The networks loaded from `names`, in order, with `load` standing for
      `Nnet::Read` of a file or `Nnet::Init` from a prototype; the first
      name that fails to load fails the whole list. */
  function LoadAll(names: seq<string>, load: string -> Result<Nnet>): (r: Result<seq<Nnet>>)
    ensures r.Ok? ==> |r.value| == |names| && forall k :: 0 <= k < |names| ==> load(names[k]) == Ok(r.value[k])
  {
    if |names| == 0 then Ok([])
    else
      match LoadAll(names[..|names| - 1], load)
      case Err(m) => Err(m)
      case Ok(front) =>
        match load(names[|names| - 1])
        case Err(m) => Err(m)
        case Ok(n) => Ok(front + [n])
  }

  /** Loading fails exactly when some name fails to load. */
  lemma {:induction false} LoadAllFails(names: seq<string>, load: string -> Result<Nnet>)
    ensures LoadAll(names, load).Err? <==> exists k :: 0 <= k < |names| && load(names[k]).Err?
    decreases |names|
  {
    if |names| > 0 {
      var n := |names| - 1;
      LoadAllFails(names[..n], load);
      if LoadAll(names[..n], load).Err? {
        var k :| 0 <= k < n && load(names[..n][k]).Err?;
        assert load(names[k]).Err?;
      } else if load(names[n]).Ok? {
        forall k | 0 <= k < |names| ensures load(names[k]).Ok? {
          if k < n {
            assert names[..n][k] == names[k];
          }
        }
      }
    }
  }

  /** The networks after `InitData` on the configuration tokens `ts`,
      starting from `prior`: the configuration is parsed, then the lists it
      gives are loaded. */
  function AfterInit(prior: seq<Nnet>, ts: seq<string>, readFile: string -> Result<Nnet>,
                     initProto: string -> Result<Nnet>, inputDim: int, outputDim: int): (r: Result<seq<Nnet>>)
    ensures r.Ok? ==> DimsMatch(r.value, inputDim, outputDim)
  {
    match ParseConfig(ts)
    case Err(m) => Err(m)
    case Ok(l) => AfterLoad(prior, l, readFile, initProto, inputDim, outputDim)
  }

  /** The files or the prototypes of `l` loaded and appended to `prior`;
      the branch widths must then add up to the component's widths. */
  function AfterLoad(prior: seq<Nnet>, l: NestedLists, readFile: string -> Result<Nnet>,
                     initProto: string -> Result<Nnet>, inputDim: int, outputDim: int): (r: Result<seq<Nnet>>)
    ensures r.Ok? ==> DimsMatch(r.value, inputDim, outputDim)
  {
    match LoadAll(l.files, readFile)
    case Err(m) => Err(m)
    case Ok(fs) =>
      match LoadAll(l.protos, initProto)
      case Err(m) => Err(m)
      case Ok(ps) =>
        if DimsMatch(prior + fs + ps, inputDim, outputDim) then Ok(prior + fs + ps)
        else Err("ParallelComponent: nested network widths do not add up")
  }

  /** A successful `InitData` appends one network per listed name, loaded
      from the list that was given. */
  lemma AfterInitAppends(prior: seq<Nnet>, ts: seq<string>, readFile: string -> Result<Nnet>,
                         initProto: string -> Result<Nnet>, inputDim: int, outputDim: int)
    requires AfterInit(prior, ts, readFile, initProto, inputDim, outputDim).Ok?
    ensures ParseConfig(ts).Ok? && OneKind(ParseConfig(ts).value)
    ensures var l, ns := ParseConfig(ts).value, AfterInit(prior, ts, readFile, initProto, inputDim, outputDim).value;
      |ns| == |prior| + |l.files| + |l.protos| && ns[..|prior|] == prior &&
      (forall k :: 0 <= k < |l.files| ==> readFile(l.files[k]) == Ok(ns[|prior| + k])) &&
      (forall k :: 0 <= k < |l.protos| ==> initProto(l.protos[k]) == Ok(ns[|prior| + k]))
  {
    var l := ParseConfig(ts).value;
    var fs, ps := LoadAll(l.files, readFile).value, LoadAll(l.protos, initProto).value;
    var ns := prior + fs + ps;
    assert AfterInit(prior, ts, readFile, initProto, inputDim, outputDim).value == ns;
    assert ns[..|prior|] == prior;
    if |l.files| > 0 {
      assert ps == [];
    } else {
      assert fs == [];
    }
  }

  /** Initialising an empty component from a configuration written out
      from a list of names loads those names' networks. */
  lemma InitFromRenderedConfig(l: NestedLists, readFile: string -> Result<Nnet>,
                               initProto: string -> Result<Nnet>, inputDim: int, outputDim: int)
    requires OneKind(l) && NamesOk(l)
    requires LoadAll(l.files, readFile).Ok? && LoadAll(l.protos, initProto).Ok?
    requires DimsMatch(LoadAll(l.files, readFile).value + LoadAll(l.protos, initProto).value, inputDim, outputDim)
    ensures AfterInit([], RenderConfig(l), readFile, initProto, inputDim, outputDim) ==
      Ok(LoadAll(l.files, readFile).value + LoadAll(l.protos, initProto).value)
  {
    ParseRenderConfig(l);
    var fs, ps := LoadAll(l.files, readFile).value, LoadAll(l.protos, initProto).value;
    assert [] + fs + ps == fs + ps;
    assert AfterLoad([], l, readFile, initProto, inputDim, outputDim) == Ok(fs + ps);
  }

  /** The networks after `ReadData` on `items`, starting from `prior`, and
      the position just after the closing token; the width check covers
      every network the component then holds. */
  function AfterRead(prior: seq<Nnet>, items: seq<Item>, inputDim: int, outputDim: int): (r: Result<Loaded>)
    ensures r.Ok? ==> DimsMatch(r.value.nets, inputDim, outputDim)
  {
    match Deserialise(items)
    case Err(m) => Err(m)
    case Ok(l) =>
      if DimsMatch(prior + l.nets, inputDim, outputDim) then Ok(Loaded(prior + l.nets, l.next))
      else Err("ParallelComponent: nested network widths do not add up")
  }

  /** What `WriteData` writes, read by a component of the same widths that
      holds no network yet, gives back the same networks in the same order;
      a component of other widths refuses it. */
  lemma WriteReadRoundTrip(ns: seq<Nnet>, rest: seq<Item>, inputDim: int, outputDim: int)
    ensures DimsMatch(ns, inputDim, outputDim) ==>
      AfterRead([], Serialised(ns) + rest, inputDim, outputDim) == Ok(Loaded(ns, |Serialised(ns)|))
    ensures !DimsMatch(ns, inputDim, outputDim) ==> AfterRead([], Serialised(ns) + rest, inputDim, outputDim).Err?
  {
    DeserialiseSerialised(ns, rest);
    assert [] + ns == ns;
  }

  // ---------------------------------------------------------------------
  // Forward pass

  /** The input is as wide as the branches' inputs together. */
  predicate InFits(ns: seq<Nnet>, input: Mat)
  {
    SumInts(InputDims(ns)) == input.cols
  }

  /** Branch `i`'s columns of the input. */
  function InBlock(ns: seq<Nnet>, input: Mat, i: nat): (b: Mat)
    requires InFits(ns, input) && i < |ns|
    ensures b.rows == input.rows && b.cols == ns[i].inputDim
    ensures ColRangeOk(input, PrefixSums(InputDims(ns))[i], ns[i].inputDim)
  {
    BlockWithinTotal(InputDims(ns), i);
    ColRange(input, PrefixSums(InputDims(ns))[i], ns[i].inputDim)
  }

  /** A nested network's forward pass (`Nnet::Propagate`) keeps the rows and
      yields the network's output width. */
  ghost predicate ForwardShaped(prop: (Nnet, Mat) -> Mat)
  {
    forall n: Nnet, x: Mat :: x.cols == n.inputDim ==> prop(n, x).rows == x.rows && prop(n, x).cols == n.outputDim
  }

  /** Branch `i`'s output on its own input columns. */
  function BranchOutput(ns: seq<Nnet>, input: Mat, prop: (Nnet, Mat) -> Mat, i: nat): Mat
    requires InFits(ns, input) && i < |ns|
  {
    prop(ns[i], InBlock(ns, input, i))
  }

  /** Every branch's output on its own input columns. */
  function ForwardBlocks(ns: seq<Nnet>, input: Mat, prop: (Nnet, Mat) -> Mat): (bs: seq<Mat>)
    requires InFits(ns, input)
    ensures |bs| == |ns| && forall i :: 0 <= i < |ns| ==> bs[i] == prop(ns[i], InBlock(ns, input, i))
  {
    seq(|ns|, i requires 0 <= i < |ns| => BranchOutput(ns, input, prop, i))
  }

  /** The component's output: the branches' outputs side by side. */
  function Forward(ns: seq<Nnet>, input: Mat, prop: (Nnet, Mat) -> Mat): (out: Mat)
    requires InFits(ns, input) && ForwardShaped(prop)
    ensures out.rows == input.rows && out.cols == SumInts(OutputDims(ns))
  {
    OffsetsMonotone(OutputDims(ns), 0, |ns|);
    var z := Zeros(input.rows, SumInts(OutputDims(ns)));
    var bs := ForwardBlocks(ns, input, prop);
    SideBySideFits(z, OutputDims(ns), bs);
    Assemble(z, PrefixSums(OutputDims(ns)), bs, |ns|)
  }

  /** Branch `i` reads input columns from the `i`-th prefix sum of the input
      widths and writes output columns from the `i`-th prefix sum of the
      output widths: those columns of the output are branch `i`'s output. */
  lemma ForwardRouting(ns: seq<Nnet>, input: Mat, prop: (Nnet, Mat) -> Mat, i: nat)
    requires InFits(ns, input) && ForwardShaped(prop) && i < |ns|
    ensures ColRangeOk(Forward(ns, input, prop), PrefixSums(OutputDims(ns))[i], ns[i].outputDim)
    ensures ColRange(Forward(ns, input, prop), PrefixSums(OutputDims(ns))[i], ns[i].outputDim) ==
      prop(ns[i], InBlock(ns, input, i))
  {
    OffsetsMonotone(OutputDims(ns), 0, |ns|);
    var z := Zeros(input.rows, SumInts(OutputDims(ns)));
    SideBySideAssembled(z, z, OutputDims(ns), ForwardBlocks(ns, input, prop), i);
  }

  /** Branch `i`'s output columns depend on branch `i`'s input columns only. */
  lemma ForwardLocal(ns: seq<Nnet>, input: Mat, input': Mat, prop: (Nnet, Mat) -> Mat, i: nat)
    requires InFits(ns, input) && InFits(ns, input') && input.rows == input'.rows
    requires ForwardShaped(prop) && i < |ns| && InBlock(ns, input, i) == InBlock(ns, input', i)
    ensures ColRangeOk(Forward(ns, input, prop), PrefixSums(OutputDims(ns))[i], ns[i].outputDim)
    ensures ColRange(Forward(ns, input, prop), PrefixSums(OutputDims(ns))[i], ns[i].outputDim) ==
      ColRange(Forward(ns, input', prop), PrefixSums(OutputDims(ns))[i], ns[i].outputDim)
  {
    ForwardRouting(ns, input, prop, i);
    ForwardRouting(ns, input', prop, i);
  }

  // ---------------------------------------------------------------------
  // Backward pass

  /** What a nested network's `Backpropagate` yields: the network, whose
      parameters it may have updated, and its input gradient. */
  datatype Backward = Backward(net: Nnet, grad: Mat)

  /** A nested network's backward pass keeps the rows, yields the network's
      input width and leaves the network's widths and last component as
      they were. */
  ghost predicate BackwardShaped(bp: (Nnet, Mat) -> Backward)
  {
    forall n: Nnet, g: Mat :: g.cols == n.outputDim ==>
      bp(n, g).grad.rows == g.rows && bp(n, g).grad.cols == n.inputDim &&
      bp(n, g).net.inputDim == n.inputDim && bp(n, g).net.outputDim == n.outputDim &&
      bp(n, g).net.lastIsSoftmax == n.lastIsSoftmax
  }

  /** Branch `i`'s columns of the incoming gradient, each row multiplied by
      that frame's mask for branch `i`. */
  function MaskedGrad(ns: seq<Nnet>, outDiff: Mat, i: nat): (g: Mat)
    requires OutFits(ns, outDiff) && i < |ns|
    ensures g.rows == outDiff.rows && g.cols == ns[i].outputDim
  {
    MulRowsVec(OutBlock(ns, outDiff, i), MaskColumn(ns, outDiff, i))
  }

  /** A frame the mask keeps passes branch `i` its gradient unchanged; a
      frame the mask drops passes zeros. */
  lemma MaskedGradRows(ns: seq<Nnet>, outDiff: Mat, i: nat, j: nat)
    requires OutFits(ns, outDiff) && i < |ns| && j < outDiff.rows
    ensures MaskCell(ns, outDiff, j, i) == 1.0 ==> MaskedGrad(ns, outDiff, i).cells[j] == OutBlock(ns, outDiff, i).cells[j]
    ensures MaskCell(ns, outDiff, j, i) != 1.0 ==> MaskedGrad(ns, outDiff, i).cells[j] == seq(ns[i].outputDim, _ => 0.0)
  {
    MaskIsBinary(ns, outDiff, j, i);
    var g, b := MaskedGrad(ns, outDiff, i), OutBlock(ns, outDiff, i);
    assert |g.cells[j]| == |b.cells[j]| == ns[i].outputDim;
  }

  /** Every branch's result of backpropagating its masked gradient. */
  function BackwardResults(ns: seq<Nnet>, outDiff: Mat, bp: (Nnet, Mat) -> Backward): (rs: seq<Backward>)
    requires OutFits(ns, outDiff)
    ensures |rs| == |ns| && forall i :: 0 <= i < |ns| ==> rs[i] == bp(ns[i], MaskedGrad(ns, outDiff, i))
  {
    seq(|ns|, i requires 0 <= i < |ns| => bp(ns[i], MaskedGrad(ns, outDiff, i)))
  }

  /** The networks after the backward pass. */
  function BackwardNets(ns: seq<Nnet>, outDiff: Mat, bp: (Nnet, Mat) -> Backward): (ms: seq<Nnet>)
    requires OutFits(ns, outDiff)
    ensures |ms| == |ns| && forall i :: 0 <= i < |ns| ==> ms[i] == BackwardResults(ns, outDiff, bp)[i].net
  {
    var rs := BackwardResults(ns, outDiff, bp);
    seq(|ns|, i requires 0 <= i < |ns| => rs[i].net)
  }

  /** The branches' input gradients. */
  function BackwardGrads(ns: seq<Nnet>, outDiff: Mat, bp: (Nnet, Mat) -> Backward): (gs: seq<Mat>)
    requires OutFits(ns, outDiff)
    ensures |gs| == |ns| && forall i :: 0 <= i < |ns| ==> gs[i] == BackwardResults(ns, outDiff, bp)[i].grad
  {
    var rs := BackwardResults(ns, outDiff, bp);
    seq(|ns|, i requires 0 <= i < |ns| => rs[i].grad)
  }

  /** The component's input gradient: the branches' input gradients side
      by side. */
  function BackwardDiff(ns: seq<Nnet>, outDiff: Mat, bp: (Nnet, Mat) -> Backward): (d: Mat)
    requires OutFits(ns, outDiff) && BackwardShaped(bp)
    ensures d.rows == outDiff.rows && d.cols == SumInts(InputDims(ns))
  {
    OffsetsMonotone(InputDims(ns), 0, |ns|);
    var z := Zeros(outDiff.rows, SumInts(InputDims(ns)));
    var gs := BackwardGrads(ns, outDiff, bp);
    SideBySideFits(z, InputDims(ns), gs);
    Assemble(z, PrefixSums(InputDims(ns)), gs, |ns|)
  }

  /** Branch `i`'s columns of the input gradient come from branch `i`'s
      backward pass on its masked gradient, and from nothing else. */
  lemma BackwardRouting(ns: seq<Nnet>, outDiff: Mat, bp: (Nnet, Mat) -> Backward, i: nat)
    requires OutFits(ns, outDiff) && BackwardShaped(bp) && i < |ns|
    ensures ColRangeOk(BackwardDiff(ns, outDiff, bp), PrefixSums(InputDims(ns))[i], ns[i].inputDim)
    ensures ColRange(BackwardDiff(ns, outDiff, bp), PrefixSums(InputDims(ns))[i], ns[i].inputDim) ==
      bp(ns[i], MaskedGrad(ns, outDiff, i)).grad
  {
    OffsetsMonotone(InputDims(ns), 0, |ns|);
    var z := Zeros(outDiff.rows, SumInts(InputDims(ns)));
    SideBySideAssembled(z, z, InputDims(ns), BackwardGrads(ns, outDiff, bp), i);
  }

  /** The backward pass keeps every branch's widths and last component, so
      the component's width check still holds afterwards. */
  lemma BackwardKeepsShapes(ns: seq<Nnet>, outDiff: Mat, bp: (Nnet, Mat) -> Backward)
    requires OutFits(ns, outDiff) && BackwardShaped(bp)
    ensures SameShapes(ns, BackwardNets(ns, outDiff, bp))
    ensures InputDims(BackwardNets(ns, outDiff, bp)) == InputDims(ns)
    ensures OutputDims(BackwardNets(ns, outDiff, bp)) == OutputDims(ns)
  {
    SameShapesDims(ns, BackwardNets(ns, outDiff, bp));
  }

  // ---------------------------------------------------------------------
  // Training options

  /** Every network with the options `opts`. */
  function WithOptions(ns: seq<Nnet>, opts: TrainOptions): (ms: seq<Nnet>)
    ensures |ms| == |ns| && forall i :: 0 <= i < |ns| ==> ms[i] == ns[i].(opts := opts)
  {
    seq(|ns|, i requires 0 <= i < |ns| => ns[i].(opts := opts))
  }

  /** Setting the options changes neither the widths nor the parameters. */
  lemma WithOptionsKeeps(ns: seq<Nnet>, opts: TrainOptions)
    ensures SameShapes(ns, WithOptions(ns, opts))
    ensures InputDims(WithOptions(ns, opts)) == InputDims(ns) && OutputDims(WithOptions(ns, opts)) == OutputDims(ns)
    ensures AllParams(WithOptions(ns, opts)) == AllParams(ns)
  {
    SameShapesDims(ns, WithOptions(ns, opts));
    SameParams(ns, WithOptions(ns, opts));
  }

  /** Networks whose parameters agree list the same parameters. */
  lemma {:induction false} SameParams(ns: seq<Nnet>, ms: seq<Nnet>)
    requires |ns| == |ms| && forall i :: 0 <= i < |ns| ==> ns[i].params == ms[i].params
    ensures AllParams(ns) == AllParams(ms)
    decreases |ns|
  {
    if |ns| > 0 {
      var n := |ns| - 1;
      SameParams(ns[..n], ms[..n]);
    }
  }

  /** The state of the loop of `PropagateFnc`: the offsets of the next
      branch's input and output columns and the output assembled so far. */
  datatype ForwardState = ForwardState(inOff: int, outOff: int, out: Mat)

  /** The blocks `bs` fit side by side in `out` at the output offsets
      `outOffs`; `inOffs` has one input offset per branch and one more. */
  ghost predicate ForwardPlan(bs: seq<Mat>, inOffs: seq<int>, outOffs: seq<int>, out: Mat)
  {
    |inOffs| == |bs| + 1 && |outOffs| == |bs| + 1 && BlocksFit(out, outOffs, bs, |bs|)
  }

  /** The state after the first `i` turns: the offsets of branch `i` and
      the first `i` blocks copied into their columns of `out`. */
  ghost function ForwardAt(bs: seq<Mat>, inOffs: seq<int>, outOffs: seq<int>, out: Mat, i: nat): ForwardState
    requires ForwardPlan(bs, inOffs, outOffs, out) && i <= |bs|
  {
    ForwardState(inOffs[i], outOffs[i], Assemble(out, outOffs, bs, i))
  }

  /** Before the first turn both offsets are 0 and `out` is untouched. */
  lemma ForwardStart(ns: seq<Nnet>, input: Mat, prop: (Nnet, Mat) -> Mat, out: Mat)
    requires InFits(ns, input) && ForwardShaped(prop)
    requires out.rows == input.rows && out.cols == SumInts(OutputDims(ns))
    ensures var bs, inOffs, outOffs := ForwardBlocks(ns, input, prop), PrefixSums(InputDims(ns)), PrefixSums(OutputDims(ns));
      ForwardPlan(bs, inOffs, outOffs, out) && ForwardAt(bs, inOffs, outOffs, out, 0) == ForwardState(0, 0, out)
  {
    SideBySideFits(out, OutputDims(ns), ForwardBlocks(ns, input, prop));
  }

  /** After the last turn the output is the component's output. */
  lemma ForwardEnd(ns: seq<Nnet>, input: Mat, prop: (Nnet, Mat) -> Mat, out: Mat)
    requires InFits(ns, input) && ForwardShaped(prop)
    requires out.rows == input.rows && out.cols == SumInts(OutputDims(ns))
    requires ForwardPlan(ForwardBlocks(ns, input, prop), PrefixSums(InputDims(ns)), PrefixSums(OutputDims(ns)), out)
    ensures ForwardAt(ForwardBlocks(ns, input, prop), PrefixSums(InputDims(ns)), PrefixSums(OutputDims(ns)), out, |ns|).out ==
      Forward(ns, input, prop)
  {
    ForwardFromAny(ns, input, prop, out);
  }

  /** Turn `i` copies block `i` at the current output offset and moves
      both offsets past branch `i`'s columns. */
  lemma ForwardNext(bs: seq<Mat>, inOffs: seq<int>, outOffs: seq<int>, out: Mat, i: nat, inWidth: int, outWidth: int)
    requires ForwardPlan(bs, inOffs, outOffs, out) && i < |bs|
    requires inOffs[i + 1] == inOffs[i] + inWidth && outOffs[i + 1] == outOffs[i] + outWidth
    ensures var s := ForwardAt(bs, inOffs, outOffs, out, i);
      bs[i].rows == s.out.rows && ColRangeOk(s.out, s.outOff, bs[i].cols) &&
      ForwardAt(bs, inOffs, outOffs, out, i + 1) == ForwardState(s.inOff + inWidth, s.outOff + outWidth, CopyToColRange(s.out, s.outOff, bs[i]))
  {
  }

  /** The state of the last loop of `BackpropagateFnc`: the networks, the
      input gradient assembled so far and the column where the next
      branch's input gradient goes. */
  datatype BackState = BackState(nets: seq<Nnet>, diff: Mat, off: int)

  /** The branches' backward passes return the networks `ms` and the input
      gradients `gs`, and the gradients fit side by side in `inDiff` at the
      offsets `offs`. */
  ghost predicate BackPlan(ns: seq<Nnet>, ms: seq<Nnet>, gs: seq<Mat>, offs: seq<int>, inDiff: Mat)
  {
    |ms| == |ns| && |gs| == |ns| && |offs| == |ns| + 1 && BlocksFit(inDiff, offs, gs, |ns|)
  }

  /** The state after the first `i` turns: the first `i` networks replaced,
      the others as they were, the first `i` input gradients copied into
      their columns of `inDiff`, and the offset of branch `i`. */
  ghost function BackedAt(ns: seq<Nnet>, ms: seq<Nnet>, gs: seq<Mat>, offs: seq<int>, inDiff: Mat, i: nat): BackState
    requires BackPlan(ns, ms, gs, offs, inDiff) && i <= |ns|
  {
    BackState(ms[..i] + ns[i..], Assemble(inDiff, offs, gs, i), offs[i])
  }

  /** Before the first turn nothing has changed. */
  lemma BackedStart(ns: seq<Nnet>, outDiff: Mat, bp: (Nnet, Mat) -> Backward, inDiff: Mat)
    requires OutFits(ns, outDiff) && BackwardShaped(bp)
    requires inDiff.rows == outDiff.rows && inDiff.cols == SumInts(InputDims(ns))
    ensures var ms, gs, offs := BackwardNets(ns, outDiff, bp), BackwardGrads(ns, outDiff, bp), PrefixSums(InputDims(ns));
      BackPlan(ns, ms, gs, offs, inDiff) && BackedAt(ns, ms, gs, offs, inDiff, 0) == BackState(ns, inDiff, 0)
  {
    SideBySideFits(inDiff, InputDims(ns), BackwardGrads(ns, outDiff, bp));
    assert BackwardNets(ns, outDiff, bp)[..0] + ns[0..] == ns;
  }

  /** Turn `i` replaces network `i` by `net`, copies `grad` at the current
      offset and moves the offset past branch `i`'s input columns. */
  lemma BackedNext(ns: seq<Nnet>, ms: seq<Nnet>, gs: seq<Mat>, offs: seq<int>, inDiff: Mat, i: nat, net: Nnet, grad: Mat)
    requires BackPlan(ns, ms, gs, offs, inDiff) && i < |ns| && net == ms[i] && grad == gs[i]
    requires offs[i + 1] == offs[i] + ns[i].inputDim
    ensures var s := BackedAt(ns, ms, gs, offs, inDiff, i);
      grad.rows == s.diff.rows && ColRangeOk(s.diff, s.off, grad.cols) &&
      BackedAt(ns, ms, gs, offs, inDiff, i + 1) == BackState(s.nets[i := net], CopyToColRange(s.diff, s.off, grad), s.off + ns[i].inputDim)
  {
    assert ColRangeOk(inDiff, offs[i], gs[i].cols);
    ReplaceNext(ns, ms, i);
  }

  /** Taking one more network from `ms` replaces the next one of `ns`. */
  lemma ReplaceNext(ns: seq<Nnet>, ms: seq<Nnet>, i: nat)
    requires |ms| == |ns| && i < |ns|
    ensures ms[..i + 1] + ns[i + 1..] == (ms[..i] + ns[i..])[i := ms[i]]
  {
  }

  /** After the last turn every network is replaced and every input
      gradient is in place. */
  lemma BackedEnd(ns: seq<Nnet>, outDiff: Mat, bp: (Nnet, Mat) -> Backward, inDiff: Mat, cur: seq<Nnet>, d: Mat)
    requires OutFits(ns, outDiff) && BackwardShaped(bp)
    requires inDiff.rows == outDiff.rows && inDiff.cols == SumInts(InputDims(ns))
    requires var ms, gs, offs := BackwardNets(ns, outDiff, bp), BackwardGrads(ns, outDiff, bp), PrefixSums(InputDims(ns));
      BackPlan(ns, ms, gs, offs, inDiff) && cur == BackedAt(ns, ms, gs, offs, inDiff, |ns|).nets &&
      d == BackedAt(ns, ms, gs, offs, inDiff, |ns|).diff
    ensures cur == BackwardNets(ns, outDiff, bp) && d == BackwardDiff(ns, outDiff, bp)
    ensures InputDims(cur) == InputDims(ns) && OutputDims(cur) == OutputDims(ns)
  {
    var ms := BackwardNets(ns, outDiff, bp);
    assert ms[..|ns|] + ns[|ns|..] == ms;
    BackwardKeepsShapes(ns, outDiff, bp);
    BackwardFromAny(ns, outDiff, bp, inDiff);
  }

  /** Assembling the branch outputs over a matrix of the output's shape
      gives the component's output, whatever that matrix held. */
  lemma ForwardFromAny(ns: seq<Nnet>, input: Mat, prop: (Nnet, Mat) -> Mat, out: Mat)
    requires InFits(ns, input) && ForwardShaped(prop)
    requires out.rows == input.rows && out.cols == SumInts(OutputDims(ns))
    ensures BlocksFit(out, PrefixSums(OutputDims(ns)), ForwardBlocks(ns, input, prop), |ns|)
    ensures Assemble(out, PrefixSums(OutputDims(ns)), ForwardBlocks(ns, input, prop), |ns|) == Forward(ns, input, prop)
  {
    var z := Zeros(input.rows, SumInts(OutputDims(ns)));
    if |ns| == 0 {
      MatrixExt(out, z);
    } else {
      SideBySideAssembled(out, z, OutputDims(ns), ForwardBlocks(ns, input, prop), 0);
    }
  }

  /** The same for the branches' input gradients. */
  lemma BackwardFromAny(ns: seq<Nnet>, outDiff: Mat, bp: (Nnet, Mat) -> Backward, inDiff: Mat)
    requires OutFits(ns, outDiff) && BackwardShaped(bp)
    requires inDiff.rows == outDiff.rows && inDiff.cols == SumInts(InputDims(ns))
    ensures BlocksFit(inDiff, PrefixSums(InputDims(ns)), BackwardGrads(ns, outDiff, bp), |ns|)
    ensures Assemble(inDiff, PrefixSums(InputDims(ns)), BackwardGrads(ns, outDiff, bp), |ns|) == BackwardDiff(ns, outDiff, bp)
  {
    var z := Zeros(outDiff.rows, SumInts(InputDims(ns)));
    if |ns| == 0 {
      MatrixExt(inDiff, z);
    } else {
      SideBySideAssembled(inDiff, z, InputDims(ns), BackwardGrads(ns, outDiff, bp), 0);
    }
  }
}
