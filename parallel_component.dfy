/** `ParallelComponent`: a layer made of nested networks side by side.
    Branch `i` reads the input columns from the `i`-th prefix sum of the
    branches' input widths and writes the output columns from the `i`-th
    prefix sum of their output widths. The nested networks' own reading,
    forward and backward passes are passed in as functions. */
module ParallelComp {
  import opened Wrappers
  import opened Matrices
  import opened ColumnBlocks
  import opened BlockMatrices
  import opened NestedNnets
  import opened ParallelConfig
  import opened ParallelStream
  import opened BranchMasks
  import opened ParallelSpec

  /** `a[off..off + |src|]` overwritten by `src`
      (`a.Range(off, |src|).CopyFromVec(src)`). */
  method CopyRange(a: array<real>, off: nat, src: seq<real>)
    requires off + |src| <= a.Length
    modifies a
    ensures forall k :: 0 <= k < a.Length ==> a[k] == if off <= k < off + |src| then src[k - off] else old(a[k])
    ensures a[..off + |src|] == old(a[..off]) + src
  {
    forall k | off <= k < off + |src| {
      a[k] := src[k - off];
    }
    assert a[..off + |src|] == old(a[..off]) + src;
  }

  /** One step of `GetParams`: branch `i`'s parameters copied to the
      offset where the earlier branches' parameters end. */
  method CopyParams(wei: array<real>, ns: seq<Nnet>, i: nat, offset: nat) returns (offset': nat)
    requires i < |ns| && offset == PrefixSums(ParamCounts(ns))[i]
    requires wei.Length == SumInts(ParamCounts(ns)) && offset <= wei.Length && wei[..offset] == AllParams(ns[..i])
    modifies wei
    ensures offset' == PrefixSums(ParamCounts(ns))[i + 1] && offset' <= wei.Length
    ensures wei[..offset'] == AllParams(ns[..i + 1])
  {
    ParamsNext(ns, i);
    CopyRange(wei, offset, ns[i].params);
    offset' := offset + |ns[i].params|;
  }

  class ParallelComponent {
    const inputDim: int
    const outputDim: int
    var nnets: seq<Nnet>

    /** The branch widths add up to the component's widths. */
    predicate Valid()
      reads this
    {
      DimsMatch(nnets, inputDim, outputDim)
    }

    /** A component of the given widths with no nested network yet. */
    constructor (dimIn: int, dimOut: int)
      ensures inputDim == dimIn && outputDim == dimOut && nnets == []
    {
      inputDim, outputDim := dimIn, dimOut;
      nnets := [];
    }

    /** The sums of the branches' input and output widths. */
    method DimSums() returns (inSum: int, outSum: int)
      ensures inSum == SumInts(InputDims(nnets)) && outSum == SumInts(OutputDims(nnets))
      ensures inSum == inputDim && outSum == outputDim <==> Valid()
    {
      inSum, outSum := 0, 0;
      var i := 0;
      while i < |nnets|
        invariant 0 <= i <= |nnets|
        invariant inSum == SumInts(InputDims(nnets)[..i]) && outSum == SumInts(OutputDims(nnets)[..i])
      {
        SumStep(InputDims(nnets), i);
        SumStep(OutputDims(nnets), i);
        inSum, outSum := inSum + nnets[i].inputDim, outSum + nnets[i].outputDim;
        i := i + 1;
      }
      assert InputDims(nnets)[..i] == InputDims(nnets) && OutputDims(nnets)[..i] == OutputDims(nnets);
    }

    /** One loop of `InitData`: the network of every name, loaded in order
        and appended. */
    method LoadInto(names: seq<string>, load: string -> Result<Nnet>) returns (r: Result<()>)
      modifies this`nnets
      ensures r.Ok? <==> LoadAll(names, load).Ok?
      ensures r.Ok? ==> nnets == old(nnets) + LoadAll(names, load).value
      ensures |old(nnets)| <= |nnets| && nnets[..|old(nnets)|] == old(nnets)
    {
      ghost var prior := nnets;
      ghost var loaded: seq<Nnet> := [];
      var i := 0;
      while i < |names|
        invariant 0 <= i <= |names| && nnets == prior + loaded
        invariant LoadAll(names[..i], load) == Ok(loaded)
      {
        assert names[..i + 1][..i] == names[..i];
        var n := load(names[i]);
        if n.Err? {
          assert LoadAll(names[..i + 1], load).Err?;
          LoadAllPrefixFails(names, load, i + 1);
          assert nnets[..|prior|] == prior;
          return Err(n.msg);
        }
        nnets, loaded := nnets + [n.value], loaded + [n.value];
        i := i + 1;
      }
      assert names[..i] == names;
      assert nnets[..|prior|] == prior;
      r := Ok(());
    }

    /** `InitData`: parse the configuration, load the listed networks and
        check the widths. A configuration that does not parse changes
        nothing; a network that fails to load leaves those before it
        appended. */
    method InitData(ts: seq<string>, readFile: string -> Result<Nnet>, initProto: string -> Result<Nnet>)
      returns (r: Result<()>)
      modifies this`nnets
      ensures r.Ok? <==> AfterInit(old(nnets), ts, readFile, initProto, inputDim, outputDim).Ok?
      ensures r.Ok? ==> nnets == AfterInit(old(nnets), ts, readFile, initProto, inputDim, outputDim).value && Valid()
      ensures ParseConfig(ts).Err? ==> nnets == old(nnets)
      ensures |old(nnets)| <= |nnets| && nnets[..|old(nnets)|] == old(nnets)
    {
      var cfg := ReadConfig(ts);
      if cfg.Err? {
        return Err(cfg.msg);
      }
      var l := cfg.value;
      ghost var prior := nnets;
      var loaded := LoadInto(l.files, readFile);
      if loaded.Err? {
        return Err(loaded.msg);
      }
      ghost var mid := nnets;
      loaded := LoadInto(l.protos, initProto);
      if loaded.Err? {
        assert nnets[..|prior|] == mid[..|prior|];
        return Err(loaded.msg);
      }
      assert nnets[..|prior|] == prior;
      var inSum, outSum := DimSums();
      if inSum != inputDim || outSum != outputDim {
        return Err("ParallelComponent: nested network widths do not add up");
      }
      r := Ok(());
    }

    /** `ReadData`: the count, then the entries, then the closing token, then
        the width check; the result is the position after the closing
        token. A stream that breaks off leaves the networks read before
        that point appended. */
    method ReadData(items: seq<Item>) returns (r: Result<nat>)
      modifies this`nnets
      ensures r.Ok? <==> AfterRead(old(nnets), items, inputDim, outputDim).Ok?
      ensures r.Ok? ==> nnets == AfterRead(old(nnets), items, inputDim, outputDim).value.nets && Valid()
      ensures r.Ok? ==> r.value == AfterRead(old(nnets), items, inputDim, outputDim).value.next
      ensures |old(nnets)| <= |nnets| && nnets[..|old(nnets)|] == old(nnets)
    {
      ghost var prior := nnets;
      if |items| < 2 || items[0] != Token(CountTag) {
        return Err("ParallelComponent: expected <NestedNnetCount>");
      }
      if !items[1].Int? {
        return Err("ParallelComponent: expected the network count");
      }
      var count := items[1].n;
      ghost var acc: seq<Nnet> := [];
      var pos := 2;
      var i := 0;
      while i < count
        invariant 0 <= i && (0 <= count ==> i <= count) && pos == 2 + 3 * i
        invariant ReadEntries(items, 2, count, []) == ReadEntries(items, pos, count - i, acc)
        invariant nnets == prior + acc
        decreases count - i
      {
        if pos + 3 > |items| || items[pos] != Token(NetTag) {
          assert nnets[..|prior|] == prior;
          return Err("ParallelComponent: expected <NestedNnet>");
        }
        if !items[pos + 1].Int? {
          assert nnets[..|prior|] == prior;
          return Err("ParallelComponent: expected the network's index");
        }
        if !items[pos + 2].Net? {
          assert nnets[..|prior|] == prior;
          return Err("ParallelComponent: expected a nested network");
        }
        var net := items[pos + 2].nnet;
        nnets, acc := nnets + [net], acc + [net];
        pos, i := pos + 3, i + 1;
      }
      assert nnets[..|prior|] == prior;
      if pos >= |items| || items[pos] != Token(EndTag) {
        return Err("ParallelComponent: expected </ParallelComponent>");
      }
      var inSum, outSum := DimSums();
      if inSum != inputDim || outSum != outputDim {
        return Err("ParallelComponent: nested network widths do not add up");
      }
      r := Ok(pos + 1);
    }

    /** `WriteData`: the count, one entry per network numbered from 1, the
        closing token. */
    method WriteData() returns (items: seq<Item>)
      ensures items == Serialised(nnets)
    {
      var n := |nnets|;
      items := [Token(CountTag), Int(n)];
      var i := 0;
      while i < n
        invariant 0 <= i <= n && items == [Token(CountTag), Int(n)] + Entries(nnets, i)
      {
        items := items + [Token(NetTag), Int(i + 1), Net(nnets[i])];
        i := i + 1;
      }
      items := items + [Token(EndTag)];
    }

    /** `GetNestedNnet`: the network at `id`; an index out of range is an
        error. */
    function GetNestedNnet(id: int): (r: Result<Nnet>)
      reads this
      ensures r.Ok? <==> 0 <= id < |nnets|
      ensures r.Ok? ==> r.value == nnets[id]
    {
      if 0 <= id < |nnets| then Ok(nnets[id]) else Err("ParallelComponent: no nested network at this index")
    }

    /** `NumParams`: the parameter counts of all branches added up, which
        is the length of their parameters one after the other. */
    method NumParams() returns (n: int)
      ensures n == SumInts(ParamCounts(nnets)) && n == |AllParams(nnets)|
    {
      n := 0;
      var i := 0;
      while i < |nnets|
        invariant 0 <= i <= |nnets| && n == SumInts(ParamCounts(nnets)[..i])
      {
        SumStep(ParamCounts(nnets), i);
        n := n + |nnets[i].params|;
        i := i + 1;
      }
      assert ParamCounts(nnets)[..i] == ParamCounts(nnets);
      AllParamsLength(nnets);
    }

    /** `GetParams`: every branch's parameters copied, one branch after the
        other, into a vector of `NumParams` entries; the final offset is
        `NumParams`. */
    method GetParams() returns (wei: array<real>)
      ensures fresh(wei) && wei[..] == AllParams(nnets)
    {
      var total := NumParams();
      wei := new real[total](_ => 0.0);
      var ns := nnets;
      ghost var o := PrefixSums(ParamCounts(ns));
      var offset: nat := 0;
      var i := 0;
      while i < |ns|
        invariant i <= |ns| && offset == o[i] && wei.Length == SumInts(ParamCounts(ns))
        invariant offset <= wei.Length && wei[..offset] == AllParams(ns[..i])
        modifies wei
      {
        offset := CopyParams(wei, ns, i, offset);
        i := i + 1;
      }
      assert ns[..i] == ns;
      assert wei[..] == wei[..offset];
    }

    /** `PropagateFnc`: each branch's output on its input columns, copied
        into its output columns of `out`. The caller has sized `out` to the
        component's output. */
    method PropagateFnc(input: Mat, out: Mat, prop: (Nnet, Mat) -> Mat) returns (out': Mat)
      requires Valid() && input.cols == inputDim && ForwardShaped(prop)
      requires out.rows == input.rows && out.cols == outputDim
      ensures out' == Forward(nnets, input, prop)
    {
      var ns := nnets;
      ghost var bs, inOffs, outOffs := ForwardBlocks(ns, input, prop), PrefixSums(InputDims(ns)), PrefixSums(OutputDims(ns));
      ForwardStart(ns, input, prop, out);
      var inOff, outOff := 0, 0;
      out' := out;
      var i := 0;
      while i < |ns|
        invariant i <= |ns| && ForwardState(inOff, outOff, out') == ForwardAt(bs, inOffs, outOffs, out, i)
      {
        inOff, outOff, out' := ForwardStep(ns, input, prop, i, bs, inOffs, outOffs, out, inOff, outOff, out');
        i := i + 1;
      }
      ForwardEnd(ns, input, prop, out);
    }

    /** `BackpropagateFnc`: compute the frame masks, then feed every branch
        its masked columns of `outDiff`, keep the network its backward pass
        returns and copy its input gradient into its columns of `inDiff`.
        The caller has sized `inDiff` to the component's input. */
    method BackpropagateFnc(outDiff: Mat, inDiff: Mat, bp: (Nnet, Mat) -> Backward) returns (inDiff': Mat)
      requires Valid() && outDiff.cols == outputDim && BackwardShaped(bp)
      requires inDiff.rows == outDiff.rows && inDiff.cols == inputDim
      modifies this`nnets
      ensures nnets == BackwardNets(old(nnets), outDiff, bp) && Valid()
      ensures inDiff' == BackwardDiff(old(nnets), outDiff, bp)
    {
      var ns := nnets;
      var mask := ComputeMask(nnets, outDiff);
      assert HoldsMask(mask, ns, outDiff);
      inDiff' := BackwardBranches(ns, outDiff, bp, mask, inDiff);
      BackedEnd(ns, outDiff, bp, inDiff, nnets, inDiff');
    }

    /** The last loop of `BackpropagateFnc`, over the networks `ns` the
        component held when the masks were computed. */
    method BackwardBranches(ns: seq<Nnet>, outDiff: Mat, bp: (Nnet, Mat) -> Backward, mask: array2<real>, inDiff: Mat)
      returns (inDiff': Mat)
      requires nnets == ns && OutFits(ns, outDiff) && BackwardShaped(bp) && HoldsMask(mask, ns, outDiff)
      requires inDiff.rows == outDiff.rows && inDiff.cols == SumInts(InputDims(ns))
      modifies this`nnets
      ensures var ms, gs, offs := BackwardNets(ns, outDiff, bp), BackwardGrads(ns, outDiff, bp), PrefixSums(InputDims(ns));
        BackPlan(ns, ms, gs, offs, inDiff) && nnets == BackedAt(ns, ms, gs, offs, inDiff, |ns|).nets &&
        inDiff' == BackedAt(ns, ms, gs, offs, inDiff, |ns|).diff
    {
      ghost var ms, gs, offs := BackwardNets(ns, outDiff, bp), BackwardGrads(ns, outDiff, bp), PrefixSums(InputDims(ns));
      BackedStart(ns, outDiff, bp, inDiff);
      var inOff := 0;
      inDiff' := inDiff;
      var i := 0;
      while i < |ns|
        invariant i <= |ns| && BackState(nnets, inDiff', inOff) == BackedAt(ns, ms, gs, offs, inDiff, i)
      {
        var net;
        net, inDiff', inOff := BranchStep(ns, outDiff, bp, mask, i, ms, gs, offs, inDiff, nnets, inDiff', inOff);
        nnets := nnets[i := net];
        i := i + 1;
      }
    }

    /** `Update`: the nested networks update themselves during the backward
        pass, so there is nothing left to do. */
    method Update(input: Mat, diff: Mat)
      ensures nnets == old(nnets)
    {
    }

    /** `SetTrainOptions`: the options reach every branch; widths and
        parameters stay as they were. */
    method SetTrainOptions(opts: TrainOptions)
      modifies this`nnets
      ensures nnets == WithOptions(old(nnets), opts)
      ensures Valid() <==> old(Valid())
    {
      ghost var ns := nnets;
      var i := 0;
      while i < |nnets|
        invariant 0 <= i <= |nnets| && |nnets| == |ns|
        invariant forall k :: 0 <= k < i ==> nnets[k] == ns[k].(opts := opts)
        invariant forall k :: i <= k < |ns| ==> nnets[k] == ns[k]
      {
        nnets := nnets[i := nnets[i].(opts := opts)];
        i := i + 1;
      }
      assert nnets == WithOptions(ns, opts);
      WithOptionsKeeps(ns, opts);
    }
  }

  /** One turn of the loop of `PropagateFnc`: branch `i`'s forward pass on
      its input columns, copied into its output columns. */
  method ForwardStep(ns: seq<Nnet>, input: Mat, prop: (Nnet, Mat) -> Mat, i: nat,
                     ghost bs: seq<Mat>, ghost inOffs: seq<int>, ghost outOffs: seq<int>, out: Mat,
                     inOff: int, outOff: int, cur: Mat)
    returns (inOff': int, outOff': int, cur': Mat)
    requires InFits(ns, input) && i < |ns| && bs == ForwardBlocks(ns, input, prop)
    requires inOffs == PrefixSums(InputDims(ns)) && outOffs == PrefixSums(OutputDims(ns))
    requires ForwardPlan(bs, inOffs, outOffs, out) && ForwardState(inOff, outOff, cur) == ForwardAt(bs, inOffs, outOffs, out, i)
    ensures ForwardState(inOff', outOff', cur') == ForwardAt(bs, inOffs, outOffs, out, i + 1)
  {
    assert inOffs[i + 1] == inOffs[i] + ns[i].inputDim && outOffs[i + 1] == outOffs[i] + ns[i].outputDim;
    ForwardNext(bs, inOffs, outOffs, out, i, ns[i].inputDim, ns[i].outputDim);
    var src := ColRange(input, inOff, ns[i].inputDim);
    var tgt := prop(ns[i], src);
    assert tgt == bs[i];
    cur' := CopyToColRange(cur, outOff, tgt);
    inOff', outOff' := inOff + ns[i].inputDim, outOff + ns[i].outputDim;
  }

  /** One turn of the last loop of `BackpropagateFnc`: branch `i`'s
      backward pass, its input gradient copied into its columns, and the
      offset moved past them. */
  method BranchStep(ns: seq<Nnet>, outDiff: Mat, bp: (Nnet, Mat) -> Backward, mask: array2<real>, i: nat,
                    ghost ms: seq<Nnet>, ghost gs: seq<Mat>, ghost offs: seq<int>, inDiff: Mat, cur: seq<Nnet>, d: Mat, off: int)
    returns (net: Nnet, d': Mat, off': int)
    requires OutFits(ns, outDiff) && i < |ns| && HoldsMask(mask, ns, outDiff)
    requires ms == BackwardNets(ns, outDiff, bp) && gs == BackwardGrads(ns, outDiff, bp) && offs == PrefixSums(InputDims(ns))
    requires BackPlan(ns, ms, gs, offs, inDiff) && BackState(cur, d, off) == BackedAt(ns, ms, gs, offs, inDiff, i)
    ensures BackState(cur[i := net], d', off') == BackedAt(ns, ms, gs, offs, inDiff, i + 1)
  {
    var res := BranchBackward(ns, outDiff, bp, mask, i);
    assert offs[i + 1] == offs[i] + ns[i].inputDim;
    BackedNext(ns, ms, gs, offs, inDiff, i, res.net, res.grad);
    net, d' := res.net, CopyToColRange(d, off, res.grad);
    off' := off + ns[i].inputDim;
  }

  /** The array holds every frame's mask for every branch. */
  ghost predicate HoldsMask(mask: array2<real>, ns: seq<Nnet>, outDiff: Mat)
    requires OutFits(ns, outDiff)
    reads mask
  {
    mask.Length0 == outDiff.rows && mask.Length1 == |ns| &&
    forall j, k :: 0 <= j < outDiff.rows && 0 <= k < |ns| ==> mask[j, k] == MaskCell(ns, outDiff, j, k)
  }

  /** One turn of the last loop of `BackpropagateFnc`: branch `i`'s columns
      of the incoming gradient, multiplied row by row by the branch's mask
      column, through the branch's backward pass. */
  method BranchBackward(ns: seq<Nnet>, outDiff: Mat, bp: (Nnet, Mat) -> Backward, mask: array2<real>, i: nat)
    returns (res: Backward)
    requires OutFits(ns, outDiff) && i < |ns| && HoldsMask(mask, ns, outDiff)
    ensures res.net == BackwardNets(ns, outDiff, bp)[i] && res.grad == BackwardGrads(ns, outDiff, bp)[i]
  {
    var src := OutBlock(ns, outDiff, i);
    var rowMask := Column(mask, i);
    ColumnIsMask(mask, ns, outDiff, i);
    var masked := MulRowsVec(src, rowMask);
    res := bp(ns[i], masked);
  }

  /** Column `i` of a mask array holding every frame's mask is branch
      `i`'s mask. */
  lemma ColumnIsMask(mask: array2<real>, ns: seq<Nnet>, outDiff: Mat, i: nat)
    requires OutFits(ns, outDiff) && i < |ns| && HoldsMask(mask, ns, outDiff)
    ensures Column(mask, i) == MaskColumn(ns, outDiff, i)
  {
    var c, m := Column(mask, i), MaskColumn(ns, outDiff, i);
    forall j | 0 <= j < outDiff.rows ensures c[j] == m[j] {
    }
  }

  /** Once some name fails, so does every longer prefix of the list. */
  lemma {:induction false} LoadAllPrefixFails(names: seq<string>, load: string -> Result<Nnet>, k: nat)
    requires k <= |names| && LoadAll(names[..k], load).Err?
    ensures LoadAll(names, load).Err?
    decreases |names| - k
  {
    if k < |names| {
      assert names[..k + 1][..k] == names[..k];
      LoadAllPrefixFails(names, load, k + 1);
    } else {
      assert names[..k] == names;
    }
  }
}
