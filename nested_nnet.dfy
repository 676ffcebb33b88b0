/** The nested networks of a parallel component, seen from outside: each
    has an input and an output width, a last component that is or is not a
    softmax, its parameters in the order its `GetParams` lists them, and the
    training options last handed to it. What a nested network computes is
    not part of this model; the component receives it as a function. */
module NestedNnets {
  import opened ColumnBlocks

  /** The training options passed down to every nested network. */
  datatype TrainOptions = TrainOptions(learnRate: real, momentum: real, l1Penalty: real, l2Penalty: real)

  datatype Nnet = Nnet(inputDim: nat, outputDim: nat, lastIsSoftmax: bool, params: seq<real>, opts: TrainOptions)

  function InputDims(ns: seq<Nnet>): (d: seq<int>)
    ensures |d| == |ns| && AllNonNegative(d)
    ensures forall i :: 0 <= i < |ns| ==> d[i] == ns[i].inputDim
  {
    seq(|ns|, i requires 0 <= i < |ns| => ns[i].inputDim)
  }

  function OutputDims(ns: seq<Nnet>): (d: seq<int>)
    ensures |d| == |ns| && AllNonNegative(d)
    ensures forall i :: 0 <= i < |ns| ==> d[i] == ns[i].outputDim
  {
    seq(|ns|, i requires 0 <= i < |ns| => ns[i].outputDim)
  }

  function ParamCounts(ns: seq<Nnet>): (d: seq<int>)
    ensures |d| == |ns| && AllNonNegative(d)
    ensures forall i :: 0 <= i < |ns| ==> d[i] == |ns[i].params|
  {
    seq(|ns|, i requires 0 <= i < |ns| => |ns[i].params|)
  }

  /** The branch widths add up to the component's widths, the check that
      closes both `InitData` and `ReadData`. */
  predicate DimsMatch(ns: seq<Nnet>, inputDim: int, outputDim: int)
  {
    SumInts(InputDims(ns)) == inputDim && SumInts(OutputDims(ns)) == outputDim
  }

  /** Two networks with the same widths and the same kind of last
      component: only parameters and options may differ. */
  predicate SameShapes(ns: seq<Nnet>, ms: seq<Nnet>)
  {
    |ns| == |ms| &&
    forall i :: 0 <= i < |ns| ==>
      ns[i].inputDim == ms[i].inputDim && ns[i].outputDim == ms[i].outputDim &&
      ns[i].lastIsSoftmax == ms[i].lastIsSoftmax
  }

  /** Networks of the same shapes have the same widths, so the width check
      gives the same answer for both. */
  lemma SameShapesDims(ns: seq<Nnet>, ms: seq<Nnet>)
    requires SameShapes(ns, ms)
    ensures InputDims(ns) == InputDims(ms) && OutputDims(ns) == OutputDims(ms)
  {
  }

  /** Every branch's parameters, one branch after the other. */
  function AllParams(ns: seq<Nnet>): (p: seq<real>)
  {
    if |ns| == 0 then [] else AllParams(ns[..|ns| - 1]) + ns[|ns| - 1].params
  }

  /** The concatenation is as long as all branches' parameters together. */
  lemma {:induction false} AllParamsLength(ns: seq<Nnet>)
    ensures |AllParams(ns)| == SumInts(ParamCounts(ns))
    decreases |ns|
  {
    if |ns| > 0 {
      var n := |ns| - 1;
      AllParamsLength(ns[..n]);
      assert ParamCounts(ns[..n]) == ParamCounts(ns)[..n];
    }
  }

  /** Branch `i`'s parameters sit at the `i`-th prefix sum of the counts. */
  lemma {:induction false} AllParamsBlock(ns: seq<Nnet>, i: nat)
    requires i < |ns|
    ensures var o := PrefixSums(ParamCounts(ns));
      0 <= o[i] <= o[i + 1] <= |AllParams(ns)| && AllParams(ns)[o[i]..o[i + 1]] == ns[i].params
    decreases |ns|
  {
    var n := |ns| - 1;
    var front := ns[..n];
    var c, o := ParamCounts(ns), PrefixSums(ParamCounts(ns));
    var A, F := AllParams(ns), AllParams(front);
    assert A == F + ns[n].params;
    assert ParamCounts(front) == c[..n];
    AllParamsLength(ns);
    AllParamsLength(front);
    OffsetsMonotone(c, 0, i);
    OffsetsMonotone(c, i + 1, |ns|);
    PrefixSumsOfPrefix(c, n, i);
    if i < n {
      PrefixSumsOfPrefix(c, n, i + 1);
      AllParamsBlock(front, i);
      assert front[i] == ns[i];
      assert o[i + 1] <= |F|;
      assert A[o[i]..o[i + 1]] == F[o[i]..o[i + 1]];
    } else {
      PrefixSumsOfPrefix(c, n, n);
      assert o[n] == |F| && o[n + 1] == |A|;
      assert A[|F|..|A|] == ns[n].params;
    }
  }

  /** Branch `i`'s parameters follow those of the branches before it, at
      an offset within the total. */
  lemma ParamsNext(ns: seq<Nnet>, i: nat)
    requires i < |ns|
    ensures var o := PrefixSums(ParamCounts(ns));
      0 <= o[i] && o[i + 1] == o[i] + |ns[i].params| && o[i + 1] <= SumInts(ParamCounts(ns)) &&
      AllParams(ns[..i + 1]) == AllParams(ns[..i]) + ns[i].params
  {
    OffsetsMonotone(ParamCounts(ns), 0, i);
    OffsetsMonotone(ParamCounts(ns), i + 1, |ns|);
    assert ns[..i + 1][..i] == ns[..i];
  }

  /** One more element adds itself to the running sum. */
  lemma SumStep(d: seq<int>, i: nat)
    requires i < |d|
    ensures SumInts(d[..i + 1]) == SumInts(d[..i]) + d[i]
  {
    assert d[..i + 1][..i] == d[..i];
  }
}
