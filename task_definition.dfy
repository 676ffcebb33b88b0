/** The definition string of a multi-task loss,
    'multitask,<type1>,<dim1>,<weight1>,...,<typeN>,<dimN>,<weightN>'
    (`MultiTaskLoss::InitFromString`, nnet-loss.cc), read into a list of
    tasks. */
module TaskDefinition {
  import opened Wrappers
  import opened TextUtil

  datatype LossKind = XentKind | MseKind

  /** One task: its loss, its number of output columns and its weight. */
  datatype TaskSpec = TaskSpec(kind: LossKind, dim: int, weight: real)

  function KindName(k: LossKind): string
  {
    match k
    case XentKind => "xent"
    case MseKind => "mse"
  }

  /** One triplet, checked in the order nnet-loss.cc checks it: the loss
      name, then the dimension, then the weight, which may not be negative. */
  function ParseTriplet(kind: string, dim: string, weight: string): Result<TaskSpec>
  {
    if kind != "xent" && kind != "mse" then Err("Unknown objective function code : " + kind)
    else match ParseInt32(dim)
      case None => Err("Cannot convert 'dim' " + dim + " to integer!")
      case Some(d) =>
        match ParseReal(weight)
        case None => Err("Cannot convert 'weight' " + weight + " to integer!")
        case Some(wt) =>
          if wt < 0.0 then Err("weight >= 0.0 does not hold")
          else Ok(TaskSpec(if kind == "xent" then XentKind else MseKind, d, wt))
  }

  /** The triplets in order; the first bad one decides the error. */
  function ParseTriplets(v: seq<string>): (r: Result<seq<TaskSpec>>)
    requires |v| % 3 == 0
    ensures r.Ok? ==> |r.value| == |v| / 3
    ensures r.Ok? ==> forall k :: 0 <= k < |r.value| ==>
      r.value[k].weight >= 0.0 && Int32Min <= r.value[k].dim <= Int32Max
    decreases |v|
  {
    if |v| == 0 then Ok([])
    else
      var n := |v|;
      match ParseTriplets(v[..n - 3])
      case Err(e) => Err(e)
      case Ok(ts) =>
        match ParseTriplet(v[n - 3], v[n - 2], v[n - 1])
        case Err(e) => Err(e)
        case Ok(t) => Ok(ts + [t])
  }

  /** The whole definition: split on `,` and `:`, a multiple of three pieces
      after the header, and the header `multitask`. */
  function ParseDefinition(s: string): Result<seq<TaskSpec>>
  {
    ParsePieceList(Split(s))
  }

  /** The pieces of a definition: a multiple of three after the header, and
      the header `multitask`, checked in that order. */
  function ParsePieceList(v: seq<string>): Result<seq<TaskSpec>>
    requires |v| >= 1
  {
    if (|v| - 1) % 3 != 0 then Err("the definition is not a header followed by triplets")
    else if v[0] != "multitask" then Err("the definition does not start with 'multitask'")
    else ParseTriplets(v[1..])
  }

  /** One task's three pieces, its weight written with `places`
      decimals. */
  function TaskPieces(t: TaskSpec, places: nat): seq<string>
    requires t.weight >= 0.0
  {
    [KindName(t.kind), IntToString(t.dim), DecimalToString(t.weight, places)]
  }

  function Pieces(ts: seq<TaskSpec>, places: seq<nat>): (v: seq<string>)
    requires Renderable(ts, places)
    ensures |v| == 3 * |ts|
  {
    if |ts| == 0 then []
    else Pieces(ts[..|ts| - 1], places[..|ts| - 1]) + TaskPieces(ts[|ts| - 1], places[|ts| - 1])
  }

  /** The definition string of a list of tasks, task `k`'s weight written
      with `places[k]` decimals. */
  function Render(ts: seq<TaskSpec>, places: seq<nat>): string
    requires Renderable(ts, places)
  {
    Join(["multitask"] + Pieces(ts, places))
  }

  /** Tasks that can be written down: 32-bit dimensions and non-negative
      weights that `places` decimals write exactly. */
  predicate Renderable(ts: seq<TaskSpec>, places: seq<nat>)
  {
    |places| == |ts| &&
    forall k :: 0 <= k < |ts| ==> Int32Min <= ts[k].dim <= Int32Max && HasDecimals(ts[k].weight, places[k])
  }

  lemma {:induction false} PiecesHaveNoDelim(ts: seq<TaskSpec>, places: seq<nat>)
    requires Renderable(ts, places)
    ensures forall k :: 0 <= k < |Pieces(ts, places)| ==> NoDelim(Pieces(ts, places)[k])
    decreases |ts|
  {
    if |ts| > 0 {
      PiecesHaveNoDelim(ts[..|ts| - 1], places[..|ts| - 1]);
      var t := ts[|ts| - 1];
      var s := IntToString(t.dim);
      assert NoDelim(s) by {
        if t.dim < 0 {
          assert s == "-" + NatToString(-t.dim);
        }
      }
      DecimalNoDelim(t.weight, places[|ts| - 1]);
    }
  }

  /** One task's three pieces read back as that task. */
  lemma ParseTaskPieces(t: TaskSpec, places: nat)
    requires Int32Min <= t.dim <= Int32Max && HasDecimals(t.weight, places)
    ensures ParseTriplet(TaskPieces(t, places)[0], TaskPieces(t, places)[1], TaskPieces(t, places)[2]) == Ok(t)
  {
    var v := TaskPieces(t, places);
    ParseIntToString(t.dim);
    ParseDecimalToString(t.weight, places);
    ParseTripletOf(v[0], v[1], v[2], t);
  }

  /** Texts that read as a task's loss name, dimension and weight read as
      that task. */
  lemma ParseTripletOf(kind: string, dim: string, weight: string, t: TaskSpec)
    requires kind == KindName(t.kind) && ParseInt32(dim) == Some(t.dim)
    requires ParseReal(weight) == Some(t.weight) && t.weight >= 0.0
    ensures ParseTriplet(kind, dim, weight) == Ok(t)
  {
    match t.kind
    case XentKind =>
    case MseKind =>
      assert kind[0] != 'x';
  }

  /** The pieces of all tasks are those of all but the last, followed by
      the last one's. */
  lemma PiecesLast(ts: seq<TaskSpec>, places: seq<nat>)
    requires Renderable(ts, places) && |ts| > 0
    ensures Renderable(ts[..|ts| - 1], places[..|ts| - 1])
    ensures Pieces(ts, places)[..3 * |ts| - 3] == Pieces(ts[..|ts| - 1], places[..|ts| - 1])
    ensures Pieces(ts, places)[3 * |ts| - 3..] == TaskPieces(ts[|ts| - 1], places[|ts| - 1])
  {
  }

  lemma SnocLast<T>(s: seq<T>)
    requires |s| > 0
    ensures s[..|s| - 1] + [s[|s| - 1]] == s
  {
  }

  lemma {:induction false} ParsePieces(ts: seq<TaskSpec>, places: seq<nat>)
    requires Renderable(ts, places)
    ensures ParseTriplets(Pieces(ts, places)) == Ok(ts)
    decreases |ts|
  {
    if |ts| > 0 {
      var n := |ts|;
      var v := Pieces(ts, places);
      var t, p := ts[n - 1], places[n - 1];
      PiecesLast(ts, places);
      ParsePieces(ts[..n - 1], places[..n - 1]);
      assert ParseTriplets(v[..|v| - 3]) == Ok(ts[..n - 1]);
      assert ParseTriplet(v[|v| - 3], v[|v| - 2], v[|v| - 1]) == Ok(t) by {
        assert v[|v| - 3..] == TaskPieces(t, p);
        assert v[|v| - 3] == TaskPieces(t, p)[0] && v[|v| - 2] == TaskPieces(t, p)[1] && v[|v| - 1] == TaskPieces(t, p)[2];
        ParseTaskPieces(t, p);
      }
      SnocLast(ts);
    }
  }

  /** The definition string splits back into the header and the task
      pieces. */
  lemma SplitRender(ts: seq<TaskSpec>, places: seq<nat>)
    requires Renderable(ts, places)
    ensures Split(Render(ts, places)) == ["multitask"] + Pieces(ts, places)
  {
    var v := ["multitask"] + Pieces(ts, places);
    PiecesHaveNoDelim(ts, places);
    forall k | 0 <= k < |v| ensures NoDelim(v[k]) {
      if k > 0 {
        assert v[k] == Pieces(ts, places)[k - 1];
      }
    }
    SplitJoin(v);
  }

  lemma TriplesDivide(n: nat, m: int)
    requires m == 3 * n
    ensures m % 3 == 0
  {
  }

  /** The header followed by the pieces of some tasks reads as those
      tasks. */
  lemma ParseHeaderAndPieces(ts: seq<TaskSpec>, places: seq<nat>)
    requires Renderable(ts, places)
    ensures ParsePieceList(["multitask"] + Pieces(ts, places)) == Ok(ts)
  {
    var tail := Pieces(ts, places);
    var v := ["multitask"] + tail;
    assert v[1..] == tail;
    TriplesDivide(|ts|, |v| - 1);
    ParsePieces(ts, places);
  }

  /** Writing a list of tasks down and reading it back gives the same
      tasks. */
  lemma RenderParses(ts: seq<TaskSpec>, places: seq<nat>)
    requires Renderable(ts, places)
    ensures ParseDefinition(Render(ts, places)) == Ok(ts)
  {
    SplitRender(ts, places);
    ParseHeaderAndPieces(ts, places);
  }

  /** The example definition of nnet-loss.h is what `Render` writes for a
      cross-entropy task of 2456 columns with weight 1 and a mean-square
      task of 440 columns with weight 0.001, so it reads as those tasks. */
  lemma DocumentedDefinition()
    ensures ParseDefinition("multitask,xent,2456,1.0,mse,440,0.001") ==
      Ok([TaskSpec(XentKind, 2456, 1.0), TaskSpec(MseKind, 440, 0.001)])
  {
    var ts := [TaskSpec(XentKind, 2456, 1.0), TaskSpec(MseKind, 440, 0.001)];
    var places := [1, 3];
    DocumentedPieces();
    DocumentedJoin();
    assert ["multitask"] + Pieces(ts, places) == ["multitask", "xent", "2456", "1.0", "mse", "440", "0.001"];
    RenderParses(ts, places);
  }

  /** The example's pieces joined by commas. */
  lemma DocumentedJoin()
    ensures Join(["multitask", "xent", "2456", "1.0", "mse", "440", "0.001"]) ==
      "multitask,xent,2456,1.0,mse,440,0.001"
  {
    JoinedTail();
    JoinCons("2456", ["1.0", "mse", "440", "0.001"]);
    JoinCons("xent", ["2456", "1.0", "mse", "440", "0.001"]);
    JoinCons("multitask", ["xent", "2456", "1.0", "mse", "440", "0.001"]);
  }

  lemma JoinedTail()
    ensures Join(["1.0", "mse", "440", "0.001"]) == "1.0,mse,440,0.001"
  {
    JoinCons("440", ["0.001"]);
    JoinCons("mse", ["440", "0.001"]);
    JoinCons("1.0", ["mse", "440", "0.001"]);
  }

  lemma JoinCons(a: string, v: seq<string>)
    requires |v| >= 1
    ensures Join([a] + v) == a + "," + Join(v)
  {
    assert ([a] + v)[1..] == v;
  }

  /** The tasks of the example, with one and three decimals, give its
      pieces. */
  lemma DocumentedPieces()
    ensures Renderable([TaskSpec(XentKind, 2456, 1.0), TaskSpec(MseKind, 440, 0.001)], [1, 3])
    ensures Pieces([TaskSpec(XentKind, 2456, 1.0), TaskSpec(MseKind, 440, 0.001)], [1, 3]) ==
      ["xent", "2456", "1.0", "mse", "440", "0.001"]
  {
    var ts := [TaskSpec(XentKind, 2456, 1.0), TaskSpec(MseKind, 440, 0.001)];
    var places := [1, 3];
    WrittenWeights();
    WrittenDims();
    assert Renderable(ts, places);
    assert ts[..1] == [ts[0]] && places[..1] == [1];
  }

  /** The example's weights, with one and three decimals. */
  lemma WrittenWeights()
    ensures HasDecimals(1.0, 1) && DecimalToString(1.0, 1) == "1.0"
    ensures HasDecimals(0.001, 3) && DecimalToString(0.001, 3) == "0.001"
  {
    assert ShiftedDigits(1.0, 1) == 10;
    assert ShiftedDigits(0.001, 3) == 1;
  }

  /** The example's dimensions in decimal. */
  lemma WrittenDims()
    ensures IntToString(2456) == "2456" && IntToString(440) == "440"
  {
  }
}
