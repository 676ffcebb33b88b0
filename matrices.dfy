/** Dense real matrices and vectors, standing in for Kaldi's (Cu)Matrix and
    (Cu)Vector. The whole-matrix primitives the loss and the parallel
    component call (AddMat, Scale, MulRowsVec, MulElements, ColRange, Sum,
    AddColSumMat) are modelled as functions on values; floating point is
    modelled by reals. */
module Matrices {

  /** A matrix keeps its column count even when it has no rows, as Kaldi's
      matrices do. */
  datatype Matrix = Matrix(rows: nat, cols: nat, cells: seq<seq<real>>)

  predicate WellShaped(m: Matrix)
  {
    |m.cells| == m.rows && forall i :: 0 <= i < |m.cells| ==> |m.cells[i]| == m.cols
  }

  type Mat = m: Matrix | WellShaped(m) witness Matrix(0, 0, [])

  predicate SameShape(a: Mat, b: Mat)
  {
    a.rows == b.rows && a.cols == b.cols
  }

  function Zeros(rows: nat, cols: nat): (z: Mat)
    ensures z.rows == rows && z.cols == cols
    ensures forall i, j :: 0 <= i < rows && 0 <= j < cols ==> z.cells[i][j] == 0.0
  {
    Matrix(rows, cols, seq(rows, _ => seq(cols, _ => 0.0)))
  }

  predicate IsZero(m: Mat)
  {
    forall i, j :: 0 <= i < m.rows && 0 <= j < m.cols ==> m.cells[i][j] == 0.0
  }

  /** The sub-matrix of columns `[off, off + width)`; Kaldi refuses a range
      that does not fit. */
  predicate ColRangeOk(m: Mat, off: int, width: int)
  {
    0 <= off && 0 <= width && off + width <= m.cols
  }

  function ColRange(m: Mat, off: int, width: int): (s: Mat)
    requires ColRangeOk(m, off, width)
    ensures s.rows == m.rows && s.cols == width
    ensures forall i, j :: 0 <= i < m.rows && 0 <= j < width ==> s.cells[i][j] == m.cells[i][off + j]
  {
    Matrix(m.rows, width, seq(m.rows, i requires 0 <= i < m.rows => m.cells[i][off..off + width]))
  }

  /** `m` with columns `[off, off + b.cols)` overwritten by `b`
      (`m.ColRange(off, b.cols).CopyFromMat(b)`). */
  function CopyToColRange(m: Mat, off: int, b: Mat): (r: Mat)
    requires b.rows == m.rows && ColRangeOk(m, off, b.cols)
    ensures r.rows == m.rows && r.cols == m.cols
    ensures forall i, j :: 0 <= i < m.rows && 0 <= j < m.cols ==>
      r.cells[i][j] == if off <= j < off + b.cols then b.cells[i][j - off] else m.cells[i][j]
  {
    Matrix(m.rows, m.cols,
      seq(m.rows, i requires 0 <= i < m.rows =>
        seq(m.cols, j requires 0 <= j < m.cols => if off <= j < off + b.cols then b.cells[i][j - off] else m.cells[i][j])))
  }

  /** `a + alpha * b` (`a.AddMat(alpha, b)`). */
  function AddMat(a: Mat, alpha: real, b: Mat): (r: Mat)
    requires SameShape(a, b)
    ensures SameShape(r, a)
    ensures forall i, j :: 0 <= i < a.rows && 0 <= j < a.cols ==>
      r.cells[i][j] == a.cells[i][j] + alpha * b.cells[i][j]
  {
    Matrix(a.rows, a.cols,
      seq(a.rows, i requires 0 <= i < a.rows =>
        seq(a.cols, j requires 0 <= j < a.cols => a.cells[i][j] + alpha * b.cells[i][j])))
  }

  /** `alpha * a` (`a.Scale(alpha)`). */
  function Scale(alpha: real, a: Mat): (r: Mat)
    ensures SameShape(r, a)
    ensures forall i, j :: 0 <= i < a.rows && 0 <= j < a.cols ==> r.cells[i][j] == alpha * a.cells[i][j]
  {
    Matrix(a.rows, a.cols,
      seq(a.rows, i requires 0 <= i < a.rows =>
        seq(a.cols, j requires 0 <= j < a.cols => alpha * a.cells[i][j])))
  }

  /** Element-wise product (`a.MulElements(b)`). */
  function MulElements(a: Mat, b: Mat): (r: Mat)
    requires SameShape(a, b)
    ensures SameShape(r, a)
    ensures forall i, j :: 0 <= i < a.rows && 0 <= j < a.cols ==>
      r.cells[i][j] == a.cells[i][j] * b.cells[i][j]
  {
    Matrix(a.rows, a.cols,
      seq(a.rows, i requires 0 <= i < a.rows =>
        seq(a.cols, j requires 0 <= j < a.cols => a.cells[i][j] * b.cells[i][j])))
  }

  /** Row `i` multiplied by `v[i]` (`a.MulRowsVec(v)`). */
  function MulRowsVec(a: Mat, v: seq<real>): (r: Mat)
    requires |v| == a.rows
    ensures SameShape(r, a)
    ensures forall i, j :: 0 <= i < a.rows && 0 <= j < a.cols ==> r.cells[i][j] == a.cells[i][j] * v[i]
  {
    Matrix(a.rows, a.cols,
      seq(a.rows, i requires 0 <= i < a.rows =>
        seq(a.cols, j requires 0 <= j < a.cols => a.cells[i][j] * v[i])))
  }

  /** `f` applied to `x + c` in every cell (`Add(c)` followed by `ApplyLog()`
      when `f` is the logarithm). */
  function ApplyShifted(a: Mat, c: real, f: real -> real): (r: Mat)
    ensures SameShape(r, a)
    ensures forall i, j :: 0 <= i < a.rows && 0 <= j < a.cols ==> r.cells[i][j] == f(a.cells[i][j] + c)
  {
    Matrix(a.rows, a.cols,
      seq(a.rows, i requires 0 <= i < a.rows =>
        seq(a.cols, j requires 0 <= j < a.cols => f(a.cells[i][j] + c))))
  }

  /** Sum of a vector, folded from the back. */
  function SumSeq(s: seq<real>): real
  {
    if |s| == 0 then 0.0 else SumSeq(s[..|s| - 1]) + s[|s| - 1]
  }

  /** Sum of all cells (`m.Sum()`). */
  function SumRows(rows: seq<seq<real>>): real
  {
    if |rows| == 0 then 0.0 else SumRows(rows[..|rows| - 1]) + SumSeq(rows[|rows| - 1])
  }

  function Sum(m: Mat): real
  {
    SumRows(m.cells)
  }

  /** Sum of row `i` (one entry of `AddColSumMat`). */
  function RowSum(m: Mat, i: nat): real
    requires i < m.rows
  {
    SumSeq(m.cells[i])
  }

  function Abs(x: real): (r: real)
    ensures r >= 0.0 && (r == x || r == -x)
  {
    if x < 0.0 then -x else x
  }

  lemma {:induction false} SumSeqZeros(s: seq<real>)
    requires forall k :: 0 <= k < |s| ==> s[k] == 0.0
    ensures SumSeq(s) == 0.0
  {
    if |s| > 0 {
      SumSeqZeros(s[..|s| - 1]);
    }
  }

  lemma {:induction false} SumSeqNonNegative(s: seq<real>)
    requires forall k :: 0 <= k < |s| ==> s[k] >= 0.0
    ensures SumSeq(s) >= 0.0
  {
    if |s| > 0 {
      SumSeqNonNegative(s[..|s| - 1]);
    }
  }

  lemma {:induction false} SumRowsZeros(rows: seq<seq<real>>)
    requires forall i, k :: 0 <= i < |rows| && 0 <= k < |rows[i]| ==> rows[i][k] == 0.0
    ensures SumRows(rows) == 0.0
  {
    if |rows| > 0 {
      SumRowsZeros(rows[..|rows| - 1]);
      SumSeqZeros(rows[|rows| - 1]);
    }
  }

  lemma {:induction false} SumRowsNonNegative(rows: seq<seq<real>>)
    requires forall i, k :: 0 <= i < |rows| && 0 <= k < |rows[i]| ==> rows[i][k] >= 0.0
    ensures SumRows(rows) >= 0.0
  {
    if |rows| > 0 {
      SumRowsNonNegative(rows[..|rows| - 1]);
      SumSeqNonNegative(rows[|rows| - 1]);
    }
  }

  /** A matrix whose cells are all zero sums to zero. */
  lemma SumOfZeroMatrix(m: Mat)
    requires IsZero(m)
    ensures Sum(m) == 0.0
  {
    SumRowsZeros(m.cells);
  }

  /** A matrix whose cells are all non-negative has a non-negative sum. */
  lemma SumOfNonNegativeMatrix(m: Mat)
    requires forall i, j :: 0 <= i < m.rows && 0 <= j < m.cols ==> m.cells[i][j] >= 0.0
    ensures Sum(m) >= 0.0
  {
    SumRowsNonNegative(m.cells);
  }

  /** Summing a sum of two sequences cell by cell. */
  lemma {:induction false} SumSeqLinear(a: seq<real>, b: seq<real>, s: seq<real>, alpha: real, beta: real)
    requires |a| == |b| == |s|
    requires forall k :: 0 <= k < |s| ==> s[k] == alpha * a[k] + beta * b[k]
    ensures SumSeq(s) == alpha * SumSeq(a) + beta * SumSeq(b)
  {
    if |s| > 0 {
      var n := |s| - 1;
      SumSeqLinear(a[..n], b[..n], s[..n], alpha, beta);
    }
  }
}
