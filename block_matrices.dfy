/** Matrices assembled from column blocks: block `l` is copied into the
    columns starting at `offs[l]`, one block after the other, as both the
    multi-task loss (its gradient) and the parallel component (its output
    and its input gradient) do. With `offs` the prefix sums of the block
    widths the blocks lie side by side. */
module BlockMatrices {
  import opened Matrices
  import opened ColumnBlocks

  /** Block `l` has the matrix's rows and its columns lie inside the
      matrix, starting at `offs[l]`. */
  predicate BlocksFit(m: Mat, offs: seq<int>, blocks: seq<Mat>, k: nat)
    requires k <= |offs| && k <= |blocks|
  {
    forall l :: 0 <= l < k ==> blocks[l].rows == m.rows && ColRangeOk(m, offs[l], blocks[l].cols)
  }

  /** Every block ends before any later block starts. */
  predicate Ordered(offs: seq<int>, blocks: seq<Mat>, k: nat)
    requires k <= |offs| && k <= |blocks|
  {
    forall l, l' :: 0 <= l < l' < k ==> offs[l] + blocks[l].cols <= offs[l']
  }

  /** `m` after the first `k` blocks have been copied into their columns. */
  function Assemble(m: Mat, offs: seq<int>, blocks: seq<Mat>, k: nat): (r: Mat)
    requires k <= |offs| && k <= |blocks| && BlocksFit(m, offs, blocks, k)
    ensures SameShape(r, m)
  {
    if k == 0 then m
    else CopyToColRange(Assemble(m, offs, blocks, k - 1), offs[k - 1], blocks[k - 1])
  }

  /** Copying one more block that fits extends the assembly by that block. */
  lemma AssembleNext(m: Mat, offs: seq<int>, blocks: seq<Mat>, block: Mat, k: nat, cur: Mat)
    requires k < |offs| && k <= |blocks| && BlocksFit(m, offs, blocks, k) && cur == Assemble(m, offs, blocks, k)
    requires block.rows == m.rows && ColRangeOk(m, offs[k], block.cols) && |blocks| == k
    ensures BlocksFit(m, offs, blocks + [block], k + 1)
    ensures Assemble(m, offs, blocks + [block], k + 1) == CopyToColRange(cur, offs[k], block)
  {
    AssemblePrefix(m, offs, blocks, blocks + [block], k);
  }

  /** Only the first `k` blocks matter. */
  lemma {:induction false} AssemblePrefix(m: Mat, offs: seq<int>, blocks: seq<Mat>, blocks': seq<Mat>, k: nat)
    requires k <= |offs| && k <= |blocks| && k <= |blocks'| && blocks[..k] == blocks'[..k]
    requires BlocksFit(m, offs, blocks, k)
    ensures BlocksFit(m, offs, blocks', k)
    ensures Assemble(m, offs, blocks, k) == Assemble(m, offs, blocks', k)
  {
    assert forall l :: 0 <= l < k ==> blocks[l] == blocks[..k][l] == blocks'[l];
    if k > 0 {
      assert blocks[..k - 1] == blocks[..k][..k - 1];
      assert blocks'[..k - 1] == blocks'[..k][..k - 1];
      AssemblePrefix(m, offs, blocks, blocks', k - 1);
    }
  }

  /** Cell by cell: every block's columns hold that block, since a later
      block never writes over an earlier one's columns. */
  lemma {:induction false} AssembleCells(m: Mat, offs: seq<int>, blocks: seq<Mat>, k: nat, l: nat)
    requires k <= |offs| && k <= |blocks| && BlocksFit(m, offs, blocks, k) && Ordered(offs, blocks, k)
    requires l < k
    ensures forall i, c :: 0 <= i < m.rows && offs[l] <= c < offs[l] + blocks[l].cols ==>
      0 <= c < m.cols && Assemble(m, offs, blocks, k).cells[i][c] == blocks[l].cells[i][c - offs[l]]
    decreases k
  {
    assert ColRangeOk(m, offs[l], blocks[l].cols);
    if l < k - 1 {
      assert BlocksFit(m, offs, blocks, k - 1);
      assert Ordered(offs, blocks, k - 1);
      AssembleCells(m, offs, blocks, k - 1, l);
      AssembleKeepsEarlier(m, offs, blocks, k, l);
    }
  }

  /** Copying block `k - 1` leaves the columns of an earlier block `l` as
      they were. */
  lemma AssembleKeepsEarlier(m: Mat, offs: seq<int>, blocks: seq<Mat>, k: nat, l: nat)
    requires k <= |offs| && k <= |blocks| && BlocksFit(m, offs, blocks, k) && Ordered(offs, blocks, k)
    requires l < k - 1
    ensures BlocksFit(m, offs, blocks, k - 1)
    ensures forall i, c :: 0 <= i < m.rows && offs[l] <= c < offs[l] + blocks[l].cols ==>
      Assemble(m, offs, blocks, k).cells[i][c] == Assemble(m, offs, blocks, k - 1).cells[i][c]
  {
    assert BlocksFit(m, offs, blocks, k - 1);
    var prev := Assemble(m, offs, blocks, k - 1);
    var b := blocks[k - 1];
    assert ColRangeOk(m, offs[l], blocks[l].cols);
    assert offs[l] + blocks[l].cols <= offs[k - 1];
    forall i, c | 0 <= i < m.rows && offs[l] <= c < offs[l] + blocks[l].cols
      ensures CopyToColRange(prev, offs[k - 1], b).cells[i][c] == prev.cells[i][c]
    {
      CopyKeepsOutside(prev, offs[k - 1], b, i, c);
    }
  }

  lemma CopyKeepsOutside(m: Mat, off: int, b: Mat, i: nat, c: nat)
    requires b.rows == m.rows && ColRangeOk(m, off, b.cols)
    requires i < m.rows && c < m.cols && (c < off || off + b.cols <= c)
    ensures CopyToColRange(m, off, b).cells[i][c] == m.cells[i][c]
  {
  }

  /** Two well-shaped matrices with the same shape and cells are equal. */
  lemma MatrixExt(a: Mat, b: Mat)
    requires SameShape(a, b)
    requires forall i, j :: 0 <= i < a.rows && 0 <= j < a.cols ==> a.cells[i][j] == b.cells[i][j]
    ensures a == b
  {
    forall i | 0 <= i < a.rows ensures a.cells[i] == b.cells[i] {
    }
  }

  /** Reading block `l`'s columns back from the assembled matrix gives block
      `l`. */
  lemma AssembleBlock(m: Mat, offs: seq<int>, blocks: seq<Mat>, k: nat, l: nat)
    requires k <= |offs| && k <= |blocks| && BlocksFit(m, offs, blocks, k) && Ordered(offs, blocks, k)
    requires l < k
    ensures ColRangeOk(m, offs[l], blocks[l].cols)
    ensures ColRange(Assemble(m, offs, blocks, k), offs[l], blocks[l].cols) == blocks[l]
  {
    var a := Assemble(m, offs, blocks, k);
    var o, b := offs[l], blocks[l];
    assert ColRangeOk(m, o, b.cols);
    AssembleCells(m, offs, blocks, k, l);
    var r := ColRange(a, o, b.cols);
    forall i, j | 0 <= i < m.rows && 0 <= j < b.cols ensures r.cells[i][j] == b.cells[i][j] {
      assert r.cells[i][j] == a.cells[i][o + j];
    }
    MatrixExt(r, b);
  }

  /** Every column of `m` lies in one of the first `k` blocks. */
  predicate Covers(m: Mat, offs: seq<int>, blocks: seq<Mat>, k: nat)
    requires k <= |offs| && k <= |blocks|
  {
    forall c :: 0 <= c < m.cols ==> Covered(offs, blocks, k, c)
  }

  /** Column `c` lies in one of the first `k` blocks. */
  predicate Covered(offs: seq<int>, blocks: seq<Mat>, k: nat, c: int)
    requires k <= |offs| && k <= |blocks|
  {
    exists l :: 0 <= l < k && offs[l] <= c < offs[l] + blocks[l].cols
  }

  /** When the blocks cover every column, nothing of the starting matrix
      is left. */
  lemma AssembleCovers(m: Mat, m': Mat, offs: seq<int>, blocks: seq<Mat>, k: nat)
    requires k <= |offs| && k <= |blocks| && SameShape(m, m')
    requires BlocksFit(m, offs, blocks, k) && Ordered(offs, blocks, k) && Covers(m, offs, blocks, k)
    ensures BlocksFit(m', offs, blocks, k)
    ensures Assemble(m, offs, blocks, k) == Assemble(m', offs, blocks, k)
  {
    var a := Assemble(m, offs, blocks, k);
    assert BlocksFit(m', offs, blocks, k);
    var a' := Assemble(m', offs, blocks, k);
    forall i, c | 0 <= i < m.rows && 0 <= c < m.cols ensures a.cells[i][c] == a'.cells[i][c] {
      assert Covered(offs, blocks, k, c);
      var l :| 0 <= l < k && offs[l] <= c < offs[l] + blocks[l].cols;
      AssembleCells(m, offs, blocks, k, l);
      AssembleCells(m', offs, blocks, k, l);
    }
    MatrixExt(a, a');
  }

  /** Blocks of the widths `dims` placed at the prefix sums of `dims` are
      in order. */
  lemma SideBySide(dims: seq<int>, blocks: seq<Mat>)
    requires |blocks| == |dims| && AllNonNegative(dims)
    requires forall l :: 0 <= l < |dims| ==> blocks[l].cols == dims[l]
    ensures Ordered(PrefixSums(dims), blocks, |dims|)
  {
    var o := PrefixSums(dims);
    forall l, l' | 0 <= l < l' < |dims| ensures o[l] + blocks[l].cols <= o[l'] {
      assert o[l + 1] == o[l] + dims[l];
      OffsetsMonotone(dims, l + 1, l');
    }
  }

  /** Blocks of the widths `dims` placed at the prefix sums of `dims`
      cover a matrix as wide as all of them together. */
  lemma SideBySideCovers(m: Mat, dims: seq<int>, blocks: seq<Mat>)
    requires |blocks| == |dims| && AllNonNegative(dims) && m.cols == SumInts(dims)
    requires forall l :: 0 <= l < |dims| ==> blocks[l].cols == dims[l]
    ensures Covers(m, PrefixSums(dims), blocks, |dims|)
  {
    var o := PrefixSums(dims);
    forall c | 0 <= c < m.cols ensures Covered(o, blocks, |dims|, c) {
      var l := BlockIndex(dims, c);
      assert o[l + 1] == o[l] + dims[l];
      assert o[l] <= c < o[l] + blocks[l].cols;
    }
  }

  /** Blocks of the widths `dims`, each with the matrix's rows, fit when
      placed at the prefix sums of `dims` in a matrix as wide as all of
      them together. */
  lemma SideBySideFits(m: Mat, dims: seq<int>, blocks: seq<Mat>)
    requires |blocks| == |dims| && AllNonNegative(dims) && m.cols == SumInts(dims)
    requires forall l :: 0 <= l < |dims| ==> blocks[l].cols == dims[l] && blocks[l].rows == m.rows
    ensures BlocksFit(m, PrefixSums(dims), blocks, |dims|)
  {
    forall l | 0 <= l < |dims| ensures ColRangeOk(m, PrefixSums(dims)[l], blocks[l].cols) {
      BlockWithinTotal(dims, l);
    }
  }

  /** Blocks laid side by side over the whole width: what the matrix held
      before does not matter, and block `l`'s columns read back as block
      `l`. */
  lemma SideBySideAssembled(m: Mat, m': Mat, dims: seq<int>, blocks: seq<Mat>, l: nat)
    requires |blocks| == |dims| && AllNonNegative(dims) && m.cols == SumInts(dims) && SameShape(m, m')
    requires forall k :: 0 <= k < |dims| ==> blocks[k].cols == dims[k] && blocks[k].rows == m.rows
    requires l < |dims|
    ensures BlocksFit(m, PrefixSums(dims), blocks, |dims|) && BlocksFit(m', PrefixSums(dims), blocks, |dims|)
    ensures Assemble(m, PrefixSums(dims), blocks, |dims|) == Assemble(m', PrefixSums(dims), blocks, |dims|)
    ensures ColRangeOk(m, PrefixSums(dims)[l], dims[l])
    ensures ColRange(Assemble(m, PrefixSums(dims), blocks, |dims|), PrefixSums(dims)[l], dims[l]) == blocks[l]
  {
    SideBySideFits(m, dims, blocks);
    SideBySide(dims, blocks);
    SideBySideCovers(m, dims, blocks);
    AssembleCovers(m, m', PrefixSums(dims), blocks, |dims|);
    AssembleBlock(m, PrefixSums(dims), blocks, |dims|, l);
  }
}
