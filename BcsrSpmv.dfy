/** Sparse matrix-vector product for a block-compressed-sparse-row matrix
    with square blocks of `block` × `block` entries. */
module BlockCsr {

  import opened Outcome
  import opened Arithmetic

  /** The fields of the matrix the product reads. Block row `brow` stores
      the blocks `browPtr[brow] <= idx < browPtr[brow + 1]`; block `idx`
      sits in block column `bcolIndex[idx]` and keeps its entries row by
      row from `data[idx * block * block]` on. */
  datatype Bcsr = Bcsr(rows: nat, cols: nat, browPtr: seq<nat>, bcolIndex: seq<nat>, data: seq<int>)

  /** Stored block `idx` has a column index, all its entries, and lies
      inside the matrix's columns. */
  predicate StoredBlockFits(a: Bcsr, block: nat, idx: nat)
  {
    idx < |a.bcolIndex| &&
    idx * (block * block) + block * block <= |a.data| &&
    a.bcolIndex[idx] * block + block <= a.cols
  }

  /** Every block that block row `brow` lists fits. */
  predicate BlockRowFits(a: Bcsr, block: nat, brow: nat)
    requires brow + 1 < |a.browPtr|
  {
    forall idx :: a.browPtr[brow] <= idx < a.browPtr[brow + 1] ==> StoredBlockFits(a, block, idx)
  }

  /** What the product needs of the matrix: a positive block size, a row
      pointer for every full block row and one past it, and every block
      those rows list fitting. */
  predicate Wf(a: Bcsr, block: nat)
  {
    block > 0 &&
    a.rows / block < |a.browPtr| &&
    forall brow :: 0 <= brow < a.rows / block ==> BlockRowFits(a, block, brow)
  }

  /** `browPtr[brow]`, 0 past its end. */
  function RowStart(a: Bcsr, brow: nat): nat
  {
    if brow < |a.browPtr| then a.browPtr[brow] else 0
  }

  /** The block column of stored block `idx`, 0 past the end. */
  function BlockColumn(a: Bcsr, idx: nat): nat
  {
    if idx < |a.bcolIndex| then a.bcolIndex[idx] else 0
  }

  /** Where entry `(i, j)` of stored block `idx` sits in `data`. */
  function DataIndex(block: nat, idx: nat, i: nat, j: nat): nat
  {
    idx * (block * block) + i * block + j
  }

  /** Entry `(i, j)` of stored block `idx`, 0 past the end of `data`. */
  function Coefficient(a: Bcsr, block: nat, idx: nat, i: nat, j: nat): int
  {
    var k := DataIndex(block, idx, i, j);
    if k < |a.data| then a.data[k] else 0
  }

  /** `x[col]`, 0 past its end. */
  function XAt(x: seq<int>, col: nat): int
  {
    if col < |x| then x[col] else 0
  }

  /** Row `i` of stored block `idx` times the slice of `x` under its block
      column, over the first `n` columns of the block. */
  function BlockDot(a: Bcsr, block: nat, x: seq<int>, idx: nat, i: nat, n: nat): int
    decreases n
  {
    if n == 0 then 0
    else BlockDot(a, block, x, idx, i, n - 1)
         + Coefficient(a, block, idx, i, n - 1) * XAt(x, BlockColumn(a, idx) * block + n - 1)
  }

  /** Row `i` of block row summed over the stored blocks `lo <= idx < hi`;
      an empty or reversed range gives 0. */
  function RangeSum(a: Bcsr, block: nat, x: seq<int>, lo: nat, hi: nat, i: nat): int
    decreases hi
  {
    if hi <= lo then 0
    else RangeSum(a, block, x, lo, hi - 1, i) + BlockDot(a, block, x, hi - 1, i, block)
  }

  /** Entry `row` of the product: rows of full block rows accumulate their
      blocks; the rows past the last full block row keep their initial 0. */
  function Entry(a: Bcsr, block: nat, x: seq<int>, row: nat): int
    requires block > 0
  {
    var brow := row / block;
    if row < block * (a.rows / block)
    then RangeSum(a, block, x, RowStart(a, brow), RowStart(a, brow + 1), row % block)
    else 0
  }

  /** The vector the product returns. */
  function Product(a: Bcsr, block: nat, x: seq<int>): (b: seq<int>)
    requires block > 0
    ensures |b| == a.rows
  {
    seq(a.rows, row requires 0 <= row < a.rows => Entry(a, block, x, row))
  }

  lemma DivModOfBlockRow(block: nat, brow: nat, i: nat)
    requires i < block
    ensures (block * brow + i) / block == brow && (block * brow + i) % block == i
  {
    DivModOf(block * brow + i, block, brow, i);
  }

  lemma BlockRowBelowRows(block: nat, rows: nat, brow: nat, i: nat)
    requires block > 0 && brow < rows / block && i < block
    ensures block * brow + i < block * (rows / block) <= rows
  {
    MulMonotone(brow + 1, rows / block, block);
    DivModSplit(rows, block);
  }

  /** Entry `(i, j)` of a stored block that fits lies inside `data`. */
  lemma CoefficientInData(a: Bcsr, block: nat, idx: nat, i: nat, j: nat)
    requires StoredBlockFits(a, block, idx) && i < block && j < block
    ensures DataIndex(block, idx, i, j) < |a.data|
  {
    MulAddBelow(i, block, j, block);
  }

  /** Entry `i` of block row `brow` of the product is the sum, over the
      blocks that row lists, of block row `i` times the matching slice of
      `x`. */
  lemma ProductAtBlockRow(a: Bcsr, block: nat, x: seq<int>, brow: nat, i: nat)
    requires block > 0 && brow < a.rows / block && i < block
    ensures block * brow + i < a.rows
    ensures Entry(a, block, x, block * brow + i)
            == RangeSum(a, block, x, RowStart(a, brow), RowStart(a, brow + 1), i)
  {
    BlockRowBelowRows(block, a.rows, brow, i);
    DivModOfBlockRow(block, brow, i);
  }

  /** A block row listing no blocks gives `block` zero entries. */
  lemma EmptyBlockRowIsZero(a: Bcsr, block: nat, x: seq<int>, brow: nat, i: nat)
    requires block > 0 && brow < a.rows / block && i < block
    requires RowStart(a, brow + 1) <= RowStart(a, brow)
    ensures block * brow + i < a.rows
    ensures Product(a, block, x)[block * brow + i] == 0
  {
    ProductAtBlockRow(a, block, x, brow, i);
  }

  /** Rows past the last full block row stay 0. */
  lemma TrailingRowsStayZero(a: Bcsr, block: nat, x: seq<int>, row: nat)
    requires block > 0 && block * (a.rows / block) <= row < a.rows
    ensures Product(a, block, x)[row] == 0
  {
  }

  //------------------------------------------------------------------------
  // The dense matrix the blocks describe
  //------------------------------------------------------------------------

  /** Entry `(i, col)` of stored block `idx` placed at its block column in
      a full-width row: 0 outside the block's columns. */
  function BlockEntryAt(a: Bcsr, block: nat, idx: nat, i: nat, col: nat): int
    requires block > 0
  {
    if col / block == BlockColumn(a, idx) then Coefficient(a, block, idx, i, col % block) else 0
  }

  /** Entry `(i, col)` of a block row that lists the blocks `lo <= idx < hi`;
      blocks listed at the same position add up. */
  function RangeEntry(a: Bcsr, block: nat, lo: nat, hi: nat, i: nat, col: nat): int
    requires block > 0
    decreases hi
  {
    if hi <= lo then 0
    else RangeEntry(a, block, lo, hi - 1, i, col) + BlockEntryAt(a, block, hi - 1, i, col)
  }

  /** Entry `(row, col)` of the dense matrix: rows past the last full block
      row are 0. */
  function DenseEntry(a: Bcsr, block: nat, row: nat, col: nat): int
    requires block > 0
  {
    if row < block * (a.rows / block)
    then RangeEntry(a, block, RowStart(a, row / block), RowStart(a, row / block + 1), row % block, col)
    else 0
  }

  /** Row `row` of the dense matrix times `x`, over the first `n` columns. */
  function DenseRowDot(a: Bcsr, block: nat, x: seq<int>, row: nat, n: nat): int
    requires block > 0
    decreases n
  {
    if n == 0 then 0
    else DenseRowDot(a, block, x, row, n - 1) + DenseEntry(a, block, row, n - 1) * XAt(x, n - 1)
  }

  /** The dense matrix-vector product. */
  function DenseProduct(a: Bcsr, block: nat, x: seq<int>): (b: seq<int>)
    requires block > 0
    ensures |b| == a.rows
  {
    seq(a.rows, row requires 0 <= row < a.rows => DenseRowDot(a, block, x, row, a.cols))
  }

  /** One stored block's full-width row times `x`, over the first `n` columns. */
  function ColumnDot(a: Bcsr, block: nat, x: seq<int>, idx: nat, i: nat, n: nat): int
    requires block > 0
    decreases n
  {
    if n == 0 then 0
    else ColumnDot(a, block, x, idx, i, n - 1) + BlockEntryAt(a, block, idx, i, n - 1) * XAt(x, n - 1)
  }

  /** A block row's full-width row `i` times `x`, over the first `n` columns. */
  function RangeRowDot(a: Bcsr, block: nat, x: seq<int>, lo: nat, hi: nat, i: nat, n: nat): int
    requires block > 0
    decreases n
  {
    if n == 0 then 0
    else RangeRowDot(a, block, x, lo, hi, i, n - 1) + RangeEntry(a, block, lo, hi, i, n - 1) * XAt(x, n - 1)
  }

  /** How many of the block's columns lie below column `n`, for a block
      starting at column `start`. */
  function Covered(n: nat, start: nat, block: nat): nat
  {
    if n <= start then 0 else if n >= start + block then block else n - start
  }

  /** Where column `col` lies relative to block column `k`. */
  lemma ColumnInBlock(col: nat, block: nat, k: nat)
    requires block > 0
    ensures col / block == k <==> k * block <= col < k * block + block
    ensures k * block <= col < k * block + block ==> col % block == col - k * block
  {
    DivModSplit(col, block);
    if k * block <= col < k * block + block {
      DivModOf(col, block, k, col - k * block);
    }
  }

  /** Inside its block's columns, a stored block's full-width row holds the
      block's own entry. */
  lemma WindowInside(a: Bcsr, block: nat, x: seq<int>, idx: nat, i: nat, col: nat)
    requires block > 0
    requires BlockColumn(a, idx) * block <= col < BlockColumn(a, idx) * block + block
    ensures BlockEntryAt(a, block, idx, i, col) * XAt(x, col)
            == Coefficient(a, block, idx, i, col - BlockColumn(a, idx) * block)
               * XAt(x, BlockColumn(a, idx) * block + (col - BlockColumn(a, idx) * block))
  {
    ColumnInBlock(col, block, BlockColumn(a, idx));
  }

  /** Outside them it holds 0. */
  lemma WindowOutside(a: Bcsr, block: nat, idx: nat, i: nat, col: nat)
    requires block > 0
    requires !(BlockColumn(a, idx) * block <= col < BlockColumn(a, idx) * block + block)
    ensures BlockEntryAt(a, block, idx, i, col) == 0
  {
    ColumnInBlock(col, block, BlockColumn(a, idx));
  }

  /** Summing a stored block's full-width row against `x` picks out the
      block's own columns. */
  lemma {:induction false} ColumnDotWindow(a: Bcsr, block: nat, x: seq<int>, idx: nat, i: nat, n: nat)
    requires block > 0
    ensures ColumnDot(a, block, x, idx, i, n)
            == BlockDot(a, block, x, idx, i, Covered(n, BlockColumn(a, idx) * block, block))
    decreases n
  {
    if n > 0 {
      var start, col := BlockColumn(a, idx) * block, n - 1;
      ColumnDotWindow(a, block, x, idx, i, col);
      var c := Covered(col, start, block);
      var term := BlockEntryAt(a, block, idx, i, col) * XAt(x, col);
      assert ColumnDot(a, block, x, idx, i, n) == BlockDot(a, block, x, idx, i, c) + term;
      if start <= col < start + block {
        assert c == col - start && Covered(n, start, block) == c + 1;
        WindowInside(a, block, x, idx, i, col);
        assert BlockDot(a, block, x, idx, i, c + 1)
               == BlockDot(a, block, x, idx, i, c) + Coefficient(a, block, idx, i, c) * XAt(x, start + c);
      } else {
        assert Covered(n, start, block) == c;
        WindowOutside(a, block, idx, i, col);
      }
    }
  }

  lemma {:induction false} RangeRowDotStep(a: Bcsr, block: nat, x: seq<int>, lo: nat, hi: nat, i: nat, n: nat)
    requires block > 0 && lo < hi
    ensures RangeRowDot(a, block, x, lo, hi, i, n)
            == RangeRowDot(a, block, x, lo, hi - 1, i, n) + ColumnDot(a, block, x, hi - 1, i, n)
    decreases n
  {
    if n > 0 {
      RangeRowDotStep(a, block, x, lo, hi, i, n - 1);
      var p, q, y := RangeEntry(a, block, lo, hi - 1, i, n - 1), BlockEntryAt(a, block, hi - 1, i, n - 1), XAt(x, n - 1);
      assert RangeEntry(a, block, lo, hi, i, n - 1) == p + q;
      assert RangeRowDot(a, block, x, lo, hi, i, n) == RangeRowDot(a, block, x, lo, hi, i, n - 1) + (p + q) * y;
      assert RangeRowDot(a, block, x, lo, hi - 1, i, n) == RangeRowDot(a, block, x, lo, hi - 1, i, n - 1) + p * y;
      assert ColumnDot(a, block, x, hi - 1, i, n) == ColumnDot(a, block, x, hi - 1, i, n - 1) + q * y;
      Distributes(p, q, y);
    }
  }

  lemma {:induction false} RangeRowDotEmpty(a: Bcsr, block: nat, x: seq<int>, lo: nat, hi: nat, i: nat, n: nat)
    requires block > 0 && hi <= lo
    ensures RangeRowDot(a, block, x, lo, hi, i, n) == 0
    decreases n
  {
    if n > 0 {
      RangeRowDotEmpty(a, block, x, lo, hi, i, n - 1);
    }
  }

  /** For blocks that fit, a block row's full-width row `i` times `x` is the
      sum the product accumulates. */
  lemma {:induction false} RangeRowDotIsRangeSum(a: Bcsr, block: nat, x: seq<int>, lo: nat, hi: nat, i: nat)
    requires block > 0
    requires forall idx :: lo <= idx < hi ==> StoredBlockFits(a, block, idx)
    ensures RangeRowDot(a, block, x, lo, hi, i, a.cols) == RangeSum(a, block, x, lo, hi, i)
    decreases hi
  {
    if hi <= lo {
      RangeRowDotEmpty(a, block, x, lo, hi, i, a.cols);
    } else {
      RangeRowDotIsRangeSum(a, block, x, lo, hi - 1, i);
      RangeRowDotStep(a, block, x, lo, hi, i, a.cols);
      ColumnDotWindow(a, block, x, hi - 1, i, a.cols);
      assert StoredBlockFits(a, block, hi - 1);
    }
  }

  lemma {:induction false} DenseRowDotOfBlockRow(a: Bcsr, block: nat, x: seq<int>, row: nat, n: nat)
    requires block > 0 && row < block * (a.rows / block)
    ensures DenseRowDot(a, block, x, row, n)
            == RangeRowDot(a, block, x, RowStart(a, row / block), RowStart(a, row / block + 1), row % block, n)
    decreases n
  {
    if n > 0 {
      DenseRowDotOfBlockRow(a, block, x, row, n - 1);
    }
  }

  lemma {:induction false} DenseRowDotOfTrailingRow(a: Bcsr, block: nat, x: seq<int>, row: nat, n: nat)
    requires block > 0 && block * (a.rows / block) <= row
    ensures DenseRowDot(a, block, x, row, n) == 0
    decreases n
  {
    if n > 0 {
      DenseRowDotOfTrailingRow(a, block, x, row, n - 1);
    }
  }

  /** One row of the block product equals the same row of the dense one. */
  lemma DenseAgreesAtRow(a: Bcsr, block: nat, x: seq<int>, row: nat)
    requires Wf(a, block)
    ensures Entry(a, block, x, row) == DenseRowDot(a, block, x, row, a.cols)
  {
    if row < block * (a.rows / block) {
      var brow := row / block;
      assert brow < a.rows / block by {
        DivBelow(row, block, a.rows / block);
      }
      assert BlockRowFits(a, block, brow);
      DenseRowDotOfBlockRow(a, block, x, row, a.cols);
      RangeRowDotIsRangeSum(a, block, x, RowStart(a, brow), RowStart(a, brow + 1), row % block);
    } else {
      DenseRowDotOfTrailingRow(a, block, x, row, a.cols);
    }
  }

  /** The block product is the dense product of the matrix the blocks
      describe. */
  lemma ProductIsDense(a: Bcsr, block: nat, x: seq<int>)
    requires Wf(a, block)
    ensures Product(a, block, x) == DenseProduct(a, block, x)
  {
    forall row | 0 <= row < a.rows
      ensures Product(a, block, x)[row] == DenseProduct(a, block, x)[row]
    {
      DenseAgreesAtRow(a, block, x, row);
    }
  }

  //------------------------------------------------------------------------
  // The product's loops
  //------------------------------------------------------------------------

  /** The first row of block row `brow`, counted up a block at a time as
      the loop over block rows advances. */
  function FirstRow(block: nat, brow: nat): nat
  {
    if brow == 0 then 0 else FirstRow(block, brow - 1) + block
  }

  lemma {:induction false} FirstRowIsProduct(block: nat, brow: nat)
    ensures FirstRow(block, brow) == block * brow
  {
    if brow > 0 {
      FirstRowIsProduct(block, brow - 1);
      assert block * brow == block * (brow - 1) + block;
    }
  }

  /** One more column of a stored block that fits: its entry lies in
      `data`, its column in `x`, and the dot product grows by their product. */
  lemma BlockDotStep(a: Bcsr, block: nat, x: seq<int>, idx: nat, i: nat, j: nat)
    requires StoredBlockFits(a, block, idx) && a.cols == |x| && i < block && j < block
    ensures DataIndex(block, idx, i, j) < |a.data| && a.bcolIndex[idx] * block + j < |x|
    ensures BlockDot(a, block, x, idx, i, j + 1)
            == BlockDot(a, block, x, idx, i, j) + a.data[DataIndex(block, idx, i, j)] * x[a.bcolIndex[idx] * block + j]
  {
    CoefficientInData(a, block, idx, i, j);
    var col := a.bcolIndex[idx] * block + j;
    var c, y := Coefficient(a, block, idx, i, j), XAt(x, BlockColumn(a, idx) * block + j);
    assert c == a.data[DataIndex(block, idx, i, j)];
    assert y == x[col];
    assert BlockDot(a, block, x, idx, i, j + 1) == BlockDot(a, block, x, idx, i, j) + c * y;
  }

  /** The loop over `j` for row `i` of stored block `idx`: adds that row
      times the slice of `x` to `accum[i]` and leaves the other entries. */
  method AddBlockRow(a: Bcsr, block: nat, x: seq<int>, idx: nat, i: nat, accum: array<int>)
    requires StoredBlockFits(a, block, idx) && a.cols == |x| && i < block == accum.Length
    modifies accum
    ensures accum[i] == old(accum[i]) + BlockDot(a, block, x, idx, i, block)
    ensures forall k :: 0 <= k < block && k != i ==> accum[k] == old(accum[k])
  {
    var j := 0;
    while j < block
      invariant 0 <= j <= block
      invariant accum[i] == old(accum[i]) + BlockDot(a, block, x, idx, i, j)
      invariant forall k :: 0 <= k < block && k != i ==> accum[k] == old(accum[k])
    {
      var col := a.bcolIndex[idx] * block + j;
      BlockDotStep(a, block, x, idx, i, j);
      accum[i] := accum[i] + a.data[DataIndex(block, idx, i, j)] * x[col];
      j := j + 1;
    }
  }

  /** The loop over `i` for stored block `idx`: row `i` of the block times
      the slice of `x` is added to `accum[i]`, for every `i`. */
  method AddBlock(a: Bcsr, block: nat, x: seq<int>, idx: nat, accum: array<int>)
    requires StoredBlockFits(a, block, idx) && a.cols == |x| && accum.Length == block
    modifies accum
    ensures forall k :: 0 <= k < block ==> accum[k] == old(accum[k]) + BlockDot(a, block, x, idx, k, block)
  {
    var i := 0;
    while i < block
      invariant 0 <= i <= block
      invariant forall k :: 0 <= k < i ==> accum[k] == old(accum[k]) + BlockDot(a, block, x, idx, k, block)
      invariant forall k :: i <= k < block ==> accum[k] == old(accum[k])
    {
      AddBlockRow(a, block, x, idx, i, accum);
      i := i + 1;
    }
  }

  /** The `accum` array of one block row: zeroed, then every listed block
      added in turn. */
  method AccumulateBlockRow(a: Bcsr, block: nat, x: seq<int>, lo: nat, hi: nat) returns (accum: array<int>)
    requires a.cols == |x|
    requires forall idx :: lo <= idx < hi ==> StoredBlockFits(a, block, idx)
    ensures fresh(accum) && accum.Length == block
    ensures forall k :: 0 <= k < block ==> accum[k] == RangeSum(a, block, x, lo, hi, k)
  {
    accum := new int[block];
    var i := 0;
    while i < block
      invariant 0 <= i <= block
      invariant forall k :: 0 <= k < i ==> accum[k] == 0
    {
      accum[i] := 0;
      i := i + 1;
    }
    var idx := lo;
    while idx < hi
      invariant lo <= idx && (idx <= hi || idx == lo)
      invariant forall k :: 0 <= k < block ==> accum[k] == RangeSum(a, block, x, lo, idx, k)
    {
      AddBlock(a, block, x, idx, accum);
      idx := idx + 1;
    }
  }

  /** The write-back loop: `accum` is copied into `b` from row `first` on;
      the other rows of `b` keep their values. */
  method StoreBlockRow(b: array<int>, first: nat, accum: array<int>)
    requires b != accum && first + accum.Length <= b.Length
    modifies b
    ensures forall k :: 0 <= k < accum.Length ==> b[first + k] == accum[k]
    ensures forall row :: 0 <= row < b.Length && !(first <= row < first + accum.Length) ==> b[row] == old(b[row])
  {
    var i := 0;
    while i < accum.Length
      invariant 0 <= i <= accum.Length
      invariant forall k :: 0 <= k < i ==> b[first + k] == accum[k]
      invariant forall row :: 0 <= row < b.Length && !(first <= row < first + i) ==> b[row] == old(b[row])
    {
      b[first + i] := accum[i];
      i := i + 1;
    }
  }

  /** The body of the loop over block rows: block row `brow`'s entries of
      the product are written to rows `first = block * brow` onwards. */
  method ProductOfBlockRow(a: Bcsr, block: nat, x: seq<int>, brow: nat, first: nat, b: array<int>)
    requires Wf(a, block) && a.cols == |x| && b.Length == a.rows
    requires brow < a.rows / block && first == FirstRow(block, brow)
    modifies b
    ensures first + block <= a.rows
    ensures forall row :: first <= row < first + block ==> b[row] == Product(a, block, x)[row]
    ensures forall row :: 0 <= row < b.Length && !(first <= row < first + block) ==> b[row] == old(b[row])
  {
    var idxmin, idxmax := a.browPtr[brow], a.browPtr[brow + 1];
    assert BlockRowFits(a, block, brow);
    var accum := AccumulateBlockRow(a, block, x, idxmin, idxmax);
    FirstRowIsProduct(block, brow);
    BlockRowBelowRows(block, a.rows, brow, block - 1);
    StoreBlockRow(b, first, accum);
    forall row | first <= row < first + block
      ensures b[row] == Product(a, block, x)[row]
    {
      ProductAtBlockRow(a, block, x, brow, row - first);
    }
  }

  /** `bcsr_spmv(A, x)`: aborts (the checked build's assertion) unless the
      matrix has as many columns as `x` has entries; otherwise the product. */
  method Spmv(a: Bcsr, block: nat, x: seq<int>) returns (r: Checked<seq<int>>)
    requires Wf(a, block)
    ensures r.Ok? <==> a.cols == |x|
    ensures r.Ok? ==> r.value == Product(a, block, x)
  {
    if a.cols != |x| {
      return Aborted;
    }
    var b := new int[a.rows](_ => 0);
    var blockRows := a.rows / block;
    ghost var spec := Product(a, block, x);
    var brow, first := 0, 0;
    while brow < blockRows
      invariant 0 <= brow <= blockRows && first == FirstRow(block, brow) && first <= a.rows
      invariant forall row :: 0 <= row < first ==> b[row] == spec[row]
      invariant forall row :: first <= row < a.rows ==> b[row] == 0
    {
      ProductOfBlockRow(a, block, x, brow, first, b);
      brow, first := brow + 1, first + block;
    }
    assert b[..] == spec by {
      FirstRowIsProduct(block, brow);
      forall row | 0 <= row < a.rows
        ensures b[row] == spec[row]
      {
        if first <= row {
          TrailingRowsStayZero(a, block, x, row);
        }
      }
    }
    r := Ok(b[..]);
  }
}
