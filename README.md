# yafel linear-algebra core in Dafny

This project models three sequential pieces of the yafel finite-element
toolkit's linear algebra and proves properties of them.

- **The tensor expression engine** (module `TensorExpression`). It covers
  the storage size `_tensorStorage`, dense leaves, and the read-only
  expression nodes `TensorScaled`, `TensorSum`, `TensorDifference`,
  `OuterProduct` and `TensorContraction`, along with both `contract`
  overloads.
  - Nodes form a closed `datatype Expr`. `Wf` collects the shape rules the
    templates enforce at compile time. `Eval` gives each node's
    `operator()` value at a multi-index.
  - The two loops that advance index iterators in lockstep are `method`s,
    each proved equal to the functional sum. `ContractionAt` models
    `TensorContraction::operator()` and `ContractToScalar` models the
    rank-0 `contract`.
  - An index iterator is modelled as a base-`DIM` odometer. `Digits(t)` is
    the `t`-th index of a traversal (last axis fastest) and `Next` is one
    `next()`. Its `end()` flag is set after the last index.
- **The growable `Vector`** (module `LinAlgVector`). It is a class with the
  C++ fields `data`, `length` and `capacity`, where `data` is an
  `array?<int>` (null once moved from).
  - It has the constructors, copy and move assignment, checked element
    access, `append`/`resize`, and the in-place and value arithmetic
    operators and `dot`.
  - Every method states its new state through the ghost `Elements()` (the
    first `length` cells). `Valid()` is `length <= capacity ==
    data.Length`.
  - The sequence functions `ScaleSeq`, `AddSeq`, `SubSeq` and `DotSeq`
    specify the arithmetic. Lemmas relate them to each other.
- **Block-CSR sparse matrix-vector product** (module `BlockCsr`).
  - `Spmv` is the `bcsr_spmv` loop nest over an array `b`, with the
    per-block-row `accum` buffer. Each inner loop is its own method:
    `AccumulateBlockRow`, `AddBlock`, `AddBlockRow` and `StoreBlockRow`.
  - It is proved to compute `Product`, the block-row sums the loops
    accumulate. `ProductIsDense` proves `Product` equal to the dense
    product of the expanded block matrix with `x`.

Shared pieces:
- `Outcome.Checked<T>` (`Ok(value)` or `Aborted`) models the debug-build
  `exit(1)` and `assert` checks of the operations that return a value. The
  in-place `Vector` operations (`AddAssign`, `SubAssign`, `SetAt`) report the
  same abort as a `bool` out-parameter `ok` instead, false exactly when the
  check fails.
- `Arithmetic` holds the few multiplication, division and remainder facts
  that the index computations need.

Numbers are exact integers: `int` models `double`, and `nat` models
`unsigned` and `size_t`.

Where the system's description and its code disagree, the model follows
the code:
- The outer product's operands share DIM, because both are
  `TensorExpression<…, DIM, …>`.
- A moved-from `Vector` keeps its `length` and `capacity`; only its `data`
  becomes null.

## Model

| member | source | states |
|---|---|---|
| TensorExpression.TensorStorage | include/lin_alg/tensor/TensorExpression.hpp:25-27 | the storage size is 1 at rank 0, and it is 0 exactly when DIM is 0 and the rank is positive |
| TensorExpression.TensorStorageAdd | include/lin_alg/tensor/TensorExpression.hpp:25-27 | the size at rank a+b is the product of the sizes at ranks a and b, i.e. the size is DIM^rank |
| TensorExpression.TensorStorageMonotone | include/lin_alg/tensor/TensorExpression.hpp:25-27 | for DIM > 0 a higher rank never has a smaller storage size |
| TensorExpression.Rank | include/lin_alg/tensor/TensorExpression.hpp:237-239 | `rank()` (:42) of each node: a leaf's own RANK, its operand's for scaled, sum and difference nodes, R1+R2 for an outer product (:178) and R1+R2-2·NCONTRACT for a contraction; a contraction too small for that unsigned difference is never well formed |
| TensorExpression.ContractionAccepted | include/lin_alg/tensor/TensorExpression.hpp:276-277 | the `static_assert` of the contraction constructor: 1 ≤ NCONTRACT ≤ R1, NCONTRACT ≤ R2 and a positive result rank |
| TensorExpression.Wf | include/lin_alg/tensor/TensorExpression.hpp:119-120 | the shape rules the templates enforce: a leaf stores DIM^RANK values; sum (:119-120) and difference (:154-155) operands share DIM and RANK; outer-product operands share DIM (:197-198); a contraction passes the constructor check; every well-formed node has DIM > 0, and every well-formed contraction a positive rank |
| TensorExpression.Eval | include/lin_alg/tensor/TensorExpression.hpp:86-298 | `operator()` of every node: `u(idx)*alpha` (:86), `u(idx)+v(idx)` (:125), `u(idx)-v(idx)` (:160), the first R1 indices to u and the rest to v multiplied (:203-209), and for a contraction the sum over all DIM^NCONTRACT contracted indices of u(left,k)·v(k,right) (:281-298) |
| TensorExpression.OffsetBound | include/lin_alg/tensor/TensorExpression.hpp:25-27 | an in-range multi-index has a row-major position below `_tensorStorage(DIM, rank)` |
| TensorExpression.DigitsOfOffset | include/lin_alg/tensor/TensorExpression.hpp:51-53 | decoding the storage position of an in-range multi-index gives the index back |
| TensorExpression.OffsetOfDigits | include/lin_alg/tensor/TensorExpression.hpp:51-53 | encoding the t-th index of a traversal gives t back, so a traversal visits every storage position exactly once |
| TensorExpression.DigitsOfZero | include/lin_alg/tensor/TensorExpression.hpp:283-290 | a traversal starts at the all-zero index that the iterators are built with |
| TensorExpression.NextDigits | include/lin_alg/tensor/TensorExpression.hpp:293 | one `next()` moves the t-th index to the (t+1)-th, and `end()` holds exactly after the last of the DIM^rank indices |
| TensorExpression.NextOffset | include/lin_alg/tensor/TensorExpression.hpp:293 | one `next()` of an in-range index (the last axis advancing, wrapping to 0 and carrying) yields an in-range index of the same rank at the next storage position, and reports the end exactly at the last position |
| TensorExpression.ScaledTwice | include/lin_alg/tensor/TensorExpression.hpp:68-86 | a scaled node keeps its operand's DIM, RANK and well-formedness, and scaling by a and then b evaluates as scaling by a*b |
| TensorExpression.SumCommutes | include/lin_alg/tensor/TensorExpression.hpp:109-125 | a sum is well formed for equal DIM and RANK in either operand order, keeps that shape, and evaluates the same with its operands swapped |
| TensorExpression.DifferenceUndoesSum | include/lin_alg/tensor/TensorExpression.hpp:142-160 | (u + v) - v is well formed and evaluates to u at every index |
| TensorExpression.SumOfNegatedIsDifference | include/lin_alg/tensor/TensorExpression.hpp:142-160 | u + (-1)·v is well formed and evaluates to u - v at every index |
| TensorExpression.OuterProductSplit | include/lin_alg/tensor/TensorExpression.hpp:177-209 | for indices i of u and j of v, i+j is an index of the outer product (rank R1+R2) and the product evaluates there to u(i)·v(j) |
| TensorExpression.ContractionAt | include/lin_alg/tensor/TensorExpression.hpp:280-298 | the index is split into its first R1-N entries and the rest. `ContractionLoop` runs the lockstep loop over the lhs iterator (last N axes of u) and the rhs iterator (first N axes of v) at that split, and its result is the contraction's value at the index |
| TensorExpression.ContractionLoop | include/lin_alg/tensor/TensorExpression.hpp:283-296 | the iterator loop of the contraction, started at (left, 0…) and (0…, right) and run until the lhs iterator ends, returns the full sum over all DIM^NCONTRACT contracted indices at that split index |
| TensorExpression.ContractionStep | include/lin_alg/tensor/TensorExpression.hpp:293-295 | one loop iteration adds the product of the two operands' values at the t-th contracted index to the partial sum, and moves both iterators to the (t+1)-th index; the lhs iterator ends exactly after the last one |
| TensorExpression.IteratorsAdvance | include/lin_alg/tensor/TensorExpression.hpp:249-267 | the lhs iterator over (left, k) and the rhs iterator over (k, right) advance to the same next k, and the lhs one ends after the last k |
| TensorExpression.EvalContraction | include/lin_alg/tensor/TensorExpression.hpp:238-239 | at an index of length R1+R2-2N, split at R1-N, a contraction is the sum over all k in [0,DIM)^N of u(left,k)·v(k,right) |
| TensorExpression.ContractionLinearLeft | include/lin_alg/tensor/TensorExpression.hpp:281-297 | contracting a sum of two lhs operands is the sum of the two contractions |
| TensorExpression.ContractionScaledLeft | include/lin_alg/tensor/TensorExpression.hpp:281-297 | contracting a scaled lhs scales the contraction by the same factor |
| TensorExpression.MatVecContraction | include/lin_alg/tensor/TensorExpression.hpp:230-232 | with N = 1, a rank-2 lhs and a rank-1 rhs, entry i of the contraction is the row sum of A(i,j)·b(j) over j |
| TensorExpression.DenseVectorMatrix | include/lin_alg/tensor/TensorExpression.hpp:230-232 | a dense vector contracted with a dense matrix over one axis weights column j of the matrix's row-major storage by the vector |
| TensorExpression.VectorMatrixExample | include/lin_alg/tensor/TensorExpression.hpp:230-232 | [1,2,3] contracted with v(i,j) = 3i+j is [24, 30, 36] |
| TensorExpression.ContractToScalar | include/lin_alg/tensor/TensorExpression.hpp:317-329 | the lockstep loop over two full traversals, run until the lhs one ends, returns the sum of products of the two traversals' values over the lhs's storage size, which the rhs's size is at least |
| TensorExpression.LockstepStep | include/lin_alg/tensor/TensorExpression.hpp:324-326 | one loop iteration adds the product of the two traversals' values at the t-th index to the partial sum, and moves both traversals to the (t+1)-th index; the lhs traversal ends exactly after its last index |
| TensorExpression.TraversalsAdvance | include/lin_alg/tensor/TensorExpression.hpp:320-326 | one lockstep step adds the products at the t-th indices, moves both traversals to the (t+1)-th index, and ends the lhs one after its last index |
| TensorExpression.TraversalOfDense | include/lin_alg/tensor/TensorExpression.hpp:51-53 | a full traversal of a dense leaf reads its storage in order |
| TensorExpression.Materialize | include/lin_alg/tensor/TensorExpression.hpp:51-53 | the values of one full traversal make a well-formed dense leaf of the same DIM and RANK |
| TensorExpression.MaterializeRoundTrip | include/lin_alg/tensor/TensorExpression.hpp:51-53 | the materialized leaf evaluates, at every index, to the value of the expression it came from |
| TensorExpression.ContractAsWritten | include/lin_alg/tensor/TensorExpression.hpp:303-329 | overload resolution as written: a scalar exactly when R1+R2 = 2N |
| TensorExpression.ScalarOverloadSkipsCheck | include/lin_alg/tensor/TensorExpression.hpp:314-329 | as written, ranks 1 and 3 with N = 2 are accepted and yield a scalar |
| TensorExpression.Contract | include/lin_alg/tensor/TensorExpression.hpp:272-278 | a scalar exactly when R1 = R2 = N ≥ 1, equal to the full-traversal sum of products; a contraction node exactly when 1 ≤ N ≤ R1, N ≤ R2 and R1+R2-2N > 0, in which case it is well formed of rank R1+R2-2N; rejected exactly when N = 0 or N exceeds a rank |
| TensorExpression.ContractRejectsSkippedCase | include/lin_alg/tensor/TensorExpression.hpp:276-277 | with the constructor's bounds, ranks 1 and 3 with N = 2 are rejected |
| TensorExpression.ScalarOverloadAcceptsZero | include/lin_alg/tensor/TensorExpression.hpp:314-329 | as written, two rank-0 operands with N = 0 are accepted and yield the product of their values (35 for 5 and 7) |
| TensorExpression.ContractRejectsZero | include/lin_alg/tensor/TensorExpression.hpp:276-277 | with the constructor's bound N ≥ 1, that same N = 0 case is rejected |
| TensorExpression.FullContractionSymmetric | include/lin_alg/tensor/TensorExpression.hpp:314-329 | a full contraction of two rank-N operands does not depend on the operand order, and is a scalar exactly when N ≥ 1 |
| TensorExpression.StorageDotSymmetric | include/lin_alg/tensor/TensorExpression.hpp:324-326 | the accumulated sum of products is symmetric in its two sequences |
| TensorExpression.FullContractionExample | include/lin_alg/tensor/TensorExpression.hpp:314-329 | [[1,2],[3,4]] fully contracted with itself is the scalar 30 |
| LinAlgVector.Vector.Empty | src/lin_alg/Vector.cpp:8-12 | a fresh buffer of the default capacity, with length 0 |
| LinAlgVector.Vector.WithLength | src/lin_alg/Vector.cpp:14-18 | a fresh buffer with length = capacity = len |
| LinAlgVector.Vector.Filled | src/lin_alg/Vector.cpp:20-27 | a fresh buffer with length = capacity = len and every element val |
| LinAlgVector.Vector.Copy | src/lin_alg/Vector.cpp:29-36 | a fresh buffer with the source's length, capacity and elements |
| LinAlgVector.Vector.Move | src/lin_alg/Vector.cpp:39-47 | takes over the source's buffer, length and capacity (same elements); the source's data becomes null |
| LinAlgVector.Vector.CopyAssign | src/lin_alg/Vector.cpp:54-72 | self-assignment changes nothing; otherwise a fresh buffer with length = capacity = rhs length and rhs's elements |
| LinAlgVector.Vector.MoveAssign | src/lin_alg/Vector.cpp:74-91 | self-assignment changes nothing; otherwise takes over rhs's buffer, length and capacity and nulls rhs's data |
| LinAlgVector.Vector.At | src/lin_alg/Vector.cpp:94-102 | aborts exactly when i ≥ length; otherwise returns element i |
| LinAlgVector.Vector.SetAt | src/lin_alg/Vector.cpp:94-102 | a write through the returned reference: fails exactly when i ≥ length; otherwise only element i changes |
| LinAlgVector.Vector.Reallocate | src/lin_alg/Vector.cpp:184-188 | a fresh buffer of the new capacity holding the same length and elements |
| LinAlgVector.Vector.Resize | src/lin_alg/Vector.cpp:182-191 | as written: capacity doubles (0 stays 0); length and elements are kept |
| LinAlgVector.Vector.Grow | src/lin_alg/Vector.cpp:182-191 | capacity doubles, and 0 becomes 1; length and elements are kept |
| LinAlgVector.Vector.Append | src/lin_alg/Vector.cpp:104-111 | the elements become the old ones followed by val; the buffer is kept when there was room, and otherwise reallocated to the grown capacity |
| LinAlgVector.AppendAsWrittenOverflowsEmpty | src/lin_alg/Vector.cpp:104-111 | as written, the write of `data[length]` is in bounds exactly when the capacity is positive, so appending to a vector of capacity 0 writes past its buffer |
| LinAlgVector.AppendAlwaysFits | src/lin_alg/Vector.cpp:104-111 | with growing, the write of `data[length]` is always in bounds, and the capacity is unchanged when there was room |
| LinAlgVector.Vector.ScaleAssign | src/lin_alg/Vector.cpp:113-120 | every element is multiplied by a, in place |
| LinAlgVector.Vector.Times | src/lin_alg/Vector.cpp:122-132 | a fresh copy (same length and capacity) with every element multiplied by a; the receiver is unchanged |
| LinAlgVector.Vector.AddAssign | src/lin_alg/Vector.cpp:134-148 | aborts exactly on unequal lengths; otherwise each element becomes x[i]+y[i], also when rhs is the receiver itself |
| LinAlgVector.Vector.Add | src/lin_alg/Vector.cpp:150-162 | aborts exactly on unequal lengths; otherwise a fresh vector with the receiver's length and capacity holding the elementwise sums |
| LinAlgVector.Vector.SubAssign | src/lin_alg/Vector.cpp:164-167 | by adding (-1)·rhs: aborts exactly on unequal lengths; otherwise each element becomes x[i]-y[i] |
| LinAlgVector.Vector.Subtract | src/lin_alg/Vector.cpp:169-180 | aborts exactly on unequal lengths; otherwise a fresh vector with the receiver's length and capacity holding the elementwise differences |
| LinAlgVector.AddNegatedIsSub | src/lin_alg/Vector.cpp:164-167 | adding the (-1)-scaled rhs is elementwise subtraction |
| LinAlgVector.SubUndoesAdd | src/lin_alg/Vector.cpp:134-180 | subtracting what was added gives the original elements back |
| LinAlgVector.Vector.Dot | src/lin_alg/Vector.cpp:193-209 | aborts exactly on unequal lengths; otherwise returns the sum of data[i]·rhs[i] |
| LinAlgVector.DotSeqSymmetric | src/lin_alg/Vector.cpp:193-209 | dot is symmetric |
| LinAlgVector.DotSeqScaleLeft | src/lin_alg/Vector.cpp:113-132 | dot of a scaled vector is the scaled dot |
| LinAlgVector.DotSeqAddLeft | src/lin_alg/Vector.cpp:134-162 | dot distributes over an elementwise sum |
| LinAlgVector.DotSeqSelfNonNegative | src/lin_alg/Vector.cpp:211-214 | the dot of a vector with itself, whose square root `norm` takes, is never negative |
| BlockCsr.Spmv | include/old_handmade_linalg/bcsr_spmv.hpp:23-62 | aborts exactly when A's column count differs from x's length; otherwise returns a vector of A.rows() entries equal to the block-row product |
| BlockCsr.Product | include/old_handmade_linalg/bcsr_spmv.hpp:32 | the result has one entry per row of A |
| BlockCsr.ProductOfBlockRow | include/old_handmade_linalg/bcsr_spmv.hpp:35-58 | one block-row iteration writes the product's entries for rows BLOCK·brow … BLOCK·brow+BLOCK-1, which lie below rows, and leaves every other entry of b unchanged |
| BlockCsr.AccumulateBlockRow | include/old_handmade_linalg/bcsr_spmv.hpp:41-54 | a fresh accumulator of BLOCK entries holding, for each i, the sum over the stored blocks idx in [idxmin, idxmax) of row i of block idx times x |
| BlockCsr.AddBlock | include/old_handmade_linalg/bcsr_spmv.hpp:48-53 | adds row i of stored block idx times x to accum[i], for every i < BLOCK |
| BlockCsr.AddBlockRow | include/old_handmade_linalg/bcsr_spmv.hpp:49-52 | adds row i of stored block idx times x to accum[i] and changes no other accumulator entry |
| BlockCsr.BlockDotStep | include/old_handmade_linalg/bcsr_spmv.hpp:50-51 | the data index and column read at (idx, i, j) are in bounds, and the term added is their product |
| BlockCsr.CoefficientInData | include/old_handmade_linalg/bcsr_spmv.hpp:51 | idx·BLOCK²+i·BLOCK+j lies inside data for a stored block that fits |
| BlockCsr.StoreBlockRow | include/old_handmade_linalg/bcsr_spmv.hpp:55-57 | b[first+i] becomes accum[i] for i < BLOCK, and every other entry of b is unchanged |
| BlockCsr.FirstRowIsProduct | include/old_handmade_linalg/bcsr_spmv.hpp:56 | the first row of block row brow is BLOCK·brow |
| BlockCsr.ProductAtBlockRow | include/old_handmade_linalg/bcsr_spmv.hpp:35-57 | row BLOCK·brow+i is below rows, and its entry is the sum of row i of the stored blocks in [brow_ptr[brow], brow_ptr[brow+1]) times x |
| BlockCsr.EmptyBlockRowIsZero | include/old_handmade_linalg/bcsr_spmv.hpp:38-57 | a block row with an empty range of stored blocks yields BLOCK zero entries |
| BlockCsr.TrailingRowsStayZero | include/old_handmade_linalg/bcsr_spmv.hpp:32-35 | rows at index ≥ BLOCK·(rows/BLOCK) are never written and stay 0 |
| BlockCsr.ProductIsDense | include/old_handmade_linalg/bcsr_spmv.hpp:4-9 | the block-row product equals the dense product of the expanded block matrix with x |
| BlockCsr.RangeRowDotIsRangeSum | include/old_handmade_linalg/bcsr_spmv.hpp:47-54 | summing the dense row of the expanded blocks over all columns gives the block-by-block accumulation |

## Left out

- Vector: `norm` is modelled only through `DotSeqSelfNonNegative`, because its square root is floating point. `print` is output and is left out.
- Vector: the destructor's and the assignments' `delete[]` are not modelled; Dafny's heap has no deallocation.
- The `#pragma omp` directives in `Vector.cpp` are modelled as sequential loops. The order of the scalar additions in `dot` does not matter, since the model uses exact integers.
- `double` is modelled as exact `int`: rounding and non-associativity of floating-point addition are not captured.
- `unsigned` and `size_t` are modelled as unbounded `nat`. Three wrap-arounds are not captured: `2*capacity` in `resize`, `_tensorStorage` for large DIM and rank, and index arithmetic in `bcsr_spmv`. The unsigned `R1+R2-2*NCONTRACT` is captured: an operand pair too small for it is not well formed.
- `default_capacity` is declared in `Vector.hpp`, which is not part of this model. The default constructor takes it as a parameter.
- LinAlgVector.Vector.WithLength: the element values are left unspecified, because `new double[len]` leaves them uninitialised. Dafny's array holds some fixed values instead.
- Vector: only the checked build (`_OPTIMIZED` undefined) is modelled. In the optimised build an out-of-range index, or an rhs shorter than the receiver in `+=`, `+`, `-` or `dot`, is undefined behaviour. A longer rhs is read only at the receiver's indices, so the optimised build computes over those. The model aborts on every length mismatch, as the checked build does.
- The tensor iterator headers (`iterator_utils.hpp`, `const_reference_index_iterator.hpp`, `const_reference_tensor_iterator.hpp`) are not part of this model. Their traversal is modelled as an odometer over [0,DIM)^N with the last axis fastest, shared by every iterator.
- The owning dense tensor class is not part of this model. A leaf is `Dense(dim, rank, values)` with row-major storage of exactly DIM^rank values.
- Expression nodes hold `const&` references to their operands. The model holds them as values, so dangling references and lifetimes are not captured.
- TensorExpression.Eval: the value at an index of the wrong length or out of range is unspecified, where the source leaves it undefined. A dense leaf reads whichever row-major position the index computes, and gives 0 only past its storage.
- TensorExpression.ContractAsWritten: it requires R1 ≤ R2 when R1+R2 = 2N. With R1 > R2 the scalar overload's rhs iterator runs past the end of its traversal, which the model does not give a meaning to.
- TensorScaled's `static_assert` that the factor is a fundamental type is a type-level restriction. The model's factor is always an `int`.
- `sparse_bcsr.hpp` is not part of this model. The matrix is a record of the fields `bcsr_spmv` reads: `rows`, `cols`, `brow_ptr`, `bcol_index` and `data`. `BlockCsr.Wf` asks only that these reads are in bounds. It does not require `brow_ptr` to be non-decreasing: a decreasing range is an empty loop here, as in the source.
- The templated `Vector<dataType>` that `bcsr_spmv` takes and returns is not part of this model. `x` is a `seq<int>`; `b` is an `array<int>` whose contents are returned as a `seq<int>`.
- BlockCsr.Spmv: in the optimised build the dimension check is absent. An `x` shorter than `cols` is then read past its end. A longer `x` is read only below `cols`, since every stored block column lies below `cols`, so the optimised build computes the product with x's first `cols` entries. The model aborts on every mismatch, as the checked build does.

## Findings

| source | as written | input that shows it | evidently intended | confidence | as-written member | corrected member |
|---|---|---|---|---|---|---|
| include/lin_alg/tensor/TensorExpression.hpp:314-329 | the rank-0 `contract` overload is enabled whenever R1+R2 = 2·NCONTRACT and checks nothing else | u of rank 1 and v of rank 3, DIM 2, NCONTRACT 2: a scalar is returned (3 for u = [1,2] and v all ones), pairing u's positions with v's first positions; likewise two rank-0 operands with NCONTRACT 0 give the product of their values | the bounds of the node overload's check at :276, 1 ≤ NCONTRACT ≤ R1 and NCONTRACT ≤ R2, so the full contraction applies only when R1 = R2 = NCONTRACT ≥ 1 | not executed | TensorExpression.ContractAsWritten, TensorExpression.ScalarOverloadSkipsCheck, TensorExpression.ScalarOverloadAcceptsZero | TensorExpression.Contract, TensorExpression.ContractRejectsSkippedCase, TensorExpression.ContractRejectsZero |
| src/lin_alg/Vector.cpp:182-191 | `resize` doubles the capacity, so a capacity of 0 stays 0 and `append` then writes `data[0]` into a zero-length buffer (:110) | `Vector(0)` (:14-18) followed by `append(1.0)`; also any vector copy-assigned from an empty one (:69) | a zero capacity grows to at least 1 | not executed | LinAlgVector.Vector.Resize, LinAlgVector.AppendAsWrittenOverflowsEmpty | LinAlgVector.Vector.Grow, LinAlgVector.Vector.Append, LinAlgVector.AppendAlwaysFits |
