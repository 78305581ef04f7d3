/** The compile-time tensor expression engine: dense tensors of dimension D and
    rank R, the read-only expression nodes built over them (scaled, sum,
    difference, outer product, contraction) and the rank-0 full contraction.
    A multi-index is a `seq<nat>`; dense storage is row-major with the last
    index varying fastest, and every traversal enumerates [0,D)^R in that
    same order. */
module TensorExpression {

  import opened Arithmetic

  //------------------------------------------------------------------------
  // Storage size and multi-indices
  //------------------------------------------------------------------------

  /** `_tensorStorage`: the number of scalars a dense tensor of dimension
      `dim` and rank `rank` stores. */
  function TensorStorage(dim: nat, rank: nat): (size: nat)
    ensures rank == 0 ==> size == 1
    ensures size == 0 <==> dim == 0 && rank > 0
    decreases rank
  {
    if rank == 0 then 1 else dim * TensorStorage(dim, rank - 1)
  }

  /** Storage sizes multiply when ranks add (the size is dim^rank). */
  lemma {:induction false} TensorStorageAdd(dim: nat, a: nat, b: nat)
    ensures TensorStorage(dim, a + b) == TensorStorage(dim, a) * TensorStorage(dim, b)
    decreases b
  {
    if b > 0 {
      TensorStorageAdd(dim, a, b - 1);
      calc {
        TensorStorage(dim, a + b);
        dim * TensorStorage(dim, a + b - 1);
        dim * (TensorStorage(dim, a) * TensorStorage(dim, b - 1));
        { MulLeftCommutes(dim, TensorStorage(dim, a), TensorStorage(dim, b - 1)); }
        TensorStorage(dim, a) * (dim * TensorStorage(dim, b - 1));
      }
    }
  }

  /** A traversal of a higher-rank tensor is at least as long. */
  lemma {:induction false} TensorStorageMonotone(dim: nat, a: nat, b: nat)
    requires dim > 0 && a <= b
    ensures TensorStorage(dim, a) <= TensorStorage(dim, b)
    decreases b
  {
    if a < b {
      TensorStorageMonotone(dim, a, b - 1);
      MulMonotone(1, dim, TensorStorage(dim, b - 1));
    }
  }

  /** Every component of `idx` lies in [0, dim). */
  predicate InRange(idx: seq<nat>, dim: nat)
  {
    forall k :: 0 <= k < |idx| ==> idx[k] < dim
  }

  /** The row-major linear position of `idx` in dense storage (last index fastest). */
  function Offset(idx: seq<nat>, dim: nat): nat
    decreases |idx|
  {
    if |idx| == 0 then 0 else Offset(idx[..|idx| - 1], dim) * dim + idx[|idx| - 1]
  }

  /** The multi-index of rank `rank` at linear position `t`: the base-`dim`
      digits of `t`, last index fastest. */
  function Digits(t: nat, dim: nat, rank: nat): (idx: seq<nat>)
    ensures |idx| == rank
    ensures dim > 0 ==> InRange(idx, dim)
    decreases rank
  {
    if rank == 0 then []
    else if dim == 0 then Digits(t, dim, rank - 1) + [0]
    else Digits(t / dim, dim, rank - 1) + [t % dim]
  }

  /** The all-zero multi-index an iterator starts from. */
  function Zeros(rank: nat): (idx: seq<nat>)
  {
    seq(rank, _ => 0)
  }

  /** An in-range multi-index has a position inside the storage. */
  lemma {:induction false} OffsetBound(idx: seq<nat>, dim: nat)
    requires InRange(idx, dim)
    ensures Offset(idx, dim) < TensorStorage(dim, |idx|)
    decreases |idx|
  {
    if |idx| > 0 {
      var p := idx[..|idx| - 1];
      assert InRange(p, dim);
      OffsetBound(p, dim);
      MulAddBelow(Offset(p, dim), TensorStorage(dim, |p|), idx[|idx| - 1], dim);
    }
  }

  /** Decoding the position of an in-range index gives the index back. */
  lemma {:induction false} DigitsOfOffset(idx: seq<nat>, dim: nat)
    requires dim > 0 && InRange(idx, dim)
    ensures Digits(Offset(idx, dim), dim, |idx|) == idx
    decreases |idx|
  {
    if |idx| > 0 {
      var n := |idx|;
      var p := idx[..n - 1];
      assert InRange(p, dim);
      DivModOf(Offset(idx, dim), dim, Offset(p, dim), idx[n - 1]);
      DigitsOfOffset(p, dim);
      assert idx == p + [idx[n - 1]];
    }
  }

  /** Encoding the index at a storage position gives the position back: the
      traversal visits every position of the storage exactly once. */
  lemma {:induction false} OffsetOfDigits(t: nat, dim: nat, rank: nat)
    requires dim > 0 && t < TensorStorage(dim, rank)
    ensures Offset(Digits(t, dim, rank), dim) == t
    decreases rank
  {
    if rank > 0 {
      var q, r := t / dim, t % dim;
      var p := Digits(q, dim, rank - 1);
      var k := Digits(t, dim, rank);
      assert k == p + [r];
      DivBelow(t, dim, TensorStorage(dim, rank - 1));
      OffsetOfDigits(q, dim, rank - 1);
      assert Offset(k, dim) == Offset(p, dim) * dim + r by {
        assert k[..rank - 1] == p && k[rank - 1] == r;
      }
      DivModSplit(t, dim);
    }
  }

  /** The traversal starts at the all-zero index. */
  lemma {:induction false} DigitsOfZero(dim: nat, rank: nat)
    requires dim > 0
    ensures Digits(0, dim, rank) == Zeros(rank)
    decreases rank
  {
    if rank > 0 {
      DigitsOfZero(dim, rank - 1);
      assert Zeros(rank) == Zeros(rank - 1) + [0];
    }
  }

  //------------------------------------------------------------------------
  // Index iterators
  //------------------------------------------------------------------------

  /** One `next()` of an index iterator over the axes of `k`: the last axis
      advances fastest, carrying into the axis before it; the flag is `end()`,
      set once the traversal has wrapped past its last index. */
  function Next(k: seq<nat>, dim: nat): (seq<nat>, bool)
    decreases |k|
  {
    if |k| == 0 then ([], true)
    else if k[|k| - 1] + 1 < dim then (k[..|k| - 1] + [k[|k| - 1] + 1], false)
    else
      var carried := Next(k[..|k| - 1], dim);
      (carried.0 + [0], carried.1)
  }

  /** An iterator over the axes lo..hi-1 of a full index of its tensor, the
      other axes held fixed. */
  function Step(idx: seq<nat>, lo: nat, hi: nat, dim: nat): (seq<nat>, bool)
    requires lo <= hi <= |idx|
  {
    var moved := Next(idx[lo..hi], dim);
    (idx[..lo] + moved.0 + idx[hi..], moved.1)
  }

  /** One `next()` of an in-range index moves to the index at the next
      storage position, and reports the end exactly at the last position. */
  lemma {:induction false} NextOffset(k: seq<nat>, dim: nat)
    requires dim > 0 && InRange(k, dim)
    ensures |Next(k, dim).0| == |k| && InRange(Next(k, dim).0, dim)
    ensures Next(k, dim).1 <==> Offset(k, dim) + 1 == TensorStorage(dim, |k|)
    ensures !Next(k, dim).1 ==> Offset(Next(k, dim).0, dim) == Offset(k, dim) + 1
    decreases |k|
  {
    if |k| > 0 {
      var n := |k|;
      var p, last := k[..n - 1], k[n - 1];
      assert InRange(p, dim);
      var o, m := Offset(p, dim), TensorStorage(dim, n - 1);
      assert Offset(k, dim) == o * dim + last;
      assert TensorStorage(dim, n) == dim * m;
      OffsetBound(p, dim);
      if last + 1 < dim {
        var next := p + [last + 1];
        assert next[..n - 1] == p;
        assert Offset(next, dim) == o * dim + last + 1;
        MulAddBelow(o, m, last + 1, dim);
      } else {
        var carried := Next(p, dim);
        NextOffset(p, dim);
        var next := carried.0 + [0];
        assert next[..n - 1] == carried.0;
        assert Offset(next, dim) == Offset(carried.0, dim) * dim;
        CarryProduct(o, m, dim);
      }
    }
  }

  /** Advancing the iterator from position t gives position t+1, and it
      reports the end exactly after the last of the dim^rank positions. */
  lemma NextDigits(t: nat, dim: nat, rank: nat)
    requires dim > 0 && t < TensorStorage(dim, rank)
    ensures Next(Digits(t, dim, rank), dim).1 <==> t + 1 == TensorStorage(dim, rank)
    ensures t + 1 < TensorStorage(dim, rank) ==>
              Next(Digits(t, dim, rank), dim).0 == Digits(t + 1, dim, rank)
  {
    var k := Digits(t, dim, rank);
    OffsetOfDigits(t, dim, rank);
    NextOffset(k, dim);
    if t + 1 < TensorStorage(dim, rank) {
      DigitsOfOffset(Next(k, dim).0, dim);
    }
  }

  //------------------------------------------------------------------------
  // Expression nodes
  //------------------------------------------------------------------------

  /** The closed family of expression nodes. `Dense` is the owning leaf; the
      others are read-only views over their operands. */
  datatype Expr =
    | Dense(dim: nat, rank: nat, values: seq<int>)
    | Scaled(u: Expr, alpha: int)
    | Sum(u: Expr, v: Expr)
    | Difference(u: Expr, v: Expr)
    | OuterProduct(u: Expr, v: Expr)
    | Contraction(u: Expr, v: Expr, ncontract: nat)

  /** DIM of a node: every operand of a node shares it. */
  function Dim(e: Expr): nat
  {
    match e
    case Dense(dim, _, _) => dim
    case Scaled(u, _) => Dim(u)
    case Sum(u, _) => Dim(u)
    case Difference(u, _) => Dim(u)
    case OuterProduct(u, _) => Dim(u)
    case Contraction(u, _, _) => Dim(u)
  }

  /** RANK of a node. A contraction whose operands are too small has no rank
      (the source's unsigned R1+R2-2*NCONTRACT would wrap; such a node is not
      well formed) and gets 0 here. */
  function Rank(e: Expr): nat
  {
    match e
    case Dense(_, rank, _) => rank
    case Scaled(u, _) => Rank(u)
    case Sum(u, _) => Rank(u)
    case Difference(u, _) => Rank(u)
    case OuterProduct(u, v) => Rank(u) + Rank(v)
    case Contraction(u, v, n) =>
      if 2 * n <= Rank(u) + Rank(v) then Rank(u) + Rank(v) - 2 * n else 0
  }

  /** The constructor check of `TensorContraction`. */
  predicate ContractionAccepted(r1: nat, r2: nat, n: nat)
  {
    1 <= n && n <= r1 && n <= r2 && 2 * n < r1 + r2
  }

  /** The shape rules the templates enforce: a dense leaf holds exactly
      dim^rank values; sum and difference need equal DIM and RANK; outer
      product and contraction need equal DIM; a contraction needs an
      accepted NCONTRACT. */
  predicate Wf(e: Expr)
    ensures Wf(e) ==> Dim(e) > 0
    ensures Wf(e) && e.Contraction? ==> Rank(e) > 0
  {
    match e
    case Dense(dim, rank, values) => dim > 0 && |values| == TensorStorage(dim, rank)
    case Scaled(u, _) => Wf(u)
    case Sum(u, v) => Wf(u) && Wf(v) && Dim(u) == Dim(v) && Rank(u) == Rank(v)
    case Difference(u, v) => Wf(u) && Wf(v) && Dim(u) == Dim(v) && Rank(u) == Rank(v)
    case OuterProduct(u, v) => Wf(u) && Wf(v) && Dim(u) == Dim(v)
    case Contraction(u, v, n) =>
      Wf(u) && Wf(v) && Dim(u) == Dim(v) && ContractionAccepted(Rank(u), Rank(v), n)
  }

  /** `idx` is a valid argument list for `operator()` of `e`. */
  predicate IsIndex(e: Expr, idx: seq<nat>)
  {
    |idx| == Rank(e) && InRange(idx, Dim(e))
  }

  /** `operator()` of every node. Its meaning is fixed only for well-formed
      nodes and in-range indices (the source leaves anything else undefined);
      elsewhere the value is unspecified: a dense leaf reads whichever
      row-major position the index computes, and gives 0 only past its
      storage. */
  function Eval(e: Expr, idx: seq<nat>): int
    decreases e, 1, 0
  {
    match e
    case Dense(dim, _, values) =>
      var o := Offset(idx, dim);
      if o < |values| then values[o] else 0
    case Scaled(u, alpha) => Eval(u, idx) * alpha
    case Sum(u, v) => Eval(u, idx) + Eval(v, idx)
    case Difference(u, v) => Eval(u, idx) - Eval(v, idx)
    case OuterProduct(u, v) =>
      var r1 := if Rank(u) <= |idx| then Rank(u) else |idx|;
      Eval(u, idx[..r1]) * Eval(v, idx[r1..])
    case Contraction(u, _, n) =>
      var m := if n <= Rank(u) && Rank(u) - n <= |idx| then Rank(u) - n else 0;
      ContractionSum(e, idx[..m], idx[m..], TensorStorage(Dim(e), n))
  }

  /** The first `t` terms, in traversal order of the contracted multi-index k,
      of the sum of u(left, k) * v(k, right) that a contraction evaluates to. */
  function ContractionSum(e: Expr, left: seq<nat>, right: seq<nat>, t: nat): int
    requires e.Contraction?
    decreases e, 0, t
  {
    if t == 0 then 0
    else
      var k := Digits(t - 1, Dim(e), e.ncontract);
      ContractionSum(e, left, right, t - 1) + Eval(e.u, left + k) * Eval(e.v, k + right)
  }

  //------------------------------------------------------------------------
  // The contraction loops
  //------------------------------------------------------------------------

  /** `TensorContraction::operator()`: an iterator over the last NCONTRACT
      axes of u, starting at (left, 0...), and one over the first NCONTRACT
      axes of v, starting at (0..., right), advanced in lockstep until the
      first one ends, accumulating the products from 0. */
  method ContractionAt(e: Expr, idx: seq<nat>) returns (ret: int)
    requires e.Contraction? && Wf(e) && IsIndex(e, idx)
    ensures ret == Eval(e, idx)
  {
    var r1 := Rank(e.u) - e.ncontract;
    ret := ContractionLoop(e, idx[..r1], idx[r1..]);
    EvalContraction(e, idx);
  }

  /** The loop of `TensorContraction::operator()` for the split index
      (left, right): it runs over all DIM^NCONTRACT contracted indices. */
  method ContractionLoop(e: Expr, left: seq<nat>, right: seq<nat>) returns (ret: int)
    requires e.Contraction? && Dim(e) > 0
    ensures ret == ContractionSum(e, left, right, TensorStorage(Dim(e), e.ncontract))
  {
    var n, d := e.ncontract, Dim(e);
    var lhsIt := left + Zeros(n);
    var rhsIt := Zeros(n) + right;
    var lhsEnd := false;
    ghost var t: nat := 0;
    DigitsOfZero(d, n);
    ret := 0;
    while !lhsEnd
      invariant t <= TensorStorage(d, n)
      invariant lhsEnd <==> t == TensorStorage(d, n)
      invariant !lhsEnd ==> lhsIt == left + Digits(t, d, n) && rhsIt == Digits(t, d, n) + right
      invariant ret == ContractionSum(e, left, right, t)
      decreases TensorStorage(d, n) - t
    {
      var term;
      term, lhsIt, rhsIt, lhsEnd := ContractionStep(e, left, right, t, lhsIt, rhsIt);
      ret := ret + term;
      t := t + 1;
    }
  }

  /** One iteration of `TensorContraction::operator()`: the product of the
      two iterators' values, then `next()` on both. */
  method ContractionStep(e: Expr, left: seq<nat>, right: seq<nat>, ghost t: nat,
                         lhsIt: seq<nat>, rhsIt: seq<nat>)
    returns (term: int, lhsNext: seq<nat>, rhsNext: seq<nat>, lhsEnd: bool)
    requires e.Contraction? && Dim(e) > 0 && t < TensorStorage(Dim(e), e.ncontract)
    requires lhsIt == left + Digits(t, Dim(e), e.ncontract)
    requires rhsIt == Digits(t, Dim(e), e.ncontract) + right
    ensures ContractionSum(e, left, right, t + 1) == ContractionSum(e, left, right, t) + term
    ensures lhsEnd <==> t + 1 == TensorStorage(Dim(e), e.ncontract)
    ensures !lhsEnd ==> lhsNext == left + Digits(t + 1, Dim(e), e.ncontract)
                        && rhsNext == Digits(t + 1, Dim(e), e.ncontract) + right
  {
    var n, d := e.ncontract, Dim(e);
    term := Eval(e.u, lhsIt) * Eval(e.v, rhsIt);
    ContractionSumStep(e, left, right, t + 1);
    IteratorsAdvance(left, right, t, d, n);
    var lhs := Step(lhsIt, |left|, |left| + n, d);
    var rhs := Step(rhsIt, 0, n, d);
    lhsNext, lhsEnd := lhs.0, lhs.1;
    rhsNext := rhs.0;
  }

  /** The lhs iterator (over the last n axes of (left, k)) and the rhs
      iterator (over the first n axes of (k, right)) move to the same next k,
      and the lhs one ends after the last k. */
  lemma IteratorsAdvance(left: seq<nat>, right: seq<nat>, t: nat, d: nat, n: nat)
    requires d > 0 && t < TensorStorage(d, n)
    ensures var l := Step(left + Digits(t, d, n), |left|, |left| + n, d);
            var r := Step(Digits(t, d, n) + right, 0, n, d);
            (l.1 <==> t + 1 == TensorStorage(d, n))
            && (t + 1 < TensorStorage(d, n) ==>
                  l.0 == left + Digits(t + 1, d, n) && r.0 == Digits(t + 1, d, n) + right)
  {
    var k := Digits(t, d, n);
    NextDigits(t, d, n);
    assert (left + k)[|left|..|left| + n] == k && (left + k)[..|left|] == left;
    assert (left + k)[|left| + n..] == [];
    assert (k + right)[0..n] == k && (k + right)[..0] == [] && (k + right)[n..] == right;
  }

  /** A well-formed contraction at an in-range index is the full sum over k. */
  lemma EvalContraction(e: Expr, idx: seq<nat>)
    requires e.Contraction? && e.ncontract <= Rank(e.u) && Rank(e.u) - e.ncontract <= |idx|
    ensures var m := Rank(e.u) - e.ncontract;
            Eval(e, idx) == ContractionSum(e, idx[..m], idx[m..], TensorStorage(Dim(e), e.ncontract))
  {
  }

  /** The values of `e` in the order of one full traversal of its indices,
      the order in which every iterator of the engine visits them. */
  function Traversal(e: Expr): (values: seq<int>)
    ensures |values| == TensorStorage(Dim(e), Rank(e))
  {
    seq(TensorStorage(Dim(e), Rank(e)), t requires 0 <= t => Eval(e, Digits(t, Dim(e), Rank(e))))
  }

  /** The sum of a[s] * b[s] for s < t. */
  function StorageDot(a: seq<int>, b: seq<int>, t: nat): int
    requires t <= |a| && t <= |b|
  {
    if t == 0 then 0 else StorageDot(a, b, t - 1) + a[t - 1] * b[t - 1]
  }

  /** Rank-0 `contract`: full traversals of both operands advanced in lockstep
      until the lhs traversal ends. The rhs must have at least as many
      positions, or its iterator would run past its end. */
  method ContractToScalar(u: Expr, v: Expr) returns (accum: int)
    requires Dim(u) > 0 && Dim(u) == Dim(v) && Rank(u) <= Rank(v)
    ensures TensorStorage(Dim(u), Rank(u)) <= TensorStorage(Dim(v), Rank(v))
    ensures accum == StorageDot(Traversal(u), Traversal(v), TensorStorage(Dim(u), Rank(u)))
  {
    var d, r1, r2 := Dim(u), Rank(u), Rank(v);
    var size := TensorStorage(d, r1);
    TensorStorageMonotone(d, r1, r2);
    var lIt, rIt := Zeros(r1), Zeros(r2);
    var lEnd := false;
    ghost var t: nat := 0;
    DigitsOfZero(d, r1);
    DigitsOfZero(d, r2);
    accum := 0;
    while !lEnd
      invariant t <= size
      invariant lEnd <==> t == size
      invariant !lEnd ==> lIt == Digits(t, d, r1) && rIt == Digits(t, d, r2)
      invariant accum == StorageDot(Traversal(u), Traversal(v), t)
      decreases size - t
    {
      var term;
      term, lIt, rIt, lEnd := LockstepStep(u, v, t, lIt, rIt);
      accum := accum + term;
      t := t + 1;
    }
  }

  /** One iteration of the rank-0 loop: the product of the two iterators'
      values, then `next()` on both. */
  method LockstepStep(u: Expr, v: Expr, ghost t: nat, lIt: seq<nat>, rIt: seq<nat>)
    returns (term: int, lNext: seq<nat>, rNext: seq<nat>, lEnd: bool)
    requires Dim(u) > 0 && Dim(u) == Dim(v)
    requires t < TensorStorage(Dim(u), Rank(u)) <= TensorStorage(Dim(v), Rank(v))
    requires lIt == Digits(t, Dim(u), Rank(u)) && rIt == Digits(t, Dim(u), Rank(v))
    ensures StorageDot(Traversal(u), Traversal(v), t + 1) == StorageDot(Traversal(u), Traversal(v), t) + term
    ensures lEnd <==> t + 1 == TensorStorage(Dim(u), Rank(u))
    ensures !lEnd ==> lNext == Digits(t + 1, Dim(u), Rank(u)) && rNext == Digits(t + 1, Dim(u), Rank(v))
  {
    term := Eval(u, lIt) * Eval(v, rIt);
    TraversalsAdvance(u, v, t);
    var l := Next(lIt, Dim(u));
    var r := Next(rIt, Dim(u));
    lNext, lEnd := l.0, l.1;
    rNext := r.0;
  }

  /** One lockstep step of two full traversals of operands of the same
      dimension, the lhs one no longer than the rhs one. */
  lemma TraversalsAdvance(u: Expr, v: Expr, t: nat)
    requires Dim(u) > 0 && Dim(u) == Dim(v)
    requires t < TensorStorage(Dim(u), Rank(u)) <= TensorStorage(Dim(v), Rank(v))
    ensures var d := Dim(u);
            StorageDot(Traversal(u), Traversal(v), t + 1)
            == StorageDot(Traversal(u), Traversal(v), t)
               + Eval(u, Digits(t, d, Rank(u))) * Eval(v, Digits(t, d, Rank(v)))
    ensures var d := Dim(u);
            (Next(Digits(t, d, Rank(u)), d).1 <==> t + 1 == TensorStorage(d, Rank(u)))
            && (t + 1 < TensorStorage(d, Rank(u)) ==>
                  Next(Digits(t, d, Rank(u)), d).0 == Digits(t + 1, d, Rank(u))
                  && Next(Digits(t, d, Rank(v)), d).0 == Digits(t + 1, d, Rank(v)))
  {
    NextDigits(t, Dim(u), Rank(u));
    NextDigits(t, Dim(u), Rank(v));
  }

  //------------------------------------------------------------------------
  // The two `contract` overloads
  //------------------------------------------------------------------------

  /** What `contract<NCONTRACT>(u, v)` produces: a contraction node, a plain
      scalar, or no instance at all (a compile-time rejection). */
  datatype Contracted = Node(node: Expr) | Scalar(value: int) | Rejected

  /** The overloads as written: the scalar one is chosen whenever
      R1+R2 == 2*NCONTRACT and checks nothing else; the node one is subject to
      the constructor check. (With R1 > R2 the scalar loop reads past the end
      of v, which is excluded here.) */
  function ContractAsWritten(u: Expr, v: Expr, n: nat): (c: Contracted)
    requires Wf(u) && Wf(v) && Dim(u) == Dim(v)
    requires Rank(u) + Rank(v) == 2 * n ==> Rank(u) <= Rank(v)
    ensures c.Scalar? <==> Rank(u) + Rank(v) == 2 * n
  {
    if Rank(u) + Rank(v) == 2 * n then
      TensorStorageMonotone(Dim(u), Rank(u), Rank(v));
      Scalar(StorageDot(Traversal(u), Traversal(v), TensorStorage(Dim(u), Rank(u))))
    else if ContractionAccepted(Rank(u), Rank(v), n) then Node(Contraction(u, v, n))
    else Rejected
  }

  /** The overloads with the scalar one held to the same NCONTRACT bounds as
      the node one: a scalar exactly when both operands have rank NCONTRACT
      and NCONTRACT is at least 1. */
  function Contract(u: Expr, v: Expr, n: nat): (c: Contracted)
    requires Wf(u) && Wf(v) && Dim(u) == Dim(v)
    ensures c.Scalar? <==> 1 <= n && Rank(u) == n && Rank(v) == n
    ensures c.Scalar? ==> c.value == StorageDot(Traversal(u), Traversal(v), TensorStorage(Dim(u), n))
    ensures c.Node? <==> ContractionAccepted(Rank(u), Rank(v), n)
    ensures c.Node? ==> c.node == Contraction(u, v, n) && Wf(c.node)
                        && Rank(c.node) == Rank(u) + Rank(v) - 2 * n > 0
    ensures c.Rejected? <==> n == 0 || n > Rank(u) || n > Rank(v)
  {
    if Rank(u) + Rank(v) == 2 * n && 1 <= n && n <= Rank(u) && n <= Rank(v) then
      Scalar(StorageDot(Traversal(u), Traversal(v), TensorStorage(Dim(u), Rank(u))))
    else if ContractionAccepted(Rank(u), Rank(v), n) then Node(Contraction(u, v, n))
    else Rejected
  }

  /** The scalar overload as written accepts NCONTRACT = 2 for ranks 1 and 3
      and pairs u's positions with v's first positions. */
  lemma ScalarOverloadSkipsCheck()
    ensures ContractAsWritten(Dense(2, 1, [1, 2]), Dense(2, 3, [1, 1, 1, 1, 1, 1, 1, 1]), 2) == Scalar(3)
  {
    assert TensorStorage(2, 1) == 2 && TensorStorage(2, 3) == 8;
    assert StorageDot([1, 2], [1, 1, 1, 1, 1, 1, 1, 1], 2) == 3;
    TraversalOfDense(2, 1, [1, 2]);
    TraversalOfDense(2, 3, [1, 1, 1, 1, 1, 1, 1, 1]);
  }

  /** The bounds of the node overload reject that same case. */
  lemma ContractRejectsSkippedCase()
    ensures Contract(Dense(2, 1, [1, 2]), Dense(2, 3, [1, 1, 1, 1, 1, 1, 1, 1]), 2) == Rejected
  {
    assert TensorStorage(2, 1) == 2 && TensorStorage(2, 3) == 8;
  }

  /** The scalar overload as written also accepts NCONTRACT = 0 for two rank-0
      operands, and multiplies their single values. */
  lemma ScalarOverloadAcceptsZero()
    ensures ContractAsWritten(Dense(2, 0, [5]), Dense(2, 0, [7]), 0) == Scalar(35)
  {
    assert TensorStorage(2, 0) == 1;
    TraversalOfDense(2, 0, [5]);
    TraversalOfDense(2, 0, [7]);
    assert StorageDot([5], [7], 1) == 35;
  }

  /** The bounds of the node overload reject that case too. */
  lemma ContractRejectsZero()
    ensures Contract(Dense(2, 0, [5]), Dense(2, 0, [7]), 0) == Rejected
  {
    assert TensorStorage(2, 0) == 1;
  }

  //------------------------------------------------------------------------
  // Properties of the nodes
  //------------------------------------------------------------------------

  lemma {:induction false} StorageDotSymmetric(a: seq<int>, b: seq<int>, t: nat)
    requires t <= |a| && t <= |b|
    ensures StorageDot(a, b, t) == StorageDot(b, a, t)
  {
    if t > 0 {
      StorageDotSymmetric(a, b, t - 1);
    }
  }

  /** The result of a full contraction does not depend on the operand order;
      it is a scalar unless NCONTRACT is 0. */
  lemma FullContractionSymmetric(u: Expr, v: Expr, n: nat)
    requires Wf(u) && Wf(v) && Dim(u) == Dim(v) && Rank(u) == n && Rank(v) == n
    ensures Contract(u, v, n).Scalar? <==> 1 <= n
    ensures Contract(u, v, n) == Contract(v, u, n)
  {
    StorageDotSymmetric(Traversal(u), Traversal(v), TensorStorage(Dim(u), n));
  }

  /** An outer product routes the first R1 indices to u and the last R2 to v. */
  lemma OuterProductSplit(u: Expr, v: Expr, i: seq<nat>, j: seq<nat>)
    requires Wf(OuterProduct(u, v)) && IsIndex(u, i) && IsIndex(v, j)
    ensures IsIndex(OuterProduct(u, v), i + j)
    ensures Eval(OuterProduct(u, v), i + j) == Eval(u, i) * Eval(v, j)
  {
    assert (i + j)[..|i|] == i && (i + j)[|i|..] == j;
  }

  /** A difference node undoes a sum node. */
  lemma DifferenceUndoesSum(u: Expr, v: Expr, idx: seq<nat>)
    requires Wf(Sum(u, v)) && IsIndex(u, idx)
    ensures Wf(Difference(Sum(u, v), v))
    ensures Eval(Difference(Sum(u, v), v), idx) == Eval(u, idx)
  {
  }

  /** A sum node is a difference with the rhs scaled by -1. */
  lemma SumOfNegatedIsDifference(u: Expr, v: Expr, idx: seq<nat>)
    requires Wf(Difference(u, v)) && IsIndex(u, idx)
    ensures Wf(Sum(u, Scaled(v, -1)))
    ensures Eval(Sum(u, Scaled(v, -1)), idx) == Eval(Difference(u, v), idx)
  {
  }

  /** A scaled node keeps the shape of its operand, and scaling twice
      scales by the product of the factors. */
  lemma ScaledTwice(u: Expr, a: int, b: int, idx: seq<nat>)
    ensures Wf(Scaled(Scaled(u, a), b)) <==> Wf(u)
    ensures Dim(Scaled(u, a)) == Dim(u) && Rank(Scaled(u, a)) == Rank(u)
    ensures Eval(Scaled(Scaled(u, a), b), idx) == Eval(Scaled(u, a * b), idx)
  {
    MulLeftCommutes(Eval(u, idx), a, b);
  }

  /** A sum node does not depend on the order of its operands. */
  lemma SumCommutes(u: Expr, v: Expr, idx: seq<nat>)
    ensures Wf(Sum(u, v)) <==> Wf(Sum(v, u))
    ensures Wf(Sum(u, v)) ==> Dim(Sum(u, v)) == Dim(v) && Rank(Sum(u, v)) == Rank(v)
    ensures Eval(Sum(u, v), idx) == Eval(Sum(v, u), idx)
  {
  }

  /** Contraction distributes over a sum in its lhs, term by term. */
  lemma {:induction false} ContractionSumLinearLeft(u1: Expr, u2: Expr, v: Expr, n: nat,
                                                    left: seq<nat>, right: seq<nat>, t: nat)
    requires Dim(u1) == Dim(u2)
    ensures ContractionSum(Contraction(Sum(u1, u2), v, n), left, right, t)
            == ContractionSum(Contraction(u1, v, n), left, right, t)
               + ContractionSum(Contraction(u2, v, n), left, right, t)
  {
    if t > 0 {
      var e, e1, e2 := Contraction(Sum(u1, u2), v, n), Contraction(u1, v, n), Contraction(u2, v, n);
      ContractionSumLinearLeft(u1, u2, v, n, left, right, t - 1);
      var k := Digits(t - 1, Dim(u1), n);
      var a1, a2, b := Eval(u1, left + k), Eval(u2, left + k), Eval(v, k + right);
      assert Dim(e) == Dim(u1);
      assert ContractionSum(e, left, right, t)
             == ContractionSum(e, left, right, t - 1) + Eval(Sum(u1, u2), left + k) * b;
      assert Eval(Sum(u1, u2), left + k) == a1 + a2;
      assert ContractionSum(e1, left, right, t) == ContractionSum(e1, left, right, t - 1) + a1 * b;
      assert ContractionSum(e2, left, right, t) == ContractionSum(e2, left, right, t - 1) + a2 * b;
      Distributes(a1, a2, b);
    }
  }

  lemma ContractionLinearLeft(u1: Expr, u2: Expr, v: Expr, n: nat, idx: seq<nat>)
    requires Wf(u1) && Wf(u2) && Wf(v) && Dim(u1) == Dim(u2) == Dim(v) && Rank(u1) == Rank(u2)
    requires ContractionAccepted(Rank(u1), Rank(v), n)
    requires |idx| == Rank(u1) + Rank(v) - 2 * n && InRange(idx, Dim(v))
    ensures Wf(Contraction(Sum(u1, u2), v, n)) && Wf(Contraction(u1, v, n)) && Wf(Contraction(u2, v, n))
    ensures IsIndex(Contraction(u1, v, n), idx) && IsIndex(Contraction(u2, v, n), idx)
    ensures IsIndex(Contraction(Sum(u1, u2), v, n), idx)
    ensures Eval(Contraction(Sum(u1, u2), v, n), idx)
            == Eval(Contraction(u1, v, n), idx) + Eval(Contraction(u2, v, n), idx)
  {
    var m := Rank(u1) - n;
    var e, e1, e2 := Contraction(Sum(u1, u2), v, n), Contraction(u1, v, n), Contraction(u2, v, n);
    var left, right, size := idx[..m], idx[m..], TensorStorage(Dim(u1), n);
    assert Eval(e, idx) == ContractionSum(e, left, right, size) by {
      assert Rank(e.u) == Rank(u1) && Dim(e) == Dim(u1);
      EvalContraction(e, idx);
    }
    assert Eval(e1, idx) == ContractionSum(e1, left, right, size) by {
      EvalContraction(e1, idx);
    }
    assert Eval(e2, idx) == ContractionSum(e2, left, right, size) by {
      assert Dim(e2) == Dim(u1);
      EvalContraction(e2, idx);
    }
    ContractionSumLinearLeft(u1, u2, v, n, left, right, size);
  }

  /** Scaling the lhs of a contraction scales its value, term by term. */
  lemma {:induction false} ContractionSumScaledLeft(u: Expr, alpha: int, v: Expr, n: nat,
                                                    left: seq<nat>, right: seq<nat>, t: nat)
    ensures ContractionSum(Contraction(Scaled(u, alpha), v, n), left, right, t)
            == alpha * ContractionSum(Contraction(u, v, n), left, right, t)
  {
    if t > 0 {
      var e, e1 := Contraction(Scaled(u, alpha), v, n), Contraction(u, v, n);
      ContractionSumScaledLeft(u, alpha, v, n, left, right, t - 1);
      var k := Digits(t - 1, Dim(u), n);
      var a, b := Eval(u, left + k), Eval(v, k + right);
      assert Dim(e) == Dim(u);
      assert ContractionSum(e, left, right, t)
             == ContractionSum(e, left, right, t - 1) + Eval(Scaled(u, alpha), left + k) * b;
      assert Eval(Scaled(u, alpha), left + k) == a * alpha;
      assert ContractionSum(e1, left, right, t) == ContractionSum(e1, left, right, t - 1) + a * b;
      ScaleDistributes(alpha, ContractionSum(e1, left, right, t - 1), a, b);
    }
  }

  lemma ContractionScaledLeft(u: Expr, alpha: int, v: Expr, n: nat, idx: seq<nat>)
    requires Wf(u) && Wf(v) && Dim(u) == Dim(v) && ContractionAccepted(Rank(u), Rank(v), n)
    requires |idx| == Rank(u) + Rank(v) - 2 * n && InRange(idx, Dim(v))
    ensures Wf(Contraction(Scaled(u, alpha), v, n)) && Wf(Contraction(u, v, n))
    ensures IsIndex(Contraction(Scaled(u, alpha), v, n), idx) && IsIndex(Contraction(u, v, n), idx)
    ensures Eval(Contraction(Scaled(u, alpha), v, n), idx) == alpha * Eval(Contraction(u, v, n), idx)
  {
    var m := Rank(u) - n;
    var e, e1 := Contraction(Scaled(u, alpha), v, n), Contraction(u, v, n);
    var left, right, size := idx[..m], idx[m..], TensorStorage(Dim(u), n);
    assert Eval(e, idx) == ContractionSum(e, left, right, size) by {
      assert Rank(e.u) == Rank(u) && Dim(e) == Dim(u);
      EvalContraction(e, idx);
    }
    assert Eval(e1, idx) == ContractionSum(e1, left, right, size) by {
      EvalContraction(e1, idx);
    }
    ContractionSumScaledLeft(u, alpha, v, n, left, right, size);
  }

  /** Sum over j < t of A(i, j) * b(j). */
  function RowDot(a: Expr, b: Expr, i: nat, t: nat): int
  {
    if t == 0 then 0 else RowDot(a, b, i, t - 1) + Eval(a, [i, t - 1]) * Eval(b, [t - 1])
  }

  lemma {:induction false} MatVecSum(a: Expr, b: Expr, i: nat, t: nat)
    requires Rank(a) == 2 && Rank(b) == 1 && t <= Dim(a)
    ensures ContractionSum(Contraction(a, b, 1), [i], [], t) == RowDot(a, b, i, t)
  {
    if t > 0 {
      MatVecSum(a, b, i, t - 1);
      MatVecTerm(a, b, i, t);
    }
  }

  lemma MatVecTerm(a: Expr, b: Expr, i: nat, t: nat)
    requires Rank(a) == 2 && Rank(b) == 1 && 0 < t <= Dim(a)
    ensures ContractionSum(Contraction(a, b, 1), [i], [], t)
            == ContractionSum(Contraction(a, b, 1), [i], [], t - 1) + Eval(a, [i, t - 1]) * Eval(b, [t - 1])
  {
    var e := Contraction(a, b, 1);
    var k := Digits(t - 1, Dim(a), 1);
    assert k == [t - 1] by {
      DivModOf(t - 1, Dim(a), 0, t - 1);
      assert k == Digits((t - 1) / Dim(a), Dim(a), 0) + [(t - 1) % Dim(a)];
    }
    assert [i] + k == [i, t - 1] && k + [] == [t - 1];
    assert Dim(e) == Dim(a);
    ContractionSumStep(e, [i], [], t);
  }

  /** With NCONTRACT = 1, a rank-2 lhs and a rank-1 rhs, a contraction is the
      matrix-vector product c_i = A_ij b_j. */
  lemma MatVecContraction(a: Expr, b: Expr, i: nat)
    requires Rank(a) == 2 && Rank(b) == 1 && i < Dim(a)
    ensures IsIndex(Contraction(a, b, 1), [i])
    ensures Eval(Contraction(a, b, 1), [i]) == RowDot(a, b, i, Dim(a))
  {
    var e := Contraction(a, b, 1);
    assert Dim(e) == Dim(a) && Rank(e) == 1;
    assert TensorStorage(Dim(a), 1) == Dim(a) by {
      assert TensorStorage(Dim(a), 0) == 1;
    }
    assert Eval(e, [i]) == ContractionSum(e, [i], [], Dim(a)) by {
      EvalContraction(e, [i]);
      assert [i][..1] == [i] && [i][1..] == [];
    }
    MatVecSum(a, b, i, Dim(a));
  }

  /** Materializing an expression into dense storage: one full traversal,
      evaluating each position once. */
  function Materialize(e: Expr): (m: Expr)
    requires Wf(e)
    ensures m.Dense? && Wf(m) && Dim(m) == Dim(e) && Rank(m) == Rank(e)
  {
    Dense(Dim(e), Rank(e), Traversal(e))
  }

  /** Re-wrapping materialized storage as a leaf reproduces every value. */
  lemma MaterializeRoundTrip(e: Expr, idx: seq<nat>)
    requires Wf(e) && IsIndex(e, idx)
    ensures IsIndex(Materialize(e), idx)
    ensures Eval(Materialize(e), idx) == Eval(e, idx)
  {
    OffsetBound(idx, Dim(e));
    DigitsOfOffset(idx, Dim(e));
  }

  //------------------------------------------------------------------------
  // Dense leaves and the worked examples
  //------------------------------------------------------------------------

  /** A traversal of a dense leaf reads its storage in order. */
  lemma EvalDenseDigits(dim: nat, rank: nat, values: seq<int>, t: nat)
    requires dim > 0 && |values| == TensorStorage(dim, rank) && t < |values|
    ensures Eval(Dense(dim, rank, values), Digits(t, dim, rank)) == values[t]
  {
    OffsetOfDigits(t, dim, rank);
  }

  /** A full traversal of a dense leaf reads its storage in order. */
  lemma TraversalOfDense(dim: nat, rank: nat, values: seq<int>)
    requires dim > 0 && |values| == TensorStorage(dim, rank)
    ensures Traversal(Dense(dim, rank, values)) == values
  {
    forall t | 0 <= t < |values|
      ensures Traversal(Dense(dim, rank, values))[t] == values[t]
    {
      EvalDenseDigits(dim, rank, values, t);
    }
  }

  /** The sum of a[s] * b[s*dim + j] for s < t: column j of a row-major
      dim x dim matrix b, weighted by a. */
  function WeightedColumn(a: seq<int>, b: seq<int>, dim: nat, j: nat, t: nat): int
  {
    if t == 0 then 0
    else
      var s := t - 1;
      WeightedColumn(a, b, dim, j, s)
      + (if s < |a| && s * dim + j < |b| then a[s] * b[s * dim + j] else 0)
  }

  /** Contracting a dense rank-1 leaf with a dense rank-2 leaf over one axis
      is the vector-matrix product on their storage. */
  lemma {:induction false} DenseVectorMatrix(dim: nat, a: seq<int>, b: seq<int>, j: nat, t: nat)
    requires dim > 0 && |a| == dim && |b| == dim * dim && j < dim && t <= dim
    ensures ContractionSum(Contraction(Dense(dim, 1, a), Dense(dim, 2, b), 1), [], [j], t)
            == WeightedColumn(a, b, dim, j, t)
  {
    if t > 0 {
      DenseVectorMatrix(dim, a, b, j, t - 1);
      DenseVectorMatrixTerm(dim, a, b, j, t);
    }
  }

  lemma DenseVectorMatrixTerm(dim: nat, a: seq<int>, b: seq<int>, j: nat, t: nat)
    requires dim > 0 && |a| == dim && |b| == dim * dim && j < dim && 0 < t <= dim
    ensures (t - 1) * dim + j < |b|
    ensures var e := Contraction(Dense(dim, 1, a), Dense(dim, 2, b), 1);
            ContractionSum(e, [], [j], t)
            == ContractionSum(e, [], [j], t - 1) + a[t - 1] * b[(t - 1) * dim + j]
  {
    var e := Contraction(Dense(dim, 1, a), Dense(dim, 2, b), 1);
    VectorFactor(dim, a, t - 1);
    MatrixFactor(dim, b, t - 1, j);
    assert Dim(e) == dim;
    ContractionSumStep(e, [], [j], t);
  }

  lemma VectorFactor(dim: nat, a: seq<int>, s: nat)
    requires dim > 0 && |a| == dim && s < dim
    ensures Eval(Dense(dim, 1, a), [] + Digits(s, dim, 1)) == a[s]
  {
    assert TensorStorage(dim, 1) == dim;
    assert [] + Digits(s, dim, 1) == Digits(s, dim, 1);
    EvalDenseDigits(dim, 1, a, s);
  }

  lemma MatrixFactor(dim: nat, b: seq<int>, s: nat, j: nat)
    requires dim > 0 && |b| == dim * dim && s < dim && j < dim
    ensures s * dim + j < |b|
    ensures Eval(Dense(dim, 2, b), Digits(s, dim, 1) + [j]) == b[s * dim + j]
  {
    MulAddBelow(s, dim, j, dim);
    assert TensorStorage(dim, 1) == dim;
    EvalDenseAppend(dim, 1, b, s, j);
  }

  /** The entry of a dense leaf at the index (Digits(q), r) is the one stored
      at position q*dim + r. */
  lemma EvalDenseAppend(dim: nat, rank: nat, values: seq<int>, q: nat, r: nat)
    requires dim > 0 && r < dim && |values| == TensorStorage(dim, rank + 1)
    requires q * dim + r < |values|
    ensures Eval(Dense(dim, rank + 1, values), Digits(q, dim, rank) + [r]) == values[q * dim + r]
  {
    var p, m := Digits(q, dim, rank), TensorStorage(dim, rank);
    assert q < m by {
      if m <= q {
        MulMonotone(m, q, dim);
      }
    }
    OffsetOfDigits(q, dim, rank);
    assert (p + [r])[..|p|] == p;
  }

  /** One more term of a contraction sum. */
  lemma ContractionSumStep(e: Expr, left: seq<nat>, right: seq<nat>, t: nat)
    requires e.Contraction? && t > 0
    ensures var k := Digits(t - 1, Dim(e), e.ncontract);
            ContractionSum(e, left, right, t)
            == ContractionSum(e, left, right, t - 1) + Eval(e.u, left + k) * Eval(e.v, k + right)
  {
  }

  /** u = [1,2,3] contracted over its one axis with v(i,j) = 3i+j gives
      [24,30,36]: entry j is 24 + 6j. */
  lemma VectorMatrixExample(j: nat)
    requires j < 3
    ensures var c := Contraction(Dense(3, 1, [1, 2, 3]), Dense(3, 2, [0, 1, 2, 3, 4, 5, 6, 7, 8]), 1);
            Wf(c) && Rank(c) == 1 && Eval(c, [j]) == 24 + 6 * j
  {
    assert Wf(Contraction(Dense(3, 1, [1, 2, 3]), Dense(3, 2, [0, 1, 2, 3, 4, 5, 6, 7, 8]), 1)) by {
      assert TensorStorage(3, 1) == 3 && TensorStorage(3, 2) == 9;
    }
    ExampleColumnSums(j);
    VectorMatrixColumn([1, 2, 3], [0, 1, 2, 3, 4, 5, 6, 7, 8], j);
  }

  lemma ExampleColumnSums(j: nat)
    requires j < 3
    ensures WeightedColumn([1, 2, 3], [0, 1, 2, 3, 4, 5, 6, 7, 8], 3, j, 3) == 24 + 6 * j
  {
  }

  /** Entry j of the dimension-3 vector-matrix contraction. */
  lemma VectorMatrixColumn(a: seq<int>, b: seq<int>, j: nat)
    requires |a| == 3 && |b| == 9 && j < 3
    ensures Eval(Contraction(Dense(3, 1, a), Dense(3, 2, b), 1), [j]) == WeightedColumn(a, b, 3, j, 3)
  {
    var e := Contraction(Dense(3, 1, a), Dense(3, 2, b), 1);
    assert TensorStorage(3, 1) == 3;
    EvalContraction(e, [j]);
    assert [j][..0] == [] && [j][0..] == [j];
    DenseVectorMatrix(3, a, b, j, 3);
  }

  /** [[1,2],[3,4]] fully contracted with itself gives 30, as a plain scalar. */
  lemma FullContractionExample()
    ensures var a := Dense(2, 2, [1, 2, 3, 4]);
            Contract(a, a, 2) == Scalar(30)
  {
    assert TensorStorage(2, 2) == 4;
    assert StorageDot([1, 2, 3, 4], [1, 2, 3, 4], 4) == 30;
    TraversalOfDense(2, 2, [1, 2, 3, 4]);
  }
}
