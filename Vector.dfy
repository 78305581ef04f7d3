/** The growable vector of doubles (modelled over integers): a heap buffer
    `data` of `capacity` slots of which the first `length` hold elements. */
module LinAlgVector {

  import opened Outcome
  import opened Arithmetic

  /** Element-wise `a * s[i]`. */
  function ScaleSeq(s: seq<int>, a: int): (r: seq<int>)
    ensures |r| == |s|
  {
    seq(|s|, i requires 0 <= i < |s| => a * s[i])
  }

  /** Element-wise `x[i] + y[i]`. */
  function AddSeq(x: seq<int>, y: seq<int>): (r: seq<int>)
    requires |x| == |y|
    ensures |r| == |x|
  {
    seq(|x|, i requires 0 <= i < |x| => x[i] + y[i])
  }

  /** Element-wise `x[i] - y[i]`. */
  function SubSeq(x: seq<int>, y: seq<int>): (r: seq<int>)
    requires |x| == |y|
    ensures |r| == |x|
  {
    seq(|x|, i requires 0 <= i < |x| => x[i] - y[i])
  }

  /** The sum of `x[i] * y[i]`, accumulated from the first index on. */
  function DotSeq(x: seq<int>, y: seq<int>): int
    requires |x| == |y|
    decreases |x|
  {
    if |x| == 0 then 0
    else DotSeq(x[..|x| - 1], y[..|y| - 1]) + x[|x| - 1] * y[|y| - 1]
  }

  /** Capacity after `resize` as the source writes it: twice the old one. */
  function DoubledCapacity(capacity: nat): nat
  {
    2 * capacity
  }

  /** Capacity after a resize that also grows an empty buffer. */
  function GrownCapacity(capacity: nat): nat
  {
    if capacity == 0 then 1 else 2 * capacity
  }

  /** The capacity `append` writes into, given the state before the call,
      with the source's doubling `resize`. */
  function CapacityAtWriteAsWritten(length: nat, capacity: nat): nat
  {
    if length == capacity then DoubledCapacity(capacity) else capacity
  }

  /** The same with the corrected resize. */
  function CapacityAtWrite(length: nat, capacity: nat): nat
  {
    if length == capacity then GrownCapacity(capacity) else capacity
  }

  /** With the doubling resize, the slot `append` writes exists exactly when
      the capacity is positive: appending to a vector of capacity 0 writes
      slot 0 of a buffer of 0 slots. */
  lemma AppendAsWrittenOverflowsEmpty(length: nat, capacity: nat)
    requires length <= capacity
    ensures length < CapacityAtWriteAsWritten(length, capacity) <==> 0 < capacity
  {
  }

  /** With the corrected resize, the slot `append` writes always exists. */
  lemma AppendAlwaysFits(length: nat, capacity: nat)
    requires length <= capacity
    ensures length < CapacityAtWrite(length, capacity)
    ensures length < capacity ==> CapacityAtWrite(length, capacity) == capacity
  {
  }

  lemma {:induction false} DotSeqSymmetric(x: seq<int>, y: seq<int>)
    requires |x| == |y|
    ensures DotSeq(x, y) == DotSeq(y, x)
    decreases |x|
  {
    if |x| > 0 {
      DotSeqSymmetric(x[..|x| - 1], y[..|y| - 1]);
    }
  }

  lemma {:induction false} DotSeqScaleLeft(x: seq<int>, y: seq<int>, a: int)
    requires |x| == |y|
    ensures DotSeq(ScaleSeq(x, a), y) == a * DotSeq(x, y)
    decreases |x|
  {
    if |x| > 0 {
      var n, sx := |x| - 1, ScaleSeq(x, a);
      assert sx[..n] == ScaleSeq(x[..n], a);
      DotSeqScaleLeft(x[..n], y[..n], a);
      var d := DotSeq(x[..n], y[..n]);
      assert DotSeq(sx, y) == a * d + (a * x[n]) * y[n];
      ScaleDistributes(a, d, x[n], y[n]);
    }
  }

  lemma {:induction false} DotSeqAddLeft(x: seq<int>, y: seq<int>, z: seq<int>)
    requires |x| == |y| == |z|
    ensures DotSeq(AddSeq(x, y), z) == DotSeq(x, z) + DotSeq(y, z)
    decreases |x|
  {
    if |x| > 0 {
      var n := |x| - 1;
      assert AddSeq(x, y)[..n] == AddSeq(x[..n], y[..n]);
      DotSeqAddLeft(x[..n], y[..n], z[..n]);
      assert (x[n] + y[n]) * z[n] == x[n] * z[n] + y[n] * z[n];
    }
  }

  /** `dot(v, v)` is never negative, so `norm` takes the root of a value
      that has one. */
  lemma {:induction false} DotSeqSelfNonNegative(x: seq<int>)
    ensures DotSeq(x, x) >= 0
    decreases |x|
  {
    if |x| > 0 {
      DotSeqSelfNonNegative(x[..|x| - 1]);
      assert x[|x| - 1] * x[|x| - 1] >= 0;
    }
  }

  /** Adding the vector scaled by -1 is subtracting it: the meaning of `-=`. */
  lemma AddNegatedIsSub(x: seq<int>, y: seq<int>)
    requires |x| == |y|
    ensures AddSeq(x, ScaleSeq(y, -1)) == SubSeq(x, y)
  {
  }

  /** Subtraction undoes addition. */
  lemma SubUndoesAdd(x: seq<int>, y: seq<int>)
    requires |x| == |y|
    ensures SubSeq(AddSeq(x, y), y) == x
  {
  }

  class Vector {
    var data: array?<int>
    var length: nat
    var capacity: nat

    /** A live vector; a moved-from one has a null buffer and is not. */
    ghost predicate Valid()
      reads this
    {
      data != null && length <= capacity && capacity == data.Length
    }

    /** The first `length` slots of the buffer. */
    ghost function Elements(): (s: seq<int>)
      reads this, data
      requires Valid()
      ensures |s| == length
    {
      data[..length]
    }

    /** `Vector()`: empty, with the default capacity from the header. */
    constructor Empty(defaultCapacity: nat)
      ensures Valid() && fresh(data)
      ensures length == 0 && capacity == defaultCapacity
      ensures Elements() == []
    {
      data := new int[defaultCapacity];
      capacity := defaultCapacity;
      length := 0;
    }

    /** `Vector(len)`: `len` elements whose values the source leaves unset. */
    constructor WithLength(len: nat)
      ensures Valid() && fresh(data)
      ensures length == len && capacity == len
    {
      data := new int[len];
      capacity := len;
      length := len;
    }

    /** `Vector(len, val)`: `len` copies of `val`. */
    constructor Filled(len: nat, val: int)
      ensures Valid() && fresh(data)
      ensures length == len && capacity == len
      ensures Elements() == seq(len, _ => val)
    {
      var buffer := new int[len];
      var i := 0;
      while i < len
        invariant 0 <= i <= len
        invariant forall k :: 0 <= k < i ==> buffer[k] == val
      {
        buffer[i] := val;
        i := i + 1;
      }
      data := buffer;
      capacity := len;
      length := len;
    }

    /** Copy construction: same length and capacity, a fresh buffer holding
        the same elements. */
    constructor Copy(src: Vector)
      requires src.Valid()
      ensures Valid() && fresh(data)
      ensures length == src.length && capacity == src.capacity
      ensures Elements() == src.Elements()
    {
      var buffer := new int[src.capacity];
      var i := 0;
      while i < src.length
        invariant 0 <= i <= src.length
        invariant forall k :: 0 <= k < i ==> buffer[k] == src.data[k]
      {
        buffer[i] := src.data[i];
        i := i + 1;
      }
      assert buffer[..src.length] == src.data[..src.length];
      length := src.length;
      capacity := src.capacity;
      data := buffer;
    }

    /** Move construction: takes the source's buffer, length and capacity and
        leaves the source with a null buffer. */
    constructor Move(src: Vector)
      requires src.Valid()
      modifies src
      ensures Valid()
      ensures data == old(src.data) && length == old(src.length) && capacity == old(src.capacity)
      ensures Elements() == old(src.Elements())
      ensures src.data == null && src.length == old(src.length) && src.capacity == old(src.capacity)
    {
      length := src.length;
      capacity := src.capacity;
      data := src.data;
      new;
      src.data := null;
    }

    /** Copy assignment. Assigning a vector to itself changes nothing;
        otherwise the target gets a fresh buffer exactly as long as the
        source, so its capacity becomes the source's length. */
    method CopyAssign(rhs: Vector)
      requires rhs.Valid()
      modifies this
      ensures Valid()
      ensures rhs == this ==> data == old(data) && length == old(length) && capacity == old(capacity)
      ensures rhs != this ==> fresh(data) && length == old(rhs.length) && capacity == old(rhs.length)
      ensures Elements() == old(rhs.Elements())
    {
      if rhs == this {
        return;
      }
      var temp := new int[rhs.length];
      var i := 0;
      while i < rhs.length
        invariant 0 <= i <= rhs.length
        invariant forall k :: 0 <= k < i ==> temp[k] == rhs.data[k]
      {
        temp[i] := rhs.data[i];
        i := i + 1;
      }
      data := temp;
      length := rhs.length;
      capacity := rhs.length;
      assert data[..length] == rhs.data[..rhs.length];
    }

    /** Move assignment: a no-op on itself, otherwise the buffer, length and
        capacity are taken over and the source's buffer is nulled. */
    method MoveAssign(rhs: Vector)
      requires rhs.Valid()
      modifies this, rhs
      ensures Valid()
      ensures rhs == this ==> data == old(data) && length == old(length) && capacity == old(capacity)
      ensures rhs != this ==> data == old(rhs.data) && length == old(rhs.length) && capacity == old(rhs.capacity)
      ensures rhs != this ==> rhs.data == null && rhs.length == old(rhs.length) && rhs.capacity == old(rhs.capacity)
      ensures Elements() == old(rhs.Elements())
    {
      if rhs == this {
        return;
      }
      length := rhs.length;
      capacity := rhs.capacity;
      data := rhs.data;
      rhs.data := null;
    }

    /** Reading element `i` through `operator()`; the checked build aborts
        outside `[0, length)`. */
    method At(i: nat) returns (r: Checked<int>)
      requires Valid()
      ensures r.Ok? <==> i < length
      ensures r.Ok? ==> r.value == Elements()[i]
    {
      if i >= length {
        return Aborted;
      }
      r := Ok(data[i]);
    }

    /** Writing element `i` through the reference `operator()` returns. */
    method SetAt(i: nat, val: int) returns (ok: bool)
      requires Valid()
      modifies data
      ensures ok <==> i < length
      ensures ok ==> Elements() == old(Elements())[i := val]
      ensures !ok ==> unchanged(data)
      ensures data[length..] == old(data[length..])
    {
      if i >= length {
        return false;
      }
      data[i] := val;
      ok := true;
    }

    /** Moves the elements to a fresh buffer of `newCapacity` slots. */
    method Reallocate(newCapacity: nat)
      requires Valid() && length <= newCapacity
      modifies this
      ensures Valid() && fresh(data)
      ensures capacity == newCapacity && length == old(length)
      ensures Elements() == old(Elements())
    {
      var temp := new int[newCapacity];
      var previous, n := data, length;
      var i := 0;
      while i < n
        invariant 0 <= i <= n
        invariant data == previous && length == n
        invariant forall k :: 0 <= k < i ==> temp[k] == previous[k]
      {
        temp[i] := previous[i];
        i := i + 1;
      }
      assert temp[..n] == previous[..n];
      data := temp;
      capacity := newCapacity;
    }

    /** `resize` as written: doubles the capacity, which leaves a capacity of
        0 at 0. */
    method Resize()
      requires Valid()
      modifies this
      ensures Valid() && fresh(data)
      ensures capacity == DoubledCapacity(old(capacity)) && length == old(length)
      ensures Elements() == old(Elements())
    {
      Reallocate(DoubledCapacity(capacity));
    }

    /** The corrected resize: doubles a positive capacity and gives an
        empty buffer one slot. */
    method Grow()
      requires Valid()
      modifies this
      ensures Valid() && fresh(data)
      ensures capacity == GrownCapacity(old(capacity)) && length == old(length)
      ensures Elements() == old(Elements())
    {
      Reallocate(GrownCapacity(capacity));
    }

    /** `append(val)`: grows the buffer when it is full, then stores `val`
        after the last element. */
    method Append(val: int)
      requires Valid()
      modifies this, data
      ensures Valid()
      ensures Elements() == old(Elements()) + [val]
      ensures capacity == CapacityAtWrite(old(length), old(capacity))
      ensures old(length) < old(capacity) ==> data == old(data)
      ensures old(length) == old(capacity) ==> fresh(data)
    {
      if length == capacity {
        Grow();
      }
      AppendAlwaysFits(old(length), old(capacity));
      data[length] := val;
      length := length + 1;
    }

    /** `*= a`: every element is multiplied by `a` in place. */
    method ScaleAssign(a: int)
      requires Valid()
      modifies data
      ensures Valid()
      ensures Elements() == ScaleSeq(old(Elements()), a)
      ensures data[length..] == old(data[length..])
    {
      var i := 0;
      while i < length
        invariant 0 <= i <= length
        invariant forall k :: 0 <= k < i ==> data[k] == a * old(data[k])
        invariant forall k :: i <= k < data.Length ==> data[k] == old(data[k])
      {
        data[i] := data[i] * a;
        i := i + 1;
      }
    }

    /** `v * a` (and `a * v`): a scaled copy; `v` is unchanged. */
    method Times(a: int) returns (ret: Vector)
      requires Valid()
      ensures fresh(ret) && fresh(ret.data) && ret.Valid()
      ensures ret.length == length && ret.capacity == capacity
      ensures ret.Elements() == ScaleSeq(Elements(), a)
    {
      ret := new Vector.Copy(this);
      ret.ScaleAssign(a);
    }

    /** `+= rhs`: the checked build aborts on unequal lengths; otherwise each
        element gains the matching element of `rhs` (which may be this
        vector itself). */
    method AddAssign(rhs: Vector) returns (ok: bool)
      requires Valid() && rhs.Valid()
      modifies data
      ensures Valid()
      ensures ok <==> length == rhs.length
      ensures ok ==> Elements() == AddSeq(old(Elements()), old(rhs.Elements()))
      ensures !ok ==> unchanged(data)
      ensures data[length..] == old(data[length..])
    {
      if length != rhs.length {
        return false;
      }
      var i := 0;
      while i < length
        invariant 0 <= i <= length
        invariant forall k :: 0 <= k < i ==> data[k] == old(data[k]) + old(rhs.data[k])
        invariant forall k :: i <= k < data.Length ==> data[k] == old(data[k])
        invariant forall k :: i <= k < rhs.length ==> rhs.data[k] == old(rhs.data[k])
      {
        data[i] := data[i] + rhs.data[i];
        i := i + 1;
      }
      ok := true;
    }

    /** `v + rhs`: aborts on unequal lengths, otherwise a fresh sum. */
    method Add(rhs: Vector) returns (r: Checked<Vector>)
      requires Valid() && rhs.Valid()
      ensures r.Ok? <==> length == rhs.length
      ensures r.Ok? ==> fresh(r.value) && fresh(r.value.data) && r.value.Valid()
      ensures r.Ok? ==> r.value.length == length && r.value.capacity == capacity
      ensures r.Ok? ==> r.value.Elements() == AddSeq(Elements(), rhs.Elements())
    {
      if length != rhs.length {
        return Aborted;
      }
      var ret := new Vector.Copy(this);
      var ok := ret.AddAssign(rhs);
      r := Ok(ret);
    }

    /** `-= rhs`, which the source writes as `+= -1 * rhs`; so the abort on
        unequal lengths is the one in `+=`. */
    method SubAssign(rhs: Vector) returns (ok: bool)
      requires Valid() && rhs.Valid()
      modifies data
      ensures Valid()
      ensures ok <==> length == rhs.length
      ensures ok ==> Elements() == SubSeq(old(Elements()), old(rhs.Elements()))
      ensures !ok ==> unchanged(data)
      ensures data[length..] == old(data[length..])
    {
      var negated := rhs.Times(-1);
      ok := AddAssign(negated);
      if ok {
        AddNegatedIsSub(old(Elements()), old(rhs.Elements()));
      }
    }

    /** `v - rhs`: aborts on unequal lengths, otherwise a fresh difference. */
    method Subtract(rhs: Vector) returns (r: Checked<Vector>)
      requires Valid() && rhs.Valid()
      ensures r.Ok? <==> length == rhs.length
      ensures r.Ok? ==> fresh(r.value) && fresh(r.value.data) && r.value.Valid()
      ensures r.Ok? ==> r.value.length == length && r.value.capacity == capacity
      ensures r.Ok? ==> r.value.Elements() == SubSeq(Elements(), rhs.Elements())
    {
      if length != rhs.length {
        return Aborted;
      }
      var ret := new Vector.Copy(this);
      var ok := ret.SubAssign(rhs);
      r := Ok(ret);
    }

    /** `dot(rhs)`: aborts on unequal lengths, otherwise the sum of the
        products of matching elements. */
    method Dot(rhs: Vector) returns (r: Checked<int>)
      requires Valid() && rhs.Valid()
      ensures r.Ok? <==> length == rhs.length
      ensures r.Ok? ==> r.value == DotSeq(Elements(), rhs.Elements())
    {
      if length != rhs.length {
        return Aborted;
      }
      var retval := 0;
      var i := 0;
      while i < length
        invariant 0 <= i <= length
        invariant retval == DotSeq(data[..i], rhs.data[..i])
      {
        assert data[..i + 1][..i] == data[..i];
        assert rhs.data[..i + 1][..i] == rhs.data[..i];
        retval := retval + data[i] * rhs.data[i];
        i := i + 1;
      }
      r := Ok(retval);
    }
  }
}
