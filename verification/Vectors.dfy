/** The growable vector that shrinks again, with hysteresis, but never below its initial capacity. */
module Vectors {
  import opened Arithmetic

  datatype VectorResult = VECTOR_SUCCESS | VECTOR_ALLOCATION_ERROR | VECTOR_INDEX_OUT_OF_BOUNDS_ERROR

  /** The numbers that decide when to reallocate, and how often that has happened. */
  datatype Shape = Shape(original: nat, block: nat, capacity: nat, size: nat)

  datatype Op = Append | Remove

  predicate Grows(v: Shape) {
    v.size == v.capacity && v.block > 0
  }

  /** After the element is gone. */
  predicate Shrinks(v: Shape) {
    v.block > 0 && v.capacity > v.original && v.capacity - v.size >= v.block * 2
  }

  /** The capacity a shrinking vector asks for, with the floor at the initial one. */
  function ShrunkCapacity(v: Shape): int {
    if v.capacity - v.block < v.original then v.original else v.capacity - v.block
  }

  /** What an operation does when the reallocation it asks for succeeds. */
  function Step(v: Shape, op: Op): Shape {
    match op
    case Append =>
      if Grows(v) then v.(capacity := v.capacity + v.block, size := v.size + 1)
      else if v.size == v.capacity then v
      else v.(size := v.size + 1)
    case Remove =>
      if v.size == 0 then v else
      var w := v.(size := v.size - 1);
      if Shrinks(w) then w.(capacity := ShrunkCapacity(w)) else w
  }

  /** Whether the operation asks for one. */
  predicate Reallocates(v: Shape, op: Op) {
    match op
    case Append => Grows(v)
    case Remove => v.size > 0 && Shrinks(v.(size := v.size - 1))
  }

  /** The capacity is the initial one plus whole blocks. */
  ghost predicate WholeBlocks(v: Shape) {
    && v.size <= v.capacity
    && exists k: nat :: v.capacity == v.original + k * v.block
  }

  /** Above the initial capacity fewer than two blocks are spare. */
  ghost predicate Tight(v: Shape) {
    v.capacity > v.original ==> v.capacity - v.size < 2 * v.block
  }

  ghost predicate Inv(v: Shape) {
    WholeBlocks(v) && Tight(v)
  }

  lemma {:induction false} OneBlockLess(original: nat, block: nat, capacity: nat, k: nat)
    requires capacity == original + k * block && capacity > original
    ensures k >= 1 && capacity - block == original + (k - 1) * block
  {
    assert k == 0 ==> k * block == 0;
    assert (k - 1) * block == k * block - block;
  }

  /** A shrink never meets the floor and never asks for nothing. */
  lemma {:induction false} ShrinkFits(v: Shape)
    requires WholeBlocks(v) && Shrinks(v)
    ensures ShrunkCapacity(v) == v.capacity - v.block >= v.original
    ensures 0 < ShrunkCapacity(v) && v.size <= ShrunkCapacity(v)
    ensures WholeBlocks(v.(capacity := ShrunkCapacity(v)))
  {
    var k: nat :| v.capacity == v.original + k * v.block;
    OneBlockLess(v.original, v.block, v.capacity, k);
    assert (k - 1) * v.block >= 0;
  }

  lemma {:induction false} StepKeeps(v: Shape, op: Op)
    requires Inv(v)
    ensures Inv(Step(v, op))
  {
    var k: nat :| v.capacity == v.original + k * v.block;
    assert (k + 1) * v.block == k * v.block + v.block;
    if op.Remove? && Reallocates(v, op) {
      ShrinkFits(v.(size := v.size - 1));
    } else {
      var w := Step(v, op);
      assert w.capacity == v.capacity ==> w.capacity == w.original + k * w.block;
      assert w.capacity != v.capacity ==> w.capacity == w.original + (k + 1) * w.block;
    }
  }

  // ---- how often it reallocates ----

  function AfterAll(v: Shape, ops: seq<Op>): Shape
    decreases |ops|
  {
    if ops == [] then v else AfterAll(Step(v, ops[0]), ops[1..])
  }

  function Reallocations(v: Shape, ops: seq<Op>): nat
    decreases |ops|
  {
    if ops == [] then 0 else (if Reallocates(v, ops[0]) then 1 else 0) + Reallocations(Step(v, ops[0]), ops[1..])
  }

  /** The earliest operation from now on that can reallocate, counting from one. */
  ghost function Distance(v: Shape): int {
    var spare := v.capacity - v.size;
    if v.capacity > v.original && 2 * v.block - spare < spare + 1 then 2 * v.block - spare else spare + 1
  }

  /** A reallocation happens only at distance one and leaves a whole block to go; any other operation
      brings the next reallocation nearer by at most one. */
  lemma {:induction false} DistanceStep(v: Shape, op: Op)
    requires Inv(v)
    ensures Distance(v) >= 1
    ensures if Reallocates(v, op) then Distance(v) == 1 && Distance(Step(v, op)) >= v.block
            else Distance(Step(v, op)) >= Distance(v) - 1
  {
    if op.Remove? && Reallocates(v, op) {
      ShrinkFits(v.(size := v.size - 1));
    }
  }

  lemma {:induction false} RunKeeps(v: Shape, ops: seq<Op>)
    requires Inv(v)
    ensures Inv(AfterAll(v, ops))
    decreases |ops|
  {
    if ops != [] {
      StepKeeps(v, ops[0]);
      RunKeeps(Step(v, ops[0]), ops[1..]);
    }
  }

  lemma {:induction false} Spaced(v: Shape, ops: seq<Op>, r: nat)
    requires Inv(v) && r == Reallocations(v, ops) >= 1
    ensures |ops| >= Distance(v) + (r - 1) * v.block
    decreases |ops|
  {
    var w, more := Step(v, ops[0]), Reallocations(Step(v, ops[0]), ops[1..]);
    StepKeeps(v, ops[0]);
    DistanceStep(v, ops[0]);
    if Reallocates(v, ops[0]) {
      assert r - 1 == more;
      if more == 0 {
        assert more * v.block == 0;
      } else {
        Spaced(w, ops[1..], more);
        OneMoreTime(more, v.block);
      }
    } else {
      Spaced(w, ops[1..], r);
    }
  }

  /** Reallocations come at least a whole block of operations apart: `n` operations with `r` of them satisfy
      (r - 1) * block < n. */
  lemma {:induction false} AmortizedBound(v: Shape, ops: seq<Op>)
    requires Inv(v) && Reallocations(v, ops) >= 1
    ensures (Reallocations(v, ops) - 1) * v.block < |ops|
  {
    Spaced(v, ops, Reallocations(v, ops));
    DistanceStep(v, Op.Append);
  }

  // ---- the vector itself ----

  class Vector<T(0)> {
    ghost var contents: seq<T>

    var items: array<T>
    const originalCapacity: nat
    var size: nat
    const blockSize: nat

    ghost function Dimensions(): Shape
      reads this
    {
      Shape(originalCapacity, blockSize, items.Length, size)
    }

    ghost predicate Valid()
      reads this, items
    {
      WholeBlocks(Dimensions()) && contents == items[..size]
    }

    constructor (initialCapacity: nat, blockSize: nat)
      requires initialCapacity > 0 || blockSize > 0
      ensures Valid() && Inv(Dimensions()) && contents == [] && fresh(items)
      ensures Dimensions() == Shape(initialCapacity, blockSize, initialCapacity, 0)
    {
      items := new T[initialCapacity];
      originalCapacity, this.blockSize := initialCapacity, blockSize;
      size := 0;
      contents := [];
      new;
      assert items.Length == originalCapacity + 0 * blockSize;
    }

    /** realloc: a buffer of the new size with as many of the old items as fit, unless memory runs out. */
    method Realloc(capacity: nat) returns (ok: bool)
      requires size <= capacity && size <= items.Length
      modifies this`items
      ensures ok ==> fresh(items) && items.Length == capacity && items[..size] == old(items[..size])
      ensures !ok ==> items == old(items)
    {
      ok := *;
      if ok {
        var bigger := new T[capacity];
        forall i | 0 <= i < size {
          bigger[i] := items[i];
        }
        items := bigger;
      }
    }

    method Append(item: T) returns (r: VectorResult)
      requires Valid()
      modifies this, items
      ensures Valid() && (items == old(items) || fresh(items))
      ensures r == VECTOR_SUCCESS ==> contents == old(contents) + [item] && Dimensions() == Step(old(Dimensions()), Op.Append)
      ensures r == VECTOR_ALLOCATION_ERROR ==> contents == old(contents) && Dimensions() == old(Dimensions()) && size == items.Length
      ensures r != VECTOR_INDEX_OUT_OF_BOUNDS_ERROR
    {
      ghost var v := Dimensions();
      if size == items.Length {
        if blockSize == 0 {
          return VECTOR_ALLOCATION_ERROR;
        }
        var ok := Realloc(items.Length + blockSize);
        if !ok {
          return VECTOR_ALLOCATION_ERROR;
        }
        ghost var k: nat :| v.capacity == v.original + k * v.block;
        assert items.Length == originalCapacity + (k + 1) * blockSize;
      }
      items[size] := item;
      size := size + 1;
      contents := contents + [item];
      return VECTOR_SUCCESS;
    }

    method Remove() returns (r: VectorResult, value: T)
      requires Valid()
      modifies this
      ensures Valid() && (items == old(items) || fresh(items))
      ensures if old(contents) == []
              then r == VECTOR_INDEX_OUT_OF_BOUNDS_ERROR && contents == [] && Dimensions() == old(Dimensions())
              else r == VECTOR_SUCCESS && old(contents) == contents + [value]
                   && (Dimensions() == Step(old(Dimensions()), Op.Remove)
                       || (Reallocates(old(Dimensions()), Op.Remove) && Dimensions() == old(Dimensions()).(size := size)))
    {
      if size == 0 {
        value := *;
        return VECTOR_INDEX_OUT_OF_BOUNDS_ERROR, value;
      }
      value := items[size - 1];
      size := size - 1;
      contents := contents[..size];
      if blockSize > 0 && items.Length > originalCapacity && items.Length - size >= blockSize * 2 {
        ShrinkFits(Dimensions());
        var newCapacity := items.Length - blockSize;
        if newCapacity < originalCapacity {
          newCapacity := originalCapacity;
        }
        if newCapacity != items.Length {
          var _ := Realloc(newCapacity);
        }
      }
      return VECTOR_SUCCESS, value;
    }

    method Get(index: nat) returns (r: VectorResult, value: T)
      requires Valid()
      ensures if index < |contents| then r == VECTOR_SUCCESS && value == contents[index] else r == VECTOR_INDEX_OUT_OF_BOUNDS_ERROR
    {
      if index >= size {
        value := *;
        return VECTOR_INDEX_OUT_OF_BOUNDS_ERROR, value;
      }
      return VECTOR_SUCCESS, items[index];
    }

    method Set(index: nat, value: T) returns (r: VectorResult)
      requires Valid()
      modifies this`contents, items
      ensures Valid() && Dimensions() == old(Dimensions())
      ensures if index < |old(contents)| then r == VECTOR_SUCCESS && contents == old(contents)[index := value]
              else r == VECTOR_INDEX_OUT_OF_BOUNDS_ERROR && contents == old(contents)
    {
      if index >= size {
        return VECTOR_INDEX_OUT_OF_BOUNDS_ERROR;
      }
      items[index] := value;
      contents := contents[index := value];
      return VECTOR_SUCCESS;
    }
  }
}
