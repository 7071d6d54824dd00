/** The bounded queue, a circular buffer. */
module Queues {
  import opened Arithmetic
  import opened Iteration

  datatype QueueResult = QUEUE_SUCCESS | QUEUE_OVERFLOW_ERROR | QUEUE_DATA_NOT_FOUND_ERROR

  function GetNextIndex(current: nat, size: nat): nat
    requires size > 0
  {
    (current + 1) % size
  }

  /** The slot of the `i`-th item when the oldest is in slot `head`. */
  function SlotAt(head: nat, i: nat, size: nat): nat
    requires size > 0
  {
    (head + i) % size
  }

  /** Positions less than a full turn apart are in different slots. */
  lemma {:induction false} SlotsDiffer(head: nat, i: nat, j: nat, size: nat)
    requires head < size && i < j < size
    ensures SlotAt(head, i, size) != SlotAt(head, j, size)
  {
    SlotIs(head, i, size);
    SlotIs(head, j, size);
  }

  lemma {:induction false} SlotIs(head: nat, i: nat, size: nat)
    requires head < size && i <= size
    ensures SlotAt(head, i, size) == if head + i < size then head + i else head + i - size
  {
    if head + i < size {
      DivisionIs(head + i, size, 0, head + i);
    } else {
      DivisionIs(head + i, size, 1, head + i - size);
    }
  }

  lemma {:induction false} NextIs(current: nat, size: nat)
    requires current < size
    ensures GetNextIndex(current, size) == if current + 1 == size then 0 else current + 1
  {
  }

  /** The slot behind the `i`-th position is the next position, around the end of the buffer too. */
  lemma {:induction false} SlotAfter(h: nat, i: nat, size: nat)
    requires h < size && i < size
    ensures GetNextIndex(SlotAt(h, i, size), size) == SlotAt(h, i + 1, size)
  {
    SlotIs(h, i, size);
    SlotIs(h, i + 1, size);
    NextIs(SlotAt(h, i, size), size);
  }

  lemma {:induction false} SlotBehind(h: nat, i: nat, size: nat)
    requires h < size && i < size
    ensures SlotAt(GetNextIndex(h, size), i, size) == SlotAt(h, i + 1, size)
  {
    NextIs(h, size);
    SlotIs(h, i + 1, size);
    SlotIs(GetNextIndex(h, size), i, size);
  }

  class Queue<T(0)> {
    ghost var contents: seq<T>  // oldest first

    const items: array<T>
    var head: nat
    var tail: nat
    var nItems: nat

    ghost predicate Valid()
      reads this, items
    {
      && 0 < items.Length
      && nItems <= items.Length
      && head < items.Length
      && tail == SlotAt(head, nItems, items.Length)
      && |contents| == nItems
      && forall i :: 0 <= i < nItems ==> contents[i] == items[SlotAt(head, i, items.Length)]
    }

    constructor (size: nat)
      requires size > 0
      ensures Valid() && contents == [] && items.Length == size && fresh(items)
    {
      items := new T[size];
      head, tail, nItems := 0, 0, 0;
      contents := [];
    }

    method Insert(item: T) returns (r: QueueResult)
      requires Valid()
      modifies this, items
      ensures Valid()
      ensures if |old(contents)| == items.Length
              then r == QUEUE_OVERFLOW_ERROR && contents == old(contents)
              else r == QUEUE_SUCCESS && contents == old(contents) + [item]
    {
      if nItems == items.Length {
        return QUEUE_OVERFLOW_ERROR;
      }
      forall i | 0 <= i < nItems
        ensures SlotAt(head, i, items.Length) != tail
      {
        SlotsDiffer(head, i, nItems, items.Length);
      }
      SlotIs(head, nItems, items.Length);
      SlotIs(head, nItems + 1, items.Length);
      items[tail] := item;
      tail := GetNextIndex(tail, items.Length);
      nItems := nItems + 1;
      contents := contents + [item];
      SlotAfter(head, nItems - 1, items.Length);
      return QUEUE_SUCCESS;
    }

    method Remove() returns (r: QueueResult, item: T)
      requires Valid()
      modifies this
      ensures Valid()
      ensures if old(contents) == []
              then r == QUEUE_DATA_NOT_FOUND_ERROR && contents == []
              else r == QUEUE_SUCCESS && old(contents) == [item] + contents
    {
      if nItems == 0 {
        item := items[0];
        return QUEUE_DATA_NOT_FOUND_ERROR, item;
      }
      item := items[head];
      SlotIs(head, 0, items.Length);
      forall i | 0 <= i < nItems
        ensures SlotAt(GetNextIndex(head, items.Length), i, items.Length) == SlotAt(head, i + 1, items.Length)
      {
        SlotBehind(head, i, items.Length);
      }
      head := GetNextIndex(head, items.Length);
      nItems := nItems - 1;
      contents := contents[1..];
      return QUEUE_SUCCESS, item;
    }

    method IsEmpty() returns (empty: bool)
      requires Valid()
      ensures empty <==> contents == []
    {
      empty := nItems == 0;
    }

    /** QueueForEach: oldest first, up to and including the first item for which the action returns zero;
        returns how often it was called. */
    method ForEach<C>(action: (T, C) -> (C, bool), context: C) returns (calls: nat, c: C)
      requires Valid()
      ensures var w := Iterate(contents, action, context); calls == w.calls && c == w.context
    {
      var curr := head;
      c := context;
      SlotIs(head, 0, items.Length);
      for i := 0 to nItems
        invariant curr == SlotAt(head, i, items.Length)
        invariant var w := Iterate(contents[i..], action, c); Iterate(contents, action, context) == w.(calls := i + w.calls)
      {
        var (next, go) := action(items[curr], c);
        c := next;
        if !go {
          return i + 1, c;
        }
        SlotAfter(head, i, items.Length);
        curr := GetNextIndex(curr, items.Length);
      }
      return nItems, c;
    }
  }
}
