/** The doubly linked list with two sentinel nodes, and its iterators. */
module Lists {
  import opened Assoc
  import opened Iteration

  /** Sentinels hold no data. */
  class Node<T> {
    var data: Option<T>
    var next: Node?<T>
    var prev: Node?<T>

    constructor (data: Option<T>, next: Node?<T>, prev: Node?<T>)
      ensures this.data == data && this.next == next && this.prev == prev
    {
      this.data, this.next, this.prev := data, next, prev;
    }
  }

  /** The nodes of a proper list, sentinels included: linked both ways in this order, none twice. */
  ghost predicate Linked<T>(nodes: seq<Node<T>>)
    reads nodes
  {
    && |nodes| >= 2
    && nodes[0].prev == null && nodes[|nodes| - 1].next == null
    && (forall i {:trigger nodes[i].next} :: 0 <= i < |nodes| - 1 ==> nodes[i].next == nodes[i + 1])
    && (forall i {:trigger nodes[i].prev} :: 0 < i < |nodes| ==> nodes[i].prev == nodes[i - 1])
    && (forall i, j :: 0 <= i < j < |nodes| ==> nodes[i] != nodes[j])
  }

  ghost predicate Holds<T>(nodes: seq<Node<T>>, elements: seq<T>)
    reads nodes
  {
    && |nodes| == |elements| + 2
    && forall i {:trigger elements[i]} :: 0 <= i < |elements| ==> nodes[i + 1].data == Some(elements[i])
  }

  /** Linked, except that the node in front of position `k` and the one at `k` may not point at each other. */
  ghost predicate LinkedButAt<T>(nodes: seq<Node<T>>, k: nat)
    reads nodes
  {
    && |nodes| >= 2
    && nodes[0].prev == null && nodes[|nodes| - 1].next == null
    && (forall i {:trigger nodes[i].next} :: 0 <= i < |nodes| - 1 && i != k - 1 ==> nodes[i].next == nodes[i + 1])
    && (forall i {:trigger nodes[i].prev} :: 0 < i < |nodes| && i != k ==> nodes[i].prev == nodes[i - 1])
    && (forall i, j :: 0 <= i < j < |nodes| ==> nodes[i] != nodes[j])
  }

  ghost function Put<T>(s: seq<T>, k: nat, x: T): seq<T>
    requires k <= |s|
  {
    s[..k] + [x] + s[k..]
  }

  lemma {:induction false} PutAt<T>(s: seq<T>, k: nat, x: T, i: nat)
    requires k <= |s| && i <= |s|
    ensures |Put(s, k, x)| == |s| + 1
    ensures Put(s, k, x)[i] == if i < k then s[i] else if i == k then x else s[i - 1]
  {
    InsertedAt(s, k, x, i);
  }

  lemma {:induction false} PutDistinct<T>(s: seq<T>, k: nat, x: T)
    requires k <= |s| && x !in s
    requires forall i, j :: 0 <= i < j < |s| ==> s[i] != s[j]
    ensures forall i, j :: 0 <= i < j < |Put(s, k, x)| ==> Put(s, k, x)[i] != Put(s, k, x)[j]
  {
    forall i, j | 0 <= i < j < |Put(s, k, x)|
      ensures Put(s, k, x)[i] != Put(s, k, x)[j]
    {
      PutAt(s, k, x, i);
      PutAt(s, k, x, j);
    }
  }

  /** Inserting and removing at the same position undo each other. */
  lemma {:induction false} PutUndone<T>(s: seq<T>, k: nat, x: T)
    requires k <= |s|
    ensures RemoveAt(Put(s, k, x), k) == s
    ensures k < |s| ==> Put(RemoveAt(s, k), k, s[k]) == s
  {
  }

  /** A new node between them closes the gap. */
  lemma {:induction false} Spliced<T>(nodes: seq<Node<T>>, k: nat, r: Node<T>)
    requires LinkedButAt(nodes, k) && 1 <= k < |nodes| && r !in nodes
    requires nodes[k - 1].next == r && r.next == nodes[k] && nodes[k].prev == r && r.prev == nodes[k - 1]
    ensures Linked(Put(nodes, k, r))
  {
    var s := Put(nodes, k, r);
    PutDistinct(nodes, k, r);
    PutAt(nodes, k, r, 0);
    PutAt(nodes, k, r, |nodes|);
    forall i | 0 <= i < |s| - 1
      ensures s[i].next == s[i + 1] && s[i + 1].prev == s[i]
    {
      PutAt(nodes, k, r, i);
      PutAt(nodes, k, r, i + 1);
    }
  }

  /** A node bypassed in both directions can be left out. */
  lemma {:induction false} Unspliced<T>(nodes: seq<Node<T>>, k: nat)
    requires 1 <= k < |nodes| - 1
    requires nodes[0].prev == null && nodes[|nodes| - 1].next == null
    requires forall i {:trigger nodes[i].next} :: 0 <= i < |nodes| - 1 && i != k - 1 ==> nodes[i].next == nodes[i + 1]
    requires forall i {:trigger nodes[i].prev} :: 0 < i < |nodes| && i != k + 1 ==> nodes[i].prev == nodes[i - 1]
    requires forall i, j :: 0 <= i < j < |nodes| ==> nodes[i] != nodes[j]
    requires nodes[k - 1].next == nodes[k + 1] && nodes[k + 1].prev == nodes[k - 1]
    ensures Linked(RemoveAt(nodes, k))
  {
    var s := RemoveAt(nodes, k);
    RemovedAt(nodes, k, 0);
    RemovedAt(nodes, k, |s| - 1);
    forall i, j | 0 <= i < j < |s|
      ensures s[i] != s[j]
    {
      RemovedAt(nodes, k, i);
      RemovedAt(nodes, k, j);
    }
    forall i | 0 <= i < |s| - 1
      ensures s[i].next == s[i + 1] && s[i + 1].prev == s[i]
    {
      RemovedAt(nodes, k, i);
      RemovedAt(nodes, k, i + 1);
    }
  }

  class List<T> {
    ghost var nodes: seq<Node<T>>
    ghost var elements: seq<T>
    const head: Node<T>
    const tail: Node<T>

    ghost predicate Valid()
      reads this, nodes
    {
      && Linked(nodes) && Holds(nodes, elements)
      && nodes[0] == head && nodes[|nodes| - 1] == tail
    }

    /** ListCreate */
    constructor ()
      ensures Valid() && elements == [] && fresh(nodes)
    {
      var h := new Node<T>(None, null, null);
      var t := new Node<T>(None, null, null);
      h.next := t;
      t.prev := h;
      head, tail := h, t;
      nodes, elements := [h, t], [];
    }

    /** A node is at position `k` when `nodes[k]` is this node; elements are numbered from one, behind the head sentinel. */
    method InsertNodeBefore(nextNode: Node<T>, item: T, ghost k: nat) returns (r: Node<T>)
      requires Valid() && 1 <= k < |nodes| && nodes[k] == nextNode
      modifies this, nodes
      ensures Valid() && fresh(r)
      ensures nodes == Put(old(nodes), k, r) && elements == Put(old(elements), k - 1, item)
    {
      r := new Node(Some(item), nextNode, nextNode.prev);
      nextNode.prev.next := r;
      nextNode.prev := r;
      Spliced(nodes, k, r);
      HoldsPut(nodes, elements, k, r, item);
      PutAt(nodes, k, r, 0);
      PutAt(nodes, k, r, |nodes|);
      nodes := Put(nodes, k, r);
      elements := Put(elements, k - 1, item);
    }

    lemma {:induction false} HoldsPut(nodes: seq<Node<T>>, elements: seq<T>, k: nat, r: Node<T>, item: T)
      requires Holds(nodes, elements) && 1 <= k < |nodes| && r.data == Some(item)
      ensures Holds(Put(nodes, k, r), Put(elements, k - 1, item))
    {
      var es := Put(elements, k - 1, item);
      forall i | 0 <= i < |es|
        ensures Put(nodes, k, r)[i + 1].data == Some(es[i])
      {
        PutAt(nodes, k, r, i + 1);
        PutAt(elements, k - 1, item, i);
      }
    }

    lemma {:induction false} HoldsRemove(nodes: seq<Node<T>>, elements: seq<T>, k: nat)
      requires Holds(nodes, elements) && 1 <= k < |nodes| - 1
      ensures Holds(RemoveAt(nodes, k), RemoveAt(elements, k - 1))
    {
      var es := RemoveAt(elements, k - 1);
      forall i | 0 <= i < |es|
        ensures RemoveAt(nodes, k)[i + 1].data == Some(es[i])
      {
        RemovedAt(nodes, k, i + 1);
        RemovedAt(elements, k - 1, i);
      }
    }

    method RemoveNode(node: Node<T>, ghost k: nat) returns (data: Option<T>)
      requires Valid() && 1 <= k < |nodes| - 1 && nodes[k] == node
      modifies this, nodes
      ensures Valid() && data == Some(old(elements)[k - 1])
      ensures nodes == RemoveAt(old(nodes), k)
      ensures elements == RemoveAt(old(elements), k - 1)
      ensures node.next == old(node.next) && node.prev == old(node.prev) && node.data == old(node.data)
    {
      data := node.data;
      node.prev.next := node.next;
      node.next.prev := node.prev;
      Unspliced(nodes, k);
      HoldsRemove(nodes, elements, k);
      RemovedAt(nodes, k, 0);
      RemovedAt(nodes, k, |nodes| - 2);
      nodes := RemoveAt(nodes, k);
      elements := RemoveAt(elements, k - 1);
    }

    // ---- stack and queue ends ----

    method PushHead(item: T) returns (r: Node<T>)
      requires Valid()
      modifies this, nodes
      ensures Valid() && fresh(r)
      ensures nodes == Put(old(nodes), 1, r)
      ensures elements == [item] + old(elements)
    {
      r := InsertNodeBefore(head.next, item, 1);
      assert Put(old(elements), 0, item) == [item] + old(elements);
    }

    method PushTail(item: T) returns (r: Node<T>)
      requires Valid()
      modifies this, nodes
      ensures Valid() && fresh(r)
      ensures nodes == Put(old(nodes), |old(nodes)| - 1, r)
      ensures elements == old(elements) + [item]
    {
      r := InsertNodeBefore(tail, item, |nodes| - 1);
      assert Put(old(elements), |old(elements)|, item) == old(elements) + [item];
    }

    method PopHead() returns (data: Option<T>)
      requires Valid()
      modifies this, nodes
      ensures Valid()
      ensures if old(elements) == [] then data == None && nodes == old(nodes) && elements == []
              else data.Some? && old(elements) == [data.value] + elements && nodes == RemoveAt(old(nodes), 1)
    {
      if head.next == tail {
        return None;
      }
      data := RemoveNode(head.next, 1);
    }

    method PopTail() returns (data: Option<T>)
      requires Valid()
      modifies this, nodes
      ensures Valid()
      ensures if old(elements) == [] then data == None && nodes == old(nodes) && elements == []
              else data.Some? && old(elements) == elements + [data.value] && nodes == RemoveAt(old(nodes), |old(nodes)| - 2)
    {
      if tail.prev == head {
        return None;
      }
      data := RemoveNode(tail.prev, |nodes| - 2);
    }

    // ---- iterators ----

    method Begin() returns (itr: Node<T>)
      requires Valid()
      ensures itr == nodes[1]
    {
      itr := head.next;
    }

    method End() returns (itr: Node<T>)
      requires Valid()
      ensures itr == nodes[|nodes| - 1]
    {
      itr := tail;
    }

    /** The end iterator is its own successor. */
    method Next(itr: Node<T>, ghost k: nat) returns (r: Node<T>)
      requires Valid() && 1 <= k < |nodes| && itr == nodes[k]
      ensures r == nodes[if k == |nodes| - 1 then k else k + 1]
    {
      if itr.next == null {
        return itr;
      }
      r := itr.next;
    }

    /** The first iterator is its own predecessor: the head sentinel is never handed out. */
    method Prev(itr: Node<T>, ghost k: nat) returns (r: Node<T>)
      requires Valid() && 1 <= k < |nodes| && itr == nodes[k]
      ensures r == nodes[if k == 1 then k else k - 1]
    {
      if itr.prev == null || itr.prev.prev == null {
        return itr;
      }
      r := itr.prev;
    }

    method Get(itr: Node<T>, ghost k: nat) returns (r: Option<T>)
      requires Valid() && 1 <= k < |nodes| && itr == nodes[k]
      ensures r == if k == |nodes| - 1 then None else Some(elements[k - 1])
    {
      if itr.next == null {
        return None;
      }
      r := itr.data;
    }

    method Set(itr: Node<T>, element: T, ghost k: nat) returns (r: Option<T>)
      requires Valid() && 1 <= k < |nodes| && itr == nodes[k]
      modifies this`elements, itr
      ensures Valid()
      ensures if k == |nodes| - 1 then r == None && elements == old(elements)
              else r == Some(old(elements)[k - 1]) && elements == old(elements)[k - 1 := element]
    {
      if itr.next == null {
        return None;
      }
      r := itr.data;
      itr.data := Some(element);
      elements := elements[k - 1 := element];
    }

    /** Sentinels are refused. */
    method Remove(itr: Node<T>, ghost k: nat) returns (data: Option<T>)
      requires Valid() && k < |nodes| && itr == nodes[k]
      modifies this, nodes
      ensures Valid()
      ensures if k == 0 || k == |old(nodes)| - 1 then data == None && nodes == old(nodes) && elements == old(elements)
              else data == Some(old(elements)[k - 1]) && nodes == RemoveAt(old(nodes), k) && elements == RemoveAt(old(elements), k - 1)
    {
      if itr.next == null || itr.prev == null {
        return None;
      }
      data := RemoveNode(itr, k);
    }

    // ---- whole-list queries ----

    method Size() returns (count: nat)
      requires Valid()
      ensures count == |elements|
    {
      count := 0;
      var current := head.next;
      while current != tail
        invariant count <= |elements| && current == nodes[count + 1]
        decreases |elements| - count
      {
        count := count + 1;
        current := current.next;
      }
    }

    method IsEmpty() returns (empty: bool)
      requires Valid()
      ensures empty <==> elements == []
    {
      empty := head.next == tail;
    }

    /** ListItrForEach over the half-open range from position `b` to position `e`: stops at the first element
        for which the action returns zero. */
    method ForEach<C>(begin: Node<T>, end: Node<T>, action: (T, C) -> (C, bool), context: C, ghost b: nat, ghost e: nat)
      returns (itr: Node<T>, c: C, ghost k: nat)
      requires Valid() && 1 <= b <= e < |nodes| && begin == nodes[b] && end == nodes[e]
      ensures c == Iterate(elements[b - 1..e - 1], action, context).context
      ensures itr == end <==> !Iterate(elements[b - 1..e - 1], action, context).stopped
      ensures var w := Iterate(elements[b - 1..e - 1], action, context);
              && k == b + w.calls - (if w.stopped then 1 else 0)
              && b <= k <= e && (k == e <==> !w.stopped) && itr == nodes[k]
    {
      itr, c, k := begin, context, b;
      ghost var part := elements[b - 1..e - 1];
      assert part[0..] == part;
      while itr != end
        invariant b <= k <= e && itr == nodes[k]
        invariant var w := Iterate(part[k - b..], action, c); Iterate(part, action, context) == w.(calls := k - b + w.calls)
        decreases e - k
      {
        var (next, go) := action(itr.data.value, c);
        c := next;
        assert part[k - b..][1..] == part[k + 1 - b..];
        if !go {
          break;
        }
        itr := itr.next;
        k := k + 1;
      }
    }
  }

  /** Removing a node and linking it in again where it was changes nothing. */
  method RemoveAndPutBack<T>(list: List<T>, node: Node<T>, ghost k: nat) returns (r: Node<T>)
    requires list.Valid() && 1 <= k < |list.nodes| - 1 && list.nodes[k] == node
    modifies list, list.nodes
    ensures list.Valid() && list.elements == old(list.elements)
    ensures list.nodes == old(list.nodes)[k := r]
  {
    var next := node.next;
    ghost var ns, es := list.nodes, list.elements;
    RemovedAt(ns, k, k);
    var data := list.RemoveNode(node, k);
    r := list.InsertNodeBefore(next, data.value, k);
    PutUndone(es, k - 1, es[k - 1]);
    InsertThenUpdate(RemoveAt(ns, k), k, ns[k], r);
    PutUndone(ns, k, ns[k]);
  }
}
