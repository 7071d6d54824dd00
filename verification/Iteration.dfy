/** Calling an action on one item after another, threading a context through, until it says stop. */
module Iteration {

  /** How an iteration ended: the calls made, the context then, and whether the action stopped it. */
  datatype Walk<+C> = Walk(calls: nat, context: C, stopped: bool)

  function Iterate<T, C>(items: seq<T>, action: (T, C) -> (C, bool), context: C): Walk<C> {
    if items == [] then Walk(0, context, false)
    else
      var (c, go) := action(items[0], context);
      if !go then Walk(1, c, true)
      else
        var w := Iterate(items[1..], action, c);
        w.(calls := w.calls + 1)
  }

  /** Iterating over two stretches: the second is not touched when the first is stopped in. */
  lemma {:induction false} IterateConcat<T, C>(a: seq<T>, b: seq<T>, action: (T, C) -> (C, bool), context: C)
    ensures var u := Iterate(a, action, context);
            Iterate(a + b, action, context)
              == if u.stopped then u else var w := Iterate(b, action, u.context); w.(calls := u.calls + w.calls)
    ensures !Iterate(a, action, context).stopped ==> Iterate(a, action, context).calls == |a|
  {
    if a == [] {
      assert a + b == b;
    } else {
      assert (a + b)[1..] == a[1..] + b;
      IterateConcat(a[1..], b, action, action(a[0], context).0);
    }
  }

  /** The contexts the calls on the first, second, ... item get, were none of them to stop the iteration. */
  function Threaded<T, C>(items: seq<T>, action: (T, C) -> (C, bool), context: C): C
    decreases |items|
  {
    if items == [] then context
    else action(items[|items| - 1], Threaded(items[..|items| - 1], action, context)).0
  }

  /** Whether the call on the `i`-th item lets the iteration go on. */
  predicate Continues<T, C>(items: seq<T>, i: nat, action: (T, C) -> (C, bool), context: C)
    requires i < |items|
  {
    action(items[i], Threaded(items[..i], action, context)).1
  }

  lemma {:induction false} ThreadedCons<T, C>(items: seq<T>, action: (T, C) -> (C, bool), context: C)
    requires items != []
    ensures Threaded(items, action, context) == Threaded(items[1..], action, action(items[0], context).0)
    decreases |items|
  {
    if |items| == 1 {
      assert items[..0] == [] && items[1..] == [];
    } else {
      var front := items[..|items| - 1];
      ThreadedCons(front, action, context);
      assert front[1..] == items[1..][..|items| - 2];
    }
  }

  /** Every item is called once, in order, up to and including the first whose call says stop; the number of
      calls is returned. */
  ghost predicate Means<T, C>(items: seq<T>, action: (T, C) -> (C, bool), context: C, w: Walk<C>) {
    && w.calls <= |items|
    && w.context == Threaded(items[..w.calls], action, context)
    && (forall i :: 0 <= i < w.calls ==> (Continues(items, i, action, context) <==> !(w.stopped && i == w.calls - 1)))
    && (if w.stopped then w.calls > 0 else w.calls == |items|)
  }

  lemma {:induction false} IterateMeans<T, C>(items: seq<T>, action: (T, C) -> (C, bool), context: C)
    ensures Means(items, action, context, Iterate(items, action, context))
  {
    if items != [] {
      var (c, go) := action(items[0], context);
      FirstCall(items, action, context);
      if go {
        IterateMeans(items[1..], action, c);
        MeansCons(items, action, context, Iterate(items[1..], action, c));
      }
    }
  }

  lemma {:induction false} FirstCall<T, C>(items: seq<T>, action: (T, C) -> (C, bool), context: C)
    requires items != []
    ensures Continues(items, 0, action, context) == action(items[0], context).1
    ensures Threaded(items[..1], action, context) == action(items[0], context).0
  {
    assert items[..0] == [];
    ThreadedCons(items[..1], action, context);
    assert items[..1][1..] == [];
  }

  lemma {:induction false} MeansCons<T, C>(items: seq<T>, action: (T, C) -> (C, bool), context: C, w: Walk<C>)
    requires items != [] && action(items[0], context).1
    requires Means(items[1..], action, action(items[0], context).0, w)
    ensures Means(items, action, context, w.(calls := w.calls + 1))
  {
    var n, c := w.calls + 1, action(items[0], context).0;
    FirstCall(items, action, context);
    forall i | 0 <= i < n
      ensures Continues(items, i, action, context) <==> !(w.stopped && i == n - 1)
    {
      if i > 0 {
        ContinuesCons(items, i - 1, action, context);
        assert Continues(items[1..], i - 1, action, c) <==> !(w.stopped && i - 1 == w.calls - 1);
      }
    }
    ThreadedCons(items[..n], action, context);
    assert items[..n][1..] == items[1..][..n - 1];
  }

  lemma {:induction false} ContinuesCons<T, C>(items: seq<T>, i: nat, action: (T, C) -> (C, bool), context: C)
    requires i + 1 < |items|
    ensures Continues(items, i + 1, action, context) == Continues(items[1..], i, action, action(items[0], context).0)
  {
    ThreadedCons(items[..i + 1], action, context);
    assert items[..i + 1][1..] == items[1..][..i];
  }
}
