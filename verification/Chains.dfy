/** A table of chains, and the sequence of pairs it amounts to in iteration order. */
module Chains {
  import opened Assoc

  function Flat<T>(chains: seq<seq<T>>): seq<T> {
    if chains == [] then [] else chains[0] + Flat(chains[1..])
  }

  lemma {:induction false} FlatConcat<T>(a: seq<seq<T>>, b: seq<seq<T>>)
    ensures Flat(a + b) == Flat(a) + Flat(b)
  {
    if a == [] {
      assert a + b == b;
    } else {
      assert (a + b)[1..] == a[1..] + b;
      FlatConcat(a[1..], b);
    }
  }

  lemma {:induction false} FlatSingle<T>(c: seq<T>)
    ensures Flat([c]) == c
  {
    assert [c][1..] == [];
  }

  /** The pairs of chain `i` stand between those of the chains before and after it. */
  lemma {:induction false} FlatAround<T>(chains: seq<seq<T>>, i: nat)
    requires i < |chains|
    ensures Flat(chains) == Flat(chains[..i]) + chains[i] + Flat(chains[i + 1..])
  {
    var a, b := chains[..i], chains[i + 1..];
    assert chains == a + ([chains[i]] + b);
    FlatConcat(a, [chains[i]] + b);
    FlatConcat([chains[i]], b);
    FlatSingle(chains[i]);
  }

  lemma {:induction false} FlatIndex<T>(chains: seq<seq<T>>, i: nat, c: nat)
    requires i < |chains| && c < |chains[i]|
    ensures |Flat(chains[..i])| + c < |Flat(chains)| && Flat(chains)[|Flat(chains[..i])| + c] == chains[i][c]
  {
    FlatAround(chains, i);
  }

  lemma {:induction false} FlatIn<T>(chains: seq<seq<T>>, x: T)
    ensures x in Flat(chains) <==> exists i :: 0 <= i < |chains| && x in chains[i]
  {
    if chains != [] {
      FlatIn(chains[1..], x);
      if i :| 0 <= i < |chains| && x in chains[i] {
        assert i > 0 ==> x in chains[1..][i - 1];
      }
      if j :| 0 <= j < |chains[1..]| && x in chains[1..][j] {
        assert x in chains[j + 1];
      }
    }
  }

  /** Every pair is in the chain its key hashes to. */
  ghost predicate InPlace<K, V>(chains: seq<seq<Pair<K, V>>>, hash: K -> nat) {
    forall i, p :: 0 <= i < |chains| && p in chains[i] ==> hash(p.key) % |chains| == i
  }

  /** Only the key's own chain is searched; that finds what a search of all pairs would. */
  lemma {:induction false} FindInChain<K(!new), V>(chains: seq<seq<Pair<K, V>>>, k: K, hash: K -> nat, eq: (K, K) -> bool)
    requires |chains| > 0 && InPlace(chains, hash) && Lawful(hash, eq)
    ensures var i := hash(k) % |chains|; var c, before := Find(chains[i], k, eq), |Flat(chains[..i])|;
            Find(Flat(chains), k, eq) == if c < |chains[i]| then before + c else |Flat(chains)|
  {
    var i := hash(k) % |chains|;
    FlatAround(chains, i);
    NotElsewhere(chains, k, hash, eq, i);
    FindBetween(Flat(chains[..i]), chains[i], Flat(chains[i + 1..]), k, eq);
  }

  lemma {:induction false} FindBetween<K, V>(a: seq<Pair<K, V>>, m: seq<Pair<K, V>>, b: seq<Pair<K, V>>, k: K, eq: (K, K) -> bool)
    requires forall p :: p in a || p in b ==> !eq(p.key, k)
    ensures Find(a + m + b, k, eq) == if Find(m, k, eq) < |m| then |a| + Find(m, k, eq) else |a + m + b|
  {
    var c, all := Find(m, k, eq), a + m + b;
    var f := if c < |m| then |a| + c else |all|;
    forall j | 0 <= j < f
      ensures !eq(all[j].key, k)
    {
      if j < |a| {
        assert all[j] in a;
      } else if j < |a| + |m| {
        assert all[j] == m[j - |a|];
      } else {
        assert all[j] in b;
      }
    }
    FirstIs(all, k, eq, f);
  }

  lemma {:induction false} NotElsewhere<K(!new), V>(chains: seq<seq<Pair<K, V>>>, k: K, hash: K -> nat, eq: (K, K) -> bool, i: nat)
    requires InPlace(chains, hash) && Lawful(hash, eq) && i < |chains| && hash(k) % |chains| == i
    ensures forall p :: p in Flat(chains[..i]) || p in Flat(chains[i + 1..]) ==> !eq(p.key, k)
  {
    forall p | p in Flat(chains[..i]) || p in Flat(chains[i + 1..])
      ensures !eq(p.key, k)
    {
      SlotElsewhere(chains, hash, i, p);
      assert Same(eq, p.key, k) ==> hash(p.key) == hash(k);
    }
  }

  lemma {:induction false} SlotElsewhere<K, V>(chains: seq<seq<Pair<K, V>>>, hash: K -> nat, i: nat, p: Pair<K, V>)
    requires InPlace(chains, hash) && i < |chains|
    requires p in Flat(chains[..i]) || p in Flat(chains[i + 1..])
    ensures p in Flat(chains[..i]) ==> hash(p.key) % |chains| < i
    ensures p in Flat(chains[i + 1..]) ==> hash(p.key) % |chains| > i
  {
    FlatIn(chains[..i], p);
    FlatIn(chains[i + 1..], p);
    if p in Flat(chains[..i]) {
      var j :| 0 <= j < i && p in chains[..i][j];
      assert p in chains[j];
    }
    if p in Flat(chains[i + 1..]) {
      var j :| 0 <= j < |chains[i + 1..]| && p in chains[i + 1..][j];
      assert p in chains[i + 1 + j];
    }
  }

  /** A pair pushed at the head of its chain stands in front of all pairs of its bucket. */
  lemma {:induction false} PushIsInsert<K, V>(chains: seq<seq<Pair<K, V>>>, k: K, v: V, hash: K -> nat)
    requires |chains| > 0 && InPlace(chains, hash)
    ensures var i := hash(k) % |chains|; var new_ := chains[i := [Pair(k, v)] + chains[i]];
            Flat(new_) == Insert(Flat(chains), k, v, hash, |chains|) && InPlace(new_, hash)
  {
    var i := hash(k) % |chains|;
    var a, b := Flat(chains[..i]), Flat(chains[i + 1..]);
    var new_ := chains[i := [Pair(k, v)] + chains[i]];
    FlatAround(chains, i);
    FlatAround(new_, i);
    UpdatedAround(chains, i, [Pair(k, v)] + chains[i]);
    PositionIs(chains, hash, i);
    Regroup(a, chains[i], b);
    Sides(a, chains[i] + b);
    PushBetween(a, Pair(k, v), chains[i], b);
    PushInPlace(chains, k, v, hash);
  }

  lemma {:induction false} UpdatedAround<T>(s: seq<T>, i: nat, x: T)
    requires i < |s|
    ensures s[i := x][..i] == s[..i] && s[i := x][i + 1..] == s[i + 1..] && s[i := x][i] == x
  {
  }

  lemma {:induction false} PushInPlace<K, V>(chains: seq<seq<Pair<K, V>>>, k: K, v: V, hash: K -> nat)
    requires |chains| > 0 && InPlace(chains, hash)
    ensures var i := hash(k) % |chains|; InPlace(chains[i := [Pair(k, v)] + chains[i]], hash)
  {
  }

  lemma {:induction false} PositionIs<K, V>(chains: seq<seq<Pair<K, V>>>, hash: K -> nat, i: nat)
    requires InPlace(chains, hash) && i < |chains|
    ensures Position(Flat(chains), i, hash, |chains|) == |Flat(chains[..i])|
  {
    var a, b, all := Flat(chains[..i]), Flat(chains[i + 1..]), Flat(chains);
    FlatAround(chains, i);
    forall j | 0 <= j < |all|
      ensures hash(all[j].key) % |chains| < i <==> j < |a|
    {
      if j < |a| {
        assert all[j] == a[j];
        SlotElsewhere(chains, hash, i, all[j]);
      } else if j < |a| + |chains[i]| {
        assert all[j] == chains[i][j - |a|];
      } else {
        assert all[j] == b[j - |a| - |chains[i]|];
        SlotElsewhere(chains, hash, i, all[j]);
      }
    }
    PositionOf(all, i, hash, |chains|, |a|);
  }

  lemma {:induction false} PositionOf<K, V>(e: seq<Pair<K, V>>, slot: nat, hash: K -> nat, cap: nat, n: nat)
    requires cap > 0 && n <= |e|
    requires forall j :: 0 <= j < |e| ==> (hash(e[j].key) % cap < slot <==> j < n)
    ensures Position(e, slot, hash, cap) == n
  {
    var p := Position(e, slot, hash, cap);
    if p < |e| {
      assert hash(e[p].key) % cap >= slot;
    }
    if n < |e| {
      assert hash(e[n].key) % cap >= slot;
    }
  }

  /** A pair unlinked from its chain is gone from the sequence, and nothing else is. */
  lemma {:induction false} UnlinkIsRemove<K, V>(chains: seq<seq<Pair<K, V>>>, hash: K -> nat, i: nat, c: nat)
    requires i < |chains| && c < |chains[i]| && InPlace(chains, hash)
    ensures |Flat(chains[..i])| + c < |Flat(chains)|
    ensures var new_ := chains[i := RemoveAt(chains[i], c)];
            Flat(new_) == RemoveAt(Flat(chains), |Flat(chains[..i])| + c) && InPlace(new_, hash)
  {
    var new_ := chains[i := RemoveAt(chains[i], c)];
    var a, b := Flat(chains[..i]), Flat(chains[i + 1..]);
    FlatAround(chains, i);
    FlatAround(new_, i);
    assert new_[..i] == chains[..i] && new_[i + 1..] == chains[i + 1..];
    var all := Flat(chains);
    assert all[..|a| + c] == a + chains[i][..c];
    assert all[|a| + c + 1..] == chains[i][c + 1..] + b;
  }

  // ---- statistics ----

  function NonEmpty<T>(chains: seq<seq<T>>): nat {
    if chains == [] then 0 else (if chains[0] == [] then 0 else 1) + NonEmpty(chains[1..])
  }

  function Longest<T>(chains: seq<seq<T>>): nat {
    if chains == [] then 0 else
    var rest := Longest(chains[1..]);
    if |chains[0]| > rest then |chains[0]| else rest
  }

  lemma {:induction false} StatisticsSnoc<T>(chains: seq<seq<T>>, c: seq<T>)
    ensures NonEmpty(chains + [c]) == NonEmpty(chains) + if c == [] then 0 else 1
    ensures Longest(chains + [c]) == if |c| > Longest(chains) then |c| else Longest(chains)
    ensures |Flat(chains + [c])| == |Flat(chains)| + |c|
  {
    FlatConcat(chains, [c]);
    FlatSingle(c);
    if chains == [] {
      assert chains + [c] == [c] && [c][1..] == [];
    } else {
      StatisticsSnoc(chains[1..], c);
      assert (chains + [c])[1..] == chains[1..] + [c];
    }
  }

  /** The number of non-empty chains and the longest of them bound the number of pairs. */
  lemma {:induction false} StatisticsBound<T>(chains: seq<seq<T>>)
    ensures NonEmpty(chains) <= |chains|
    ensures |Flat(chains)| <= NonEmpty(chains) * Longest(chains)
    ensures NonEmpty(chains) == 0 <==> Flat(chains) == []
  {
    if chains != [] {
      var tail := chains[1..];
      StatisticsBound(tail);
      OneMoreChain(NonEmpty(tail), Longest(tail), Longest(chains), |chains[0]|);
    }
  }

  lemma {:induction false} OneMoreChain(n: nat, shorter: nat, longest: nat, c: nat)
    requires shorter <= longest && c <= longest
    ensures n * shorter <= n * longest && n * shorter + c <= (n + 1) * longest
  {
    assert n * longest == n * shorter + n * (longest - shorter);
    assert (n + 1) * longest == n * longest + longest;
  }

  function Average(size: nat, n: nat): nat {
    if n > 0 then size / n else 0
  }

  /** The quotient, rounded down. */
  lemma {:induction false} AverageBound(size: nat, n: nat)
    ensures n * Average(size, n) <= size
    ensures n > 0 ==> size < n * Average(size, n) + n
  {
  }

  ghost function Used<T>(chains: seq<seq<T>>): set<nat> {
    set i: nat | i < |chains| && chains[i] != []
  }

  /** What the two counters count: the chains with something in them, and the length of the longest, which some chain has. */
  lemma {:induction false} StatisticsMean<T>(chains: seq<seq<T>>)
    ensures NonEmpty(chains) == |Used(chains)|
    ensures forall i :: 0 <= i < |chains| ==> |chains[i]| <= Longest(chains)
    ensures chains != [] ==> exists i :: 0 <= i < |chains| && |chains[i]| == Longest(chains)
  {
    UsedCount(chains);
    LongestIs(chains);
  }

  lemma {:induction false} UsedCount<T>(chains: seq<seq<T>>)
    ensures NonEmpty(chains) == |Used(chains)|
    decreases |chains|
  {
    if chains != [] {
      var front, last := chains[..|chains| - 1], |chains| - 1;
      UsedCount(front);
      StatisticsSnoc(front, chains[last]);
      assert chains == front + [chains[last]];
      UsedSnoc(front, chains[last]);
    }
  }

  lemma {:induction false} UsedSnoc<T>(chains: seq<seq<T>>, c: seq<T>)
    ensures Used(chains + [c]) == Used(chains) + if c == [] then {} else {|chains|}
    ensures |chains| !in Used(chains)
  {
    forall i: nat
      ensures i in Used(chains + [c]) <==> i in Used(chains) || (i == |chains| && c != [])
    {
      assert i < |chains| ==> (chains + [c])[i] == chains[i];
    }
  }

  lemma {:induction false} LongestIs<T>(chains: seq<seq<T>>)
    ensures forall i :: 0 <= i < |chains| ==> |chains[i]| <= Longest(chains)
    ensures chains != [] ==> exists i :: 0 <= i < |chains| && |chains[i]| == Longest(chains)
  {
    if chains != [] {
      LongestIs(chains[1..]);
      forall i | 0 <= i < |chains|
        ensures |chains[i]| <= Longest(chains)
      {
        assert i > 0 ==> chains[i] == chains[1..][i - 1];
      }
      if |chains[0]| == Longest(chains) {
      } else if i :| 0 <= i < |chains[1..]| && |chains[1..][i]| == Longest(chains[1..]) {
        assert |chains[i + 1]| == Longest(chains);
      }
    }
  }
}
