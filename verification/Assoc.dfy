/** What a separate-chaining table looks like from outside: its pairs in iteration order,
    bucket by bucket and each bucket from the head of its chain. */
module Assoc {
  datatype Pair<K, V> = Pair(key: K, value: V)

  /** `eq(a, b)` under a name of its own, so that the laws below are used only where a proof asks for them. */
  predicate Same<K>(eq: (K, K) -> bool, a: K, b: K) {
    eq(a, b)
  }

  /** The caller's side of the contract of a hash map: equality is an equivalence and equal keys hash equally. */
  ghost predicate Lawful<K(!new)>(hash: K -> nat, eq: (K, K) -> bool) {
    && (forall a :: Same(eq, a, a))
    && (forall a, b :: Same(eq, a, b) ==> Same(eq, b, a))
    && (forall a, b, c :: Same(eq, a, b) && Same(eq, b, c) ==> Same(eq, a, c))
    && (forall a, b :: Same(eq, a, b) ==> hash(a) == hash(b))
  }

  /** Index of the first pair with key `k`; the length when there is none. */
  function Find<K, V>(e: seq<Pair<K, V>>, k: K, eq: (K, K) -> bool): (i: nat)
    ensures i <= |e|
    ensures i < |e| ==> eq(e[i].key, k)
    ensures forall j :: 0 <= j < i ==> !eq(e[j].key, k)
  {
    if e == [] || eq(e[0].key, k) then 0 else 1 + Find(e[1..], k, eq)
  }

  ghost predicate UniqueKeys<K, V>(e: seq<Pair<K, V>>, eq: (K, K) -> bool) {
    forall i, j :: 0 <= i < j < |e| ==> !eq(e[i].key, e[j].key)
  }

  /** Where a new key goes: in front of every pair of its own bucket. */
  function Position<K, V>(e: seq<Pair<K, V>>, slot: nat, hash: K -> nat, cap: nat): (p: nat)
    requires cap > 0
    ensures p <= |e|
    ensures forall j :: 0 <= j < p ==> hash(e[j].key) % cap < slot
    ensures p < |e| ==> hash(e[p].key) % cap >= slot
  {
    if e == [] || hash(e[0].key) % cap >= slot then 0 else 1 + Position(e[1..], slot, hash, cap)
  }

  function Insert<K, V>(e: seq<Pair<K, V>>, k: K, v: V, hash: K -> nat, cap: nat): seq<Pair<K, V>>
    requires cap > 0
  {
    var p := Position(e, hash(k) % cap, hash, cap);
    e[..p] + [Pair(k, v)] + e[p..]
  }

  function RemoveAt<T>(e: seq<T>, i: nat): seq<T>
    requires i < |e|
  {
    e[..i] + e[i + 1..]
  }

  // ---- where elements go ----

  lemma {:induction false} RemovedAt<T>(s: seq<T>, k: nat, i: nat)
    requires k < |s| && i < |s| - 1
    ensures RemoveAt(s, k)[i] == s[if i < k then i else i + 1]
  {
  }

  lemma {:induction false} InsertedAt<T>(s: seq<T>, p: nat, x: T, i: nat)
    requires p <= |s| && i <= |s|
    ensures (s[..p] + [x] + s[p..])[i] == if i < p then s[i] else if i == p then x else s[i - 1]
  {
  }

  lemma {:induction false} Regroup<T>(a: seq<T>, b: seq<T>, c: seq<T>)
    ensures a + b + c == a + (b + c)
  {
  }

  lemma {:induction false} ConcatCons<T>(a: seq<T>, b: seq<T>)
    requires a != []
    ensures (a + b)[0] == a[0] && (a + b)[1..] == a[1..] + b
    ensures a + b == [a[0]] + (a[1..] + b)
  {
  }

  lemma {:induction false} InsertThenUpdate<T>(s: seq<T>, p: nat, x: T, y: T)
    requires p <= |s|
    ensures (s[..p] + [x] + s[p..])[p := y] == s[..p] + [y] + s[p..]
  {
  }

  lemma {:induction false} SplitSlice<T>(s: seq<T>, a: nat, b: nat, c: nat)
    requires a <= b <= c <= |s|
    ensures s[a..c] == s[a..b] + s[b..c]
  {
  }

  lemma {:induction false} SliceOfPrefix<T>(s: seq<T>, n: nat, a: nat, b: nat)
    requires a <= b <= n <= |s|
    ensures s[..n][a..b] == s[a..b] && s[..n][a..] == s[a..n]
  {
  }

  lemma {:induction false} HeadAndParts<T>(s: seq<T>, a: nat, b: nat)
    requires 1 <= a <= b <= |s|
    ensures s[..b] == [s[0]] + s[1..a] + s[a..b]
  {
  }

  lemma {:induction false} SliceOfSuffix<T>(s: seq<T>, a: nat, b: nat)
    requires a <= b <= |s|
    ensures s[a..][b - a..] == s[b..]
  {
  }

  lemma {:induction false} Sides<T>(a: seq<T>, b: seq<T>)
    ensures (a + b)[..|a|] == a && (a + b)[|a|..] == b
  {
  }

  lemma {:induction false} PushBetween<T>(a: seq<T>, x: T, m: seq<T>, b: seq<T>)
    ensures a + ([x] + m) + b == a + [x] + (m + b)
  {
  }

  /** Two fields, each behind its length. */
  lemma {:induction false} FieldsOf<T>(k: T, a: seq<T>, n: T, b: seq<T>)
    ensures var v := [k] + a + [n] + b;
            v[0] == k && v[1..1 + |a|] == a && v[1 + |a|] == n && v[2 + |a|..] == b
  {
  }

  lemma {:induction false} InsertedIn<T>(s: seq<T>, p: nat, x: T, y: T)
    requires p <= |s|
    ensures y in s[..p] + [x] + s[p..] <==> y == x || y in s
  {
    assert s == s[..p] + s[p..];
  }

  /** The value stored under `k`, as a mathematical map would give it. */
  datatype Option<+T> = None | Some(value: T)

  function Lookup<K, V>(e: seq<Pair<K, V>>, k: K, eq: (K, K) -> bool): Option<V> {
    var i := Find(e, k, eq);
    if i < |e| then Some(e[i].value) else None
  }

  /** `Find` is the only index with its contract. */
  lemma {:induction false} FirstIs<K, V>(e: seq<Pair<K, V>>, q: K, eq: (K, K) -> bool, i: nat)
    requires i <= |e| && (i < |e| ==> eq(e[i].key, q))
    requires forall j :: 0 <= j < i ==> !eq(e[j].key, q)
    ensures Find(e, q, eq) == i
  {
  }

  /** Equal keys are equal to the same keys. */
  lemma {:induction false} SameAs<K(!new)>(hash: K -> nat, eq: (K, K) -> bool, a: K, b: K, q: K)
    requires Lawful(hash, eq) && eq(a, b)
    ensures eq(a, q) == eq(b, q)
  {
    assert Same(eq, a, b) && Same(eq, b, a);
    assert Same(eq, a, q) == Same(eq, b, q);
  }

  /** A key equal to an absent key is absent. */
  lemma {:induction false} AbsentTogether<K(!new), V>(e: seq<Pair<K, V>>, k: K, q: K, hash: K -> nat, eq: (K, K) -> bool)
    requires Lawful(hash, eq) && eq(k, q) && Find(e, k, eq) == |e|
    ensures Find(e, q, eq) == |e|
  {
    assert Same(eq, k, q);
    assert forall j :: 0 <= j < |e| && Same(eq, e[j].key, q) ==> Same(eq, e[j].key, k);
    FirstIs(e, q, eq, |e|);
  }

  /** The only pair whose key equals `q` is the one that is found. */
  lemma {:induction false} FindIs<K(!new), V>(e: seq<Pair<K, V>>, q: K, hash: K -> nat, eq: (K, K) -> bool, i: nat)
    requires Lawful(hash, eq) && UniqueKeys(e, eq)
    requires i < |e| && eq(e[i].key, q)
    ensures Find(e, q, eq) == i
  {
    var f := Find(e, q, eq);
    var x, y := e[f].key, e[i].key;
    assert Same(eq, q, y) && Same(eq, x, q);
    assert Same(eq, x, y);
  }

  lemma {:induction false} InsertKeepsUnique<K(!new), V>(e: seq<Pair<K, V>>, k: K, v: V, hash: K -> nat, eq: (K, K) -> bool, cap: nat)
    requires Lawful(hash, eq) && UniqueKeys(e, eq) && cap > 0
    requires Find(e, k, eq) == |e|
    ensures UniqueKeys(Insert(e, k, v, hash, cap), eq)
  {
    var p := Position(e, hash(k) % cap, hash, cap);
    var r := Insert(e, k, v, hash, cap);
    forall j | 0 <= j < |e|
      ensures !eq(k, e[j].key) && !eq(e[j].key, k)
    {
      var x := e[j].key;
      assert Same(eq, k, x) == Same(eq, x, k);
    }
    forall i, j | 0 <= i < j < |r|
      ensures !eq(r[i].key, r[j].key)
    {
      assert r[i] == if i < p then e[i] else if i == p then Pair(k, v) else e[i - 1];
      assert r[j] == if j < p then e[j] else if j == p then Pair(k, v) else e[j - 1];
    }
  }

  /** Insertion is the map update `m[k := v]`: only the lookups of keys equal to `k` change. */
  lemma {:induction false} InsertIsUpdate<K(!new), V>(e: seq<Pair<K, V>>, k: K, v: V, hash: K -> nat, eq: (K, K) -> bool, cap: nat, q: K)
    requires Lawful(hash, eq) && cap > 0
    requires Find(e, k, eq) == |e|
    ensures Lookup(Insert(e, k, v, hash, cap), q, eq) == if eq(k, q) then Some(v) else Lookup(e, q, eq)
  {
    if eq(k, q) {
      AbsentTogether(e, k, q, hash, eq);
    }
    var p := Position(e, hash(k) % cap, hash, cap);
    assert e == e[..p] + e[p..];
    LookupAcross(e[..p], Pair(k, v), e[p..], q, eq);
  }

  lemma {:induction false} LookupAcross<K, V>(a: seq<Pair<K, V>>, x: Pair<K, V>, b: seq<Pair<K, V>>, q: K, eq: (K, K) -> bool)
    requires eq(x.key, q) ==> Find(a + b, q, eq) == |a + b|
    ensures Lookup(a + [x] + b, q, eq) == if eq(x.key, q) then Some(x.value) else Lookup(a + b, q, eq)
  {
    var r, f := a + [x] + b, Find(a + b, q, eq);
    var i := if f < |a| then f else if eq(x.key, q) then |a| else f + 1;
    forall j | 0 <= j < i
      ensures !eq(r[j].key, q)
    {
      assert r[j] == if j < |a| then (a + b)[j] else if j == |a| then x else (a + b)[j - 1];
    }
    FirstIs(r, q, eq, i);
  }

  /** Removal is the map restriction `m - {k}`: only the lookups of keys equal to `k` change. */
  lemma {:induction false} RemoveIsRestriction<K(!new), V>(e: seq<Pair<K, V>>, k: K, hash: K -> nat, eq: (K, K) -> bool, q: K)
    requires Lawful(hash, eq) && UniqueKeys(e, eq)
    requires Find(e, k, eq) < |e|
    ensures Lookup(RemoveAt(e, Find(e, k, eq)), q, eq) == if eq(k, q) then None else Lookup(e, q, eq)
  {
    var p := Find(e, k, eq);
    var x := e[p].key;
    SameAs(hash, eq, x, k, q);
    if eq(x, q) {
      RemovedIsAbsent(e, p, q, hash, eq);
    }
    assert e == e[..p] + [e[p]] + e[p + 1..];
    LookupAcross(e[..p], e[p], e[p + 1..], q, eq);
  }

  lemma {:induction false} RemovedIsAbsent<K(!new), V>(e: seq<Pair<K, V>>, p: nat, q: K, hash: K -> nat, eq: (K, K) -> bool)
    requires Lawful(hash, eq) && UniqueKeys(e, eq) && p < |e| && eq(e[p].key, q)
    ensures Find(RemoveAt(e, p), q, eq) == |e| - 1
  {
    var r := RemoveAt(e, p);
    forall j | 0 <= j < |r|
      ensures !eq(r[j].key, q)
    {
      var i := if j < p then j else j + 1;
      assert r[j] == e[i];
      if eq(e[i].key, q) {
        FindIs(e, q, hash, eq, p);
        FindIs(e, q, hash, eq, i);
      }
    }
    FirstIs(r, q, eq, |r|);
  }

  lemma {:induction false} RemoveKeepsUnique<K, V>(e: seq<Pair<K, V>>, i: nat, eq: (K, K) -> bool)
    requires UniqueKeys(e, eq) && i < |e|
    ensures UniqueKeys(RemoveAt(e, i), eq)
  {
    var r := RemoveAt(e, i);
    assert forall j :: 0 <= j < |r| ==> r[j] == e[if j < i then j else j + 1];
  }
}
