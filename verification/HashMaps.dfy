/** The hash map: lazily created lists in a prime number of buckets. */
module HashMaps {
  import opened Assoc
  import opened Iteration
  import opened Primes
  import opened Lists
  import opened Chains

  const MIN_CAPACITY := 4

  datatype MapResult = MAP_SUCCESS | MAP_KEY_DUPLICATE_ERROR | MAP_KEY_NOT_FOUND_ERROR | MAP_ALLOCATION_ERROR

  datatype MapStats = MapStats(numberOfBuckets: nat, numberOfChains: nat, maxChainLength: nat, averageChainLength: nat)

  /** A bucket is empty or a list with these elements, all of whose objects are among `own`. */
  ghost predicate Bucket<T>(b: List?<T>, chain: seq<T>, own: set<object>)
    reads own
  {
    if b == null then chain == []
    else
      var list: List<T> := b;
      && list in own && (forall n :: n in list.nodes ==> n in own)
      && list.Valid() && list.elements == chain
  }

  class HashMap<K(!new), V> {
    ghost var chains: seq<seq<Pair<K, V>>>   // the pairs bucket by bucket, each from the head of its list
    ghost var owned: seq<set<object>>        // the heap objects of each bucket
    ghost var Repr: set<object>

    const buckets: array<List?<Pair<K, V>>>
    var size: nat
    const hashFunc: K -> nat
    const keysEqualFunc: (K, K) -> bool

    /** The pairs in iteration order. */
    ghost function Entries(): seq<Pair<K, V>>
      reads this
    {
      Flat(chains)
    }

    /** Bucket `i` holds chain `i`, in heap objects of its own. */
    ghost predicate BucketOk(i: nat)
      requires i < buckets.Length && |chains| == |owned| == buckets.Length
      reads this`chains, this`owned, buckets, owned[i]
    {
      Bucket(buckets[i], chains[i], owned[i])
    }

    ghost predicate Separate()
      reads this
    {
      && |chains| == |owned| == buckets.Length
      && this in Repr && buckets in Repr
      && (forall i :: 0 <= i < |owned| ==> owned[i] <= Repr && this !in owned[i] && buckets !in owned[i])
      && (forall i, j :: 0 <= i < j < |owned| ==> owned[i] !! owned[j])
    }

    ghost predicate Content()
      reads this
    {
      && 0 < |chains| == buckets.Length && Prime(buckets.Length)
      && Lawful(hashFunc, keysEqualFunc)
      && InPlace(chains, hashFunc)
      && UniqueKeys(Entries(), keysEqualFunc)
      && size == |Entries()|
    }

    /** The pointer structure alone. */
    ghost predicate Heap()
      reads this, Repr
    {
      && this in Repr && buckets in Repr
      && Separate()
      && forall i :: 0 <= i < buckets.Length ==> BucketOk(i)
    }

    ghost predicate Valid()
      reads this, Repr
    {
      Heap() && Content()
    }

    /** HashMap_Create */
    constructor (capacity: nat, hashFunc: K -> nat, keysEqualFunc: (K, K) -> bool)
      requires capacity < U64 && Lawful(hashFunc, keysEqualFunc)
      ensures Valid() && Entries() == [] && fresh(Repr)
      ensures this.hashFunc == hashFunc && this.keysEqualFunc == keysEqualFunc
      ensures var least := if capacity < 4 then 4 else capacity;
              (exists q :: least <= q < U64 && Prime(q)) ==> LeastPrimeFrom(least, buckets.Length)
    {
      var primeCapacity := NextPrime(if capacity < MIN_CAPACITY then MIN_CAPACITY else capacity);
      buckets := new List?<Pair<K, V>>[primeCapacity](_ => null);
      size := 0;
      this.hashFunc, this.keysEqualFunc := hashFunc, keysEqualFunc;
      chains := seq(primeCapacity, _ => []);
      owned := seq(primeCapacity, _ => {});
      new;
      Repr := {this, buckets};
      FlatOfEmpty(chains);
    }

    lemma {:induction false} FlatOfEmpty<T>(c: seq<seq<T>>)
      requires forall i :: 0 <= i < |c| ==> c[i] == []
      ensures Flat(c) == []
      decreases |c|
    {
      if c != [] {
        FlatOfEmpty(c[1..]);
      }
    }

    function BucketIndex(key: K): (i: nat)
      requires buckets.Length > 0
      ensures i < buckets.Length
    {
      hashFunc(key) % buckets.Length
    }

    /** FindPairAction */
    function FindPairAction(key: K): (Pair<K, V>, Option<Pair<K, V>>) -> (Option<Pair<K, V>>, bool) {
      var eq := keysEqualFunc;
      (pair: Pair<K, V>, found: Option<Pair<K, V>>) => if eq(pair.key, key) then (Some(pair), false) else (found, true)
    }

    /** Searching a chain stops at the first pair with the key. */
    lemma {:induction false} SearchFinds(chain: seq<Pair<K, V>>, key: K, found: Option<Pair<K, V>>)
      ensures var w, i := Iterate(chain, FindPairAction(key), found), Find(chain, key, keysEqualFunc);
              w.context == (if i < |chain| then Some(chain[i]) else found) && (w.stopped <==> i < |chain|)
    {
      if chain != [] && !keysEqualFunc(chain[0].key, key) {
        SearchFinds(chain[1..], key, found);
      }
    }

    /** HashMap_Find */
    method FindValue(key: K) returns (r: MapResult, value: Option<V>)
      requires Valid()
      ensures value == Lookup(Entries(), key, keysEqualFunc)
      ensures r == if value.Some? then MAP_SUCCESS else MAP_KEY_NOT_FOUND_ERROR
    {
      var idx := BucketIndex(key);
      FindInChain(chains, key, hashFunc, keysEqualFunc);
      FlatAround(chains, idx);
      assert BucketOk(idx);
      if buckets[idx] == null {
        return MAP_KEY_NOT_FOUND_ERROR, None;
      }
      var found := SearchBucket(idx, key);
      if found == None {
        return MAP_KEY_NOT_FOUND_ERROR, None;
      }
      return MAP_SUCCESS, Some(found.value.value);
    }

    method SearchBucket(idx: nat, key: K) returns (found: Option<Pair<K, V>>)
      requires Valid() && idx < buckets.Length && buckets[idx] != null
      ensures var i := Find(chains[idx], key, keysEqualFunc);
              found == if i < |chains[idx]| then Some(chains[idx][i]) else None
    {
      assert BucketOk(idx);
      var list := buckets[idx];
      var begin := list.Begin();
      var end := list.End();
      SearchFinds(chains[idx], key, None);
      assert list.elements[0..|list.elements|] == chains[idx];
      var _, context, _ := list.ForEach(begin, end, FindPairAction(key), None, 1, |list.nodes| - 1);
      found := context;
    }

    /** The list of a bucket is created on first use. */
    method CreateBucket(idx: nat)
      requires Valid() && idx < buckets.Length && buckets[idx] == null
      modifies this, buckets
      ensures Valid() && fresh(Repr - old(Repr)) && chains == old(chains)
      ensures buckets[idx] != null
    {
      assert BucketOk(idx);
      var list := new List<Pair<K, V>>();
      ghost var mine: set<object> := {list} + (set n: Node<Pair<K, V>> | n in list.nodes);
      buckets[idx] := list;
      owned := owned[idx := mine];
      Repr := Repr + mine;
      forall j | 0 <= j < buckets.Length
        ensures BucketOk(j)
      {
        assert old(BucketOk(j));
      }
    }

    method PushOnBucket(idx: nat, pair: Pair<K, V>)
      requires Heap() && idx < buckets.Length && buckets[idx] != null
      modifies Repr
      ensures Heap() && fresh(Repr - old(Repr)) && size == old(size)
      ensures chains == old(chains)[idx := [pair] + old(chains)[idx]]
    {
      assert BucketOk(idx);
      var list := buckets[idx];
      var r := list.PushHead(pair);
      chains := chains[idx := [pair] + chains[idx]];
      owned := owned[idx := owned[idx] + {r}];
      Repr := Repr + {r};
      forall j | 0 <= j < buckets.Length && j != idx
        ensures BucketOk(j)
      {
        assert old(BucketOk(j)) && old(owned)[j] !! old(owned)[idx];
      }
    }

    method PushPair(idx: nat, pair: Pair<K, V>)
      requires Valid() && idx == BucketIndex(pair.key) && buckets[idx] != null
      requires Find(Entries(), pair.key, keysEqualFunc) == |Entries()|
      modifies Repr
      ensures Valid() && fresh(Repr - old(Repr))
      ensures Entries() == Assoc.Insert(old(Entries()), pair.key, pair.value, hashFunc, buckets.Length)
    {
      PushIsInsert(chains, pair.key, pair.value, hashFunc);
      InsertKeepsUnique(Entries(), pair.key, pair.value, hashFunc, keysEqualFunc, buckets.Length);
      PushOnBucket(idx, pair);
      size := size + 1;
    }

    /** HashMap_Insert; the flags say which of the allocations on the way succeed. */
    method Insert(key: K, value: V, listMem: bool, pairMem: bool, nodeMem: bool) returns (r: MapResult)
      requires Valid()
      modifies Repr
      ensures Valid() && fresh(Repr - old(Repr))
      ensures match r
              case MAP_SUCCESS => pairMem && nodeMem && Find(old(Entries()), key, keysEqualFunc) == |old(Entries())|
                                  && Entries() == Assoc.Insert(old(Entries()), key, value, hashFunc, buckets.Length)
              case MAP_KEY_DUPLICATE_ERROR => Find(old(Entries()), key, keysEqualFunc) < |old(Entries())| && Entries() == old(Entries())
              case MAP_ALLOCATION_ERROR => !(listMem && pairMem && nodeMem) && Entries() == old(Entries())
              case MAP_KEY_NOT_FOUND_ERROR => false
    {
      var idx := BucketIndex(key);
      if buckets[idx] == null {
        if !listMem {
          return MAP_ALLOCATION_ERROR;
        }
        CreateBucket(idx);
      }
      FindInChain(chains, key, hashFunc, keysEqualFunc);
      FlatAround(chains, idx);
      var found := SearchBucket(idx, key);
      if found != None {
        return MAP_KEY_DUPLICATE_ERROR;
      }
      if !pairMem || !nodeMem {
        return MAP_ALLOCATION_ERROR;
      }
      PushPair(idx, Pair(key, value));
      return MAP_SUCCESS;
    }

    /** HashMap_Remove */
    method Remove(searchKey: K) returns (r: MapResult, removed: Option<Pair<K, V>>)
      requires Valid()
      modifies Repr
      ensures Valid() && Repr == old(Repr)
      ensures var i := Find(old(Entries()), searchKey, keysEqualFunc);
              if i < |old(Entries())|
              then r == MAP_SUCCESS && removed == Some(old(Entries())[i]) && Entries() == RemoveAt(old(Entries()), i)
              else r == MAP_KEY_NOT_FOUND_ERROR && removed == None && Entries() == old(Entries())
    {
      var idx := BucketIndex(searchKey);
      FindInChain(chains, searchKey, hashFunc, keysEqualFunc);
      assert BucketOk(idx);
      if buckets[idx] == null {
        return MAP_KEY_NOT_FOUND_ERROR, None;
      }
      ghost var e, i := Entries(), Find(Entries(), searchKey, keysEqualFunc);
      var itr, pair, k := LocatePair(idx, searchKey);
      if pair == None {
        return MAP_KEY_NOT_FOUND_ERROR, None;
      }
      FlatIndex(chains, idx, k - 1);
      assert i < |e| && e[i] == pair.value;
      UnlinkPair(idx, itr, k, i);
      return MAP_SUCCESS, pair;
    }

    /** The search loop of HashMap_Remove, which keeps the iterator for the unlinking. */
    method LocatePair(idx: nat, searchKey: K) returns (itr: Node<Pair<K, V>>, pair: Option<Pair<K, V>>, ghost k: nat)
      requires Valid() && idx < buckets.Length && buckets[idx] != null
      ensures var list: List<Pair<K, V>> := buckets[idx]; var c := Find(chains[idx], searchKey, keysEqualFunc);
              && k == c + 1 < |list.nodes| && itr == list.nodes[k]
              && pair == (if c < |chains[idx]| then Some(chains[idx][c]) else None)
              && (c < |chains[idx]| ==> k < |list.nodes| - 1)
    {
      assert BucketOk(idx);
      var list := buckets[idx];
      ghost var chain := chains[idx];
      itr := list.Begin();
      var end := list.End();
      k := 1;
      while itr != end
        invariant 1 <= k < |list.nodes| && itr == list.nodes[k] && |list.nodes| == |chain| + 2
        invariant forall j :: 0 <= j < k - 1 ==> !keysEqualFunc(chain[j].key, searchKey)
        decreases |list.nodes| - k
      {
        pair := list.Get(itr, k);
        if keysEqualFunc(pair.value.key, searchKey) {
          FirstIs(chain, searchKey, keysEqualFunc, k - 1);
          return;
        }
        itr := list.Next(itr, k);
        k := k + 1;
      }
      FirstIs(chain, searchKey, keysEqualFunc, k - 1);
      pair := None;
    }

    method UnlinkFromBucket(idx: nat, itr: Node<Pair<K, V>>, ghost k: nat)
      requires Heap() && idx < buckets.Length && buckets[idx] != null
      requires var list: List<Pair<K, V>> := buckets[idx]; 1 <= k < |list.nodes| - 1 && list.nodes[k] == itr
      modifies Repr
      ensures Heap() && Repr == old(Repr) && size == old(size)
      ensures k - 1 < |old(chains)[idx]| && chains == old(chains)[idx := RemoveAt(old(chains)[idx], k - 1)]
    {
      assert BucketOk(idx);
      var list := buckets[idx];
      var _ := list.Remove(itr, k);
      chains := chains[idx := RemoveAt(chains[idx], k - 1)];
      forall j | 0 <= j < buckets.Length && j != idx
        ensures BucketOk(j)
      {
        assert old(BucketOk(j)) && old(owned)[j] !! old(owned)[idx];
      }
    }

    method UnlinkPair(idx: nat, itr: Node<Pair<K, V>>, ghost k: nat, ghost i: nat)
      requires Valid() && idx < buckets.Length && buckets[idx] != null
      requires i == |Flat(chains[..idx])| + k - 1
      requires var list: List<Pair<K, V>> := buckets[idx]; 1 <= k < |list.nodes| - 1 && list.nodes[k] == itr
      modifies Repr
      ensures Valid() && Repr == old(Repr)
      ensures i < |old(Entries())| && Entries() == RemoveAt(old(Entries()), i)
    {
      assert BucketOk(idx);
      UnlinkIsRemove(chains, hashFunc, idx, k - 1);
      RemoveKeepsUnique(Entries(), |Flat(chains[..idx])| + k - 1, keysEqualFunc);
      UnlinkFromBucket(idx, itr, k);
      assert Entries() == RemoveAt(old(Entries()), i) && InPlace(chains, hashFunc) && UniqueKeys(Entries(), keysEqualFunc);
      size := size - 1;
    }

    /** HashMap_Size */
    method Size() returns (n: nat)
      requires Valid()
      ensures n == |Entries()|
    {
      n := size;
    }

    /** HashMap_ForEach: on the pairs in iteration order, up to and including the first for which the action
        returns zero; returns how often it was called. */
    method ForEach<C>(action: (K, V, C) -> (C, bool), context: C) returns (invokeCount: nat, after: C)
      requires Valid()
      ensures var w := Iterate(Entries(), OnPairs(action), context); invokeCount == w.calls && after == w.context
    {
      var ctx := ForEachContext(context, 0, false);
      for i := 0 to buckets.Length
        invariant !ctx.stopped
        invariant var w := Iterate(Flat(chains[i..]), OnPairs(action), ctx.userContext);
                  Iterate(Entries(), OnPairs(action), context) == w.(calls := ctx.invokeCount + w.calls)
      {
        assert BucketOk(i);
        assert chains[i..][1..] == chains[i + 1..];
        IterateConcat(chains[i], Flat(chains[i + 1..]), OnPairs(action), ctx.userContext);
        if buckets[i] == null {
          continue;
        }
        ForEachCounts(chains[i], action, ctx);
        ctx := OnBucket(i, ForEachAction(action), ctx);
        if ctx.stopped {
          return ctx.invokeCount, ctx.userContext;
        }
      }
      return ctx.invokeCount, ctx.userContext;
    }

    method OnBucket<C>(i: nat, action: (Pair<K, V>, C) -> (C, bool), context: C) returns (after: C)
      requires Valid() && i < buckets.Length && buckets[i] != null
      ensures after == Iterate(chains[i], action, context).context
    {
      assert BucketOk(i);
      var list := buckets[i];
      var begin := list.Begin();
      var end := list.End();
      assert list.elements[0..|list.elements|] == chains[i];
      var _, c, _ := list.ForEach(begin, end, action, context, 1, |list.nodes| - 1);
      after := c;
    }

    /** Visits every pair, in iteration order, and hands them out as one sequence. */
    method Pairs() returns (pairs: seq<Pair<K, V>>)
      requires Valid()
      ensures pairs == Entries()
    {
      CollectsAll(Entries(), []);
      var _, all := ForEach(Collect<K, V>, []);
      pairs := all;
    }

    /** HashMap_GetStatistics */
    method GetStatistics() returns (stats: MapStats)
      requires Valid()
      ensures stats.numberOfBuckets == |chains|
      ensures stats.numberOfChains == |Used(chains)|
      ensures forall i :: 0 <= i < |chains| ==> |chains[i]| <= stats.maxChainLength
      ensures chains != [] ==> exists i :: 0 <= i < |chains| && |chains[i]| == stats.maxChainLength
      ensures stats.numberOfChains <= stats.numberOfBuckets
      ensures stats.numberOfChains * stats.averageChainLength <= size <= stats.numberOfChains * stats.maxChainLength
      ensures if size == 0 then stats.averageChainLength == 0
              else size < stats.numberOfChains * stats.averageChainLength + stats.numberOfChains
    {
      var numberOfChains, maxChainLength, total := 0, 0, 0;
      for i := 0 to buckets.Length
        invariant numberOfChains == NonEmpty(chains[..i]) && maxChainLength == Longest(chains[..i])
        invariant total == |Flat(chains[..i])|
      {
        assert BucketOk(i);
        assert chains[..i + 1] == chains[..i] + [chains[i]];
        StatisticsSnoc(chains[..i], chains[i]);
        if buckets[i] == null {
          continue;
        }
        var chainLen := buckets[i].Size();
        if chainLen == 0 {
          continue;
        }
        numberOfChains := numberOfChains + 1;
        total := total + chainLen;
        if chainLen > maxChainLength {
          maxChainLength := chainLen;
        }
      }
      assert chains[..buckets.Length] == chains;
      StatisticsBound(chains);
      StatisticsMean(chains);
      AverageBound(total, numberOfChains);
      stats := MapStats(buckets.Length, numberOfChains, maxChainLength, Average(total, numberOfChains));
    }
  }

  datatype ForEachContext<C> = ForEachContext(userContext: C, invokeCount: nat, stopped: bool)

  /** ForEachAction: calls the user's action, counts the call and notes whether it asked to stop. */
  function ForEachAction<K, V, C>(action: (K, V, C) -> (C, bool)): (Pair<K, V>, ForEachContext<C>) -> (ForEachContext<C>, bool) {
    (pair: Pair<K, V>, ctx: ForEachContext<C>) =>
      var (c, go) := action(pair.key, pair.value, ctx.userContext);
      (ForEachContext(c, ctx.invokeCount + 1, ctx.stopped || !go), go)
  }

  function Collect<K, V>(key: K, value: V, sofar: seq<Pair<K, V>>): (seq<Pair<K, V>>, bool) {
    (sofar + [Pair(key, value)], true)
  }

  lemma {:induction false} CollectsAll<K, V>(pairs: seq<Pair<K, V>>, sofar: seq<Pair<K, V>>)
    ensures Iterate(pairs, OnPairs(Collect<K, V>), sofar).context == sofar + pairs
  {
    if pairs != [] {
      CollectsAll(pairs[1..], sofar + [pairs[0]]);
      assert Pair(pairs[0].key, pairs[0].value) == pairs[0];
      assert Collect(pairs[0].key, pairs[0].value, sofar) == (sofar + [pairs[0]], true);
      assert sofar + [pairs[0]] + pairs[1..] == sofar + pairs;
    }
  }

  function OnPairs<K, V, C>(action: (K, V, C) -> (C, bool)): (Pair<K, V>, C) -> (C, bool) {
    (pair: Pair<K, V>, c: C) => action(pair.key, pair.value, c)
  }

  lemma {:induction false} ForEachCounts<K, V, C>(pairs: seq<Pair<K, V>>, action: (K, V, C) -> (C, bool), ctx: ForEachContext<C>)
    requires !ctx.stopped
    ensures var w := Iterate(pairs, OnPairs(action), ctx.userContext);
            Iterate(pairs, ForEachAction(action), ctx).context == ForEachContext(w.context, ctx.invokeCount + w.calls, w.stopped)
  {
    if pairs != [] {
      var (c, go) := action(pairs[0].key, pairs[0].value, ctx.userContext);
      if go {
        ForEachCounts(pairs[1..], action, ForEachContext(c, ctx.invokeCount + 1, false));
      }
    }
  }
}
