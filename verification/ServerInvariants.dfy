/** What holds of the server between any two events. */
module ServerInvariants {
  import opened Strings
  import opened Assoc
  import opened Protocol
  import opened ServerSpec

  ghost predicate Distinct<T>(s: seq<T>) {
    forall i, j :: 0 <= i < j < |s| ==> s[i] != s[j]
  }

  ghost predicate UniqueNames<V>(e: seq<Pair<CString, V>>) {
    forall i, j :: 0 <= i < j < |e| ==> e[i].key != e[j].key
  }

  /** A live group: neither empty nor over-full, counted rightly, nobody in it twice. */
  ghost predicate LiveGroup(g: Group) {
    && g.count == |g.members|
    && 1 <= g.count <= MAX_MEMBERS_PER_GROUP
    && Distinct(g.members)
  }

  ghost predicate LiveGroups(groups: Groups) {
    forall p :: p in groups ==> LiveGroup(p.value)
  }

  function Addresses(groups: Groups): (a: seq<Mcast>)
    ensures |a| == |groups|
    ensures forall i :: 0 <= i < |a| ==> a[i] == groups[i].value.address
  {
    if groups == [] then [] else [groups[0].value.address] + Addresses(groups[1..])
  }

  /** The free addresses and those of the groups are exactly the preloaded ones, none lost, none twice. */
  ghost predicate Conserved(pool: seq<Mcast>, groups: Groups) {
    multiset(pool) + multiset(Addresses(groups)) == multiset(Preloaded())
  }

  ghost predicate SessionsMarked(users: Users) {
    forall p :: p in users ==> p.value.fd >= -1 && (p.value.loggedIn <==> p.value.fd != -1)
  }

  ghost predicate SlotsOk(slots: seq<int>) {
    && |slots| == MAX_CLIENTS
    && forall i, j :: 0 <= i < j < |slots| && slots[i] >= 0 ==> slots[i] != slots[j]
  }

  /** Connected, and the fd of somebody's session. */
  ghost predicate Known(users: Users, slots: seq<int>, m: int) {
    m >= 0 && m in slots && UserOn(users, m) < |users|
  }

  ghost predicate MembersKnown(s: Server) {
    forall p, m :: p in s.groups && m in p.value.members ==> Known(s.users, s.slots, m)
  }

  ghost predicate GroupsOk(groups: Groups, pool: seq<Mcast>) {
    UniqueNames(groups) && LiveGroups(groups) && Conserved(pool, groups)
  }

  ghost predicate UsersOk(users: Users) {
    UniqueNames(users) && SessionsMarked(users)
  }

  ghost predicate Inv(s: Server) {
    UsersOk(s.users) && GroupsOk(s.groups, s.pool) && SlotsOk(s.slots) && MembersKnown(s)
  }

  // ---- the address pool ----

  lemma {:induction false} DigitsDiffer(i: nat, j: nat)
    requires i < 100 && j < 100 && Digits(i) == Digits(j)
    ensures i == j
  {
    assert i >= 10 ==> Digits(i) == [48 + i / 10, 48 + i % 10];
    assert j >= 10 ==> Digits(j) == [48 + j / 10, 48 + j % 10];
  }

  lemma {:induction false} PoolAddressFits(i: nat)
    requires i < MULTICAST_POOL_SIZE
    ensures ValidStr(PoolAddress(i).ip, MAX_IP_LEN)
  {
    assert i + 1 >= 10 ==> Digits(i + 1) == [48 + (i + 1) / 10, 48 + (i + 1) % 10];
  }

  lemma {:induction false} PoolAddressesDiffer(i: nat, j: nat)
    requires i < j < MULTICAST_POOL_SIZE
    ensures PoolAddress(i) != PoolAddress(j)
  {
    assert PoolAddress(i).ip[8..] == Digits(i + 1) && PoolAddress(j).ip[8..] == Digits(j + 1);
    if Digits(i + 1) == Digits(j + 1) {
      DigitsDiffer(i + 1, j + 1);
    }
  }

  /** The sixteen preloaded addresses are pairwise distinct and fit the 16-byte fields. */
  lemma {:induction false} PoolIsSound()
    ensures var all := Preloaded();
            && |all| == MULTICAST_POOL_SIZE
            && Distinct(all)
            && forall a :: a in all ==> ValidStr(a.ip, MAX_IP_LEN) && a.port == MULTICAST_BASE_PORT
  {
    var all := Preloaded();
    forall i, j | 0 <= i < j < |all|
      ensures all[i] != all[j]
    {
      PoolAddressesDiffer(i, j);
    }
    forall i | 0 <= i < |all|
      ensures ValidStr(all[i].ip, MAX_IP_LEN)
    {
      PoolAddressFits(i);
    }
  }

  // ---- what conservation means ----

  /** No two live groups share an address, none of them is free, and there is room in the queue
      for the address of every live group: there are never more than sixteen groups. */
  lemma {:induction false} ConservedMeans(pool: seq<Mcast>, groups: Groups)
    requires Conserved(pool, groups)
    ensures |pool| + |groups| == MULTICAST_POOL_SIZE
    ensures Distinct(pool) && Distinct(Addresses(groups))
    ensures forall a :: a in pool ==> a !in Addresses(groups)
    ensures forall a :: a in Preloaded() <==> a in pool || a in Addresses(groups)
  {
    PoolIsSound();
    SplitOfDistinct(Preloaded(), pool, Addresses(groups));
  }

  lemma {:induction false} SplitOfDistinct<T>(all: seq<T>, a: seq<T>, b: seq<T>)
    requires Distinct(all) && multiset(a) + multiset(b) == multiset(all)
    ensures |a| + |b| == |all|
    ensures Distinct(a) && Distinct(b)
    ensures forall x :: x in a ==> x !in b
    ensures forall x :: x in all <==> x in a || x in b
  {
    assert |multiset(a) + multiset(b)| == |a| + |b|;
    DistinctOnce(all);
    forall x
      ensures multiset(a)[x] + multiset(b)[x] <= 1
    {
      assert multiset(all)[x] == multiset(a)[x] + multiset(b)[x];
    }
    OnceDistinct(a);
    OnceDistinct(b);
    forall x | x in a
      ensures x !in b
    {
      assert multiset(a)[x] >= 1 && (x in b <==> multiset(b)[x] >= 1);
    }
    forall x
      ensures x in all <==> x in a || x in b
    {
      assert x in multiset(all) <==> x in multiset(a) || x in multiset(b);
    }
  }

  lemma {:induction false} DistinctOnce<T>(s: seq<T>)
    requires Distinct(s)
    ensures forall x :: multiset(s)[x] <= 1
  {
    if s != [] {
      var t := s[..|s| - 1];
      DistinctOnce(t);
      assert s == t + [s[|s| - 1]];
      assert s[|s| - 1] !in t;
    }
  }

  lemma {:induction false} OnceDistinct<T>(s: seq<T>)
    requires forall x :: multiset(s)[x] <= 1
    ensures Distinct(s)
  {
    if s != [] {
      var t, x := s[..|s| - 1], s[|s| - 1];
      assert s == t + [x];
      assert forall y :: multiset(t)[y] <= multiset(s)[y];
      OnceDistinct(t);
      assert x !in t by {
        assert multiset(s)[x] == multiset(t)[x] + 1;
      }
    }
  }
}
