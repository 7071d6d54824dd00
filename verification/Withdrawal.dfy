/** Taking an fd out of groups: what `Leave` does to one group and `Cleanup` to all of them, in one closed form. */
module Withdrawal {
  import opened Strings
  import opened Assoc
  import opened Protocol
  import opened ServerSpec
  import opened ServerInvariants

  // ---- the closed form ----

  /** Whether withdrawing `fd` from the groups in `only` touches this group, and whether it empties it. */
  ghost predicate Touched(p: Pair<CString, Group>, fd: int, only: set<CString>) {
    p.key in only && fd in p.value.members
  }

  ghost predicate Closes(p: Pair<CString, Group>, fd: int, only: set<CString>) {
    Touched(p, fd, only) && Drop(p.value, fd).count == 0
  }

  ghost function After(p: Pair<CString, Group>, fd: int, only: set<CString>): Pair<CString, Group> {
    if Touched(p, fd, only) then p.(value := Drop(p.value, fd)) else p
  }

  ghost function Kept(p: Pair<CString, Group>, fd: int, only: set<CString>): Groups {
    if Closes(p, fd, only) then [] else [After(p, fd, only)]
  }

  ghost function Freed(p: Pair<CString, Group>, fd: int, only: set<CString>): seq<Mcast> {
    if Closes(p, fd, only) then [p.value.address] else []
  }

  /** The groups that are left, in their old order. */
  ghost function Survivors(e: Groups, fd: int, only: set<CString>): Groups {
    if e == [] then [] else Kept(e[0], fd, only) + Survivors(e[1..], fd, only)
  }

  /** The addresses of the groups that were emptied, in iteration order. */
  ghost function Released(e: Groups, fd: int, only: set<CString>): seq<Mcast> {
    if e == [] then [] else Freed(e[0], fd, only) + Released(e[1..], fd, only)
  }

  ghost function Names(e: Groups): set<CString> {
    set p | p in e :: p.key
  }

  /** What `fd` is a member of: group names with their addresses. */
  ghost function Memberships(e: Groups, fd: int): set<Session> {
    set p | p in e && fd in p.value.members :: Session(p.key, p.value.address)
  }

  // ---- dropping one member ----

  lemma {:induction false} DropFacts(g: Group, fd: int)
    requires LiveGroup(g)
    ensures var d := Drop(g, fd);
            && d.address == g.address
            && d.count == |d.members| <= g.count
            && Distinct(d.members)
            && (d.count != 0 ==> LiveGroup(d))
            && forall m :: m in d.members <==> m in g.members && m != fd
  {
    var d, i := Drop(g, fd), FirstOf(g.members, fd);
    if i < |g.members| {
      assert forall k :: 0 <= k < |d.members| ==> d.members[k] == g.members[if k < i then k else k + 1];
      forall m | m in g.members && m != fd
        ensures m in d.members
      {
        var k :| 0 <= k < |g.members| && g.members[k] == m;
        assert d.members[if k < i then k else k - 1] == m;
      }
    }
  }

  // ---- what withdrawing keeps ----

  lemma {:induction false} SurvivorsIn(e: Groups, fd: int, only: set<CString>, q: Pair<CString, Group>)
    ensures q in Survivors(e, fd, only) <==> exists p :: p in e && !Closes(p, fd, only) && q == After(p, fd, only)
  {
    if e != [] {
      SurvivorsIn(e[1..], fd, only, q);
      var head := e[0];
      assert forall p :: p in e <==> p == head || p in e[1..];
      var rest := Survivors(e[1..], fd, only);
      assert Survivors(e, fd, only) == Kept(head, fd, only) + rest;
    }
  }

  lemma {:induction false} SurvivorsLive(e: Groups, fd: int, only: set<CString>)
    requires LiveGroups(e)
    ensures LiveGroups(Survivors(e, fd, only))
  {
    forall q | q in Survivors(e, fd, only)
      ensures LiveGroup(q.value)
    {
      SurvivorsIn(e, fd, only, q);
      var p :| p in e && !Closes(p, fd, only) && q == After(p, fd, only);
      DropFacts(p.value, fd);
    }
  }

  lemma {:induction false} SurvivorsUnique(e: Groups, fd: int, only: set<CString>)
    requires UniqueNames(e)
    ensures UniqueNames(Survivors(e, fd, only))
    ensures Names(Survivors(e, fd, only)) <= Names(e)
  {
    if e != [] {
      var rest, s := Survivors(e[1..], fd, only), Survivors(e, fd, only);
      SurvivorsUnique(e[1..], fd, only);
      assert forall p :: p in e[1..] ==> p in e && p.key != e[0].key;
      forall p | p in rest
        ensures p.key != e[0].key
      {
        assert p.key in Names(e[1..]);
      }
      forall p | p in s
        ensures p.key in Names(e)
      {
        assert p in rest ==> p.key in Names(e[1..]);
      }
    }
  }

  lemma {:induction false} AddressesConcat(a: Groups, b: Groups)
    ensures Addresses(a + b) == Addresses(a) + Addresses(b)
  {
  }

  lemma {:induction false} KeptConserves(p: Pair<CString, Group>, fd: int, only: set<CString>)
    ensures Addresses(Kept(p, fd, only)) + Freed(p, fd, only) == [p.value.address]
  {
  }

  /** Every address is still accounted for: with a survivor or among the released ones. */
  lemma {:induction false} SurvivorsConserve(e: Groups, fd: int, only: set<CString>)
    ensures multiset(Addresses(Survivors(e, fd, only))) + multiset(Released(e, fd, only)) == multiset(Addresses(e))
  {
    if e != [] {
      var p, tail := e[0], e[1..];
      SurvivorsConserve(tail, fd, only);
      KeptConserves(p, fd, only);
      AddressesConcat(Kept(p, fd, only), Survivors(tail, fd, only));
      assert Addresses(e) == [p.value.address] + Addresses(tail);
      assert multiset(Addresses(Kept(p, fd, only)) + Freed(p, fd, only)) == multiset([p.value.address]);
    }
  }

  /** Everybody else stays where they are, with the same addresses; `fd` stays outside `only`. */
  lemma {:induction false} SurvivorsMemberships(e: Groups, fd: int, only: set<CString>, who: int)
    requires LiveGroups(e)
    ensures Memberships(Survivors(e, fd, only), who)
         == if who == fd then (set m | m in Memberships(e, fd) && m.name !in only) else Memberships(e, who)
  {
    var after := Memberships(Survivors(e, fd, only), who);
    var want := if who == fd then (set m | m in Memberships(e, fd) && m.name !in only) else Memberships(e, who);
    forall m | m in after
      ensures m in want
    {
      var q :| q in Survivors(e, fd, only) && who in q.value.members && m == Session(q.key, q.value.address);
      SurvivorsIn(e, fd, only, q);
      var p :| p in e && !Closes(p, fd, only) && q == After(p, fd, only);
      DropFacts(p.value, fd);
    }
    forall m | m in want
      ensures m in after
    {
      var p :| p in e && who in p.value.members && m == Session(p.key, p.value.address);
      DropFacts(p.value, fd);
      SurvivorsIn(e, fd, only, After(p, fd, only));
      assert who in After(p, fd, only).value.members;
      assert !Closes(p, fd, only);
    }
  }

  // ---- leaving one group ----

  lemma {:induction false} SurvivorsConcat(a: Groups, b: Groups, fd: int, only: set<CString>)
    ensures Survivors(a + b, fd, only) == Survivors(a, fd, only) + Survivors(b, fd, only)
    ensures Released(a + b, fd, only) == Released(a, fd, only) + Released(b, fd, only)
  {
    if a == [] {
      assert a + b == b;
    } else {
      ConcatCons(a, b);
      SurvivorsConcat(a[1..], b, fd, only);
      Regroup(Kept(a[0], fd, only), Survivors(a[1..], fd, only), Survivors(b, fd, only));
      Regroup(Freed(a[0], fd, only), Released(a[1..], fd, only), Released(b, fd, only));
    }
  }

  lemma {:induction false} SurvivorsUntouched(e: Groups, fd: int, only: set<CString>)
    requires forall p :: p in e ==> !Touched(p, fd, only)
    ensures Survivors(e, fd, only) == e && Released(e, fd, only) == []
  {
    if e != [] {
      SurvivorsUntouched(e[1..], fd, only);
    }
  }

  lemma {:induction false} IndexIs<V>(e: seq<Pair<CString, V>>, i: nat)
    requires UniqueNames(e) && i < |e|
    ensures IndexOf(e, e[i].key) == i
  {
  }

  lemma {:induction false} SurvivorsOfOne(e: Groups, fd: int, name: CString)
    requires UniqueNames(e) && !Has(e, name)
    ensures Survivors(e, fd, {name}) == e && Released(e, fd, {name}) == []
  {
    forall p | p in e
      ensures !Touched(p, fd, {name})
    {
      var j :| 0 <= j < |e| && e[j] == p;
    }
    SurvivorsUntouched(e, fd, {name});
  }

  lemma {:induction false} SurvivorsAround(a: Groups, p: Pair<CString, Group>, b: Groups, fd: int, only: set<CString>)
    requires forall q :: q in a || q in b ==> !Touched(q, fd, only)
    ensures Survivors(a + [p] + b, fd, only) == a + Kept(p, fd, only) + b
    ensures Released(a + [p] + b, fd, only) == Freed(p, fd, only)
  {
    SurvivorsConcat(a + [p], b, fd, only);
    SurvivorsConcat(a, [p], fd, only);
    SurvivorsSingle(p, fd, only);
    SurvivorsUntouched(a, fd, only);
    SurvivorsUntouched(b, fd, only);
  }

  lemma {:induction false} SurvivorsSingle(p: Pair<CString, Group>, fd: int, only: set<CString>)
    ensures Survivors([p], fd, only) == Kept(p, fd, only) && Released([p], fd, only) == Freed(p, fd, only)
  {
    assert [p][1..] == [];
  }

  lemma {:induction false} LeaveFound(s: Server, fd: int, i: nat)
    requires UniqueNames(s.groups) && i < |s.groups| && |s.pool| < MULTICAST_POOL_SIZE
    ensures var p := s.groups[i];
            Leave(s, fd, p.key) == s.(groups := s.groups[..i] + Kept(p, fd, {p.key}) + s.groups[i + 1..],
                                      pool := s.pool + Freed(p, fd, {p.key}))
  {
    var p, e := s.groups[i], s.groups;
    var q := After(p, fd, {p.key});
    IndexIs(e, i);
    IndexIs(e[i := q], i);
    assert e[i := q] == e[..i] + [q] + e[i + 1..];
    if !Closes(p, fd, {p.key}) {
      assert s.pool + [] == s.pool;
      assert fd !in p.value.members ==> e[i := q] == e;
    } else {
      assert RemoveAt(e[i := q], i) == e[..i] + [] + e[i + 1..];
    }
  }

  /** `Leave` is the closed form for a single name. */
  lemma {:induction false} LeaveIsWithdrawal(s: Server, fd: int, name: CString)
    requires UniqueNames(s.groups) && |s.pool| + |s.groups| <= MULTICAST_POOL_SIZE
    ensures Leave(s, fd, name)
         == s.(groups := Survivors(s.groups, fd, {name}), pool := s.pool + Released(s.groups, fd, {name}))
  {
    var e, i := s.groups, IndexOf(s.groups, name);
    if i == |e| {
      SurvivorsOfOne(e, fd, name);
      assert s.pool + [] == s.pool;
    } else {
      LeaveFound(s, fd, i);
      assert e == e[..i] + [e[i]] + e[i + 1..];
      SurvivorsAround(e[..i], e[i], e[i + 1..], fd, {name});
    }
  }

  // ---- leaving all of them ----

  ghost function Leaves(s: Server, fd: int, names: seq<CString>): Server
    decreases |names|
  {
    if names == [] then s else Leaves(Leave(s, fd, names[0]), fd, names[1..])
  }

  lemma {:induction false} UniqueWithout<V>(e: seq<Pair<CString, V>>, i: nat)
    requires UniqueNames(e) && i < |e|
    ensures UniqueNames(RemoveAt(e, i))
  {
    assert forall j :: 0 <= j < |e| - 1 ==> RemoveAt(e, i)[j] == e[if j < i then j else j + 1];
  }

  lemma {:induction false} CloseFound(s: Server, done: Groups, p: Pair<CString, Group>, rest: Groups)
    requires s.groups == done + [p] + rest && UniqueNames(s.groups) && |s.pool| < MULTICAST_POOL_SIZE
    ensures CloseGroup(s, p.key) == s.(groups := done + rest, pool := s.pool + [p.value.address])
    ensures UniqueNames(done + rest)
  {
    IndexIs(s.groups, |done|);
    assert RemoveAt(s.groups, |done|) == done + rest;
    UniqueWithout(s.groups, |done|);
  }

  /** `t` is `s` with the groups from `rest` on withdrawn from. */
  ghost predicate SweptTo(s: Server, done: Groups, rest: Groups, fd: int, only: set<CString>, t: Server) {
    t == s.(groups := done + Survivors(rest, fd, only), pool := s.pool + Released(rest, fd, only))
  }

  lemma {:induction false} SweptClosing(s: Server, done: Groups, rest: Groups, fd: int, only: set<CString>, s1: Server, t: Server)
    requires rest != [] && Closes(rest[0], fd, only)
    requires s1 == s.(groups := s1.groups, pool := s.pool + [rest[0].value.address])
    requires SweptTo(s1, done, rest[1..], fd, only, t)
    ensures SweptTo(s, done, rest, fd, only, t)
  {
    SurvivorsCons(rest, fd, only);
    Regroup(s.pool, [rest[0].value.address], Released(rest[1..], fd, only));
  }

  lemma {:induction false} SweptKeeping(s: Server, done: Groups, rest: Groups, fd: int, only: set<CString>, t: Server)
    requires rest != [] && !Closes(rest[0], fd, only)
    requires SweptTo(s, done + [After(rest[0], fd, only)], rest[1..], fd, only, t)
    ensures SweptTo(s, done, rest, fd, only, t)
  {
    SurvivorsCons(rest, fd, only);
    Regroup(done, [After(rest[0], fd, only)], Survivors(rest[1..], fd, only));
  }

  lemma {:induction false} FirstCloses(s: Server, done: Groups, rest: Groups, fd: int, only: set<CString>, room: nat) returns (s1: Server)
    requires rest != [] && s.groups == done + Sweep(rest, fd) && UniqueNames(s.groups)
    requires rest[0].key in only && |s.pool| < MULTICAST_POOL_SIZE && room > 0 && Closes(rest[0], fd, only)
    ensures s1.groups == done + Sweep(rest[1..], fd) && UniqueNames(s1.groups)
    ensures s1 == s.(groups := s1.groups, pool := s.pool + [rest[0].value.address])
    ensures CloseGroups(s, Emptied(rest, fd, room)) == CloseGroups(s1, Emptied(rest[1..], fd, room - 1))
  {
    var p := rest[0];
    var head := p.(value := Drop(p.value, fd));
    EmptiedCons(rest, fd, only, room);
    assert s.groups == done + [head] + Sweep(rest[1..], fd);
    CloseFound(s, done, head, Sweep(rest[1..], fd));
    CloseGroupsCons(s, p.key, Emptied(rest[1..], fd, room - 1));
    s1 := CloseGroup(s, p.key);
  }

  lemma {:induction false} FirstStays(s: Server, done: Groups, rest: Groups, fd: int, only: set<CString>, room: nat)
    requires rest != [] && s.groups == done + Sweep(rest, fd)
    requires rest[0].key in only && room > 0 && !Closes(rest[0], fd, only)
    ensures s.groups == (done + [After(rest[0], fd, only)]) + Sweep(rest[1..], fd)
    ensures Emptied(rest, fd, room) == Emptied(rest[1..], fd, room)
  {
    EmptiedCons(rest, fd, only, room);
    Regroup(done, [After(rest[0], fd, only)], Sweep(rest[1..], fd));
  }

  /** Sweeping all groups and closing the emptied ones afterwards comes to the closed form; the
      fixed array has room for every emptied group and the queue for every released address. */
  lemma {:induction false} CloseSwept(s: Server, done: Groups, rest: Groups, fd: int, only: set<CString>, room: nat)
    requires s.groups == done + Sweep(rest, fd) && UniqueNames(s.groups)
    requires forall p :: p in rest ==> p.key in only
    requires |s.pool| + |rest| <= MULTICAST_POOL_SIZE && |rest| <= room
    ensures SweptTo(s, done, rest, fd, only, CloseGroups(s, Emptied(rest, fd, room)))
    decreases |rest|
  {
    if rest == [] {
      assert s.pool + [] == s.pool;
    } else if Closes(rest[0], fd, only) {
      var s1 := FirstCloses(s, done, rest, fd, only, room);
      CloseSwept(s1, done, rest[1..], fd, only, room - 1);
      SweptClosing(s, done, rest, fd, only, s1, CloseGroups(s1, Emptied(rest[1..], fd, room - 1)));
    } else {
      FirstStays(s, done, rest, fd, only, room);
      CloseSwept(s, done + [After(rest[0], fd, only)], rest[1..], fd, only, room);
      SweptKeeping(s, done, rest, fd, only, CloseGroups(s, Emptied(rest[1..], fd, room)));
    }
  }

  lemma {:induction false} EmptiedCons(e: Groups, fd: int, only: set<CString>, room: nat)
    requires e != [] && e[0].key in only && room > 0
    ensures Emptied(e, fd, room)
         == if Closes(e[0], fd, only) then [e[0].key] + Emptied(e[1..], fd, room - 1) else Emptied(e[1..], fd, room)
  {
  }

  lemma {:induction false} SurvivorsCons(e: Groups, fd: int, only: set<CString>)
    requires e != []
    ensures Survivors(e, fd, only)
         == if Closes(e[0], fd, only) then Survivors(e[1..], fd, only) else [After(e[0], fd, only)] + Survivors(e[1..], fd, only)
    ensures Released(e, fd, only)
         == if Closes(e[0], fd, only) then [e[0].value.address] + Released(e[1..], fd, only) else Released(e[1..], fd, only)
  {
  }

  lemma {:induction false} CloseGroupsCons(s: Server, name: CString, names: seq<CString>)
    ensures CloseGroups(s, [name] + names) == CloseGroups(CloseGroup(s, name), names)
  {
    assert ([name] + names)[1..] == names;
  }

  ghost function WithdrawAll(s: Server, fd: int): Server {
    var all := Names(s.groups);
    s.(groups := Survivors(s.groups, fd, all), pool := s.pool + Released(s.groups, fd, all))
  }

  /** `Cleanup` is the closed form for all groups, followed by the end of the session. */
  lemma {:induction false} CleanupIsWithdrawal(s: Server, fd: int)
    requires UniqueNames(s.groups) && |s.pool| + |s.groups| <= MULTICAST_POOL_SIZE
    ensures Cleanup(s, fd) == EndSession(WithdrawAll(s, fd), fd)
  {
    var all, s1 := Names(s.groups), s.(groups := Sweep(s.groups, fd));
    SweepNames(s.groups, fd);
    assert s1.groups == [] + Sweep(s.groups, fd);
    CloseSwept(s1, [], s.groups, fd, all, MAX_GROUPS);
    assert [] + Survivors(s.groups, fd, all) == Survivors(s.groups, fd, all);
  }

  lemma {:induction false} SweepNames(e: Groups, fd: int)
    ensures forall i :: 0 <= i < |e| ==> Sweep(e, fd)[i].key == e[i].key
  {
    if e != [] {
      SweepNames(e[1..], fd);
    }
  }

  // ---- one at a time, in any order ----

  lemma {:induction false} KeptTwice(p: Pair<CString, Group>, fd: int, a: set<CString>, b: set<CString>)
    requires LiveGroup(p.value) && a !! b
    ensures Survivors(Kept(p, fd, a), fd, b) == Kept(p, fd, a + b)
    ensures Freed(p, fd, a) + Released(Kept(p, fd, a), fd, b) == Freed(p, fd, a + b)
  {
    if !Closes(p, fd, a) {
      var q := After(p, fd, a);
      SurvivorsSingle(q, fd, b);
      DropFacts(p.value, fd);
    }
  }

  lemma {:induction false} SurvivorsTwice(e: Groups, fd: int, a: set<CString>, b: set<CString>)
    requires LiveGroups(e) && a !! b
    ensures Survivors(Survivors(e, fd, a), fd, b) == Survivors(e, fd, a + b)
    ensures multiset(Released(e, fd, a)) + multiset(Released(Survivors(e, fd, a), fd, b)) == multiset(Released(e, fd, a + b))
  {
    if e != [] {
      var p, tail := e[0], e[1..];
      forall q | q in tail
        ensures q in e
      {
      }
      SurvivorsTwice(tail, fd, a, b);
      KeptTwice(p, fd, a, b);
      SurvivorsConcat(Kept(p, fd, a), Survivors(tail, fd, a), fd, b);
    }
  }

  /** `t` is `s` after the withdrawal of `fd` from the groups in `only`; the released addresses may have
      come back to the pool in another order. */
  ghost predicate Withdrawn(s: Server, fd: int, only: set<CString>, t: Server) {
    && t.groups == Survivors(s.groups, fd, only)
    && multiset(t.pool) == multiset(s.pool) + multiset(Released(s.groups, fd, only))
    && t.users == s.users && t.slots == s.slots
  }

  lemma {:induction false} WithdrawnTwice(s: Server, fd: int, a: set<CString>, t: Server, b: set<CString>, u: Server)
    requires LiveGroups(s.groups) && a !! b && Withdrawn(s, fd, a, t) && Withdrawn(t, fd, b, u)
    ensures Withdrawn(s, fd, a + b, u)
  {
    SurvivorsTwice(s.groups, fd, a, b);
  }

  lemma {:induction false} LeaveIsWithdrawn(s: Server, fd: int, name: CString)
    requires UniqueNames(s.groups) && LiveGroups(s.groups)
    requires |s.pool| + |s.groups| <= MULTICAST_POOL_SIZE
    ensures var t := Leave(s, fd, name);
            && Withdrawn(s, fd, {name}, t)
            && UniqueNames(t.groups) && LiveGroups(t.groups)
            && |t.pool| + |t.groups| <= MULTICAST_POOL_SIZE
  {
    LeaveIsWithdrawal(s, fd, name);
    SurvivorsFine(s.groups, fd, {name});
  }

  ghost function ToSet(names: seq<CString>): set<CString> {
    set n | n in names
  }

  lemma {:induction false} ToSetCons(names: seq<CString>)
    requires names != [] && Distinct(names)
    ensures ToSet(names) == {names[0]} + ToSet(names[1..]) && names[0] !in ToSet(names[1..])
  {
  }

  /** Leaving the named groups one at a time comes to the closed form for that set of names, whatever the order. */
  lemma {:induction false} LeavesAreWithdrawal(s: Server, fd: int, names: seq<CString>)
    requires UniqueNames(s.groups) && LiveGroups(s.groups) && Distinct(names)
    requires |s.pool| + |s.groups| <= MULTICAST_POOL_SIZE
    ensures Withdrawn(s, fd, ToSet(names), Leaves(s, fd, names))
    decreases |names|
  {
    if names == [] {
      SurvivorsUntouched(s.groups, fd, {});
      assert ToSet(names) == {};
    } else {
      var n, tail := names[0], names[1..];
      LeaveIsWithdrawn(s, fd, n);
      LeavesAreWithdrawal(Leave(s, fd, n), fd, tail);
      ToSetCons(names);
      WithdrawnTwice(s, fd, {n}, Leave(s, fd, n), ToSet(tail), Leaves(s, fd, names));
    }
  }

  lemma {:induction false} SurvivorsFine(e: Groups, fd: int, only: set<CString>)
    requires UniqueNames(e) && LiveGroups(e)
    ensures UniqueNames(Survivors(e, fd, only)) && LiveGroups(Survivors(e, fd, only))
    ensures |Survivors(e, fd, only)| + |Released(e, fd, only)| == |e|
  {
    SurvivorsUnique(e, fd, only);
    SurvivorsLive(e, fd, only);
    SurvivorsCount(e, fd, only);
  }

  lemma {:induction false} SurvivorsCount(e: Groups, fd: int, only: set<CString>)
    ensures |Survivors(e, fd, only)| + |Released(e, fd, only)| == |e|
  {
    if e != [] {
      SurvivorsCount(e[1..], fd, only);
    }
  }

  /** cleanup_client is the same as leaving, one at a time and in any order, every group the fd is in,
      and then ending its session: the same groups, users and slots, and the same free addresses. */
  lemma {:induction false} CleanupIsLeaves(s: Server, fd: int, names: seq<CString>)
    requires UniqueNames(s.groups) && LiveGroups(s.groups)
    requires |s.pool| + |s.groups| <= MULTICAST_POOL_SIZE
    requires Distinct(names) && forall n :: n in names <==> exists p :: p in s.groups && p.key == n && fd in p.value.members
    ensures var c, l := Cleanup(s, fd), EndSession(Leaves(s, fd, names), fd);
            c == l.(pool := c.pool) && multiset(c.pool) == multiset(l.pool)
  {
    var only := ToSet(names);
    CleanupIsWithdrawal(s, fd);
    LeavesAreWithdrawal(s, fd, names);
    SameTouched(s.groups, fd, only, Names(s.groups));
  }

  lemma {:induction false} SameTouched(e: Groups, fd: int, a: set<CString>, b: set<CString>)
    requires forall p :: p in e ==> (Touched(p, fd, a) <==> Touched(p, fd, b))
    ensures Survivors(e, fd, a) == Survivors(e, fd, b) && Released(e, fd, a) == Released(e, fd, b)
  {
    if e != [] {
      assert forall p :: p in e[1..] ==> p in e;
      SameTouched(e[1..], fd, a, b);
    }
  }
}
