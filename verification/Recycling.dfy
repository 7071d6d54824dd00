/** The order in which multicast addresses are reused: first in, first out, as long as no create runs out of memory. */
module Recycling {
  import opened Strings
  import opened Assoc
  import opened Protocol
  import opened ServerSpec
  import opened ServerInvariants
  import opened Withdrawal
  import opened ServerSafety
  import opened ServerRuns

  /** How many addresses an event takes from the head of the queue: one for a create that passes all checks. */
  function Takes(s: Server, e: Event): nat
    requires Enabled(s, e)
  {
    if e.Request? && e.msg.tag == MSG_CREATE_GROUP && TakesAddress(s, s.slots[e.slot], e.msg) then 1 else 0
  }

  ghost function TakesInRun(s: Server, run: seq<Event>): nat
    requires ValidRun(s, run)
    decreases |run|
  {
    if run == [] then 0 else Takes(s, run[0]) + TakesInRun(Step(s, run[0]), run[1..])
  }

  /** `new` is `old` after `k` entries have gone from the head and some have come in at the tail. */
  ghost predicate Advanced(old_: seq<Mcast>, k: nat, new_: seq<Mcast>) {
    k <= |old_| && old_[k..] <= new_
  }

  lemma {:induction false} CleanupAdvances(s: Server, fd: int)
    requires Inv(s)
    ensures Advanced(s.pool, 0, Cleanup(s, fd).pool)
  {
    ConservedMeans(s.pool, s.groups);
    CleanupIsWithdrawal(s, fd);
    assert Cleanup(s, fd).pool == s.pool + Released(s.groups, fd, Names(s.groups));
  }

  lemma {:induction false} LeaveAdvances(s: Server, fd: int, msg: Msg)
    requires Inv(s)
    ensures Advanced(s.pool, 0, LeaveGroup(s, fd, msg).server.pool)
  {
    ConservedMeans(s.pool, s.groups);
    LeaveGroupIs(s, fd, msg);
    if LeaveGroup(s, fd, msg).reply == SuccessMsg() {
      LeaveIsWithdrawal(s, fd, ParseGroup(msg).value);
    }
  }

  lemma {:induction false} CreateAdvances(s: Server, fd: int, msg: Msg, mem: Mem)
    requires Inv(s)
    ensures Advanced(s.pool, if TakesAddress(s, fd, msg) then 1 else 0, CreateGroup(s, fd, msg, mem).server.pool)
  {
    CreateIs(s, fd, msg, mem);
  }

  lemma {:induction false} DispatchAdvances(s: Server, fd: int, msg: Msg, mem: Mem)
    requires Inv(s)
    ensures Advanced(s.pool, if msg.tag == MSG_CREATE_GROUP && TakesAddress(s, fd, msg) then 1 else 0, Dispatch(s, fd, msg, mem).server.pool)
  {
    if msg.tag == MSG_LOGOUT || msg.tag == MSG_EXIT {
      CleanupAdvances(s, fd);
    } else if msg.tag == MSG_LEAVE_GROUP {
      LeaveAdvances(s, fd, msg);
    } else if msg.tag == MSG_CREATE_GROUP {
      CreateAdvances(s, fd, msg, mem);
    } else {
      PoolUntouched(s, fd, msg, mem);
    }
  }

  lemma {:induction false} PoolUntouched(s: Server, fd: int, msg: Msg, mem: Mem)
    requires msg.tag !in {MSG_LOGOUT, MSG_EXIT, MSG_LEAVE_GROUP, MSG_CREATE_GROUP}
    ensures Dispatch(s, fd, msg, mem).server.pool == s.pool
  {
  }

  lemma {:induction false} StepAdvances(s: Server, e: Event)
    requires Inv(s) && Enabled(s, e)
    ensures Advanced(s.pool, Takes(s, e), Step(s, e).pool)
  {
    match e
    case Accept(fd) =>
    case Request(i, msg, mem) => DispatchAdvances(s, s.slots[i], msg, mem);
    case HangUp(i) => CleanupAdvances(s, s.slots[i]);
  }

  /** `a` is free, with `p` addresses in front of it in the queue. */
  ghost predicate FreeAt(s: Server, p: int, a: Mcast) {
    0 <= p < |s.pool| && s.pool[p] == a
  }

  /** Every event keeps `inv` and advances the queue by what it takes. */
  ghost predicate Advances(inv: Server -> bool, s: Server, e: Event) {
    inv(s) && Enabled(s, e) ==> inv(Step(s, e)) && Advanced(s.pool, Takes(s, e), Step(s, e).pool)
  }

  ghost predicate Advancing(inv: Server -> bool) {
    forall s, e :: Advances(inv, s, e)
  }

  lemma {:induction false} InvAdvances() returns (inv: Server -> bool)
    ensures Advancing(inv) && forall s :: inv(s) <==> Inv(s)
  {
    inv := s => Inv(s);
    forall s, e
      ensures Advances(inv, s, e)
    {
      if Inv(s) && Enabled(s, e) {
        StepKeeps(s, e);
        StepAdvances(s, e);
      }
    }
  }

  lemma {:induction false} MovesUp(old_: seq<Mcast>, k: nat, new_: seq<Mcast>, p: nat)
    requires Advanced(old_, k, new_) && k <= p < |old_|
    ensures p - k < |new_| && new_[p - k] == old_[p]
  {
    assert new_[p - k] == old_[k..][p - k];
  }

  /** An address with `p` others in front of it moves one place with every create that takes one, whether or not
      that create succeeds in the end, and has `q` left in front of it after `p - q` of them. */
  lemma {:induction false} QueuePosition(s: Server, run: seq<Event>, p: nat, q: nat, a: Mcast)
    requires Inv(s) && ValidRun(s, run) && FreeAt(s, p, a) && p == q + TakesInRun(s, run)
    ensures FreeAt(AfterRun(s, run), q, a)
  {
    var inv := InvAdvances();
    PositionKept(inv, s, run, p, q, a);
  }

  lemma {:induction false} PositionKept(inv: Server -> bool, s: Server, run: seq<Event>, p: nat, q: nat, a: Mcast)
    requires Advancing(inv) && inv(s) && ValidRun(s, run)
    requires FreeAt(s, p, a) && p == q + TakesInRun(s, run)
    ensures FreeAt(AfterRun(s, run), q, a)
    decreases |run|
  {
    if run != [] {
      var t, k := FirstOfRun(inv, s, run, p, a);
      PositionKept(inv, t, run[1..], p - k, q, a);
    }
  }

  lemma {:induction false} FirstOfRun(inv: Server -> bool, s: Server, run: seq<Event>, p: nat, a: Mcast) returns (t: Server, k: nat)
    requires Advancing(inv) && inv(s) && ValidRun(s, run) && run != [] && FreeAt(s, p, a) && TakesInRun(s, run) <= p
    ensures inv(t) && ValidRun(t, run[1..]) && AfterRun(t, run[1..]) == AfterRun(s, run)
    ensures k <= p && FreeAt(t, p - k, a) && TakesInRun(s, run) == k + TakesInRun(t, run[1..])
  {
    t, k := Step(s, run[0]), Takes(s, run[0]);
    assert Advances(inv, s, run[0]);
    MovesUp(s.pool, k, t.pool, p);
  }

  /** The create `e` took `a`: it founds its group on it, or puts it back at the tail if memory ran out. */
  ghost predicate HandsOut(t: Server, e: Event, a: Mcast, u: Server)
    requires Enabled(t, e) && e.Request? && ParseGroup(e.msg).Some? && t.pool != []
  {
    if e.mem.record && e.mem.list && e.mem.insert then
      var i := IndexOf(u.groups, ParseGroup(e.msg).value);
      i < |u.groups| && u.groups[i].value == Group(a, [t.slots[e.slot]], 1) && u.pool == t.pool[1..]
    else
      u.groups == t.groups && u.pool == t.pool[1..] + [a]
  }

  /** First in, first out: as long as no more than `p` creates have taken an address, the next create that takes one
      gets `a` exactly if it is the one after `p` of them, and no earlier one does. */
  lemma {:induction false} FifoTheorem(s: Server, run: seq<Event>, p: nat, a: Mcast, e: Event)
    requires Inv(s) && ValidRun(s, run) && FreeAt(s, p, a) && TakesInRun(s, run) <= p
    requires Enabled(AfterRun(s, run), e) && Takes(AfterRun(s, run), e) == 1
    ensures var t := AfterRun(s, run);
            && t.pool != [] && HandsOut(t, e, t.pool[0], Step(t, e))
            && (t.pool[0] == a <==> TakesInRun(s, run) == p)
  {
    var t, q := WhereNow(s, run, p, a);
    HandedOutAt(t, q, a, e);
  }

  lemma {:induction false} WhereNow(s: Server, run: seq<Event>, p: nat, a: Mcast) returns (t: Server, q: nat)
    requires Inv(s) && ValidRun(s, run) && FreeAt(s, p, a) && TakesInRun(s, run) <= p
    ensures t == AfterRun(s, run) && q == p - TakesInRun(s, run) && Inv(t) && FreeAt(t, q, a)
  {
    t, q := AfterRun(s, run), p - TakesInRun(s, run);
    RunKeeps(s, run);
    QueuePosition(s, run, p, q, a);
  }

  /** A create takes the address at the head, and no address is in the queue twice. */
  lemma {:induction false} HandedOutAt(t: Server, q: nat, a: Mcast, e: Event)
    requires Inv(t) && FreeAt(t, q, a) && Enabled(t, e) && Takes(t, e) == 1
    ensures t.pool != [] && HandsOut(t, e, t.pool[0], Step(t, e))
    ensures t.pool[0] == a <==> q == 0
  {
    ConservedMeans(t.pool, t.groups);
    TakingStep(t, e);
  }

  lemma {:induction false} TakingStep(t: Server, e: Event)
    requires Inv(t) && Enabled(t, e) && Takes(t, e) == 1
    ensures HandsOut(t, e, t.pool[0], Step(t, e))
  {
    if e.mem.record && e.mem.list && e.mem.insert {
      SucceedingCreate(t, e.slot, e.msg, e.mem);
      FoundedIndex(t, t.slots[e.slot], ParseGroup(e.msg).value);
    } else {
      FailedCreate(t, e.slot, e.msg, e.mem);
    }
  }

  lemma {:induction false} SucceedingCreate(s: Server, i: nat, msg: Msg, mem: Mem)
    requires Inv(s) && i < |s.slots| && s.slots[i] >= 0 && mem.record && mem.list && mem.insert
    requires msg.tag == MSG_CREATE_GROUP && TakesAddress(s, s.slots[i], msg)
    ensures Step(s, Request(i, msg, mem)) == Founded(s, s.slots[i], ParseGroup(msg).value)
  {
    CreateSucceeds(s, s.slots[i], msg, mem);
    CreateIs(s, s.slots[i], msg, mem);
  }

  /** How many of those creates found a group. */
  ghost function FoundsInRun(s: Server, run: seq<Event>): nat
    requires ValidRun(s, run)
    decreases |run|
  {
    if run == [] then 0
    else (if Takes(s, run[0]) == 1 && run[0].mem.record && run[0].mem.list && run[0].mem.insert then 1 else 0)
         + FoundsInRun(Step(s, run[0]), run[1..])
  }

  ghost predicate NoneRunsOutOfMemory(s: Server, run: seq<Event>)
    requires ValidRun(s, run)
    decreases |run|
  {
    run != [] ==>
      && (Takes(s, run[0]) == 1 ==> run[0].mem.record && run[0].mem.list && run[0].mem.insert)
      && NoneRunsOutOfMemory(Step(s, run[0]), run[1..])
  }

  lemma {:induction false} SuccessesCount(s: Server, run: seq<Event>)
    requires ValidRun(s, run)
    ensures FoundsInRun(s, run) <= TakesInRun(s, run)
    ensures FoundsInRun(s, run) == TakesInRun(s, run) <==> NoneRunsOutOfMemory(s, run)
    decreases |run|
  {
    if run != [] {
      SuccessesCount(Step(s, run[0]), run[1..]);
    }
  }

  predicate Succeeds(e: Event)
    requires e.Request?
  {
    e.mem.record && e.mem.list && e.mem.insert
  }

  /** Counted in successful creates: as long as none runs out of memory, an address with `p` others in front of it is
      not handed out by the next `p` successful creates, and is by the one after them. */
  lemma {:induction false} RecycledInOrder(s: Server, run: seq<Event>, p: nat, a: Mcast, e: Event)
    requires Inv(s) && ValidRun(s, run) && FreeAt(s, p, a)
    requires NoneRunsOutOfMemory(s, run) && FoundsInRun(s, run) <= p
    requires Enabled(AfterRun(s, run), e) && Takes(AfterRun(s, run), e) == 1 && Succeeds(e)
    ensures var t := AfterRun(s, run);
            && t.pool != [] && HandsOut(t, e, t.pool[0], Step(t, e))
            && (t.pool[0] == a <==> FoundsInRun(s, run) == p)
  {
    SuccessesCount(s, run);
    FifoTheorem(s, run, p, a, e);
  }

  /** Up to the moment the address has come to the head, the law in terms of successful creates holds exactly unless
      it has come there and some create ran out of memory on the way. */
  lemma {:induction false} RecycledInOrderIff(s: Server, run: seq<Event>, p: nat, a: Mcast, e: Event)
    requires Inv(s) && ValidRun(s, run) && FreeAt(s, p, a) && TakesInRun(s, run) <= p
    requires Enabled(AfterRun(s, run), e) && Takes(AfterRun(s, run), e) == 1 && Succeeds(e)
    ensures var t := AfterRun(s, run);
            && t.pool != [] && HandsOut(t, e, t.pool[0], Step(t, e))
            && ((t.pool[0] == a <==> FoundsInRun(s, run) == p) <==> TakesInRun(s, run) < p || NoneRunsOutOfMemory(s, run))
  {
    SuccessesCount(s, run);
    FifoTheorem(s, run, p, a, e);
  }

  /** Out of memory once, and the order is broken: the same create sent again succeeds, and takes an address that had
      another in front of it although no create has succeeded in between. */
  lemma {:induction false} RecycledEarly(s: Server, i: nat, msg: Msg)
    requires Inv(s) && i < |s.slots| && s.slots[i] >= 0 && |s.pool| >= 2
    requires msg.tag == MSG_CREATE_GROUP && TakesAddress(s, s.slots[i], msg)
    ensures var fails, succeeds := Request(i, msg, Mem(false, false, false)), Request(i, msg, Mem(true, true, true));
            var t := Step(s, fails);
            && Enabled(s, fails) && Enabled(t, succeeds) && Takes(s, fails) == 1 && Takes(t, succeeds) == 1
            && ValidRun(s, [fails]) && FoundsInRun(s, [fails]) == 0 && FreeAt(s, 1, s.pool[1])
            && HandsOut(t, succeeds, s.pool[1], Step(t, succeeds))
  {
    var fails, succeeds := Request(i, msg, Mem(false, false, false)), Request(i, msg, Mem(true, true, true));
    var t := Step(s, fails);
    FailedCreate(s, i, msg, Mem(false, false, false));
    StepKeeps(s, fails);
    TakingStep(t, succeeds);
    assert ValidRun(t, []) && [fails][1..] == [];
  }

  /** A create without memory turns the queue by one place and changes nothing else. */
  lemma {:induction false} FailedCreate(s: Server, i: nat, msg: Msg, mem: Mem)
    requires Inv(s) && i < |s.slots| && s.slots[i] >= 0 && !(mem.record && mem.list && mem.insert)
    requires msg.tag == MSG_CREATE_GROUP && TakesAddress(s, s.slots[i], msg)
    ensures Step(s, Request(i, msg, mem)) == s.(pool := s.pool[1..] + [s.pool[0]])
  {
    CreateIs(s, s.slots[i], msg, mem);
  }

  lemma {:induction false} CreateSucceeds(s: Server, fd: int, msg: Msg, mem: Mem)
    requires Inv(s) && TakesAddress(s, fd, msg) && mem.record && mem.list && mem.insert
    ensures CreateGroup(s, fd, msg, mem).reply.tag == MSG_GROUP_INFO
  {
    CreateIs(s, fd, msg, mem);
  }

  lemma {:induction false} FoundedIndex(s: Server, fd: int, name: CString)
    requires UniqueNames(s.groups) && s.pool != [] && !Has(s.groups, name)
    ensures var u := Founded(s, fd, name); var i := IndexOf(u.groups, name);
            i < |u.groups| && u.groups[i].value == Group(s.pool[0], [fd], 1)
  {
    var p, u := Position(s.groups, Djb2(name) % GROUP_BUCKETS, Djb2, GROUP_BUCKETS), Founded(s, fd, name);
    InsertFacts(s.groups, name, Group(s.pool[0], [fd], 1), GROUP_BUCKETS);
    assert u.groups[p] == Pair(name, Group(s.pool[0], [fd], 1));
    IndexIs(u.groups, p);
  }

  // ---- from the release of an address to its reuse ----

  /** The group that `fd` alone is in. */
  ghost predicate AloneIn(p: Pair<CString, Group>, fd: int) {
    p.value.members == [fd]
  }

  /** Leaving a group as its last member puts its address behind all free ones. */
  lemma {:induction false} LeaveReleases(s: Server, fd: int, i: nat)
    requires Inv(s) && i < |s.groups| && AloneIn(s.groups[i], fd)
    ensures FreeAt(Leave(s, fd, s.groups[i].key), |s.pool|, s.groups[i].value.address)
  {
    ConservedMeans(s.pool, s.groups);
    var p := s.groups[i];
    assert p in s.groups;
    DropFacts(p.value, fd);
    LeaveFound(s, fd, i);
    AloneCloses(p, fd, {p.key});
  }

  lemma {:induction false} AloneCloses(p: Pair<CString, Group>, fd: int, only: set<CString>)
    requires LiveGroup(p.value) && p.key in only
    ensures Closes(p, fd, only) <==> AloneIn(p, fd)
  {
    if |p.value.members| == 1 {
      assert p.value.members == [p.value.members[0]];
    }
    DropFacts(p.value, fd);
  }

  /** A cleanup puts the addresses of the groups its fd is alone in behind all free ones, in iteration order. */
  lemma {:induction false} CleanupReleases(s: Server, fd: int)
    requires Inv(s)
    ensures Cleanup(s, fd).pool == s.pool + AloneAddresses(s.groups, fd)
  {
    ConservedMeans(s.pool, s.groups);
    CleanupIsWithdrawal(s, fd);
    ReleasedAre(s.groups, fd, Names(s.groups));
    assert Cleanup(s, fd).pool == s.pool + Released(s.groups, fd, Names(s.groups));
  }

  ghost function AloneAddresses(e: Groups, fd: int): seq<Mcast> {
    if e == [] then [] else (if AloneIn(e[0], fd) then [e[0].value.address] else []) + AloneAddresses(e[1..], fd)
  }

  lemma {:induction false} ReleasedAre(e: Groups, fd: int, only: set<CString>)
    requires LiveGroups(e) && forall p :: p in e ==> p.key in only
    ensures Released(e, fd, only) == AloneAddresses(e, fd)
  {
    if e != [] {
      assert e[0] in e;
      AloneCloses(e[0], fd, only);
      ReleasedAre(e[1..], fd, only);
    }
  }

  /** From release to reuse: an address released while `k` others are free is not handed out by the next `k` creates
      that take one, and is by the one after them. */
  lemma {:induction false} RecyclingTheorem(s: Server, fd: int, i: nat, run: seq<Event>, e: Event)
    requires Inv(s) && i < |s.groups| && AloneIn(s.groups[i], fd)
    requires var t := Leave(s, fd, s.groups[i].key); ValidRun(t, run) && TakesInRun(t, run) <= |s.pool|
    requires var u := AfterRun(Leave(s, fd, s.groups[i].key), run); Enabled(u, e) && Takes(u, e) == 1
    ensures var t := Leave(s, fd, s.groups[i].key);
            var u := AfterRun(t, run);
            && u.pool != [] && HandsOut(u, e, u.pool[0], Step(u, e))
            && (u.pool[0] == s.groups[i].value.address <==> TakesInRun(t, run) == |s.pool|)
  {
    LeaveReleases(s, fd, i);
    LeaveKeeps(s, fd, s.groups[i].key);
    FifoTheorem(Leave(s, fd, s.groups[i].key), run, |s.pool|, s.groups[i].value.address, e);
  }
}
