/** The group map of the server with the records it holds and their member lists. */
module GroupTables {
  import opened Strings
  import opened Assoc
  import opened Iteration
  import opened Lists
  import opened HashMaps
  import opened Protocol
  import opened ServerSpec
  import opened UserTables

  class GroupRecord {
    const name: CString
    const mcastIp: CString
    const mcastPort: port
    const members: List<int>
    var memberCount: int

    constructor (name: CString, address: Mcast, members: List<int>)
      ensures this.name == name && mcastIp == address.ip && mcastPort == address.port
      ensures this.members == members && memberCount == 0
    {
      this.name, mcastIp, mcastPort, this.members := name, address.ip, address.port, members;
      memberCount := 0;
    }
  }

  // ---- one record ----

  ghost predicate RecordHeld(r: GroupRecord, g: Group, own: set<object>)
    reads own
  {
    var l := r.members;
    && r in own && l in own && (forall n :: n in l.nodes ==> n in own)
    && l.Valid()
    && g == Group(Mcast(r.mcastIp, r.mcastPort), l.elements, r.memberCount)
  }

  /** calloc, ListCreate and the filling in of a new record. */
  method NewGroup(name: CString, me: Mcast) returns (r: GroupRecord, ghost mine: set<object>)
    ensures fresh(mine) && RecordHeld(r, Group(me, [], 0), mine) && r.name == name
  {
    var members := new List<int>();
    r := new GroupRecord(name, me, members);
    mine := {r, members} + set n: Node<int> | n in members.nodes;
  }

  /** match_fd: stop at the element that is the fd. */
  function MatchFd(elem: int, fd: int): (int, bool) {
    (fd, elem != fd)
  }

  lemma {:induction false} MatchFinds(s: seq<int>, fd: int)
    ensures var w, i := Iterate(s, MatchFd, fd), FirstOf(s, fd);
            (w.stopped <==> i < |s|) && w.calls == if i < |s| then i + 1 else i
  {
    if s != [] && s[0] != fd {
      MatchFinds(s[1..], fd);
    }
  }

  /** The iterator of the first member node with the fd, or the end iterator. */
  method FindMember(r: GroupRecord, fd: int, ghost g: Group, ghost own: set<object>) returns (itr: Node<int>, found: bool, ghost k: nat)
    requires RecordHeld(r, g, own)
    ensures found <==> fd in g.members
    ensures k == FirstOf(g.members, fd) + 1 < |r.members.nodes| && itr == r.members.nodes[k]
  {
    var l := r.members;
    var begin := l.Begin();
    var end := l.End();
    MatchFinds(g.members, fd);
    assert l.elements[0..|l.elements|] == g.members;
    var stop, _, at := l.ForEach(begin, end, MatchFd, fd, 1, |l.nodes| - 1);
    itr, found, k := stop, stop != end, at;
  }

  /** ListItrRemove on the member's node, and the counter. */
  method Unlink(r: GroupRecord, itr: Node<int>, ghost fd: int, ghost k: nat, ghost g: Group, ghost own: set<object>)
    requires RecordHeld(r, g, own) && fd in g.members
    requires k == FirstOf(g.members, fd) + 1 < |r.members.nodes| && itr == r.members.nodes[k]
    modifies r, r.members, r.members.nodes
    ensures RecordHeld(r, Drop(g, fd), own)
  {
    var _ := r.members.Remove(itr, k);
    r.memberCount := r.memberCount - 1;
  }

  function Joined(g: Group, fd: int): Group {
    g.(members := g.members + [fd], count := g.count + 1)
  }

  /** ListPushTail, and the counter. */
  method Append(r: GroupRecord, fd: int, ghost g: Group, ghost own: set<object>) returns (node: Node<int>)
    requires RecordHeld(r, g, own)
    modifies r, r.members, r.members.nodes
    ensures fresh(node) && RecordHeld(r, Joined(g, fd), own + {node})
  {
    node := r.members.PushTail(fd);
    r.memberCount := r.memberCount + 1;
  }

  // ---- all records ----

  ghost predicate GroupHeld(p: Pair<CString, GroupRecord>, q: Pair<CString, Group>, own: set<object>)
    reads own
  {
    p.key == q.key == p.value.name && RecordHeld(p.value, q.value, own)
  }

  ghost predicate GroupsHeld(e: seq<Pair<CString, GroupRecord>>, groups: Groups, owns: seq<set<object>>, space: set<object>)
    reads space
  {
    && |e| == |groups| == |owns|
    && (forall i :: 0 <= i < |e| ==> owns[i] <= space)
    && (forall i, j :: 0 <= i < j < |e| ==> owns[i] !! owns[j])
    && (forall i :: 0 <= i < |e| ==> GroupHeld(e[i], groups[i], owns[i]))
  }

  lemma {:induction false} GroupsHeldInsert(e: seq<Pair<CString, GroupRecord>>, groups: Groups, owns: seq<set<object>>, space: set<object>,
                                            x: Pair<CString, GroupRecord>, y: Pair<CString, Group>, mine: set<object>, p: nat)
    requires GroupsHeld(e, groups, owns, space) && p <= |e| && mine !! space && GroupHeld(x, y, mine)
    ensures GroupsHeld(e[..p] + [x] + e[p..], groups[..p] + [y] + groups[p..], owns[..p] + [mine] + owns[p..], space + mine)
  {
    var e', groups', owns' := e[..p] + [x] + e[p..], groups[..p] + [y] + groups[p..], owns[..p] + [mine] + owns[p..];
    forall i | 0 <= i <= |e|
      ensures owns'[i] <= space + mine && GroupHeld(e'[i], groups'[i], owns'[i])
    {
      InsertedAt(e, p, x, i);
      InsertedAt(groups, p, y, i);
      InsertedAt(owns, p, mine, i);
      assert i < p ==> GroupHeld(e[i], groups[i], owns[i]);
      assert i > p ==> GroupHeld(e[i - 1], groups[i - 1], owns[i - 1]);
    }
    forall i, j | 0 <= i < j <= |e|
      ensures owns'[i] !! owns'[j]
    {
      InsertedAt(owns, p, mine, i);
      InsertedAt(owns, p, mine, j);
    }
  }

  lemma {:induction false} GroupsHeldRemove(e: seq<Pair<CString, GroupRecord>>, groups: Groups, owns: seq<set<object>>, space: set<object>, k: nat)
    requires GroupsHeld(e, groups, owns, space) && k < |e|
    ensures GroupsHeld(RemoveAt(e, k), RemoveAt(groups, k), RemoveAt(owns, k), space)
  {
    forall i | 0 <= i < |e| - 1
      ensures RemoveAt(owns, k)[i] <= space && GroupHeld(RemoveAt(e, k)[i], RemoveAt(groups, k)[i], RemoveAt(owns, k)[i])
    {
      RemovedAt(e, k, i);
      RemovedAt(groups, k, i);
      RemovedAt(owns, k, i);
      var j := if i < k then i else i + 1;
      assert GroupHeld(e[j], groups[j], owns[j]);
    }
    forall i, j | 0 <= i < j < |e| - 1
      ensures RemoveAt(owns, k)[i] !! RemoveAt(owns, k)[j]
    {
      RemovedAt(owns, k, i);
      RemovedAt(owns, k, j);
    }
  }

  lemma {:induction false} GroupsHeldIn(e: seq<Pair<CString, GroupRecord>>, groups: Groups, owns: seq<set<object>>, space: set<object>, more: set<object>)
    requires GroupsHeld(e, groups, owns, space) && space <= more
    ensures GroupsHeld(e, groups, owns, more)
  {
  }

  /** All records but the one at `k` are held. */
  ghost predicate OthersHeld(e: seq<Pair<CString, GroupRecord>>, groups: Groups, owns: seq<set<object>>, k: nat)
    reads set i, o | 0 <= i < |owns| && i != k && o in owns[i] :: o
  {
    && |e| == |groups| == |owns|
    && forall i :: 0 <= i < |e| && i != k ==> GroupHeld(e[i], groups[i], owns[i])
  }

  lemma {:induction false} GroupsHeldUpdate(e: seq<Pair<CString, GroupRecord>>, groups: Groups, owns: seq<set<object>>, space: set<object>,
                                            k: nat, g: Group, more: set<object>)
    requires |e| == |groups| == |owns| && k < |e|
    requires forall i :: 0 <= i < |e| ==> owns[i] <= space
    requires forall i, j :: 0 <= i < j < |e| ==> owns[i] !! owns[j]
    requires more !! space && OthersHeld(e, groups, owns, k)
    requires e[k].key == groups[k].key == e[k].value.name && RecordHeld(e[k].value, g, owns[k] + more)
    ensures GroupsHeld(e, groups[k := groups[k].(value := g)], owns[k := owns[k] + more], space + more)
  {
    var groups', owns' := groups[k := groups[k].(value := g)], owns[k := owns[k] + more];
    forall i | 0 <= i < |e|
      ensures owns'[i] <= space + more && GroupHeld(e[i], groups'[i], owns'[i])
    {
      assert i != k ==> GroupHeld(e[i], groups[i], owns[i]);
    }
    forall i, j | 0 <= i < j < |e|
      ensures owns'[i] !! owns'[j]
    {
      assert owns[i] !! owns[j];
    }
  }

  // ---- the map and its records ----

  ghost predicate GroupPart(m: HashMap<CString, GroupRecord>, groups: Groups, owns: seq<set<object>>, space: set<object>)
    reads m, m.Repr, space
  {
    MapOk(m, GROUP_BUCKETS) && GroupsHeld(m.Entries(), groups, owns, space)
  }

  method AppendInPart(m: HashMap<CString, GroupRecord>, r: GroupRecord, fd: int,
                      ghost groups: Groups, ghost owns: seq<set<object>>, ghost space: set<object>, ghost i: nat)
    returns (node: Node<int>)
    requires GroupPart(m, groups, owns, space) && m.Repr !! space && i < |groups| && m.Entries()[i].value == r
    modifies space
    ensures fresh(node)
    ensures GroupPart(m, groups[i := groups[i].(value := Joined(groups[i].value, fd))], owns[i := owns[i] + {node}], space + {node})
  {
    ghost var e := m.Entries();
    assert GroupHeld(e[i], groups[i], owns[i]);
    node := Append(r, fd, groups[i].value, owns[i]);
    forall j | 0 <= j < |e| && j != i
      ensures GroupHeld(e[j], groups[j], owns[j])
    {
      assert old(GroupHeld(e[j], groups[j], owns[j])) && owns[j] !! owns[i];
    }
    GroupsHeldUpdate(e, groups, owns, space, i, Joined(groups[i].value, fd), {node});
  }

  method UnlinkInPart(m: HashMap<CString, GroupRecord>, r: GroupRecord, itr: Node<int>, ghost fd: int, ghost k: nat,
                      ghost groups: Groups, ghost owns: seq<set<object>>, ghost space: set<object>, ghost i: nat)
    requires GroupPart(m, groups, owns, space) && m.Repr !! space && i < |groups| && m.Entries()[i].value == r
    requires fd in groups[i].value.members
    requires k == FirstOf(groups[i].value.members, fd) + 1 < |r.members.nodes| && itr == r.members.nodes[k]
    modifies space
    ensures GroupPart(m, groups[i := groups[i].(value := Drop(groups[i].value, fd))], owns, space)
  {
    ghost var e := m.Entries();
    assert GroupHeld(e[i], groups[i], owns[i]);
    Unlink(r, itr, fd, k, groups[i].value, owns[i]);
    forall j | 0 <= j < |e| && j != i
      ensures GroupHeld(e[j], groups[j], owns[j])
    {
      assert old(GroupHeld(e[j], groups[j], owns[j])) && owns[j] !! owns[i];
    }
    assert owns[i] + {} == owns[i] && owns[i := owns[i]] == owns && space + {} == space;
    GroupsHeldUpdate(e, groups, owns, space, i, Drop(groups[i].value, fd), {});
  }

  ghost function WithGroup(groups: Groups, name: CString, g: Group): Groups {
    Assoc.Insert(groups, name, g, Djb2, GROUP_BUCKETS)
  }

  ghost function PlaceOf(groups: Groups, name: CString): nat {
    Position(groups, Djb2(name) % GROUP_BUCKETS, Djb2, GROUP_BUCKETS)
  }

  method InsertInPart(m: HashMap<CString, GroupRecord>, r: GroupRecord, mem: bool, ghost g: Group, ghost mine: set<object>,
                      ghost groups: Groups, ghost owns: seq<set<object>>, ghost space: set<object>)
    returns (ok: bool)
    requires GroupPart(m, groups, owns, space) && m.Repr !! space && mine !! space && mine !! m.Repr
    requires RecordHeld(r, g, mine) && !Has(groups, r.name)
    modifies m.Repr
    ensures ok == mem && fresh(m.Repr - old(m.Repr))
    ensures var p := PlaceOf(groups, r.name);
            && p <= |owns| && (ok ==> p < |m.Entries()| && m.Entries()[p].value == r)
            && if mem then GroupPart(m, WithGroup(groups, r.name, g), owns[..p] + [mine] + owns[p..], space + mine)
               else GroupPart(m, groups, owns, space + mine)
  {
    ghost var e := m.Entries();
    SameKeys(e, groups, r.name);
    SamePosition(e, groups, Djb2(r.name) % GROUP_BUCKETS, GROUP_BUCKETS);
    var result := m.Insert(r.name, r, mem, mem, mem);
    ok := result == MAP_SUCCESS;
    if ok {
      ghost var p := PlaceOf(groups, r.name);
      GroupsHeldInsert(e, groups, owns, space, Pair(r.name, r), Pair(r.name, g), mine, p);
      InsertedAt(e, p, Pair(r.name, r), p);
    } else {
      GroupsHeldIn(e, groups, owns, space, space + mine);
    }
  }

  method RemoveInPart(m: HashMap<CString, GroupRecord>, name: CString,
                      ghost groups: Groups, ghost owns: seq<set<object>>, ghost space: set<object>)
    returns (removed: Option<GroupRecord>)
    requires GroupPart(m, groups, owns, space) && m.Repr !! space
    modifies m.Repr
    ensures m.Repr == old(m.Repr)
    ensures var i := IndexOf(groups, name); if i == |groups| then removed == None && GroupPart(m, groups, owns, space)
            else removed.Some? && Mcast(removed.value.mcastIp, removed.value.mcastPort) == groups[i].value.address
                 && GroupPart(m, RemoveAt(groups, i), RemoveAt(owns, i), space)
  {
    ghost var e := m.Entries();
    ghost var i := IndexOf(groups, name);
    SameKeys(e, groups, name);
    assert i < |e| ==> GroupHeld(e[i], groups[i], owns[i]);
    var _, pair := m.Remove(name);
    if pair == None {
      return None;
    }
    GroupsHeldRemove(e, groups, owns, space, i);
    removed := Some(pair.value.value);
  }

  class GroupTable {
    ghost var groups: Groups
    ghost var owns: seq<set<object>>   // the heap objects of each record
    ghost var space: set<object>       // all of them
    ghost var Repr: set<object>

    const groupMap: HashMap<CString, GroupRecord>

    ghost predicate Valid()
      reads this, Repr
    {
      && groupMap in Repr && Apart(this, groupMap.Repr, space, Repr)
      && GroupPart(groupMap, groups, owns, space)
    }

    /** The ghost fields follow what has happened to the map. */
    ghost method Adopt(groups': Groups, owns': seq<set<object>>, space': set<object>, Repr': set<object>)
      requires GroupPart(groupMap, groups', owns', space') && groupMap in Repr' && Apart(this, groupMap.Repr, space', Repr')
      modifies this
      ensures Valid() && groups == groups' && owns == owns' && space == space' && Repr == Repr'
    {
      groups, owns, space, Repr := groups', owns', space', Repr';
      assert GroupPart(groupMap, groups, owns, space);
    }

    constructor ()
      ensures Valid() && fresh(Repr) && groups == []
    {
      var m := CreateMap<GroupRecord>(MAX_GROUPS, GROUP_BUCKETS);
      groupMap := m;
      groups, owns, space := [], [], {};
      Repr := {this} + m.Repr;
    }

    /** `r` is the record behind group `i`. */
    ghost predicate At(i: nat, r: GroupRecord)
      reads this, Repr
    {
      Valid() && i < |groups| && groupMap.Entries()[i].value == r
    }

    lemma {:induction false} RecordIs(r: GroupRecord, i: nat)
      requires At(i, r)
      ensures RecordHeld(r, groups[i].value, owns[i]) && r.name == groups[i].key && owns[i] <= Repr
    {
      assert GroupHeld(groupMap.Entries()[i], groups[i], owns[i]);
    }

    /** HashMap_Find */
    method FindGroup(name: CString) returns (r: Option<GroupRecord>, ghost i: nat)
      requires Valid()
      ensures i == IndexOf(groups, name) && (r.Some? <==> i < |groups|)
      ensures r.Some? ==> At(i, r.value)
    {
      i := Find(groupMap.Entries(), name, EqualString);
      SameKeys(groupMap.Entries(), groups, name);
      var _, found := groupMap.FindValue(name);
      r := found;
    }

    /** Every record, in iteration order. */
    method Records() returns (rs: seq<GroupRecord>)
      requires Valid()
      ensures |rs| == |groups| && forall i :: 0 <= i < |rs| ==> At(i, rs[i])
    {
      var pairs := groupMap.Pairs();
      rs := seq(|pairs|, i requires 0 <= i < |pairs| => pairs[i].value);
    }

    method AddTo(r: GroupRecord, fd: int, ghost i: nat) returns (ghost more: set<object>)
      requires At(i, r)
      modifies Repr
      ensures Valid() && fresh(more) && Repr == old(Repr) + more
      ensures groups == old(groups)[i := old(groups)[i].(value := Joined(old(groups)[i].value, fd))]
      ensures At(i, r)
    {
      var node := AppendInPart(groupMap, r, fd, groups, owns, space, i);
      more := {node};
      Adopt(groups[i := groups[i].(value := Joined(groups[i].value, fd))], owns[i := owns[i] + {node}], space + {node}, Repr + more);
    }

    method TakeFrom(r: GroupRecord, itr: Node<int>, ghost fd: int, ghost k: nat, ghost i: nat)
      requires At(i, r) && fd in groups[i].value.members
      requires k == FirstOf(groups[i].value.members, fd) + 1 < |r.members.nodes| && itr == r.members.nodes[k]
      modifies Repr
      ensures Valid() && Repr == old(Repr) && groupMap.Entries() == old(groupMap.Entries())
      ensures groups == old(groups)[i := old(groups)[i].(value := Drop(old(groups)[i].value, fd))]
    {
      UnlinkInPart(groupMap, r, itr, fd, k, groups, owns, space, i);
      Adopt(groups[i := groups[i].(value := Drop(groups[i].value, fd))], owns, space, Repr);
    }

    /** HashMap_Insert of a new record whose name is not in the map. */
    method InsertGroup(r: GroupRecord, mem: bool, ghost g: Group, ghost mine: set<object>) returns (ok: bool, ghost more: set<object>)
      requires Valid() && mine !! Repr && RecordHeld(r, g, mine) && !Has(groups, r.name)
      modifies Repr
      ensures Valid() && fresh(more) && Repr == old(Repr) + (more + mine) && ok == mem
      ensures groups == if mem then WithGroup(old(groups), r.name, g) else old(groups)
      ensures ok ==> At(PlaceOf(old(groups), r.name), r)
    {
      ghost var gs, os, sp, all, before := groups, owns, space, Repr, groupMap.Repr;
      ghost var p := PlaceOf(gs, r.name);
      ok := InsertInPart(groupMap, r, mem, g, mine, gs, os, sp);
      more := groupMap.Repr - before;
      StillApart(this, before, sp, all, groupMap.Repr, mine);
      if ok {
        Adopt(WithGroup(gs, r.name, g), os[..p] + [mine] + os[p..], sp + mine, all + (more + mine));
      } else {
        Adopt(gs, os, sp + mine, all + (more + mine));
      }
    }

    /** HashMap_Remove */
    method RemoveGroup(name: CString) returns (removed: Option<GroupRecord>)
      requires Valid()
      modifies Repr
      ensures Valid() && Repr == old(Repr)
      ensures var i := IndexOf(old(groups), name); if i == |old(groups)| then removed == None && groups == old(groups)
              else removed.Some? && Mcast(removed.value.mcastIp, removed.value.mcastPort) == old(groups)[i].value.address
                   && groups == RemoveAt(old(groups), i)
    {
      ghost var i := IndexOf(groups, name);
      removed := RemoveInPart(groupMap, name, groups, owns, space);
      if removed.Some? {
        Adopt(RemoveAt(groups, i), RemoveAt(owns, i), space, Repr);
      }
    }
  }
}
