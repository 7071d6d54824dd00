/** Every event keeps the server's invariant, and no request touches anybody else's memberships or session. */
module ServerSafety {
  import opened Strings
  import opened Assoc
  import opened Protocol
  import opened ServerSpec
  import opened ServerInvariants
  import opened Withdrawal

  /** The names whose session is on `fd`. */
  ghost function UsersOn(users: Users, fd: int): set<CString> {
    set p | p in users && p.value.fd == fd :: p.key
  }

  /** Nothing changes for anybody but the owner of `fd`. */
  ghost predicate Isolated(s: Server, t: Server, fd: int) {
    && t.slots == s.slots
    && (forall who :: who != fd ==> Memberships(t.groups, who) == Memberships(s.groups, who))
    && (forall who :: who != fd && who != -1 ==> UsersOn(t.users, who) == UsersOn(s.users, who))
  }

  // ---- users ----

  lemma {:induction false} UserOnIff(users: Users, fd: int)
    ensures UserOn(users, fd) < |users| <==> UsersOn(users, fd) != {}
  {
    var i := UserOn(users, fd);
    if i < |users| {
      assert users[i].key in UsersOn(users, fd);
    }
  }

  /** Members have a session whenever somebody is found on their fd. */
  lemma {:induction false} SessionsKept(users: Users, users': Users, who: int)
    requires UsersOn(users', who) == UsersOn(users, who)
    ensures UserOn(users, who) < |users| <==> UserOn(users', who) < |users'|
  {
    UserOnIff(users, who);
    UserOnIff(users', who);
  }

  /** Changing the record at one index changes nothing on the fds it neither had nor gets. */
  lemma {:induction false} UserUpdate(users: Users, i: nat, u: User, who: int)
    requires i < |users| && UniqueNames(users)
    ensures var t := users[i := users[i].(value := u)];
            && UniqueNames(t)
            && UsersOn(t, who) == (if users[i].value.fd == who then UsersOn(users, who) - {users[i].key} else UsersOn(users, who))
                                + (if u.fd == who then {users[i].key} else {})
  {
    var t := users[i := users[i].(value := u)];
    forall n | n in UsersOn(users, who) && n != users[i].key
      ensures n in UsersOn(t, who)
    {
      var j :| 0 <= j < |users| && users[j].value.fd == who && users[j].key == n;
      assert t[j] in t;
    }
    forall n | n in UsersOn(t, who)
      ensures if n == users[i].key then u.fd == who else n in UsersOn(users, who)
    {
      var j :| 0 <= j < |t| && t[j].value.fd == who && t[j].key == n;
      assert j != i ==> t[j] == users[j] && users[j] in users;
    }
    assert t[i] in t && users[i] in users;
  }

  lemma {:induction false} MarkedUpdate(users: Users, i: nat, u: User)
    requires i < |users| && SessionsMarked(users) && u.fd >= -1 && (u.loggedIn <==> u.fd != -1)
    ensures SessionsMarked(users[i := users[i].(value := u)])
  {
  }

  // ---- insertion ----

  lemma {:induction false} InsertFacts<V>(e: seq<Pair<CString, V>>, name: CString, v: V, cap: nat)
    requires cap > 0 && UniqueNames(e) && !Has(e, name)
    ensures var r := Insert(e, name, v, Djb2, cap);
            && UniqueNames(r)
            && forall p :: p in r <==> p == Pair(name, v) || p in e
  {
    var p := Position(e, Djb2(name) % cap, Djb2, cap);
    var r := Insert(e, name, v, Djb2, cap);
    forall i, j | 0 <= i < j < |r|
      ensures r[i].key != r[j].key
    {
      InsertedAt(e, p, Pair(name, v), i);
      InsertedAt(e, p, Pair(name, v), j);
    }
    forall q
      ensures q in r <==> q == Pair(name, v) || q in e
    {
      InsertedIn(e, p, Pair(name, v), q);
    }
  }

  // ---- ending a session ----

  lemma {:induction false} EndSessionFacts(s: Server, fd: int, who: int)
    requires UniqueNames(s.users) && SessionsMarked(s.users) && fd >= 0 && who != -1
    ensures var t := EndSession(s, fd);
            && UniqueNames(t.users) && SessionsMarked(t.users)
            && t.groups == s.groups && t.pool == s.pool && t.slots == s.slots
            && UsersOn(t.users, who) <= UsersOn(s.users, who)
            && (who != fd ==> UsersOn(t.users, who) == UsersOn(s.users, who))
            && (who == fd ==> (UsersOn(t.users, fd) == {} <==> |UsersOn(s.users, fd)| <= 1))
  {
    var i := UserOn(s.users, fd);
    if i < |s.users| {
      var u := s.users[i].value.(loggedIn := false, fd := -1);
      UserUpdate(s.users, i, u, who);
      MarkedUpdate(s.users, i, u);
      var n := s.users[i].key;
      assert n in UsersOn(s.users, fd);
      assert |UsersOn(s.users, fd) - {n}| == |UsersOn(s.users, fd)| - 1;
    } else {
      UserOnIff(s.users, fd);
    }
  }

  // ---- the parts of the invariant that speak of groups and pool ----

  /** `t` has the groups of `s` after a withdrawal of `fd`. */
  lemma {:induction false} WithdrawnKeeps(s: Server, fd: int, only: set<CString>, t: Server)
    requires Inv(s) && Withdrawn(s, fd, only, t)
    ensures Inv(t) && Isolated(s, t, fd)
    ensures Memberships(t.groups, fd) == set m | m in Memberships(s.groups, fd) && m.name !in only
  {
    WithdrawnGroupsOk(s, fd, only, t);
    WithdrawnKnown(s, fd, only, t);
    forall who | who != fd
      ensures Memberships(t.groups, who) == Memberships(s.groups, who)
    {
      SurvivorsMemberships(s.groups, fd, only, who);
    }
    SurvivorsMemberships(s.groups, fd, only, fd);
  }

  lemma {:induction false} WithdrawnGroupsOk(s: Server, fd: int, only: set<CString>, t: Server)
    requires GroupsOk(s.groups, s.pool) && Withdrawn(s, fd, only, t)
    ensures GroupsOk(t.groups, t.pool)
  {
    SurvivorsFine(s.groups, fd, only);
    SurvivorsConserve(s.groups, fd, only);
  }

  lemma {:induction false} WithdrawnKnown(s: Server, fd: int, only: set<CString>, t: Server)
    requires LiveGroups(s.groups) && MembersKnown(s) && Withdrawn(s, fd, only, t)
    ensures MembersKnown(t)
  {
    forall q, m | q in t.groups && m in q.value.members
      ensures Known(t.users, t.slots, m)
    {
      SurvivorsIn(s.groups, fd, only, q);
      var p :| p in s.groups && !Closes(p, fd, only) && q == After(p, fd, only);
      DropFacts(p.value, fd);
      assert m in p.value.members;
    }
  }

  // ---- leaving and cleaning up ----

  lemma {:induction false} LeaveKeeps(s: Server, fd: int, name: CString)
    requires Inv(s)
    ensures var t := Leave(s, fd, name);
            && Inv(t) && Isolated(s, t, fd) && t.users == s.users
            && Memberships(t.groups, fd) == set m | m in Memberships(s.groups, fd) && m.name != name
  {
    ConservedMeans(s.pool, s.groups);
    LeaveIsWithdrawn(s, fd, name);
    WithdrawnKeeps(s, fd, {name}, Leave(s, fd, name));
  }

  lemma {:induction false} CleanupKeeps(s: Server, fd: int)
    requires Inv(s) && fd >= 0
    ensures var t := Cleanup(s, fd);
            && Inv(t) && Isolated(s, t, fd)
            && Memberships(t.groups, fd) == {}
            && UsersOn(t.users, fd) <= UsersOn(s.users, fd)
            && (UsersOn(t.users, fd) == {} <==> |UsersOn(s.users, fd)| <= 1)
  {
    ConservedMeans(s.pool, s.groups);
    var w, all := WithdrawAll(s, fd), Names(s.groups);
    CleanupIsWithdrawal(s, fd);
    WithdrawnKeeps(s, fd, all, w);
    assert Memberships(w.groups, fd) == {};
    EndSessionKeeps(w, fd);
  }

  lemma {:induction false} EndSessionKeeps(s: Server, fd: int)
    requires Inv(s) && fd >= 0 && Memberships(s.groups, fd) == {}
    ensures var t := EndSession(s, fd);
            && Inv(t) && Isolated(s, t, fd) && t.groups == s.groups
            && UsersOn(t.users, fd) <= UsersOn(s.users, fd)
            && (UsersOn(t.users, fd) == {} <==> |UsersOn(s.users, fd)| <= 1)
  {
    var t := EndSession(s, fd);
    EndSessionFacts(s, fd, fd);
    forall who | who != fd && who != -1
      ensures UsersOn(t.users, who) == UsersOn(s.users, who)
    {
      EndSessionFacts(s, fd, who);
    }
    forall p, m | p in s.groups && m in p.value.members
      ensures Known(t.users, t.slots, m)
    {
      assert Known(s.users, s.slots, m);
      assert m == fd ==> Session(p.key, p.value.address) in Memberships(s.groups, fd);
      SessionsKept(s.users, t.users, m);
    }
  }

  // ---- sessions and groups that come ----

  lemma {:induction false} RegisterKeeps(s: Server, fd: int, msg: Msg, mem: Mem)
    requires Inv(s)
    ensures var t := Register(s, msg, mem).server;
            && Inv(t) && Isolated(s, t, fd) && t.groups == s.groups
            && (forall who :: who != -1 ==> UsersOn(t.users, who) == UsersOn(s.users, who))
  {
    var t := Register(s, msg, mem).server;
    if t != s {
      var a := ParseAuth(msg).value;
      InsertFacts(s.users, a.user, User(a.pass, false, -1), USER_BUCKETS);
      forall who | who != -1
        ensures UsersOn(t.users, who) == UsersOn(s.users, who)
      {
      }
      SessionsKeepKnown(s, t);
    }
  }

  /** Members stay known as long as no fd loses all its sessions. */
  lemma {:induction false} SessionsKeepKnown(s: Server, t: Server)
    requires MembersKnown(s) && t.slots == s.slots && t.groups == s.groups
    requires forall who :: who != -1 ==> UsersOn(t.users, who) >= UsersOn(s.users, who)
    ensures MembersKnown(t)
  {
    forall p, m | p in t.groups && m in p.value.members
      ensures Known(t.users, t.slots, m)
    {
      assert Known(s.users, s.slots, m);
      UserOnIff(s.users, m);
      UserOnIff(t.users, m);
    }
  }

  ghost function Started(s: Server, fd: int, i: nat): Server
    requires i < |s.users|
  {
    s.(users := s.users[i := s.users[i].(value := s.users[i].value.(loggedIn := true, fd := fd))])
  }

  lemma {:induction false} StartedKeeps(s: Server, fd: int, i: nat)
    requires Inv(s) && fd >= 0 && i < |s.users| && !s.users[i].value.loggedIn
    ensures var t := Started(s, fd, i);
            && Inv(t) && Isolated(s, t, fd)
            && UsersOn(t.users, fd) == UsersOn(s.users, fd) + {s.users[i].key}
  {
    var u := s.users[i].value.(loggedIn := true, fd := fd);
    var t := Started(s, fd, i);
    assert s.users[i] in s.users;
    MarkedUpdate(s.users, i, u);
    forall who | who != -1
      ensures UsersOn(t.users, who) == UsersOn(s.users, who) + if who == fd then {s.users[i].key} else {}
    {
      UserUpdate(s.users, i, u, who);
    }
    UserUpdate(s.users, i, u, fd);
    SessionsKeepKnown(s, t);
  }

  lemma {:induction false} LoginIs(s: Server, fd: int, msg: Msg)
    ensures var o := Login(s, fd, msg);
            if o.reply == SuccessMsg() then
              var i := IndexOf(s.users, ParseAuth(msg).value.user);
              i < |s.users| && !s.users[i].value.loggedIn && o.server == Started(s, fd, i)
            else o.server == s
  {
  }

  lemma {:induction false} LoginKeeps(s: Server, fd: int, msg: Msg)
    requires Inv(s) && fd >= 0
    ensures var o := Login(s, fd, msg); var t := o.server;
            && Inv(t) && Isolated(s, t, fd) && t.groups == s.groups
            && UsersOn(t.users, fd) == UsersOn(s.users, fd)
                                     + if o.reply == SuccessMsg() then {ParseAuth(msg).value.user} else {}
  {
    LoginIs(s, fd, msg);
    if Login(s, fd, msg).reply == SuccessMsg() {
      StartedKeeps(s, fd, IndexOf(s.users, ParseAuth(msg).value.user));
    }
  }

  ghost function Joined(s: Server, fd: int, i: nat): Server
    requires i < |s.groups|
  {
    s.(groups := s.groups[i := s.groups[i].(value := Grown(s.groups[i].value, fd))])
  }

  lemma {:induction false} JoinedKeeps(s: Server, fd: int, i: nat)
    requires Inv(s) && Known(s.users, s.slots, fd) && i < |s.groups|
    requires fd !in s.groups[i].value.members && s.groups[i].value.count < MAX_MEMBERS_PER_GROUP
    ensures var t := Joined(s, fd, i);
            && Inv(t) && Isolated(s, t, fd)
            && Memberships(t.groups, fd) == Memberships(s.groups, fd) + {Session(s.groups[i].key, s.groups[i].value.address)}
  {
    var t := Joined(s, fd, i);
    GrownGroup(s.groups, i, fd);
    assert s.groups[i] in s.groups;
    assert Addresses(t.groups) == Addresses(s.groups);
    forall p, m | p in t.groups && m in p.value.members
      ensures Known(t.users, t.slots, m)
    {
    }
  }

  lemma {:induction false} AddMemberIs(s: Server, fd: int, i: nat)
    requires Inv(s) && i < |s.groups|
    ensures var o, g := AddMember(s, fd, i), s.groups[i].value;
            if fd in g.members then
              o.server == s && o.reply == InfoMsg(g.address) && o.reply.tag == MSG_GROUP_INFO
            else if g.count < MAX_MEMBERS_PER_GROUP then
              o.server == Joined(s, fd, i) && o.reply == InfoMsg(g.address) && o.reply.tag == MSG_GROUP_INFO
            else
              o.server == s && o.reply == ErrorMsg(ERR_GROUP_FULL)
  {
    InfoIsInfo(s, i);
  }

  /** Adding `fd` to the group at index `i`: a reply carrying its address says that `fd` is in it now. */
  lemma {:induction false} AddMemberKeeps(s: Server, fd: int, i: nat)
    requires Inv(s) && Known(s.users, s.slots, fd) && i < |s.groups|
    ensures var o := AddMember(s, fd, i); var t := o.server;
            && Inv(t) && Isolated(s, t, fd) && t.users == s.users
            && Memberships(t.groups, fd) == Memberships(s.groups, fd)
                                          + if o.reply.tag == MSG_GROUP_INFO then {Session(s.groups[i].key, s.groups[i].value.address)} else {}
  {
    var p := s.groups[i];
    AddMemberIs(s, fd, i);
    if fd in p.value.members {
      assert p in s.groups && Session(p.key, p.value.address) in Memberships(s.groups, fd);
    } else if p.value.count < MAX_MEMBERS_PER_GROUP {
      JoinedKeeps(s, fd, i);
    }
  }

  /** The group-info reply of a live group is one, and carries its address. */
  lemma {:induction false} InfoIsInfo(s: Server, i: nat)
    requires GroupsOk(s.groups, s.pool) && i < |s.groups|
    ensures var a := s.groups[i].value.address;
            BuildGroupInfo(a.ip, a.port) == Some(InfoMsg(a)) && ParseGroupInfo(InfoMsg(a)) == Some(Mcast(a.ip, a.port))
  {
    ConservedMeans(s.pool, s.groups);
    PoolIsSound();
    var a := s.groups[i].value.address;
    assert Addresses(s.groups)[i] == a;
    GroupInfoRoundTrip(a.ip, a.port);
  }

  ghost function Grown(g: Group, fd: int): Group {
    g.(members := g.members + [fd], count := g.count + 1)
  }

  lemma {:induction false} GrownGroup(e: Groups, i: nat, fd: int)
    requires UniqueNames(e) && LiveGroups(e) && i < |e| && fd !in e[i].value.members && e[i].value.count < MAX_MEMBERS_PER_GROUP
    ensures var t := e[i := e[i].(value := Grown(e[i].value, fd))];
            && UniqueNames(t) && LiveGroups(t)
            && (forall p :: p in t ==> p == t[i] || p in e)
            && (forall who :: Memberships(t, who) == Memberships(e, who) + if who == fd then {Session(e[i].key, e[i].value.address)} else {})
  {
    var t := e[i := e[i].(value := Grown(e[i].value, fd))];
    assert e[i] in e && t[i] in t;
    forall who
      ensures Memberships(t, who) == Memberships(e, who) + if who == fd then {Session(e[i].key, e[i].value.address)} else {}
    {
      forall m | m in Memberships(e, who)
        ensures m in Memberships(t, who)
      {
        var j :| 0 <= j < |e| && who in e[j].value.members && m == Session(e[j].key, e[j].value.address);
        assert t[j] in t && who in t[j].value.members;
      }
    }
  }

  // ---- creating groups ----

  /** A free address makes a proper group-info reply. */
  lemma {:induction false} FreeAddressIsInfo(pool: seq<Mcast>, groups: Groups, a: Mcast)
    requires Conserved(pool, groups) && a in pool
    ensures BuildGroupInfo(a.ip, a.port) == Some(InfoMsg(a)) && ParseGroupInfo(InfoMsg(a)) == Some(Mcast(a.ip, a.port))
  {
    ConservedMeans(pool, groups);
    PoolIsSound();
    GroupInfoRoundTrip(a.ip, a.port);
  }

  ghost function Founded(s: Server, fd: int, name: CString): Server
    requires s.pool != []
  {
    s.(groups := Insert(s.groups, name, Group(s.pool[0], [fd], 1), Djb2, GROUP_BUCKETS), pool := s.pool[1..])
  }

  /** A create either founds a group, or leaves the groups alone and the address it may have taken is put back. */
  lemma {:induction false} CreateIs(s: Server, fd: int, msg: Msg, mem: Mem)
    requires Conserved(s.pool, s.groups)
    ensures var o := CreateGroup(s, fd, msg, mem);
            if o.reply.tag == MSG_GROUP_INFO then
              && TakesAddress(s, fd, msg) && mem.record && mem.list && mem.insert
              && o.reply == InfoMsg(s.pool[0])
              && o.server == Founded(s, fd, ParseGroup(msg).value)
            else if TakesAddress(s, fd, msg) then
              !(mem.record && mem.list && mem.insert) && o.server == s.(pool := s.pool[1..] + [s.pool[0]])
            else
              o.server == s
  {
    if TakesAddress(s, fd, msg) {
      ConservedMeans(s.pool, s.groups);
      if mem.record && mem.list && mem.insert {
        FreeAddressIsInfo(s.pool, s.groups, s.pool[0]);
        var name := ParseGroup(msg).value;
        var p := Position(s.groups, Djb2(name) % GROUP_BUCKETS, Djb2, GROUP_BUCKETS);
        var e := Insert(s.groups, name, Group(s.pool[0], [], 0), Djb2, GROUP_BUCKETS);
        InsertedAt(s.groups, p, Pair(name, Group(s.pool[0], [], 0)), p);
        InsertThenUpdate(s.groups, p, Pair(name, Group(s.pool[0], [], 0)), Pair(name, Group(s.pool[0], [fd], 1)));
        assert [] + [fd] == [fd];
      }
    }
  }

  lemma {:induction false} InsertMemberships(e: Groups, name: CString, a: Mcast, fd: int, who: int)
    requires UniqueNames(e) && !Has(e, name)
    ensures Memberships(Insert(e, name, Group(a, [fd], 1), Djb2, GROUP_BUCKETS), who)
         == Memberships(e, who) + if who == fd then {Session(name, a)} else {}
  {
    var g := Group(a, [fd], 1);
    InsertFacts(e, name, g, GROUP_BUCKETS);
    var t := Insert(e, name, g, Djb2, GROUP_BUCKETS);
    assert Pair(name, g) in t && fd in g.members;
  }

  lemma {:induction false} AddressesAround(a: Groups, x: Pair<CString, Group>, b: Groups)
    ensures multiset(Addresses(a + [x] + b)) == multiset([x.value.address]) + multiset(Addresses(a + b))
  {
    AddressesConcat(a + [x], b);
    AddressesConcat(a, [x]);
    AddressesConcat(a, b);
    assert Addresses([x]) == [x.value.address];
  }

  /** A free address moves from the pool to a new group. */
  lemma {:induction false} AddressMoves(pool: seq<Mcast>, a: Groups, x: Pair<CString, Group>, b: Groups)
    requires pool != [] && x.value.address == pool[0]
    ensures multiset(pool[1..]) + multiset(Addresses(a + [x] + b)) == multiset(pool) + multiset(Addresses(a + b))
  {
    AddressesAround(a, x, b);
    assert multiset([pool[0]] + pool[1..]) == multiset(pool) by {
      assert [pool[0]] + pool[1..] == pool;
    }
  }

  lemma {:induction false} InsertConserves(pool: seq<Mcast>, groups: Groups, name: CString, fd: int)
    requires pool != []
    ensures multiset(pool[1..])
          + multiset(Addresses(Insert(groups, name, Group(pool[0], [fd], 1), Djb2, GROUP_BUCKETS)))
         == multiset(pool) + multiset(Addresses(groups))
  {
    var p := Position(groups, Djb2(name) % GROUP_BUCKETS, Djb2, GROUP_BUCKETS);
    assert groups[..p] + groups[p..] == groups;
    AddressMoves(pool, groups[..p], Pair(name, Group(pool[0], [fd], 1)), groups[p..]);
  }

  lemma {:induction false} FoundedGroupsOk(s: Server, fd: int, name: CString)
    requires GroupsOk(s.groups, s.pool) && s.pool != [] && !Has(s.groups, name)
    ensures GroupsOk(Founded(s, fd, name).groups, Founded(s, fd, name).pool)
  {
    InsertFacts(s.groups, name, Group(s.pool[0], [fd], 1), GROUP_BUCKETS);
    InsertConserves(s.pool, s.groups, name, fd);
  }

  lemma {:induction false} FoundedKnown(s: Server, fd: int, name: CString)
    requires MembersKnown(s) && Known(s.users, s.slots, fd) && UniqueNames(s.groups) && s.pool != [] && !Has(s.groups, name)
    ensures MembersKnown(Founded(s, fd, name))
  {
    InsertFacts(s.groups, name, Group(s.pool[0], [fd], 1), GROUP_BUCKETS);
    var t := Founded(s, fd, name);
    forall p, m | p in t.groups && m in p.value.members
      ensures Known(t.users, t.slots, m)
    {
    }
  }

  lemma {:induction false} FoundedKeeps(s: Server, fd: int, name: CString)
    requires Inv(s) && Known(s.users, s.slots, fd) && s.pool != [] && !Has(s.groups, name)
    ensures var t := Founded(s, fd, name);
            && Inv(t) && Isolated(s, t, fd)
            && Memberships(t.groups, fd) == Memberships(s.groups, fd) + {Session(name, s.pool[0])}
  {
    var t := Founded(s, fd, name);
    FoundedGroupsOk(s, fd, name);
    FoundedKnown(s, fd, name);
    forall who
      ensures Memberships(t.groups, who) == Memberships(s.groups, who) + if who == fd then {Session(name, s.pool[0])} else {}
    {
      InsertMemberships(s.groups, name, s.pool[0], fd, who);
    }
  }

  lemma {:induction false} CreateKeeps(s: Server, fd: int, msg: Msg, mem: Mem)
    requires Inv(s) && fd >= 0 && fd in s.slots
    ensures var o := CreateGroup(s, fd, msg, mem); var t := o.server;
            && Inv(t) && Isolated(s, t, fd) && t.users == s.users
            && Memberships(t.groups, fd) == Memberships(s.groups, fd)
                                          + if o.reply.tag == MSG_GROUP_INFO then {Session(ParseGroup(msg).value, s.pool[0])} else {}
  {
    CreateIs(s, fd, msg, mem);
    if CreateGroup(s, fd, msg, mem).reply.tag == MSG_GROUP_INFO {
      FoundedKeeps(s, fd, ParseGroup(msg).value);
    } else if TakesAddress(s, fd, msg) {
      assert s.pool == [s.pool[0]] + s.pool[1..];
    }
  }

  lemma {:induction false} JoinIs(s: Server, fd: int, msg: Msg)
    ensures var o := JoinGroup(s, fd, msg);
            if LoggedInOn(s, fd) && ParseGroup(msg).Some? && Has(s.groups, ParseGroup(msg).value) then
              o == AddMember(s, fd, IndexOf(s.groups, ParseGroup(msg).value))
            else o.server == s && o.reply.tag == MSG_ERROR
  {
  }

  lemma {:induction false} JoinKeeps(s: Server, fd: int, msg: Msg)
    requires Inv(s) && fd >= 0 && fd in s.slots
    ensures var o := JoinGroup(s, fd, msg); var t := o.server;
            && Inv(t) && Isolated(s, t, fd) && t.users == s.users
            && if o.reply.tag == MSG_GROUP_INFO then
                 var i := IndexOf(s.groups, ParseGroup(msg).value);
                 && i < |s.groups| && o.reply == InfoMsg(s.groups[i].value.address)
                 && Memberships(t.groups, fd) == Memberships(s.groups, fd) + {Session(s.groups[i].key, s.groups[i].value.address)}
               else Memberships(t.groups, fd) == Memberships(s.groups, fd)
  {
    JoinIs(s, fd, msg);
    if LoggedInOn(s, fd) && ParseGroup(msg).Some? && Has(s.groups, ParseGroup(msg).value) {
      AddMemberIs(s, fd, IndexOf(s.groups, ParseGroup(msg).value));
      AddMemberKeeps(s, fd, IndexOf(s.groups, ParseGroup(msg).value));
    }
  }

  // ---- every event ----

  /** Whatever the message, the invariant survives it and nobody but the sender is affected. */
  lemma {:induction false} DispatchKeeps(s: Server, fd: int, msg: Msg, mem: Mem)
    requires Inv(s) && fd >= 0 && fd in s.slots
    ensures var t := Dispatch(s, fd, msg, mem).server;
            Inv(t) && Isolated(s, t, fd)
  {
    if msg.tag == MSG_REGISTER {
      RegisterKeeps(s, fd, msg, mem);
    } else if msg.tag == MSG_LOGIN {
      LoginKeeps(s, fd, msg);
    } else if msg.tag == MSG_LOGOUT || msg.tag == MSG_EXIT {
      CleanupKeeps(s, fd);
    } else if msg.tag == MSG_CREATE_GROUP {
      CreateKeeps(s, fd, msg, mem);
    } else if msg.tag == MSG_JOIN_GROUP {
      JoinKeeps(s, fd, msg);
    } else if msg.tag == MSG_LEAVE_GROUP {
      LeaveGroupKeeps(s, fd, msg);
    }
  }

  lemma {:induction false} LeaveGroupIs(s: Server, fd: int, msg: Msg)
    ensures var o := LeaveGroup(s, fd, msg);
            if o.reply == SuccessMsg() then ParseGroup(msg).Some? && o.server == Leave(s, fd, ParseGroup(msg).value)
            else o.server == s
  {
  }

  lemma {:induction false} LeaveGroupKeeps(s: Server, fd: int, msg: Msg)
    requires Inv(s)
    ensures var o := LeaveGroup(s, fd, msg); var t := o.server;
            && Inv(t) && Isolated(s, t, fd) && t.users == s.users
            && Memberships(t.groups, fd)
            == if o.reply == SuccessMsg() then (set m | m in Memberships(s.groups, fd) && m.name != ParseGroup(msg).value)
               else Memberships(s.groups, fd)
  {
    LeaveGroupIs(s, fd, msg);
    if LeaveGroup(s, fd, msg).reply == SuccessMsg() {
      LeaveKeeps(s, fd, ParseGroup(msg).value);
    }
  }

  /** After its cleanup a connection can be closed: nothing refers to its fd any more. */
  lemma {:induction false} CloseSlotKeeps(s: Server, i: nat)
    requires Inv(s) && i < |s.slots| && Memberships(s.groups, s.slots[i]) == {}
    ensures Inv(s.(slots := s.slots[i := -1]))
  {
    var t := s.(slots := s.slots[i := -1]);
    forall p, m | p in s.groups && m in p.value.members
      ensures Known(t.users, t.slots, m)
    {
      assert Known(s.users, s.slots, m);
      assert m == s.slots[i] ==> Session(p.key, p.value.address) in Memberships(s.groups, m);
      var j :| 0 <= j < |s.slots| && s.slots[j] == m;
      assert t.slots[j] == m;
    }
  }

  lemma {:induction false} FreeSlotIs(slots: seq<int>, i: nat)
    requires i <= |slots| && (i < |slots| ==> slots[i] < 0) && forall j :: 0 <= j < i ==> slots[j] >= 0
    ensures FreeSlot(slots) == i
  {
  }

  lemma {:induction false} AcceptKeeps(s: Server, fd: int)
    requires Inv(s) && Enabled(s, Accept(fd))
    ensures Inv(Step(s, Accept(fd)))
  {
    var t, i := Step(s, Accept(fd)), FreeSlot(s.slots);
    if i < |s.slots| {
      forall p, m | p in t.groups && m in p.value.members
        ensures Known(t.users, t.slots, m)
      {
        assert Known(s.users, s.slots, m);
        var j :| 0 <= j < |s.slots| && s.slots[j] == m;
        assert t.slots[j] == m;
      }
    }
  }

  /** A cleanup, then the end of the connection. */
  lemma {:induction false} GoneKeeps(s: Server, i: nat)
    requires Inv(s) && i < |s.slots| && s.slots[i] >= 0
    ensures Inv(Cleanup(s, s.slots[i]).(slots := s.slots[i := -1]))
  {
    CleanupKeeps(s, s.slots[i]);
    CloseSlotKeeps(Cleanup(s, s.slots[i]), i);
  }

  /** The invariant holds from one event to the next. */
  lemma {:induction false} StepKeeps(s: Server, e: Event)
    requires Inv(s) && Enabled(s, e)
    ensures Inv(Step(s, e))
  {
    match e
    case Accept(fd) => AcceptKeeps(s, fd);
    case Request(i, msg, mem) =>
      if msg.tag == MSG_EXIT {
        GoneKeeps(s, i);
      } else {
        DispatchKeeps(s, s.slots[i], msg, mem);
        OnlyExitCloses(s, s.slots[i], msg, mem);
      }
    case HangUp(i) => GoneKeeps(s, i);
  }

  lemma {:induction false} OnlyExitCloses(s: Server, fd: int, msg: Msg, mem: Mem)
    ensures Dispatch(s, fd, msg, mem).keepOpen <==> msg.tag != MSG_EXIT
  {
  }

  lemma {:induction false} CreateInv()
    ensures Inv(Create())
  {
    assert Addresses(Create().groups) == [];
  }
}
