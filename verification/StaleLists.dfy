/** Why the addresses of a list that is out of date separate nothing: a client that has not heard yet that it has left a
    group still shows the group's address while another client founds its own group on it. */
module StaleLists {
  import opened Strings
  import opened Assoc
  import opened Protocol
  import opened ServerSpec
  import opened ServerInvariants
  import opened Withdrawal
  import opened ServerSafety
  import opened ClientSpec
  import opened System
  import opened Exchanges
  import opened LoginHistory
  import opened Recycling
  import opened Counterexamples

  // ---- the steps ----

  lemma {:induction false} Connects(s: System, i: nat, fd: int) returns (t: System)
    requires Reachable(s) && fd >= 0 && fd !in s.server.slots && FreeSlot(s.server.slots) == i < |s.server.slots|
    ensures Free(t, i, fd, Client(Connected, [], []))
    ensures t == System(s.server.(slots := s.server.slots[i := fd]), s.conns[fd := Conn(Client(Connected, [], []), Idle, true)])
  {
    t := Next(s, Connect(fd));
  }

  lemma {:induction false} RequestIsDispatch(s: Server, i: nat, msg: Msg, mem: Mem)
    requires i < |s.slots| && s.slots[i] >= 0 && msg.tag != MSG_EXIT
    ensures Enabled(s, Request(i, msg, mem)) && Step(s, Request(i, msg, mem)) == Dispatch(s, s.slots[i], msg, mem).server
  {
    ServerSafety.OnlyExitCloses(s, s.slots[i], msg, mem);
  }

  /** An account is registered. */
  lemma {:induction false} SignsUp(s: System, i: nat, fd: int, a: Auth) returns (t: System)
    requires Free(s, i, fd, Client(Connected, [], [])) && Record(s.server.users, a.user) == None
    requires ValidStr(a.user, MAX_USERNAME_LEN) && ValidStr(a.pass, MAX_PASSWORD_LEN)
    ensures Free(t, i, fd, Client(Connected, [], [])) && t.conns == s.conns && t.server == s.server.(users := t.server.users)
    ensures forall q :: Record(t.server.users, q) == if q == a.user then Some(User(a.pass, false, -1)) else Record(s.server.users, q)
  {
    ReachableInv(s);
    AccountMessages(a);
    var msg := BuildAuth(MSG_REGISTER, a.user, a.pass).value;
    RequestIsDispatch(s.server, i, msg, ALL);
    RegistersFresh(s.server, i, a, msg);
    t := Does(s, i, fd, Client(Connected, [], []), DoRegister(a.user, a.pass), msg, ALL);
    assert s.conns[fd := s.conns[fd]] == s.conns;
  }

  /** Its user logs in. */
  lemma {:induction false} SignsIn(s: System, i: nat, fd: int, a: Auth) returns (t: System)
    requires Free(s, i, fd, Client(Connected, [], [])) && Record(s.server.users, a.user) == Some(User(a.pass, false, -1))
    requires ValidStr(a.user, MAX_USERNAME_LEN) && ValidStr(a.pass, MAX_PASSWORD_LEN)
    ensures Free(t, i, fd, Client(LoggedIn, a.user, [])) && t.server == s.server.(users := t.server.users)
    ensures t.conns == s.conns[fd := Conn(Client(LoggedIn, a.user, []), Idle, true)]
    ensures forall q :: q != a.user ==> Record(t.server.users, q) == Record(s.server.users, q)
  {
    ReachableInv(s);
    AccountMessages(a);
    var msg := BuildAuth(MSG_LOGIN, a.user, a.pass).value;
    RequestIsDispatch(s.server, i, msg, ALL);
    LogsInFresh(s.server, i, a, msg);
    LoginSucceeds(s.server, fd, a, msg);
    t := Does(s, i, fd, Client(Connected, [], []), DoLogin(a.user, a.pass), msg, ALL);
  }

  lemma {:induction false} LoginSucceeds(s: Server, fd: int, a: Auth, msg: Msg)
    requires ParseAuth(msg) == Some(a) && msg.tag == MSG_LOGIN && Record(s.users, a.user) == Some(User(a.pass, false, -1))
    ensures Dispatch(s, fd, msg, ALL).reply == SuccessMsg()
  {
  }

  /** A group is founded on the address at the head of the queue. */
  lemma {:induction false} Founds(s: System, i: nat, fd: int, c: Client, name: CString) returns (t: System)
    requires Free(s, i, fd, c) && c.mode == LoggedIn && |c.sessions| < MAX_GROUPS
    requires ValidStr(name, MAX_GROUP_NAME_LEN) && !Has(s.server.groups, name) && s.server.pool != []
    ensures t == System(Founded(s.server, fd, name),
                        s.conns[fd := Conn(c.(sessions := c.sessions + [Session(name, s.server.pool[0])]), Idle, true)])
    ensures Free(t, i, fd, c.(sessions := c.sessions + [Session(name, s.server.pool[0])]))
  {
    ReachableInv(s);
    IsLoggedIn(s, i, fd, c);
    GroupRoundTrip(MSG_CREATE_GROUP, name);
    var msg := BuildGroup(MSG_CREATE_GROUP, name).value;
    CreateIs(s.server, fd, msg, ALL);
    CreateSucceeds(s.server, fd, msg, ALL);
    FreeAddressIsInfo(s.server.pool, s.server.groups, s.server.pool[0]);
    t := Does(s, i, fd, c, DoCreate(name), msg, ALL);
  }

  /** The names are new to the server. */
  ghost predicate New(groups: Groups, names: seq<CString>) {
    forall n :: n in names ==> !Has(groups, n)
  }

  lemma {:induction false} StillNew(s: Server, fd: int, names: seq<CString>)
    requires UniqueNames(s.groups) && s.pool != [] && names != [] && New(s.groups, names) && Distinct(names)
    ensures New(Founded(s, fd, names[0]).groups, names[1..]) && Distinct(names[1..])
  {
    InsertFacts(s.groups, names[0], Group(s.pool[0], [fd], 1), GROUP_BUCKETS);
    forall n | n in names[1..]
      ensures !Has(Founded(s, fd, names[0]).groups, n)
    {
      var t := Founded(s, fd, names[0]);
      var i := IndexOf(t.groups, n);
      if i < |t.groups| {
        assert t.groups[i] in t.groups;
        var p := t.groups[i];
        if p in s.groups {
          HasIsThere(s.groups, p);
          assert false;
        }
      }
    }
  }

  lemma {:induction false} HasIsThere(groups: Groups, p: Pair<CString, Group>)
    requires p in groups
    ensures Has(groups, p.key)
  {
  }

  /** Group after group, each on the next address of the queue. */
  lemma {:induction false} FoundsAll(s: System, i: nat, fd: int, c: Client, names: seq<CString>) returns (t: System, d: Client)
    requires Free(s, i, fd, c) && c.mode == LoggedIn && |c.sessions| + |names| <= MAX_GROUPS
    requires forall n :: n in names ==> ValidStr(n, MAX_GROUP_NAME_LEN)
    requires names != [] && Distinct(names) && New(s.server.groups, names) && |names| <= |s.server.pool|
    ensures Free(t, i, fd, d) && t.conns == s.conns[fd := Conn(d, Idle, true)]
    ensures Session(names[|names| - 1], s.server.pool[|names| - 1]) in d.sessions
    decreases |names|
  {
    ReachableInv(s);
    var m := Founds(s, i, fd, c, names[0]);
    var e := c.(sessions := c.sessions + [Session(names[0], s.server.pool[0])]);
    if |names| == 1 {
      t, d := m, e;
    } else {
      StillNew(s.server, fd, names);
      t, d := FoundsAll(m, i, fd, e, names[1..]);
    }
  }

  lemma {:induction false} LeaveEmpties(s: Server, fd: int, name: CString, a: Mcast, msg: Msg)
    requires Inv(s) && s.groups == [Pair(name, Group(a, [fd], 1))] && msg.tag == MSG_LEAVE_GROUP && ParseGroup(msg) == Some(name)
    ensures Dispatch(s, fd, msg, ALL) == Outcome(s.(groups := [], pool := s.pool + [a]), SuccessMsg(), true)
  {
    ConservedMeans(s.pool, s.groups);
    LeaveFound(s, fd, 0);
    AloneCloses(s.groups[0], fd, {name});
  }

  /** The only member of the only group leaves it, and has not heard the reply yet. */
  lemma {:induction false} LeavesUnheard(s: System, i: nat, fd: int, user: CString, name: CString, a: Mcast) returns (t: System)
    requires Free(s, i, fd, Client(LoggedIn, user, [Session(name, a)])) && s.server.groups == [Pair(name, Group(a, [fd], 1))]
    requires ValidStr(name, MAX_GROUP_NAME_LEN)
    ensures Reachable(t) && t.server == s.server.(groups := [], pool := s.server.pool + [a])
    ensures t.conns == s.conns[fd := Conn(Client(LoggedIn, user, [Session(name, a)]), Phase.Answered(DoLeave(name), SuccessMsg()), true)]
  {
    ReachableInv(s);
    GroupRoundTrip(MSG_LEAVE_GROUP, name);
    var msg := BuildGroup(MSG_LEAVE_GROUP, name).value;
    var c := Client(LoggedIn, user, [Session(name, a)]);
    assert ClientSpec.SessionOf(c.sessions, name) == 0;
    LeaveEmpties(s.server, fd, name, a, msg);
    t := Asks(s, i, fd, c, DoLeave(name), msg, ALL);
  }

  // ---- the state ----

  /** Two users, logged in on connections of their own to a server without groups. */
  lemma {:induction false} TwoUsers(a: Auth, b: Auth) returns (s: System)
    requires a.user != b.user
    requires ValidStr(a.user, MAX_USERNAME_LEN) && ValidStr(a.pass, MAX_PASSWORD_LEN)
    requires ValidStr(b.user, MAX_USERNAME_LEN) && ValidStr(b.pass, MAX_PASSWORD_LEN)
    ensures Free(s, 0, 0, Client(LoggedIn, a.user, [])) && Free(s, 1, 1, Client(LoggedIn, b.user, []))
    ensures s.server.groups == [] && s.server.pool == Preloaded()
  {
    var s0 := Start();
    assert Reachable(s0) by {
      assert ValidRun(s0, []);
    }
    var s1 := Connects(s0, 0, 0);
    var s2 := SignsUp(s1, 0, 0, a);
    var s3 := SignsIn(s2, 0, 0, a);
    var s4 := Connects(s3, 1, 1);
    var s5 := SignsUp(s4, 1, 1, b);
    s := SignsIn(s5, 1, 1, b);
  }

  /** A reachable state in which two clients show the same address for groups of different names: the first one's list is
      out of date. It has left its group and not heard of it yet, while the second has founded sixteen, the last of them on
      the address that was released. */
  lemma {:induction false} SharedAddress(a: Auth, b: Auth, g: CString, names: seq<CString>) returns (s: System)
    requires a.user != b.user && ValidStr(g, MAX_GROUP_NAME_LEN)
    requires |names| == MULTICAST_POOL_SIZE && Distinct(names) && forall n :: n in names ==> ValidStr(n, MAX_GROUP_NAME_LEN) && n != g
    requires ValidStr(a.user, MAX_USERNAME_LEN) && ValidStr(a.pass, MAX_PASSWORD_LEN)
    requires ValidStr(b.user, MAX_USERNAME_LEN) && ValidStr(b.pass, MAX_PASSWORD_LEN)
    ensures Reachable(s) && 0 in s.conns && 1 in s.conns && Stale(s.conns[0]) && !Stale(s.conns[1])
    ensures var x, h := Preloaded()[0], names[MULTICAST_POOL_SIZE - 1];
            && g != h && Session(g, x) in s.conns[0].client.sessions && Session(h, x) in s.conns[1].client.sessions
            && Dropping(s.conns[0], Session(g, x)) && !Dropping(s.conns[1], Session(h, x))
  {
    var p := Preloaded();
    var s1 := TwoUsers(a, b);
    var s2 := FoundsFirst(s1, a.user, g);
    var s3 := LeavesUnheard(s2, 0, 0, a.user, g, p[0]);
    var t, d := FoundsAll(s3, 1, 1, Client(LoggedIn, b.user, []), names);
    s := t;
    assert (p[1..] + [p[0]])[MULTICAST_POOL_SIZE - 1] == p[0];
  }

  /** The first group of all. */
  lemma {:induction false} FoundsFirst(s: System, user: CString, name: CString) returns (t: System)
    requires Free(s, 0, 0, Client(LoggedIn, user, [])) && s.server.groups == [] && s.server.pool == Preloaded()
    requires ValidStr(name, MAX_GROUP_NAME_LEN)
    ensures var a := Preloaded()[0];
            && t.server == s.server.(groups := [Pair(name, Group(a, [0], 1))], pool := Preloaded()[1..])
            && t.conns == s.conns[0 := Conn(Client(LoggedIn, user, [Session(name, a)]), Idle, true)]
            && Free(t, 0, 0, Client(LoggedIn, user, [Session(name, a)]))
  {
    t := Founds(s, 0, 0, Client(LoggedIn, user, []), name);
    var a := Preloaded()[0];
    assert [] + [Session(name, a)] == [Session(name, a)];
    assert Insert([], name, Group(a, [0], 1), Djb2, GROUP_BUCKETS) == [Pair(name, Group(a, [0], 1))];
  }
}
