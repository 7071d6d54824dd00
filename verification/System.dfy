/** Any number of clients and the server, talking by strict request and reply. */
module System {
  import opened Strings
  import opened Assoc
  import opened Protocol
  import opened ServerSpec
  import opened ServerInvariants
  import opened Withdrawal
  import opened ServerSafety
  import opened ClientSpec

  /** Where a connection is in the exchange: nothing under way, a request on its way to the server,
      or a reply on its way back. */
  datatype Phase = Idle | Asked(cmd: Command) | Answered(cmd: Command, reply: Msg)

  /** A connection; its client may have died without the server knowing yet. */
  datatype Conn = Conn(client: Client, phase: Phase, alive: bool)

  /** The server and the client at the other end of each open fd. */
  datatype System = System(server: Server, conns: map<int, Conn>)

  datatype SysEvent =
    | Connect(fd: int)
    | UserActs(fd: int, cmd: Command)
    | Serve(slot: nat, mem: Mem)
    | Deliver(fd: int)
    | Crash(fd: int)
    | Notice(slot: nat)

  predicate CanHappen(s: System, e: SysEvent) {
    match e
    case Connect(fd) => Enabled(s.server, Accept(fd))
    case UserActs(fd, cmd) =>
      fd in s.conns && s.conns[fd].alive && s.conns[fd].phase.Idle? && OnScreen(s.conns[fd].client.mode, cmd)
    case Serve(i, _) =>
      i < |s.server.slots| && s.server.slots[i] in s.conns && s.server.slots[i] >= 0 && s.conns[s.server.slots[i]].phase.Asked?
    case Deliver(fd) => fd in s.conns && s.conns[fd].alive && s.conns[fd].phase.Answered?
    case Crash(fd) => fd in s.conns
    case Notice(i) =>
      i < |s.server.slots| && s.server.slots[i] in s.conns && s.server.slots[i] >= 0 && !s.conns[s.server.slots[i]].alive
  }

  function Happen(s: System, e: SysEvent): System
    requires CanHappen(s, e)
  {
    match e
    case Connect(fd) =>
      // without a free slot the connection is turned away
      if FreeSlot(s.server.slots) == |s.server.slots| then s
      else System(Step(s.server, Accept(fd)), s.conns[fd := Conn(Client(Connected, [], []), Idle, true)])
    case UserActs(fd, cmd) =>
      var c := s.conns[fd];
      if Ask(c.client, cmd).None? then s else s.(conns := s.conns[fd := c.(phase := Asked(cmd))])
    case Serve(i, mem) =>
      var fd := s.server.slots[i];
      var c := s.conns[fd];
      (match Ask(c.client, c.phase.cmd)
       case None => s
       case Some(msg) =>
         var o := Dispatch(s.server, fd, msg, mem);
         System(Step(s.server, Request(i, msg, mem)),
                if o.keepOpen then s.conns[fd := c.(phase := Answered(c.phase.cmd, o.reply))] else s.conns - {fd}))
    case Deliver(fd) =>
      var c := s.conns[fd];
      s.(conns := s.conns[fd := c.(client := Receive(c.client, c.phase.cmd, c.phase.reply), phase := Idle)])
    case Crash(fd) => s.(conns := s.conns[fd := s.conns[fd].(alive := false)])
    case Notice(i) => System(Step(s.server, HangUp(i)), s.conns - {s.server.slots[i]})
  }

  // ---- agreement of a client with the server ----

  ghost predicate UniqueSessions(sessions: seq<Session>) {
    forall i, j :: 0 <= i < j < |sessions| ==> sessions[i].name != sessions[j].name
  }

  ghost function Listed(sessions: seq<Session>): set<Session> {
    set m | m in sessions
  }

  /** The client's list names each of the groups its fd is a member of exactly once, with the group's address,
      and its login is the only session on its fd. */
  ghost predicate Agrees(s: Server, fd: int, c: Client) {
    && UsersOn(s.users, fd) == (if c.mode == LoggedIn then {c.username} else {})
    && UniqueSessions(c.sessions)
    && Listed(c.sessions) == Memberships(s.groups, fd)
  }

  /** The client as it will be once a reply on its way has arrived. */
  ghost function Settled(c: Conn): Client {
    if c.phase.Answered? then Receive(c.client, c.phase.cmd, c.phase.reply) else c.client
  }

  /** Also while a reply is on its way, the list names no group twice and fits into the client's array. */
  ghost predicate ListOk(sessions: seq<Session>) {
    UniqueSessions(sessions) && |sessions| <= MAX_GROUPS
  }

  ghost predicate ConnOk(s: Server, fd: int, c: Conn) {
    && Agrees(s, fd, Settled(c)) && ListOk(c.client.sessions)
    && (!c.phase.Idle? ==> OnScreen(c.client.mode, c.phase.cmd))
    && (c.phase.Asked? ==> Ask(c.client, c.phase.cmd).Some?)
  }

  ghost predicate SysInv(s: System) {
    && Inv(s.server)
    && (forall fd :: fd in s.conns <==> fd >= 0 && fd in s.server.slots)
    && (forall fd :: fd in s.conns ==> ConnOk(s.server, fd, s.conns[fd]))
    && (forall fd :: fd >= 0 && UsersOn(s.server.users, fd) != {} ==> fd in s.server.slots)
  }

  // ---- one exchange ----

  lemma {:induction false} AdmitAgrees(s: Server, t: Server, fd: int, c: Client, name: CString, a: Mcast)
    requires Agrees(s, fd, c) && UsersOn(t.users, fd) == UsersOn(s.users, fd)
    requires Memberships(t.groups, fd) == Memberships(s.groups, fd) + {Session(name, a)}
    requires forall m :: m in Memberships(s.groups, fd) ==> m.name != name
    ensures Agrees(t, fd, c.(sessions := c.sessions + [Session(name, a)]))
  {
    assert forall i :: 0 <= i < |c.sessions| ==> c.sessions[i] in Listed(c.sessions);
  }

  lemma {:induction false} NoSuchMembership(groups: Groups, fd: int, name: CString)
    requires !Has(groups, name)
    ensures forall m :: m in Memberships(groups, fd) ==> m.name != name
  {
    forall m | m in Memberships(groups, fd)
      ensures m.name != name
    {
      var i :| 0 <= i < |groups| && m == Session(groups[i].key, groups[i].value.address);
    }
  }

  lemma {:induction false} CreateAgrees(s: Server, fd: int, c: Client, name: CString, mem: Mem) returns (o: Outcome)
    requires Inv(s) && fd >= 0 && fd in s.slots && Agrees(s, fd, c) && Ask(c, DoCreate(name)).Some?
    ensures o == CreateGroup(s, fd, Ask(c, DoCreate(name)).value, mem)
    ensures Agrees(o.server, fd, Receive(c, DoCreate(name), o.reply))
  {
    var msg := Ask(c, DoCreate(name)).value;
    GroupRoundTrip(MSG_CREATE_GROUP, name);
    CreateKeeps(s, fd, msg, mem);
    CreateIs(s, fd, msg, mem);
    o := CreateGroup(s, fd, msg, mem);
    if o.reply.tag == MSG_GROUP_INFO {
      FreeAddressIsInfo(s.pool, s.groups, s.pool[0]);
      NoSuchMembership(s.groups, fd, name);
      AdmitAgrees(s, o.server, fd, c, name, s.pool[0]);
    }
  }

  lemma {:induction false} JoinAgrees(s: Server, fd: int, c: Client, name: CString) returns (o: Outcome)
    requires Inv(s) && fd >= 0 && fd in s.slots && Agrees(s, fd, c) && Ask(c, DoJoin(name)).Some?
    ensures o == JoinGroup(s, fd, Ask(c, DoJoin(name)).value)
    ensures Agrees(o.server, fd, Receive(c, DoJoin(name), o.reply))
  {
    var msg := Ask(c, DoJoin(name)).value;
    GroupRoundTrip(MSG_JOIN_GROUP, name);
    JoinKeeps(s, fd, msg);
    o := JoinGroup(s, fd, msg);
    if o.reply.tag == MSG_GROUP_INFO {
      var i := IndexOf(s.groups, name);
      InfoIsInfo(s, i);
      NotListed(c.sessions, name);
      AdmitAgrees(s, o.server, fd, c, name, s.groups[i].value.address);
    }
  }

  lemma {:induction false} NotListed(sessions: seq<Session>, name: CString)
    requires SessionOf(sessions, name) == |sessions|
    ensures forall m :: m in Listed(sessions) ==> m.name != name
  {
  }

  lemma {:induction false} RemoveListed(sessions: seq<Session>, i: nat)
    requires UniqueSessions(sessions) && i < |sessions|
    ensures UniqueSessions(RemoveAt(sessions, i))
    ensures Listed(RemoveAt(sessions, i)) == set m | m in Listed(sessions) && m.name != sessions[i].name
  {
    var r := RemoveAt(sessions, i);
    assert forall j :: 0 <= j < |r| ==> r[j] == sessions[if j < i then j else j + 1];
    forall m | m in sessions && m.name != sessions[i].name
      ensures m in r
    {
      var j :| 0 <= j < |sessions| && sessions[j] == m;
      assert r[if j < i then j else j - 1] == m;
    }
  }

  lemma {:induction false} LeaveAgrees(s: Server, fd: int, c: Client, name: CString) returns (o: Outcome)
    requires Inv(s) && Agrees(s, fd, c) && Ask(c, DoLeave(name)).Some?
    ensures o == LeaveGroup(s, fd, Ask(c, DoLeave(name)).value)
    ensures Agrees(o.server, fd, Receive(c, DoLeave(name), o.reply))
  {
    var msg := Ask(c, DoLeave(name)).value;
    o := LeaveGroup(s, fd, msg);
    GroupRoundTrip(MSG_LEAVE_GROUP, name);
    LeaveGroupKeeps(s, fd, msg);
    RemoveListed(c.sessions, SessionOf(c.sessions, name));
  }

  lemma {:induction false} LoginAgrees(s: Server, fd: int, c: Client, user: CString, pass: CString)
    requires Inv(s) && fd >= 0 && Agrees(s, fd, c) && c.mode.Connected? && BuildAuth(MSG_LOGIN, user, pass).Some?
    ensures var o := Login(s, fd, BuildAuth(MSG_LOGIN, user, pass).value);
            Agrees(o.server, fd, Receive(c, DoLogin(user, pass), o.reply))
  {
    LoginKeeps(s, fd, BuildAuth(MSG_LOGIN, user, pass).value);
    AuthRoundTrip(MSG_LOGIN, user, pass);
  }

  lemma {:induction false} LogoutAgrees(s: Server, fd: int, c: Client, reply: Msg)
    requires Inv(s) && fd >= 0 && Agrees(s, fd, c)
    ensures Agrees(Cleanup(s, fd), fd, Receive(c, DoLogout, reply))
  {
    CleanupKeeps(s, fd);
  }

  lemma {:induction false} RegisterAgrees(s: Server, fd: int, c: Client, cmd: Command, msg: Msg, mem: Mem, reply: Msg)
    requires Inv(s) && fd >= 0 && Agrees(s, fd, c) && cmd.DoRegister?
    ensures Agrees(Register(s, msg, mem).server, fd, Receive(c, cmd, reply))
  {
    RegisterKeeps(s, fd, msg, mem);
  }

  /** The settled client after a command was served. */
  ghost predicate Served(s: Server, fd: int, c: Client, cmd: Command, o: Outcome) {
    Agrees(o.server, fd, Receive(c, cmd, o.reply))
  }

  lemma {:induction false} ServeScreen1(s: Server, fd: int, c: Client, cmd: Command, mem: Mem) returns (o: Outcome)
    requires Inv(s) && fd >= 0 && Agrees(s, fd, c)
    requires (cmd.DoRegister? || cmd.DoLogin?) && c.mode.Connected? && Ask(c, cmd).Some?
    ensures o == Dispatch(s, fd, Ask(c, cmd).value, mem) && Served(s, fd, c, cmd, o)
  {
    var msg := Ask(c, cmd).value;
    if cmd.DoRegister? {
      o := Register(s, msg, mem);
      RegisterAgrees(s, fd, c, cmd, msg, mem, o.reply);
    } else {
      o := Login(s, fd, msg);
      LoginAgrees(s, fd, c, cmd.user, cmd.pass);
    }
  }

  /** Which handler a command of the second screen leads to. */
  lemma {:induction false} LeadsToCreate(s: Server, fd: int, c: Client, name: CString, mem: Mem)
    requires Ask(c, DoCreate(name)).Some?
    ensures Dispatch(s, fd, Ask(c, DoCreate(name)).value, mem) == CreateGroup(s, fd, Ask(c, DoCreate(name)).value, mem)
  {
  }

  lemma {:induction false} LeadsToJoin(s: Server, fd: int, c: Client, name: CString, mem: Mem)
    requires Ask(c, DoJoin(name)).Some?
    ensures Dispatch(s, fd, Ask(c, DoJoin(name)).value, mem) == JoinGroup(s, fd, Ask(c, DoJoin(name)).value)
  {
  }

  lemma {:induction false} LeadsToLeave(s: Server, fd: int, c: Client, name: CString, mem: Mem)
    requires Ask(c, DoLeave(name)).Some?
    ensures Dispatch(s, fd, Ask(c, DoLeave(name)).value, mem) == LeaveGroup(s, fd, Ask(c, DoLeave(name)).value)
  {
  }

  lemma {:induction false} ServeCreate(s: Server, fd: int, c: Client, name: CString, mem: Mem) returns (o: Outcome)
    requires Inv(s) && fd >= 0 && fd in s.slots && Agrees(s, fd, c) && Ask(c, DoCreate(name)).Some?
    ensures o == Dispatch(s, fd, Ask(c, DoCreate(name)).value, mem) && Served(s, fd, c, DoCreate(name), o)
  {
    LeadsToCreate(s, fd, c, name, mem);
    o := CreateAgrees(s, fd, c, name, mem);
  }

  lemma {:induction false} ServeJoin(s: Server, fd: int, c: Client, name: CString, mem: Mem) returns (o: Outcome)
    requires Inv(s) && fd >= 0 && fd in s.slots && Agrees(s, fd, c) && Ask(c, DoJoin(name)).Some?
    ensures o == Dispatch(s, fd, Ask(c, DoJoin(name)).value, mem) && Served(s, fd, c, DoJoin(name), o)
  {
    LeadsToJoin(s, fd, c, name, mem);
    o := JoinAgrees(s, fd, c, name);
  }

  lemma {:induction false} ServeLeave(s: Server, fd: int, c: Client, name: CString, mem: Mem) returns (o: Outcome)
    requires Inv(s) && Agrees(s, fd, c) && Ask(c, DoLeave(name)).Some?
    ensures o == Dispatch(s, fd, Ask(c, DoLeave(name)).value, mem) && Served(s, fd, c, DoLeave(name), o)
  {
    LeadsToLeave(s, fd, c, name, mem);
    o := LeaveAgrees(s, fd, c, name);
  }

  lemma {:induction false} ServeLogout(s: Server, fd: int, c: Client, mem: Mem) returns (o: Outcome)
    requires Inv(s) && fd >= 0 && Agrees(s, fd, c)
    ensures o == Dispatch(s, fd, Ask(c, DoLogout).value, mem) && Served(s, fd, c, DoLogout, o)
  {
    LogoutAgrees(s, fd, c, SuccessMsg());
    o := Succeed(Cleanup(s, fd));
  }

  /** A request served and its reply on the way: the client will agree with the server when it arrives. */
  lemma {:induction false} ServeAgrees(s: Server, fd: int, c: Client, cmd: Command, mem: Mem) returns (o: Outcome)
    requires Inv(s) && fd >= 0 && fd in s.slots && Agrees(s, fd, c)
    requires OnScreen(c.mode, cmd) && Ask(c, cmd).Some? && !cmd.DoExit?
    ensures o == Dispatch(s, fd, Ask(c, cmd).value, mem) && Served(s, fd, c, cmd, o)
  {
    if cmd.DoRegister? || cmd.DoLogin? {
      o := ServeScreen1(s, fd, c, cmd, mem);
    } else if cmd.DoCreate? {
      o := ServeCreate(s, fd, c, cmd.name, mem);
    } else if cmd.DoJoin? {
      o := ServeJoin(s, fd, c, cmd.name, mem);
    } else if cmd.DoLeave? {
      o := ServeLeave(s, fd, c, cmd.name, mem);
    } else {
      o := ServeLogout(s, fd, c, mem);
    }
  }

  // ---- every event ----

  /** All connections but the one on `fd` are as they were. */
  ghost predicate OthersSame(s: System, t: System, fd: int) {
    && Isolated(s.server, t.server.(slots := s.server.slots), fd)
    && (forall who :: who != fd ==> (who in t.conns <==> who in s.conns))
    && (forall who :: who != fd && who in s.conns ==> t.conns[who] == s.conns[who])
    && (forall who :: who != fd && who >= 0 ==> (who in t.server.slots <==> who in s.server.slots))
  }

  /** To show the system invariant after an event on `fd`, look at the server and at `fd`. */
  lemma {:induction false} KeepsByFd(s: System, t: System, fd: int)
    requires SysInv(s) && fd >= 0 && OthersSame(s, t, fd) && Inv(t.server)
    requires fd in t.conns <==> fd in t.server.slots
    requires fd in t.conns ==> ConnOk(t.server, fd, t.conns[fd])
    requires fd !in t.conns ==> UsersOn(t.server.users, fd) == {}
    ensures SysInv(t)
  {
    forall who | who in t.conns && who != fd
      ensures ConnOk(t.server, who, t.conns[who])
    {
      assert ConnOk(s.server, who, s.conns[who]);
    }
    forall who | who >= 0 && UsersOn(t.server.users, who) != {}
      ensures who in t.server.slots
    {
    }
  }

  lemma {:induction false} ReplyKeeps(s: System, fd: int, cmd: Command, o: Outcome)
    requires SysInv(s) && fd in s.conns && s.conns[fd].phase == Asked(cmd)
    requires Inv(o.server) && Isolated(s.server, o.server, fd)
    requires Served(s.server, fd, s.conns[fd].client, cmd, o)
    ensures SysInv(System(o.server, s.conns[fd := s.conns[fd].(phase := Answered(cmd, o.reply))]))
  {
    KeepsByFd(s, System(o.server, s.conns[fd := s.conns[fd].(phase := Answered(cmd, o.reply))]), fd);
  }

  /** What a served request comes to, in terms of an outcome alone. */
  lemma {:induction false} ServeResult(s: System, i: nat, mem: Mem, c: Conn) returns (o: Outcome)
    requires Inv(s.server) && CanHappen(s, Serve(i, mem)) && c == s.conns[s.server.slots[i]]
    requires Agrees(s.server, s.server.slots[i], c.client) && OnScreen(c.client.mode, c.phase.cmd)
    requires Ask(c.client, c.phase.cmd).Some? && !c.phase.cmd.DoExit?
    ensures Inv(o.server) && Isolated(s.server, o.server, s.server.slots[i])
    ensures Served(s.server, s.server.slots[i], c.client, c.phase.cmd, o)
    ensures Happen(s, Serve(i, mem)) == System(o.server, s.conns[s.server.slots[i] := c.(phase := Answered(c.phase.cmd, o.reply))])
  {
    o := ServeOutcome(s.server, s.server.slots[i], c.client, c.phase.cmd, mem);
    ServeIs(s, i, mem, Ask(c.client, c.phase.cmd).value, o);
  }

  lemma {:induction false} ServeOutcome(s: Server, fd: int, c: Client, cmd: Command, mem: Mem) returns (o: Outcome)
    requires Inv(s) && fd in s.slots && fd >= 0 && Agrees(s, fd, c) && OnScreen(c.mode, cmd)
    requires Ask(c, cmd).Some? && !cmd.DoExit?
    ensures o == Dispatch(s, fd, Ask(c, cmd).value, mem) && o.keepOpen
    ensures Inv(o.server) && Isolated(s, o.server, fd) && Served(s, fd, c, cmd, o)
  {
    OnlyExitCloses(s, fd, Ask(c, cmd).value, mem);
    DispatchKeeps(s, fd, Ask(c, cmd).value, mem);
    o := ServeAgrees(s, fd, c, cmd, mem);
  }

  lemma {:induction false} ServeKeeps(s: System, i: nat, mem: Mem)
    requires SysInv(s) && CanHappen(s, Serve(i, mem)) && !s.conns[s.server.slots[i]].phase.cmd.DoExit?
    ensures SysInv(Happen(s, Serve(i, mem)))
  {
    var fd := s.server.slots[i];
    var c := s.conns[fd];
    assert ConnOk(s.server, fd, c);
    var o := ServeResult(s, i, mem, c);
    ReplyKeeps(s, fd, c.phase.cmd, o);
  }

  lemma {:induction false} ServeIs(s: System, i: nat, mem: Mem, msg: Msg, o: Outcome)
    requires CanHappen(s, Serve(i, mem))
    requires var c := s.conns[s.server.slots[i]]; Ask(c.client, c.phase.cmd) == Some(msg)
    requires o == Dispatch(s.server, s.server.slots[i], msg, mem) && o.keepOpen
    ensures var fd := s.server.slots[i];
            Happen(s, Serve(i, mem)) == System(o.server, s.conns[fd := s.conns[fd].(phase := Answered(s.conns[fd].phase.cmd, o.reply))])
  {
  }

  /** The slot is freed and the connection forgotten together. */
  lemma {:induction false} GoneSystem(s: System, i: nat)
    requires SysInv(s) && i < |s.server.slots| && s.server.slots[i] >= 0
    ensures SysInv(System(Step(s.server, HangUp(i)), s.conns - {s.server.slots[i]}))
  {
    var fd := s.server.slots[i];
    assert ConnOk(s.server, fd, s.conns[fd]);
    StepKeeps(s.server, HangUp(i));
    OneSession(s.server, fd, Settled(s.conns[fd]));
    CleanupKeeps(s.server, fd);
    SlotFreed(s.server.slots, i);
    KeepsByFd(s, System(Step(s.server, HangUp(i)), s.conns - {fd}), fd);
  }

  lemma {:induction false} OneSession(s: Server, fd: int, c: Client)
    requires Agrees(s, fd, c)
    ensures |UsersOn(s.users, fd)| <= 1
  {
  }

  lemma {:induction false} SlotFreed(slots: seq<int>, i: nat)
    requires SlotsOk(slots) && i < |slots| && slots[i] >= 0
    ensures forall fd :: fd >= 0 ==> (fd in slots[i := -1] <==> fd in slots && fd != slots[i])
  {
    forall fd | fd in slots && fd != slots[i]
      ensures fd in slots[i := -1]
    {
      var j :| 0 <= j < |slots| && slots[j] == fd;
      assert slots[i := -1][j] == fd;
    }
  }

  lemma {:induction false} SlotTaken(slots: seq<int>, fd: int)
    requires fd >= 0 && FreeSlot(slots) < |slots|
    ensures forall who :: who >= 0 ==> (who in slots[FreeSlot(slots) := fd] <==> who in slots || who == fd)
  {
    var i := FreeSlot(slots);
    var t := slots[i := fd];
    assert t[i] == fd;
    forall who | who in slots && who >= 0
      ensures who in t
    {
      var j :| 0 <= j < |slots| && slots[j] == who;
      assert t[j] == who;
    }
  }

  lemma {:induction false} ConnectKeeps(s: System, fd: int)
    requires SysInv(s) && CanHappen(s, Connect(fd))
    ensures SysInv(Happen(s, Connect(fd)))
  {
    StepKeeps(s.server, Accept(fd));
    if FreeSlot(s.server.slots) < |s.server.slots| {
      SlotTaken(s.server.slots, fd);
      FreshFd(s, fd);
      KeepsByFd(s, Happen(s, Connect(fd)), fd);
    }
  }

  /** A newly accepted fd, which may be a reused number, is in no group and nobody's session. */
  lemma {:induction false} FreshFd(s: System, fd: int)
    requires SysInv(s) && fd >= 0 && fd !in s.server.slots
    ensures Memberships(s.server.groups, fd) == {} && UsersOn(s.server.users, fd) == {}
  {
    forall p | p in s.server.groups
      ensures fd !in p.value.members
    {
      assert fd in p.value.members ==> Known(s.server.users, s.server.slots, fd);
    }
  }

  /** A list that agrees with the server is as long as there are groups with this member. */
  lemma {:induction false} AgreedFits(s: Server, fd: int, c: Client)
    requires Inv(s) && Agrees(s, fd, c)
    ensures ListOk(c.sessions)
  {
    ListedCount(c.sessions);
    MembershipCount(s.groups, fd);
    ConservedMeans(s.pool, s.groups);
  }

  lemma {:induction false} ListedCount(sessions: seq<Session>)
    requires UniqueSessions(sessions)
    ensures |Listed(sessions)| == |sessions|
  {
    if sessions != [] {
      ListedCount(sessions[1..]);
      assert Listed(sessions) == {sessions[0]} + Listed(sessions[1..]);
      assert sessions[0] !in Listed(sessions[1..]);
    }
  }

  ghost function MembershipIn(p: Pair<CString, Group>, fd: int): set<Session> {
    if fd in p.value.members then {Session(p.key, p.value.address)} else {}
  }

  lemma {:induction false} MembershipCons(groups: Groups, fd: int)
    requires groups != []
    ensures Memberships(groups, fd) == MembershipIn(groups[0], fd) + Memberships(groups[1..], fd)
  {
    assert forall p :: p in groups <==> p == groups[0] || p in groups[1..];
  }

  lemma {:induction false} MembershipCount(groups: Groups, fd: int)
    ensures |Memberships(groups, fd)| <= |groups|
  {
    if groups != [] {
      MembershipCount(groups[1..], fd);
      MembershipCons(groups, fd);
    }
  }

  /** What happens at the client's end of a connection leaves the settled client as it was. */
  lemma {:induction false} ClientSideKeeps(s: System, fd: int, c: Conn)
    requires SysInv(s) && fd in s.conns && Settled(c) == Settled(s.conns[fd])
    requires !c.phase.Idle? ==> OnScreen(c.client.mode, c.phase.cmd)
    requires c.phase.Asked? ==> Ask(c.client, c.phase.cmd).Some?
    requires ListOk(c.client.sessions)
    ensures SysInv(s.(conns := s.conns[fd := c]))
  {
    assert ConnOk(s.server, fd, s.conns[fd]);
    KeepsByFd(s, s.(conns := s.conns[fd := c]), fd);
  }

  lemma {:induction false} AskKeeps(s: System, fd: int, cmd: Command)
    requires SysInv(s) && CanHappen(s, UserActs(fd, cmd))
    ensures SysInv(Happen(s, UserActs(fd, cmd)))
  {
    assert ConnOk(s.server, fd, s.conns[fd]);
    if Ask(s.conns[fd].client, cmd).Some? {
      ClientSideKeeps(s, fd, s.conns[fd].(phase := Asked(cmd)));
    }
  }

  lemma {:induction false} DeliverKeeps(s: System, fd: int)
    requires SysInv(s) && CanHappen(s, Deliver(fd))
    ensures SysInv(Happen(s, Deliver(fd)))
  {
    var c := s.conns[fd];
    assert ConnOk(s.server, fd, c);
    AgreedFits(s.server, fd, Settled(c));
    ClientSideKeeps(s, fd, c.(client := Receive(c.client, c.phase.cmd, c.phase.reply), phase := Idle));
  }

  lemma {:induction false} CrashKeeps(s: System, fd: int)
    requires SysInv(s) && CanHappen(s, Crash(fd))
    ensures SysInv(Happen(s, Crash(fd)))
  {
    assert ConnOk(s.server, fd, s.conns[fd]);
    ClientSideKeeps(s, fd, s.conns[fd].(alive := false));
  }

  lemma {:induction false} ExitKeeps(s: System, i: nat, mem: Mem)
    requires SysInv(s) && CanHappen(s, Serve(i, mem)) && s.conns[s.server.slots[i]].phase.cmd.DoExit?
    ensures SysInv(Happen(s, Serve(i, mem)))
  {
    GoneSystem(s, i);
  }

  /** Every event keeps the clients in agreement with the server. */
  lemma {:induction false} HappenKeeps(s: System, e: SysEvent)
    requires SysInv(s) && CanHappen(s, e)
    ensures SysInv(Happen(s, e))
  {
    match e
    case Connect(fd) => ConnectKeeps(s, fd);
    case UserActs(fd, cmd) => AskKeeps(s, fd, cmd);
    case Serve(i, mem) =>
      if s.conns[s.server.slots[i]].phase.cmd.DoExit? {
        ExitKeeps(s, i, mem);
      } else {
        ServeKeeps(s, i, mem);
      }
    case Deliver(fd) => DeliverKeeps(s, fd);
    case Crash(fd) => CrashKeeps(s, fd);
    case Notice(i) => GoneSystem(s, i);
  }

  // ---- whole runs ----

  function Start(): System {
    System(Create(), map[])
  }

  ghost predicate ValidRun(s: System, run: seq<SysEvent>)
    decreases |run|
  {
    run == [] || (CanHappen(s, run[0]) && ValidRun(Happen(s, run[0]), run[1..]))
  }

  ghost function AfterRun(s: System, run: seq<SysEvent>): System
    requires ValidRun(s, run)
    decreases |run|
  {
    if run == [] then s else AfterRun(Happen(s, run[0]), run[1..])
  }

  lemma {:induction false} RunKeeps(s: System, run: seq<SysEvent>)
    requires SysInv(s) && ValidRun(s, run)
    ensures SysInv(AfterRun(s, run))
    decreases |run|
  {
    if run != [] {
      HappenKeeps(s, run[0]);
      RunKeeps(Happen(s, run[0]), run[1..]);
    }
  }

  ghost predicate Reachable(s: System) {
    exists run :: ValidRun(Start(), run) && s == AfterRun(Start(), run)
  }

  lemma {:induction false} ReachableInv(s: System)
    requires Reachable(s)
    ensures SysInv(s)
  {
    var run :| ValidRun(Start(), run) && s == AfterRun(Start(), run);
    CreateInv();
    assert Start().server.users == [];
    RunKeeps(Start(), run);
  }

  // ---- what every reachable state has ----

  /** A reply on its way that will change the client's list: until it arrives, the list is out of date. */
  ghost predicate Stale(c: Conn) {
    && c.phase.Answered?
    && match c.phase.cmd
       case DoCreate(_) => ParseGroupInfo(c.phase.reply).Some?
       case DoJoin(_) => ParseGroupInfo(c.phase.reply).Some?
       case DoLeave(name) => c.phase.reply.tag == MSG_SUCCESS && SessionOf(c.client.sessions, name) < |c.client.sessions|
       case DoLogout => c.client.sessions != []
       case _ => false
  }

  /** The list as a set changes exactly with a reply of these kinds. */
  lemma {:induction false} StaleChanges(c: Conn)
    requires UniqueSessions(c.client.sessions) && UniqueSessions(Settled(c).sessions)
    ensures Listed(c.client.sessions) == Listed(Settled(c).sessions) <==> !Stale(c)
  {
    var now, then_ := c.client.sessions, Settled(c).sessions;
    ListedCount(now);
    ListedCount(then_);
    if Stale(c) {
      assert |then_| != |now|;
    } else {
      assert then_ == now;
    }
  }

  /** In every reachable state, and for every client, dead or alive: the list has no name twice and fits into the
      client's array, and it names exactly the groups that have the client's fd as a member, with their addresses, if and
      only if no reply is on its way that is about to change it. */
  lemma {:induction false} MirrorTheorem(s: System, fd: int)
    requires Reachable(s) && fd in s.conns
    ensures ListOk(s.conns[fd].client.sessions)
    ensures Listed(s.conns[fd].client.sessions) == Memberships(s.server.groups, fd) <==> !Stale(s.conns[fd])
  {
    ReachableInv(s);
    var c := s.conns[fd];
    assert ConnOk(s.server, fd, c);
    StaleChanges(c);
  }

  /** What a list that is not out of date says, entry by entry. */
  lemma {:induction false} MirrorEntries(s: System, fd: int)
    requires Reachable(s) && fd in s.conns && !Stale(s.conns[fd])
    ensures var sessions := s.conns[fd].client.sessions;
            && (forall m :: m in sessions ==>
                  var i := IndexOf(s.server.groups, m.name);
                  && i < |s.server.groups|
                  && fd in s.server.groups[i].value.members
                  && s.server.groups[i].value.address == m.address)
            && (forall p :: p in s.server.groups && fd in p.value.members ==> Session(p.key, p.value.address) in sessions)
  {
    MirrorTheorem(s, fd);
    ReachableInv(s);
    var sessions := s.conns[fd].client.sessions;
    forall m | m in sessions
      ensures var i := IndexOf(s.server.groups, m.name);
              && i < |s.server.groups| && fd in s.server.groups[i].value.members
              && s.server.groups[i].value.address == m.address
    {
      assert m in Listed(sessions);
      SessionIsGroup(s.server, fd, m);
    }
    forall p | p in s.server.groups && fd in p.value.members
      ensures Session(p.key, p.value.address) in sessions
    {
      assert Session(p.key, p.value.address) in Memberships(s.server.groups, fd);
      assert Session(p.key, p.value.address) in Listed(sessions);
    }
  }

  lemma {:induction false} SessionIsGroup(s: Server, fd: int, m: Session)
    requires Inv(s) && m in Memberships(s.groups, fd)
    ensures var i := IndexOf(s.groups, m.name);
            && i < |s.groups| && fd in s.groups[i].value.members && s.groups[i].value.address == m.address
  {
    var j :| 0 <= j < |s.groups| && fd in s.groups[j].value.members && m == Session(s.groups[j].key, s.groups[j].value.address);
    IndexIs(s.groups, j);
  }

  /** A reply on its way that will take this entry off the list: the server has done so already. */
  ghost predicate Dropping(c: Conn, m: Session) {
    && c.phase.Answered?
    && match c.phase.cmd
       case DoLeave(name) => name == m.name && c.phase.reply.tag == MSG_SUCCESS
       case DoLogout => true
       case _ => false
  }

  lemma {:induction false} DroppingChanges(c: Conn, m: Session)
    requires UniqueSessions(c.client.sessions) && m in c.client.sessions
    ensures m in Settled(c).sessions <==> !Dropping(c, m)
  {
    if c.phase.Answered? && c.phase.cmd.DoLeave? {
      var i := SessionOf(c.client.sessions, c.phase.cmd.name);
      if i < |c.client.sessions| {
        RemoveListed(c.client.sessions, i);
        assert m in Listed(c.client.sessions);
        assert m in RemoveAt(c.client.sessions, i) <==> m in Listed(RemoveAt(c.client.sessions, i));
      }
    }
  }

  /** In every reachable state an entry of a client's list is a membership if and only if no reply is on its way that will
      take it off the list, whatever else is on its way. */
  lemma {:induction false} EntryTheorem(s: System, fd: int, m: Session)
    requires Reachable(s) && fd in s.conns && m in s.conns[fd].client.sessions
    ensures m in Memberships(s.server.groups, fd) <==> !Dropping(s.conns[fd], m)
  {
    ReachableInv(s);
    var c := s.conns[fd];
    assert ConnOk(s.server, fd, c);
    DroppingChanges(c, m);
    assert m in Settled(c).sessions <==> m in Listed(Settled(c).sessions);
  }

  /** Multicast addresses separate groups: entries of any two clients' lists use the same address exactly when they
      are for the same group, as long as neither is being taken off its list. */
  lemma {:induction false} SeparationTheorem(s: System, fd1: int, fd2: int, a: Session, b: Session)
    requires Reachable(s) && fd1 in s.conns && fd2 in s.conns
    requires a in s.conns[fd1].client.sessions && b in s.conns[fd2].client.sessions
    requires !Dropping(s.conns[fd1], a) && !Dropping(s.conns[fd2], b)
    ensures a.address.ip == b.address.ip <==> a.name == b.name
  {
    ReachableInv(s);
    EntryTheorem(s, fd1, a);
    EntryTheorem(s, fd2, b);
    SessionIsGroup(s.server, fd1, a);
    SessionIsGroup(s.server, fd2, b);
    AddressesSeparate(s.server, IndexOf(s.server.groups, a.name), IndexOf(s.server.groups, b.name));
  }

  lemma {:induction false} AddressesSeparate(s: Server, i: nat, j: nat)
    requires GroupsOk(s.groups, s.pool) && i < |s.groups| && j < |s.groups|
    ensures s.groups[i].value.address.ip == s.groups[j].value.address.ip <==> s.groups[i].key == s.groups[j].key
  {
    ConservedMeans(s.pool, s.groups);
    PoolIsSound();
    var all := Addresses(s.groups);
    assert all[i] in all && all[j] in all;
    assert all[i].port == all[j].port;
    assert i != j ==> all[i] != all[j];
  }

  /** A reply on its way that will log the client in or out. */
  ghost predicate ModeChanging(c: Conn) {
    && c.phase.Answered?
    && ((c.phase.cmd.DoLogin? && c.phase.reply.tag == MSG_SUCCESS) || c.phase.cmd.DoLogout?)
  }

  lemma {:induction false} SettledMode(c: Conn)
    requires !c.phase.Idle? ==> OnScreen(c.client.mode, c.phase.cmd)
    ensures ModeChanging(c) <==> Settled(c).mode != c.client.mode
    ensures !ModeChanging(c) && c.client.mode == LoggedIn ==> Settled(c).username == c.client.username
  {
  }

  /** One login per connection: a logged-in client's name is the only session on its fd and a client on the first screen
      has none, if and only if no such reply is on its way; and every open session belongs to an open connection. */
  lemma {:induction false} SessionTheorem(s: System, fd: int)
    requires Reachable(s) && fd in s.conns
    ensures var c := s.conns[fd].client;
            UsersOn(s.server.users, fd) == (if c.mode == LoggedIn then {c.username} else {}) <==> !ModeChanging(s.conns[fd])
    ensures forall p :: p in s.server.users && p.value.loggedIn ==> p.value.fd in s.conns && p.value.fd in s.server.slots
  {
    ReachableInv(s);
    assert ConnOk(s.server, fd, s.conns[fd]);
    SettledMode(s.conns[fd]);
    forall p | p in s.server.users && p.value.loggedIn
      ensures p.value.fd in s.conns
    {
      assert p.key in UsersOn(s.server.users, p.value.fd);
    }
  }

  /** The clients keep the discipline the server relies on: when a login arrives, no session is open on its fd. */
  lemma {:induction false} LoginsAreDisciplined(s: System, i: nat, mem: Mem)
    requires Reachable(s) && CanHappen(s, Serve(i, mem)) && s.conns[s.server.slots[i]].phase.cmd.DoLogin?
    ensures UsersOn(s.server.users, s.server.slots[i]) == {}
  {
    ReachableInv(s);
    var fd := s.server.slots[i];
    assert ConnOk(s.server, fd, s.conns[fd]);
  }

  /** The client refuses to create or join with a full list. That costs it nothing: the server would refuse any create
      then, and know no group that is not in the list already. */
  lemma {:induction false} FullListTheorem(s: System, fd: int, name: CString, mem: Mem)
    requires Reachable(s) && fd in s.conns && !Stale(s.conns[fd])
    requires |s.conns[fd].client.sessions| >= MAX_GROUPS
    ensures forall msg :: ParseGroup(msg) == Some(name) ==> CreateGroup(s.server, fd, msg, mem).reply.tag != MSG_GROUP_INFO
    ensures SessionOf(s.conns[fd].client.sessions, name) == |s.conns[fd].client.sessions| ==>
              forall msg :: ParseGroup(msg) == Some(name) ==> JoinGroup(s.server, fd, msg).reply.tag != MSG_GROUP_INFO
  {
    ReachableInv(s);
    MirrorTheorem(s, fd);
    var c, groups := s.conns[fd].client, s.server.groups;
    ListedCount(c.sessions);
    MembershipCount(groups, fd);
    ConservedMeans(s.server.pool, groups);
    assert |groups| == MULTICAST_POOL_SIZE && s.server.pool == [];
    forall msg | ParseGroup(msg) == Some(name)
      ensures CreateGroup(s.server, fd, msg, mem).reply.tag != MSG_GROUP_INFO
    {
      CreateIs(s.server, fd, msg, mem);
    }
    if SessionOf(c.sessions, name) == |c.sessions| && Has(groups, name) {
      MembershipFull(groups, fd, IndexOf(groups, name));
      NotListed(c.sessions, name);
      assert false;
    }
    forall msg | ParseGroup(msg) == Some(name) && !Has(groups, name)
      ensures JoinGroup(s.server, fd, msg).reply.tag != MSG_GROUP_INFO
    {
      JoinIs(s.server, fd, msg);
    }
  }

  /** With as many memberships as groups, every group is one of them. */
  lemma {:induction false} MembershipFull(groups: Groups, fd: int, i: nat)
    requires |Memberships(groups, fd)| == |groups| && i < |groups|
    ensures Session(groups[i].key, groups[i].value.address) in Memberships(groups, fd)
  {
    MembershipCount(groups[1..], fd);
    MembershipCons(groups, fd);
    if i > 0 {
      MembershipFull(groups[1..], fd, i - 1);
    }
  }
}
