/** What a user gets done: in the composed system, whatever else is going on, a command that is given, served and answered
    has exactly the effect it should, at the client and on the server. */
module Journeys {
  import opened Strings
  import opened Assoc
  import opened Protocol
  import opened ServerSpec
  import opened ServerInvariants
  import opened ServerSafety
  import opened ClientSpec
  import opened System
  import opened Exchanges
  import opened Requests
  import opened ChatMachine
  import opened Refinement

  /** From `s` the command of the client on `fd` is given, served and answered, which leads to `t`; a command that the client
      refuses by itself leads nowhere. */
  ghost predicate Trip(s: System, i: nat, fd: int, cmd: Command, mem: Mem, t: System) {
    && CanHappen(s, UserActs(fd, cmd))
    && var a := Happen(s, UserActs(fd, cmd));
       if a.conns[fd].phase.Idle? then t == a else
       && CanHappen(a, Serve(i, mem))
       && var b := Happen(a, Serve(i, mem));
          CanHappen(b, Deliver(fd)) && t == Happen(b, Deliver(fd))
  }

  /** What a trip comes to: the machine serves the request, and the client takes the reply. */
  ghost predicate Arrives(a: Chat, c: Client, fd: int, cmd: Command, mem: Mem, b: Chat, d: Client) {
    if Withholds(c, TagOf(cmd), TypedFor(cmd)) then b == a && d == c
    else exists msg: Msg, reply: Msg ::
      && Carries(msg, TagOf(cmd), TypedFor(cmd)) && Serves(a, fd, msg, mem, reply, b)
      && TakesReply(c, TagOf(cmd), TypedFor(cmd), reply, d)
  }

  lemma {:induction false} TripArrives(s: System, i: nat, fd: int, c: Client, cmd: Command, mem: Mem) returns (t: System, d: Client)
    requires Free(s, i, fd, c) && OnScreen(c.mode, cmd) && !cmd.DoExit?
    ensures Trip(s, i, fd, cmd, mem, t) && Free(t, i, fd, d)
    ensures Arrives(ChatOf(s.server), c, fd, cmd, mem, ChatOf(t.server), d)
    ensures t.conns == s.conns[fd := Conn(d, Idle, true)]
  {
    AskTheorem(c, cmd);
    if Ask(c, cmd).None? {
      t, d := s, c;
      assert s.conns[fd := s.conns[fd]] == s.conns;
    } else {
      var msg := Ask(c, cmd).value;
      t := Does(s, i, fd, c, cmd, msg, mem);
      ReachableInv(s);
      DispatchRefines(s.server, fd, msg, mem);
      var o := Dispatch(s.server, fd, msg, mem);
      ReceiveTheorem(c, cmd, o.reply);
      d := Receive(c, cmd, o.reply);
      DispatchKeeps(s.server, fd, msg, mem);
      var t' := TripIs(s, i, fd, c, cmd, msg, mem, o);
    }
  }

  lemma {:induction false} TripIs(s: System, i: nat, fd: int, c: Client, cmd: Command, msg: Msg, mem: Mem, o: Outcome) returns (t: System)
    requires fd >= 0 && i < |s.server.slots| && s.server.slots[i] == fd && fd in s.conns && s.conns[fd] == Conn(c, Idle, true)
    requires OnScreen(c.mode, cmd) && Ask(c, cmd) == Some(msg) && !cmd.DoExit? && o == Dispatch(s.server, fd, msg, mem)
    ensures Trip(s, i, fd, cmd, mem, t) && t == System(o.server, s.conns[fd := Conn(Receive(c, cmd, o.reply), Idle, true)])
  {
    var a := ActsIs(s, fd, c, cmd);
    var b := ServesIs(a, i, fd, c, cmd, msg, mem);
    t := DeliverIs(b, fd, c, cmd, o.reply);
    TripOf(s, i, fd, cmd, mem, a, b);
    assert t.conns == s.conns[fd := Conn(Receive(c, cmd, o.reply), Idle, true)];
  }

  lemma {:induction false} ServesIs(a: System, i: nat, fd: int, c: Client, cmd: Command, msg: Msg, mem: Mem) returns (b: System)
    requires fd >= 0 && i < |a.server.slots| && a.server.slots[i] == fd && fd in a.conns && a.conns[fd] == Conn(c, Phase.Asked(cmd), true)
    requires Ask(c, cmd) == Some(msg) && !cmd.DoExit?
    ensures CanHappen(a, Serve(i, mem)) && b == Happen(a, Serve(i, mem))
    ensures var o := Dispatch(a.server, fd, msg, mem);
            b == System(o.server, a.conns[fd := Conn(c, Phase.Answered(cmd, o.reply), true)])
  {
    OnlyExitCloses(a.server, fd, msg, mem);
    ServeIs(a, i, mem, msg, Dispatch(a.server, fd, msg, mem));
    b := Happen(a, Serve(i, mem));
  }

  lemma {:induction false} TripOf(s: System, i: nat, fd: int, cmd: Command, mem: Mem, a: System, b: System)
    requires CanHappen(s, UserActs(fd, cmd)) && a == Happen(s, UserActs(fd, cmd)) && fd in a.conns && a.conns[fd].phase.Asked?
    requires CanHappen(a, Serve(i, mem)) && b == Happen(a, Serve(i, mem)) && CanHappen(b, Deliver(fd))
    ensures Trip(s, i, fd, cmd, mem, Happen(b, Deliver(fd)))
  {
  }

  lemma {:induction false} ActsIs(s: System, fd: int, c: Client, cmd: Command) returns (a: System)
    requires fd in s.conns && s.conns[fd] == Conn(c, Idle, true) && OnScreen(c.mode, cmd) && Ask(c, cmd).Some?
    ensures CanHappen(s, UserActs(fd, cmd)) && a == Happen(s, UserActs(fd, cmd))
    ensures a == s.(conns := s.conns[fd := Conn(c, Phase.Asked(cmd), true)])
  {
    a := Happen(s, UserActs(fd, cmd));
  }

  lemma {:induction false} DeliverIs(s: System, fd: int, c: Client, cmd: Command, reply: Msg) returns (b: System)
    requires fd in s.conns && s.conns[fd] == Conn(c, Phase.Answered(cmd, reply), true)
    ensures CanHappen(s, Deliver(fd)) && b == Happen(s, Deliver(fd))
    ensures b == s.(conns := s.conns[fd := Conn(Receive(c, cmd, reply), Idle, true)])
  {
    b := Happen(s, Deliver(fd));
  }

  // ---- what is known in between ----

  /** Of a client with nothing under way: it is signed in if it thinks so, and lists exactly the groups it is in. */
  lemma {:induction false} IdleFacts(s: System, i: nat, fd: int, c: Client)
    requires Free(s, i, fd, c)
    ensures var chat := ChatOf(s.server);
            && (c.mode == LoggedIn ==> SignedIn(chat, fd)) && |chat.rooms| <= 16
            && (forall m :: m in c.sessions ==>
                  m.name in chat.rooms && chat.rooms[m.name].address == m.address && fd in chat.rooms[m.name].members)
            && (forall n :: n in chat.rooms && fd in chat.rooms[n].members ==> Lists(c, n))
  {
    ReachableInv(s);
    MirrorEntries(s, fd);
    ConservedMeans(s.server.pool, s.server.groups);
    if c.mode == LoggedIn {
      IsLoggedIn(s, i, fd, c);
      SignedInIs(s.server, fd);
    }
    RoomsFind(s.server.groups, []);
    forall m | m in c.sessions
      ensures var rooms := RoomsOf(s.server.groups);
              m.name in rooms && rooms[m.name].address == m.address && fd in rooms[m.name].members
    {
      RoomsFind(s.server.groups, m.name);
    }
    forall n | n in RoomsOf(s.server.groups) && fd in RoomsOf(s.server.groups)[n].members
      ensures Lists(c, n)
    {
      RoomsFind(s.server.groups, n);
      var p := s.server.groups[IndexOf(s.server.groups, n)];
      assert p in s.server.groups && Session(p.key, p.value.address) in c.sessions;
    }
  }

  lemma {:induction false} TellsRead(reply: Msg, a: Mcast)
    requires Tells(reply, a)
    ensures ParseGroupInfo(reply) == Some(a)
  {
    var v := reply.value;
    assert v[1..1 + |a.ip|] == a.ip && v[1 + |a.ip|] == a.port / 256 && v[2 + |a.ip|] == a.port % 256;
    CStrOfTerminated(a.ip, []);
  }

  // ---- groups ----

  /** A join of a live group that has room and is not listed puts it on the list, with the address all its members have, and
      the client among its members; any other join changes nothing anywhere. */
  lemma {:induction false} JoinJourney(s: System, i: nat, fd: int, c: Client, name: CString, mem: Mem) returns (t: System, d: Client)
    requires Free(s, i, fd, c) && c.mode == LoggedIn
    ensures Trip(s, i, fd, DoJoin(name), mem, t) && Free(t, i, fd, d)
    ensures var a, b := ChatOf(s.server), ChatOf(t.server);
            if |c.sessions| < 16 && !Lists(c, name) && 0 < |name| < 32 && name in a.rooms && |a.rooms[name].members| < 32 then
              && d == c.(sessions := c.sessions + [Session(name, a.rooms[name].address)])
              && b == a.(rooms := a.rooms[name := Room(a.rooms[name].address, a.rooms[name].members + {fd})])
            else d == c && b == a
  {
    t, d := TripArrives(s, i, fd, c, DoJoin(name), mem);
    IdleFacts(s, i, fd, c);
    JoinMeans(ChatOf(s.server), c, fd, name, mem, ChatOf(t.server), d);
  }

  lemma {:induction false} JoinMeans(a: Chat, c: Client, fd: int, name: CString, mem: Mem, b: Chat, d: Client)
    requires Arrives(a, c, fd, DoJoin(name), mem, b, d) && SignedIn(a, fd)
    requires name in a.rooms && fd in a.rooms[name].members ==> Lists(c, name)
    ensures if |c.sessions| < 16 && !Lists(c, name) && 0 < |name| < 32 && name in a.rooms && |a.rooms[name].members| < 32 then
              && d == c.(sessions := c.sessions + [Session(name, a.rooms[name].address)])
              && b == a.(rooms := a.rooms[name := Room(a.rooms[name].address, a.rooms[name].members + {fd})])
            else d == c && b == a
  {
    if !Withholds(c, 5, Typed(name, [])) {
      var msg: Msg, reply: Msg :| Carries(msg, 5, Typed(name, [])) && Serves(a, fd, msg, mem, reply, b)
                                  && TakesReply(c, 5, Typed(name, []), reply, d);
      if name in a.rooms && |a.rooms[name].members| < 32 {
        TellsRead(reply, a.rooms[name].address);
      }
    }
  }

  /** A create of a new name puts a group on the list that has the next free address and its founder as the only member,
      unless sixteen groups are live or memory is short. */
  lemma {:induction false} CreateJourney(s: System, i: nat, fd: int, c: Client, name: CString, mem: Mem) returns (t: System, d: Client)
    requires Free(s, i, fd, c) && c.mode == LoggedIn
    ensures Trip(s, i, fd, DoCreate(name), mem, t) && Free(t, i, fd, d)
    ensures var a, b := ChatOf(s.server), ChatOf(t.server);
            if 0 < |name| < 32 && name !in a.rooms && |a.rooms| < 16 && mem.record && mem.list && mem.insert then
              && a.free != [] && d == c.(sessions := c.sessions + [Session(name, a.free[0])])
              && b == a.(rooms := a.rooms[name := Room(a.free[0], {fd})], free := a.free[1..])
            else d == c && b.rooms == a.rooms && b.accounts == a.accounts
  {
    t, d := TripArrives(s, i, fd, c, DoCreate(name), mem);
    IdleFacts(s, i, fd, c);
    FullListIsFullServer(s, fd, c);
    CreateMeans(ChatOf(s.server), c, fd, name, mem, ChatOf(t.server), d);
  }

  /** A client lists no more groups than there are. */
  lemma {:induction false} FullListIsFullServer(s: System, fd: int, c: Client)
    requires Reachable(s) && fd in s.conns && s.conns[fd] == Conn(c, Idle, true)
    ensures |c.sessions| <= |ChatOf(s.server).rooms|
  {
    ReachableInv(s);
    assert ConnOk(s.server, fd, s.conns[fd]);
    ListedCount(c.sessions);
    MembershipCount(s.server.groups, fd);
    RoomsFind(s.server.groups, []);
  }

  lemma {:induction false} CreateMeans(a: Chat, c: Client, fd: int, name: CString, mem: Mem, b: Chat, d: Client)
    requires Arrives(a, c, fd, DoCreate(name), mem, b, d) && SignedIn(a, fd) && |c.sessions| <= |a.rooms|
    ensures if 0 < |name| < 32 && name !in a.rooms && |a.rooms| < 16 && mem.record && mem.list && mem.insert then
              && a.free != [] && d == c.(sessions := c.sessions + [Session(name, a.free[0])])
              && b == a.(rooms := a.rooms[name := Room(a.free[0], {fd})], free := a.free[1..])
            else d == c && b.rooms == a.rooms && b.accounts == a.accounts
  {
    if !Withholds(c, 7, Typed(name, [])) {
      var msg: Msg, reply: Msg :| Carries(msg, 7, Typed(name, [])) && Serves(a, fd, msg, mem, reply, b)
                                  && TakesReply(c, 7, Typed(name, []), reply, d);
      if name !in a.rooms && |a.rooms| < 16 && mem.record && mem.list && mem.insert {
        TellsRead(reply, a.free[0]);
      }
    }
  }

  /** A leave of a listed group takes it off the list and the client out of its members; the last one out closes it. Any
      other leave changes nothing anywhere. */
  lemma {:induction false} LeaveJourney(s: System, i: nat, fd: int, c: Client, name: CString, mem: Mem) returns (t: System, d: Client)
    requires Free(s, i, fd, c) && c.mode == LoggedIn
    ensures Trip(s, i, fd, DoLeave(name), mem, t) && Free(t, i, fd, d)
    ensures var a, b := ChatOf(s.server), ChatOf(t.server);
            if Lists(c, name) && 0 < |name| < 32 then
              && Unlists(c.sessions, name, d.sessions) && d == c.(sessions := d.sessions) && name in a.rooms
              && var room := a.rooms[name];
                 b == if room.members == {fd} then a.(rooms := a.rooms - {name}, free := a.free + [room.address])
                      else a.(rooms := a.rooms[name := Room(room.address, room.members - {fd})])
            else d == c && b == a
  {
    t, d := TripArrives(s, i, fd, c, DoLeave(name), mem);
    IdleFacts(s, i, fd, c);
    LeaveMeans(ChatOf(s.server), c, fd, name, mem, ChatOf(t.server), d);
  }

  lemma {:induction false} LeaveMeans(a: Chat, c: Client, fd: int, name: CString, mem: Mem, b: Chat, d: Client)
    requires Arrives(a, c, fd, DoLeave(name), mem, b, d)
    requires Lists(c, name) ==> name in a.rooms && fd in a.rooms[name].members
    ensures if Lists(c, name) && 0 < |name| < 32 then
              && Unlists(c.sessions, name, d.sessions) && d == c.(sessions := d.sessions)
              && var room := a.rooms[name];
                 b == if room.members == {fd} then a.(rooms := a.rooms - {name}, free := a.free + [room.address])
                      else a.(rooms := a.rooms[name := Room(room.address, room.members - {fd})])
            else d == c && b == a
  {
    if Lists(c, name) && 0 < |name| < 32 {
      var msg: Msg, reply: Msg :| Carries(msg, 6, Typed(name, [])) && Serves(a, fd, msg, mem, reply, b)
                                  && TakesReply(c, 6, Typed(name, []), reply, d);
    }
  }

  // ---- accounts ----

  /** Whenever a registration is served: it is answered with success if and only if the name is new and memory suffices, and
      then exactly the typed password is stored for the typed name. */
  lemma {:induction false} RegistrationStores(s: System, i: nat, mem: Mem)
    requires Reachable(s) && CanHappen(s, Serve(i, mem)) && s.conns[s.server.slots[i]].phase.cmd.DoRegister?
    ensures var fd, t := s.server.slots[i], Happen(s, Serve(i, mem));
            var a, b, cmd := ChatOf(s.server), ChatOf(t.server), s.conns[fd].phase.cmd;
            && fd in t.conns && t.conns[fd].phase.Answered?
            && (t.conns[fd].phase.reply == Success() <==> cmd.user !in a.accounts && mem.record && mem.insert)
            && b == if t.conns[fd].phase.reply == Success() then a.(accounts := a.accounts[cmd.user := User(cmd.pass, false, -1)])
                    else a
  {
    ReachableInv(s);
    var fd := s.server.slots[i];
    var c := s.conns[fd];
    assert ConnOk(s.server, fd, c);
    AskTheorem(c.client, c.phase.cmd);
    var msg := Ask(c.client, c.phase.cmd).value;
    OnlyExitCloses(s.server, fd, msg, mem);
    ServeIs(s, i, mem, msg, Dispatch(s.server, fd, msg, mem));
    DispatchRefines(s.server, fd, msg, mem);
  }

  lemma {:induction false} HappenKeepsAccount(s: System, e: SysEvent, user: CString)
    requires SysInv(s) && CanHappen(s, e) && user in ChatOf(s.server).accounts
    ensures var a, b := ChatOf(s.server).accounts, ChatOf(Happen(s, e).server).accounts;
            user in b && b[user].password == a[user].password
  {
    match e
    case Connect(fd) =>
    case UserActs(fd, cmd) =>
    case Serve(i, mem) =>
      var fd := s.server.slots[i];
      assert ConnOk(s.server, fd, s.conns[fd]);
      var msg := Ask(s.conns[fd].client, s.conns[fd].phase.cmd).value;
      EventRefines(s.server, Request(i, msg, mem));
      AccountsStay(ChatOf(s.server), ActOf(s.server, Request(i, msg, mem))[0], ChatOf(Step(s.server, Request(i, msg, mem))), user);
    case Deliver(fd) =>
    case Crash(fd) =>
    case Notice(i) =>
      EventRefines(s.server, HangUp(i));
      AccountsStay(ChatOf(s.server), Lost(s.server.slots[i]), ChatOf(Step(s.server, HangUp(i))), user);
  }

  lemma {:induction false} RunKeepsAccount(s: System, run: seq<SysEvent>, user: CString)
    requires SysInv(s) && ValidRun(s, run) && user in ChatOf(s.server).accounts
    ensures var a, b := ChatOf(s.server).accounts, ChatOf(AfterRun(s, run).server).accounts;
            user in b && b[user].password == a[user].password
    decreases |run|
  {
    if run != [] {
      HappenKeeps(s, run[0]);
      HappenKeepsAccount(s, run[0], user);
      RunKeepsAccount(Happen(s, run[0]), run[1..], user);
    }
  }

  /** Once registered, always able to log in: after any run from a registration on, of any clients, an account logs in on any
      idle connection if and only if what is typed is the registered password and it has no session open. */
  lemma {:induction false} AccountLasts(s: System, run: seq<SysEvent>, i: nat, fd: int, c: Client, user: CString, typed: CString, mem: Mem)
    returns (t: System, d: Client)
    requires Reachable(s) && user in ChatOf(s.server).accounts && ValidRun(s, run)
    requires Free(AfterRun(s, run), i, fd, c) && c.mode == Connected
    requires 0 < |user| < 32 && 0 < |typed| < 64
    ensures var u := AfterRun(s, run);
            && Trip(u, i, fd, DoLogin(user, typed), mem, t) && Free(t, i, fd, d)
            && user in ChatOf(u.server).accounts
            && (d.mode == LoggedIn <==> typed == ChatOf(s.server).accounts[user].password && !ChatOf(u.server).accounts[user].loggedIn)
            && (d.mode == LoggedIn ==> d.username == user)
  {
    ReachableInv(s);
    RunKeepsAccount(s, run, user);
    t, d := LoginJourney(AfterRun(s, run), i, fd, c, user, typed, mem);
  }

  /** A registration of a new name stores what was typed, as long as memory suffices; the client stays as it is. */
  lemma {:induction false} RegisterJourney(s: System, i: nat, fd: int, c: Client, user: CString, pass: CString, mem: Mem)
    returns (t: System, d: Client)
    requires Free(s, i, fd, c) && c.mode == Connected
    ensures Trip(s, i, fd, DoRegister(user, pass), mem, t) && Free(t, i, fd, c) && d == c
    ensures var a, b := ChatOf(s.server), ChatOf(t.server);
            b == if 0 < |user| < 32 && 0 < |pass| < 64 && user !in a.accounts && mem.record && mem.insert
                 then a.(accounts := a.accounts[user := User(pass, false, -1)]) else a
  {
    t, d := TripArrives(s, i, fd, c, DoRegister(user, pass), mem);
  }

  /** A login with the stored password of a name that has no session open shows the second screen; any other login changes
      nothing. */
  lemma {:induction false} LoginJourney(s: System, i: nat, fd: int, c: Client, user: CString, pass: CString, mem: Mem)
    returns (t: System, d: Client)
    requires Free(s, i, fd, c) && c.mode == Connected
    ensures Trip(s, i, fd, DoLogin(user, pass), mem, t) && Free(t, i, fd, d)
    ensures var a, b := ChatOf(s.server), ChatOf(t.server);
            if 0 < |user| < 32 && 0 < |pass| < 64 && user in a.accounts
               && a.accounts[user].password == pass && !a.accounts[user].loggedIn
            then d == c.(mode := LoggedIn, username := user) && b == a.(accounts := a.accounts[user := User(pass, true, fd)])
            else d == c && b == a
  {
    t, d := TripArrives(s, i, fd, c, DoLogin(user, pass), mem);
  }

  /** A logout shows the first screen again; the client is in no group any more, and nobody has a session on its fd. */
  lemma {:induction false} LogoutJourney(s: System, i: nat, fd: int, c: Client, mem: Mem) returns (t: System, d: Client)
    requires Free(s, i, fd, c) && c.mode == LoggedIn
    ensures Trip(s, i, fd, DoLogout, mem, t) && Free(t, i, fd, d) && d == Client(Connected, [], [])
    ensures Ends(ChatOf(s.server), fd, ChatOf(t.server)) && UsersOn(t.server.users, fd) == {}
  {
    t, d := TripArrives(s, i, fd, c, DoLogout, mem);
    SessionTheorem(t, fd);
  }
}
