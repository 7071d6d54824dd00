/** Single exchanges in the composed system: a command is given, served, and its reply delivered. */
module Exchanges {
  import opened Assoc
  import opened Protocol
  import opened ServerSpec
  import opened ServerSafety
  import opened ClientSpec
  import opened System

  // ---- making a run longer ----

  lemma {:induction false} SystemSnoc(s: System, run: seq<SysEvent>, e: SysEvent)
    requires ValidRun(s, run) && CanHappen(AfterRun(s, run), e)
    ensures ValidRun(s, run + [e]) && AfterRun(s, run + [e]) == Happen(AfterRun(s, run), e)
    decreases |run|
  {
    if run == [] {
      assert run + [e] == [e] && [e][1..] == [];
      assert ValidRun(Happen(s, e), []);
    } else {
      ConcatCons(run, [e]);
      SystemSnoc(Happen(s, run[0]), run[1..], e);
    }
  }

  lemma {:induction false} Next(s: System, e: SysEvent) returns (t: System)
    requires Reachable(s) && CanHappen(s, e)
    ensures Reachable(t) && t == Happen(s, e)
  {
    var run :| ValidRun(Start(), run) && s == AfterRun(Start(), run);
    SystemSnoc(Start(), run, e);
    t := Happen(s, e);
  }

  /** A client with nothing under way, on slot `i`. */
  ghost predicate Free(s: System, i: nat, fd: int, c: Client) {
    && Reachable(s) && fd >= 0 && i < |s.server.slots| && s.server.slots[i] == fd
    && fd in s.conns && s.conns[fd] == Conn(c, Idle, true)
  }

  /** A command is given and served, and the reply is on its way. */
  lemma {:induction false} Asks(s: System, i: nat, fd: int, c: Client, cmd: Command, msg: Msg, mem: Mem) returns (t: System)
    requires Free(s, i, fd, c) && OnScreen(c.mode, cmd) && Ask(c, cmd) == Some(msg) && !cmd.DoExit?
    ensures var o := Dispatch(s.server, fd, msg, mem);
            Reachable(t) && t == System(o.server, s.conns[fd := Conn(c, Phase.Answered(cmd, o.reply), true)])
  {
    var m := Next(s, UserActs(fd, cmd));
    ServerSafety.OnlyExitCloses(s.server, fd, msg, mem);
    t := Next(m, Serve(i, mem));
    assert s.conns[fd := Conn(c, Phase.Asked(cmd), true)][fd := Conn(c, Phase.Answered(cmd, Dispatch(s.server, fd, msg, mem).reply), true)]
        == s.conns[fd := Conn(c, Phase.Answered(cmd, Dispatch(s.server, fd, msg, mem).reply), true)];
  }

  /** A command is given and served, and the reply arrives. */
  lemma {:induction false} Does(s: System, i: nat, fd: int, c: Client, cmd: Command, msg: Msg, mem: Mem) returns (t: System)
    requires Free(s, i, fd, c) && OnScreen(c.mode, cmd) && Ask(c, cmd) == Some(msg) && !cmd.DoExit?
    ensures var o := Dispatch(s.server, fd, msg, mem);
            Reachable(t) && t == System(o.server, s.conns[fd := Conn(Receive(c, cmd, o.reply), Idle, true)])
  {
    var m := Asks(s, i, fd, c, cmd, msg, mem);
    t := Next(m, Deliver(fd));
    assert t.conns == s.conns[fd := Conn(Receive(c, cmd, Dispatch(s.server, fd, msg, mem).reply), Idle, true)];
  }

  lemma {:induction false} IsLoggedIn(s: System, i: nat, fd: int, c: Client)
    requires Free(s, i, fd, c) && c.mode == LoggedIn
    ensures LoggedInOn(s.server, fd)
  {
    ReachableInv(s);
    SessionTheorem(s, fd);
    UserOnIff(s.server.users, fd);
    assert s.server.users[UserOn(s.server.users, fd)] in s.server.users;
  }
}
