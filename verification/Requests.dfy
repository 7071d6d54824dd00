/** What a client sends: which requests it makes of what is typed, which ones it refuses by itself, and which menu choice
    leads to which, with tags and limits in numbers. */
module Requests {
  import opened Strings
  import opened Assoc
  import opened Protocol
  import opened Framing
  import opened ClientSpec
  import opened ClientSessions

  // ---- commands ----

  function TagOf(cmd: Command): byte {
    match cmd
    case DoRegister(_, _) => 1
    case DoLogin(_, _) => 2
    case DoLogout => 3
    case DoExit => 4
    case DoJoin(_) => 5
    case DoLeave(_) => 6
    case DoCreate(_) => 7
  }

  /** What has been typed: a user name and a password, or the name of a group. */
  datatype Typed = Typed(first: CString, second: CString)

  function TypedFor(cmd: Command): Typed {
    match cmd
    case DoRegister(user, pass) => Typed(user, pass)
    case DoLogin(user, pass) => Typed(user, pass)
    case DoCreate(name) => Typed(name, [])
    case DoJoin(name) => Typed(name, [])
    case DoLeave(name) => Typed(name, [])
    case _ => Typed([], [])
  }

  ghost predicate Lists(c: Client, name: CString) {
    exists m :: m in c.sessions && m.name == name
  }

  /** What the client refuses without asking: strings that are empty or too long, a create or a join with sixteen groups, a
      join of a group it lists, a leave of one it does not. */
  ghost predicate Withholds(c: Client, tag: byte, typed: Typed) {
    if tag == 1 || tag == 2 then !(0 < |typed.first| < 32 && 0 < |typed.second| < 64)
    else if tag == 5 then |c.sessions| >= 16 || Lists(c, typed.first) || !(0 < |typed.first| < 32)
    else if tag == 6 then !Lists(c, typed.first) || !(0 < |typed.first| < 32)
    else if tag == 7 then |c.sessions| >= 16 || !(0 < |typed.first| < 32)
    else false
  }

  /** A request with this tag, from which the server reads what was typed. */
  ghost predicate Carries(request: Msg, tag: byte, typed: Typed) {
    && request.tag == tag
    && if tag == 1 || tag == 2 then ParseAuth(request) == Some(Auth(typed.first, typed.second))
       else if tag == 5 || tag == 6 || tag == 7 then ParseGroup(request) == Some(typed.first)
       else request.value == []
  }

  lemma {:induction false} ListsIs(c: Client, name: CString)
    ensures Lists(c, name) <==> ClientSpec.SessionOf(c.sessions, name) < |c.sessions|
  {
    var i := ClientSpec.SessionOf(c.sessions, name);
    if i < |c.sessions| {
      assert c.sessions[i] in c.sessions;
    }
  }

  /** A client refuses a command by itself if and only if it has one of these reasons; otherwise it sends the request that
      says what was typed. */
  lemma {:induction false} AskTheorem(c: Client, cmd: Command)
    ensures Ask(c, cmd).None? <==> Withholds(c, TagOf(cmd), TypedFor(cmd))
    ensures Ask(c, cmd).Some? ==> Carries(Ask(c, cmd).value, TagOf(cmd), TypedFor(cmd))
  {
    match cmd
    case DoRegister(user, pass) =>
      if Ask(c, cmd).Some? {
        AuthRoundTrip(MSG_REGISTER, user, pass);
      }
    case DoLogin(user, pass) =>
      if Ask(c, cmd).Some? {
        AuthRoundTrip(MSG_LOGIN, user, pass);
      }
    case DoExit =>
    case DoLogout =>
    case DoCreate(name) =>
      if Ask(c, cmd).Some? {
        GroupRoundTrip(MSG_CREATE_GROUP, name);
      }
    case DoJoin(name) =>
      ListsIs(c, name);
      if Ask(c, cmd).Some? {
        GroupRoundTrip(MSG_JOIN_GROUP, name);
      }
    case DoLeave(name) =>
      ListsIs(c, name);
      if Ask(c, cmd).Some? {
        GroupRoundTrip(MSG_LEAVE_GROUP, name);
      }
  }

  // ---- replies ----

  /** The first entry with this name goes, the others keep their order. */
  ghost predicate Unlists(sessions: seq<Session>, name: CString, left: seq<Session>) {
    exists i :: && 0 <= i < |sessions| && sessions[i].name == name && (forall j :: 0 <= j < i ==> sessions[j].name != name)
                && left == sessions[..i] + sessions[i + 1..]
  }

  /** What the client makes of the reply to a request: only a success logs it in or takes a group off its list, only the
      address of a group puts one behind the others, and a logout forgets everything whatever the reply. */
  ghost predicate TakesReply(c: Client, tag: byte, typed: Typed, reply: Msg, d: Client) {
    if tag == 2 && reply.tag == 100 then d == c.(mode := LoggedIn, username := typed.first)
    else if (tag == 5 || tag == 7) && ParseGroupInfo(reply).Some? then
      d == c.(sessions := c.sessions + [Session(typed.first, ParseGroupInfo(reply).value)])
    else if tag == 6 && reply.tag == 100 && Lists(c, typed.first) then
      Unlists(c.sessions, typed.first, d.sessions) && d == c.(sessions := d.sessions)
    else if tag == 3 then d == Client(Connected, [], [])
    else d == c
  }

  lemma {:induction false} ReceiveTheorem(c: Client, cmd: Command, reply: Msg)
    ensures TakesReply(c, TagOf(cmd), TypedFor(cmd), reply, Receive(c, cmd, reply))
  {
    if cmd.DoLeave? {
      ListsIs(c, cmd.name);
      var i := ClientSpec.SessionOf(c.sessions, cmd.name);
      if i < |c.sessions| {
        assert Unlists(c.sessions, cmd.name, RemoveAt(c.sessions, i));
      }
    }
  }

  // ---- menu choices ----

  /** The menus: register, log in, exit; and create, join, leave, log out. */
  function Menu(mode: Mode): seq<byte> {
    match mode
    case Connected => [1, 2, 4]
    case LoggedIn => [7, 5, 6, 3]
  }

  predicate OnMenu(mode: Mode, choice: int) {
    1 <= choice <= |Menu(mode)|
  }

  /** This exchange carries out this choice: unless the client refuses, the request that the choice stands for goes out,
      with what was typed in it, and the next message of the stream is taken as the reply. Without one only a logout changes
      anything at the client, and a reliable connection has none only if it holds no complete message. */
  ghost predicate CarriesOut(x: Exchange, input: Input, reliable: bool)
    requires OnMenu(x.from.client.mode, input.choice)
  {
    var tag, typed := Menu(x.from.client.mode)[input.choice - 1], Typed(input.first, input.second);
    if Withholds(x.from.client, tag, typed) then x.reply == None && x.to == x.from
    else if x.reply.Some? then
      && (exists request: Msg :: Carries(request, tag, typed) && x.to.outbox == x.from.outbox + Wire(request))
      && Decode(x.from.inbox) == Some(Frame(x.reply.value, x.to.inbox))
      && TakesReply(x.from.client, tag, typed, x.reply.value, x.to.client)
    else
      && x.to.client == (if tag == 3 then Client(Connected, [], []) else x.from.client)
      && (reliable ==> match Decode(x.from.inbox) case None => true case Some(f) => |f.msg.value| > 253)
  }

  /** Choice after choice: those that are not on the menu of the screen that is shown lead to nothing, each of the others
      to one exchange, which carries it out. */
  ghost predicate Followed(m: Moment, inputs: seq<Input>, said: seq<Exchange>, n: Moment, reliable: bool)
    decreases |inputs|
  {
    if inputs == [] then said == [] && n == m
    else if !OnMenu(m.client.mode, inputs[0].choice) then Followed(m, inputs[1..], said, n, reliable)
    else && said != [] && said[0].from == m && CarriesOut(said[0], inputs[0], reliable)
         && Followed(said[0].to, inputs[1..], said[1..], n, reliable)
  }

  lemma {:induction false} CommandIs(mode: Mode, input: Input)
    ensures CommandOf(mode, input).Some? <==> OnMenu(mode, input.choice)
    ensures CommandOf(mode, input).Some? ==> TagOf(CommandOf(mode, input).value) == Menu(mode)[input.choice - 1]
    ensures CommandOf(mode, input).Some? ==>
              var typed, tag := TypedFor(CommandOf(mode, input).value), TagOf(CommandOf(mode, input).value);
              && (tag != 3 && tag != 4 ==> typed.first == input.first)
              && (tag == 1 || tag == 2 ==> typed.second == input.second)
  {
  }

  lemma {:induction false} ExchangeIs(x: Exchange, input: Input, reliable: bool)
    requires CommandOf(x.from.client.mode, input) == Some(x.cmd) && Spoken(x.from, x.cmd, x.reply, x.to, reliable)
    ensures OnMenu(x.from.client.mode, input.choice) && CarriesOut(x, input, reliable)
  {
    CommandIs(x.from.client.mode, input);
    AskTheorem(x.from.client, x.cmd);
    var tag, typed := TagOf(x.cmd), Typed(input.first, input.second);
    assert Withholds(x.from.client, tag, typed) <==> Withholds(x.from.client, tag, TypedFor(x.cmd));
    if Ask(x.from.client, x.cmd).Some? && x.reply.Some? {
      assert Carries(Ask(x.from.client, x.cmd).value, tag, typed);
      ReceiveTheorem(x.from.client, x.cmd, x.reply.value);
      assert TakesReply(x.from.client, tag, typed, x.reply.value, x.to.client);
    }
  }

  /** In every session the choices are followed. */
  lemma {:induction false} ScriptTheorem(m: Moment, inputs: seq<Input>, said: seq<Exchange>, n: Moment, reliable: bool)
    requires Script(m, inputs, said, n, reliable)
    ensures Followed(m, inputs, said, n, reliable)
    decreases |inputs|
  {
    if inputs != [] {
      CommandIs(m.client.mode, inputs[0]);
      if CommandOf(m.client.mode, inputs[0]).None? {
        ScriptTheorem(m, inputs[1..], said, n, reliable);
      } else {
        ExchangeIs(said[0], inputs[0], reliable);
        ScriptTheorem(said[0].to, inputs[1..], said[1..], n, reliable);
      }
    }
  }
}
