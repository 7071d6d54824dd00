/** What a client says and hears: single exchanges, and whole sessions of menu choices. */
module ClientSessions {
  import opened Strings
  import opened Assoc
  import opened Protocol
  import opened Framing
  import opened ClientSpec

  /** The client, the bytes that will still arrive, and the bytes it has sent. */
  datatype Moment = Moment(client: Client, inbox: seq<byte>, outbox: seq<byte>)

  /** A command refused by the client itself sends nothing. Otherwise the request goes out, the reply is the next message
      of the stream, and the client does with it what its specification says; without a reply it stays as it is. */
  ghost predicate Spoken(m: Moment, cmd: Command, reply: Option<Msg>, n: Moment, reliable: bool) {
    match Ask(m.client, cmd)
    case None => reply == None && n == m
    case Some(request) =>
      match reply
      case Some(r) =>
        n.outbox == m.outbox + Wire(request) && Decode(m.inbox) == Some(Frame(r, n.inbox)) && n.client == Receive(m.client, cmd, r)
      case None =>
        && n.client == (if cmd == DoLogout then Client(Connected, [], []) else m.client)
        && (reliable ==> match Decode(m.inbox) case None => true case Some(f) => |f.msg.value| > 253)
  }

  // ---- sessions ----

  /** A menu choice and what is typed after it. */
  datatype Input = Input(choice: int, first: CString, second: CString)

  /** The command a choice stands for on the screen that is shown; none for a choice that is not on the menu. */
  function CommandOf(mode: Mode, input: Input): (cmd: Option<Command>)
    ensures cmd.Some? ==> OnScreen(mode, cmd.value)
  {
    match mode
    case Connected =>
      if input.choice == 1 then Some(DoRegister(input.first, input.second))
      else if input.choice == 2 then Some(DoLogin(input.first, input.second))
      else if input.choice == 3 then Some(DoExit)
      else None
    case LoggedIn =>
      if input.choice == 1 then Some(DoCreate(input.first))
      else if input.choice == 2 then Some(DoJoin(input.first))
      else if input.choice == 3 then Some(DoLeave(input.first))
      else if input.choice == 4 then Some(DoLogout)
      else None
  }

  /** One command, what it was answered, and the moments before and after. */
  datatype Exchange = Exchange(from: Moment, cmd: Command, reply: Option<Msg>, to: Moment)

  /** These exchanges are what the inputs lead to, one after the other: every choice is given as the command it stands
      for on the screen the client shows at that moment. */
  ghost predicate Script(m: Moment, inputs: seq<Input>, said: seq<Exchange>, n: Moment, reliable: bool)
    decreases |inputs|
  {
    if inputs == [] then said == [] && n == m else
    match CommandOf(m.client.mode, inputs[0])
    case None => Script(m, inputs[1..], said, n, reliable)
    case Some(cmd) =>
      && said != [] && said[0].from == m && said[0].cmd == cmd
      && Spoken(m, cmd, said[0].reply, said[0].to, reliable)
      && Script(said[0].to, inputs[1..], said[1..], n, reliable)
  }

  lemma {:induction false} ScriptConcat(m: Moment, a: seq<Input>, x: seq<Exchange>, n: Moment, b: seq<Input>, y: seq<Exchange>, o: Moment, reliable: bool)
    requires Script(m, a, x, n, reliable) && Script(n, b, y, o, reliable)
    ensures Script(m, a + b, x + y, o, reliable)
    decreases |a|
  {
    if a == [] {
      assert a + b == b && x + y == y;
    } else {
      ConcatCons(a, b);
      if CommandOf(m.client.mode, a[0]).None? {
        ScriptConcat(m, a[1..], x, n, b, y, o, reliable);
      } else {
        ConcatCons(x, y);
        ScriptConcat(x[0].to, a[1..], x[1..], n, b, y, o, reliable);
      }
    }
  }

  /** One more choice that is on the menu. */
  lemma {:induction false} ScriptSnoc(m: Moment, inputs: seq<Input>, said: seq<Exchange>, x: Exchange, input: Input, reliable: bool)
    requires Script(m, inputs, said, x.from, reliable) && CommandOf(x.from.client.mode, input) == Some(x.cmd)
    requires Spoken(x.from, x.cmd, x.reply, x.to, reliable)
    ensures Script(m, inputs + [input], said + [x], x.to, reliable)
  {
    assert [input][1..] == [] && [x][1..] == [];
    assert Script(x.to, [], [], x.to, reliable);
    ScriptConcat(m, inputs, said, x.from, [input], [x], x.to, reliable);
  }

  /** One more choice that is not. */
  lemma {:induction false} ScriptSkip(m: Moment, inputs: seq<Input>, said: seq<Exchange>, n: Moment, input: Input, reliable: bool)
    requires Script(m, inputs, said, n, reliable) && CommandOf(n.client.mode, input) == None
    ensures Script(m, inputs + [input], said, n, reliable)
  {
    assert [input][1..] == [] && said + [] == said;
    assert Script(n, [], [], n, reliable);
    ScriptConcat(m, inputs, said, n, [input], [], n, reliable);
  }

  /** One more choice, of either kind; the reply counts only for one that is on the menu. */
  lemma {:induction false} ScriptNext(m: Moment, inputs: seq<Input>, said: seq<Exchange>, now: Moment, input: Input, reply: Option<Msg>, after: Moment,
                                      reliable: bool) returns (said': seq<Exchange>)
    requires Script(m, inputs, said, now, reliable)
    requires match CommandOf(now.client.mode, input)
             case None => after == now
             case Some(cmd) => Spoken(now, cmd, reply, after, reliable)
    ensures Script(m, inputs + [input], said', after, reliable)
    ensures match CommandOf(now.client.mode, input)
            case None => said' == said
            case Some(cmd) => said' == said + [Exchange(now, cmd, reply, after)] && said'[..|said|] == said
  {
    match CommandOf(now.client.mode, input)
    case None =>
      ScriptSkip(m, inputs, said, now, input, reliable);
      said' := said;
    case Some(cmd) =>
      ScriptSnoc(m, inputs, said, Exchange(now, cmd, reply, after), input, reliable);
      said' := said + [Exchange(now, cmd, reply, after)];
  }

  /** Each exchange starts where the one before it ended, from the first moment to the last. */
  ghost predicate Linked(m: Moment, said: seq<Exchange>, n: Moment) {
    && (if said == [] then n == m else said[0].from == m && said[|said| - 1].to == n)
    && forall k :: 0 < k < |said| ==> said[k].from == said[k - 1].to
  }

  /** In a session every command belongs to the screen that is shown when it is given. */
  lemma {:induction false} ScriptDiscipline(m: Moment, inputs: seq<Input>, said: seq<Exchange>, n: Moment, reliable: bool)
    requires Script(m, inputs, said, n, reliable)
    ensures Linked(m, said, n) && |said| <= |inputs|
    ensures forall x :: x in said ==> OnScreen(x.from.client.mode, x.cmd) && Spoken(x.from, x.cmd, x.reply, x.to, reliable)
    decreases |inputs|
  {
    if inputs != [] {
      if CommandOf(m.client.mode, inputs[0]).None? {
        ScriptDiscipline(m, inputs[1..], said, n, reliable);
      } else {
        ScriptDiscipline(said[0].to, inputs[1..], said[1..], n, reliable);
        LinkedCons(m, said, n);
      }
    }
  }

  lemma {:induction false} LinkedCons(m: Moment, said: seq<Exchange>, n: Moment)
    requires said != [] && said[0].from == m && Linked(said[0].to, said[1..], n)
    ensures Linked(m, said, n)
    ensures forall x :: x in said ==> x == said[0] || x in said[1..]
  {
    var tail := said[1..];
    forall k | 0 < k < |said|
      ensures said[k].from == said[k - 1].to
    {
      if k > 1 {
        assert tail[k - 1].from == tail[k - 2].to;
      } else {
        assert tail[0] == said[1];
      }
    }
    if tail != [] {
      assert tail[|tail| - 1] == said[|said| - 1];
    }
  }

  /** The command comes at the end of the session, and only there. */
  ghost predicate EndsWith(said: seq<Exchange>, cmd: Command) {
    && said != [] && said[|said| - 1].cmd == cmd
    && Without(said[..|said| - 1], cmd)
  }

  ghost predicate Without(said: seq<Exchange>, cmd: Command) {
    forall x :: x in said ==> x.cmd != cmd
  }

  /** The inputs that have been used when these are left. */
  function Used(inputs: seq<Input>, rest: seq<Input>): seq<Input>
    requires |rest| <= |inputs|
  {
    inputs[..|inputs| - |rest|]
  }

  ghost predicate LeftOf(inputs: seq<Input>, rest: seq<Input>) {
    |rest| <= |inputs| && inputs == Used(inputs, rest) + rest
  }

  lemma {:induction false} UseOne(inputs: seq<Input>, rest: seq<Input>)
    requires LeftOf(inputs, rest) && rest != []
    ensures LeftOf(inputs, rest[1..]) && Used(inputs, rest[1..]) == Used(inputs, rest) + [rest[0]]
  {
    assert inputs[|inputs| - |rest|] == rest[0];
  }

  lemma {:induction false} UseMore(inputs: seq<Input>, mid: seq<Input>, rest: seq<Input>)
    requires LeftOf(inputs, mid) && LeftOf(mid, rest)
    ensures LeftOf(inputs, rest) && Used(inputs, rest) == Used(inputs, mid) + Used(mid, rest)
  {
    Regroup(Used(inputs, mid), Used(mid, rest), rest);
  }
}
