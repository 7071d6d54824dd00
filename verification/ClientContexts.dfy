/** The client as it is in memory: the fixed array of sessions, and the steps of its two screens. */
module ClientContexts {
  import opened Strings
  import opened Assoc
  import opened Protocol
  import opened Framing
  import opened Buffers
  import opened Network
  import opened ClientSpec
  import opened ClientSessions
  import opened Requests

  const NO_SESSION := Session([], Mcast([], 0))

  class ClientContext {
    var state: Mode
    var username: CString
    const activeGroups: array<Session>
    var activeGroupCount: nat

    /** Unused entries are cleared. */
    ghost predicate Valid()
      reads this, activeGroups
    {
      && activeGroups.Length == MAX_GROUPS && activeGroupCount <= MAX_GROUPS
      && forall i :: activeGroupCount <= i < MAX_GROUPS ==> activeGroups[i] == NO_SESSION
    }

    ghost function View(): Client
      requires Valid()
      reads this, activeGroups
    {
      Client(state, username, activeGroups[..activeGroupCount])
    }

    constructor ()
      ensures Valid() && View() == Client(Connected, [], []) && fresh(activeGroups)
    {
      state, username, activeGroupCount := Connected, [], 0;
      activeGroups := new Session[MAX_GROUPS](_ => NO_SESSION);
    }

    lemma {:induction false} SessionIs(sessions: seq<Session>, name: CString, i: nat)
      requires i <= |sessions| && (i < |sessions| ==> sessions[i].name == name)
      requires forall j :: 0 <= j < i ==> sessions[j].name != name
      ensures SessionOf(sessions, name) == i
    {
    }

    /** The search loop of the join and leave handlers. */
    method FindSession(name: CString) returns (target: int)
      requires Valid()
      ensures var i := SessionOf(View().sessions, name); target == if i < activeGroupCount then i else -1
    {
      for i := 0 to activeGroupCount
        invariant forall j :: 0 <= j < i ==> activeGroups[j].name != name
      {
        if activeGroups[i].name == name {
          SessionIs(View().sessions, name, i);
          return i;
        }
      }
      SessionIs(View().sessions, name, activeGroupCount);
      return -1;
    }

    /** A new session behind the others. */
    method AppendSession(name: CString, ip: CString, p: port)
      requires Valid() && activeGroupCount < MAX_GROUPS
      modifies this`activeGroupCount, activeGroups
      ensures Valid() && View() == old(View()).(sessions := old(View()).sessions + [Session(name, Mcast(ip, p))])
    {
      activeGroups[activeGroupCount] := Session(name, Mcast(ip, p));
      activeGroupCount := activeGroupCount + 1;
    }

    /** Clear a session and shift the ones behind it to the left. */
    method ShiftLeft(target: nat, n: nat)
      requires target < n <= activeGroups.Length
      modifies activeGroups
      ensures forall j :: 0 <= j < target || n <= j < activeGroups.Length ==> activeGroups[j] == old(activeGroups[j])
      ensures forall j :: target <= j < n - 1 ==> activeGroups[j] == old(activeGroups[j + 1])
    {
      activeGroups[target] := NO_SESSION;
      for i := target to n - 1
        invariant forall j :: 0 <= j < target || i < j < activeGroups.Length ==> activeGroups[j] == old(activeGroups[j])
        invariant forall j :: target <= j < i ==> activeGroups[j] == old(activeGroups[j + 1])
      {
        activeGroups[i] := activeGroups[i + 1];
      }
    }

    /** The session leaves no gap, and the entry behind the last one is cleared. */
    method RemoveSession(target: nat)
      requires Valid() && target < activeGroupCount
      modifies this`activeGroupCount, activeGroups
      ensures Valid() && View() == old(View()).(sessions := RemoveAt(old(View()).sessions, target))
    {
      ghost var was := View().sessions;
      ShiftLeft(target, activeGroupCount);
      activeGroupCount := activeGroupCount - 1;
      activeGroups[activeGroupCount] := NO_SESSION;
      forall k | 0 <= k < activeGroupCount
        ensures activeGroups[k] == RemoveAt(was, target)[k]
      {
        RemovedAt(was, target, k);
      }
      assert activeGroups[..activeGroupCount] == RemoveAt(was, target);
    }

    /** close_all_group_sessions, then clear_client_context, then the first screen. */
    method Clear()
      requires Valid()
      modifies this, activeGroups
      ensures Valid() && View() == Client(Connected, [], [])
    {
      for i := 0 to activeGroupCount
        invariant Valid() && activeGroupCount == old(activeGroupCount)
      {
        activeGroups[i] := NO_SESSION;
      }
      activeGroupCount := 0;
      username := [];
      forall i | 0 <= i < MAX_GROUPS {
        activeGroups[i] := NO_SESSION;
      }
      state := Connected;
    }
  }

  // ---- one command ----

  ghost function At(ctx: ClientContext, sock: Socket): Moment
    requires ctx.Valid()
    reads ctx, ctx.activeGroups, sock
  {
    Moment(ctx.View(), sock.inbox, sock.outbox)
  }

  method Talk(sock: Socket, request: TLVMessage) returns (r: int, response: TLVMessage, ghost reply: Option<Msg>)
    requires request.value.Length == TLV_MAX_VALUE_LEN
    modifies sock
    ensures fresh(response) && fresh(response.value) && response.value.Length == TLV_MAX_VALUE_LEN
    ensures r == 0 || r == -1
    ensures r == 0 ==> reply == Some(response.View()) && sock.outbox == old(sock.outbox) + Wire(request.View())
                       && Decode(old(sock.inbox)) == Some(Frame(response.View(), sock.inbox))
    ensures r == -1 ==> reply == None && (sock.reliable ==> match Decode(old(sock.inbox)) case None => true case Some(f) => |f.msg.value| > 253)
  {
    response := new TLVMessage();
    r := NetSendRecv(sock, request, response);
    reply := if r == 0 then Some(response.View()) else None;
  }

  method HandleRegister(ctx: ClientContext, sock: Socket, user: CString, pass: CString) returns (r: int, ghost reply: Option<Msg>)
    requires ctx.Valid() && OnScreen(ctx.state, DoRegister(user, pass))
    modifies ctx, ctx.activeGroups, sock
    ensures ctx.Valid()
    ensures Spoken(old(At(ctx, sock)), DoRegister(user, pass), reply, At(ctx, sock), sock.reliable)
    ensures r == if reply.Some? && reply.value.tag == MSG_SUCCESS then 0 else -1
  {
    reply := None;
    r := -1;
    var request := new TLVMessage();
    var built := BuildAuthMsg(request, MSG_REGISTER, user, pass);
    if built != 0 {
      return;
    }
    var ok, response, answer := Talk(sock, request);
    reply := answer;
    if ok != 0 {
      return;
    }
    if response.tag != MSG_SUCCESS {
      return;
    }
    r := 0;
  }

  method HandleLogin(ctx: ClientContext, sock: Socket, user: CString, pass: CString) returns (r: int, ghost reply: Option<Msg>)
    requires ctx.Valid() && OnScreen(ctx.state, DoLogin(user, pass))
    modifies ctx, ctx.activeGroups, sock
    ensures ctx.Valid()
    ensures Spoken(old(At(ctx, sock)), DoLogin(user, pass), reply, At(ctx, sock), sock.reliable)
    ensures r == if ctx.state == LoggedIn then 0 else -1
  {
    reply := None;
    r := -1;
    var request := new TLVMessage();
    var built := BuildAuthMsg(request, MSG_LOGIN, user, pass);
    if built != 0 {
      return;
    }
    var ok, response, answer := Talk(sock, request);
    reply := answer;
    if ok != 0 {
      return;
    }
    if response.tag != MSG_SUCCESS {
      return;
    }
    ctx.username := user;
    ctx.state := LoggedIn;
    r := 0;
  }

  /** A group-info reply becomes a session. */
  method Enter(ctx: ClientContext, name: CString, response: TLVMessage) returns (r: int)
    requires ctx.Valid() && ctx.activeGroupCount < MAX_GROUPS && response.value.Length == TLV_MAX_VALUE_LEN
    modifies ctx, ctx.activeGroups
    ensures ctx.Valid() && ctx.View() == Admit(old(ctx.View()), name, old(response.View()))
    ensures r == if ParseGroupInfo(old(response.View())).Some? then 0 else -1
  {
    if response.tag != MSG_GROUP_INFO {
      return -1;
    }
    var ip := new byte[MAX_IP_LEN];
    var parsed, p := ParseGroupInfoMsg(response, ip);
    if parsed != 0 {
      return -1;
    }
    ctx.AppendSession(name, CStr(ip[..]), p);
    return 0;
  }

  method HandleCreateGroup(ctx: ClientContext, sock: Socket, name: CString) returns (r: int, ghost reply: Option<Msg>)
    requires ctx.Valid() && OnScreen(ctx.state, DoCreate(name))
    modifies ctx, ctx.activeGroups, sock
    ensures ctx.Valid()
    ensures Spoken(old(At(ctx, sock)), DoCreate(name), reply, At(ctx, sock), sock.reliable)
    ensures r == if reply.Some? && ParseGroupInfo(reply.value).Some? then 0 else -1
  {
    reply := None;
    r := -1;
    if ctx.activeGroupCount >= MAX_GROUPS {
      return;
    }
    var request := new TLVMessage();
    var built := BuildGroupMsg(request, MSG_CREATE_GROUP, name);
    if built != 0 {
      return;
    }
    var ok, response, answer := Talk(sock, request);
    reply := answer;
    if ok != 0 {
      return;
    }
    r := Enter(ctx, name, response);
  }

  method HandleJoinGroup(ctx: ClientContext, sock: Socket, name: CString) returns (r: int, ghost reply: Option<Msg>)
    requires ctx.Valid() && OnScreen(ctx.state, DoJoin(name))
    modifies ctx, ctx.activeGroups, sock
    ensures ctx.Valid()
    ensures Spoken(old(At(ctx, sock)), DoJoin(name), reply, At(ctx, sock), sock.reliable)
    ensures r == if reply.Some? && ParseGroupInfo(reply.value).Some? then 0 else -1
  {
    reply := None;
    r := -1;
    if ctx.activeGroupCount >= MAX_GROUPS {
      return;
    }
    var known := ctx.FindSession(name);
    if known >= 0 {
      return;
    }
    var request := new TLVMessage();
    var built := BuildGroupMsg(request, MSG_JOIN_GROUP, name);
    if built != 0 {
      return;
    }
    var ok, response, answer := Talk(sock, request);
    reply := answer;
    if ok != 0 {
      return;
    }
    r := Enter(ctx, name, response);
  }

  method HandleLeaveGroup(ctx: ClientContext, sock: Socket, name: CString) returns (r: int, ghost reply: Option<Msg>)
    requires ctx.Valid() && OnScreen(ctx.state, DoLeave(name))
    modifies ctx, ctx.activeGroups, sock
    ensures ctx.Valid()
    ensures Spoken(old(At(ctx, sock)), DoLeave(name), reply, At(ctx, sock), sock.reliable)
    ensures r == if reply.Some? && reply.value.tag == MSG_SUCCESS then 0 else -1
  {
    reply := None;
    r := -1;
    var target := ctx.FindSession(name);
    if target < 0 {
      return;
    }
    var request := new TLVMessage();
    var built := BuildGroupMsg(request, MSG_LEAVE_GROUP, name);
    if built != 0 {
      return;
    }
    var ok, response, answer := Talk(sock, request);
    reply := answer;
    if ok != 0 {
      return;
    }
    if response.tag != MSG_SUCCESS {
      return;
    }
    ctx.RemoveSession(target);
    r := 0;
  }

  /** client_logout: the client forgets its sessions whether or not the server answers. */
  method ClientLogout(ctx: ClientContext, sock: Socket) returns (r: int, ghost reply: Option<Msg>)
    requires ctx.Valid() && OnScreen(ctx.state, DoLogout)
    modifies ctx, ctx.activeGroups, sock
    ensures ctx.Valid()
    ensures Spoken(old(At(ctx, sock)), DoLogout, reply, At(ctx, sock), sock.reliable)
    ensures r == 0 && ctx.View() == Client(Connected, [], [])
  {
    reply := None;
    r := -1;
    var request := new TLVMessage();
    var built := BuildSimpleMsg(request, MSG_LOGOUT);
    var ok, response, answer := Talk(sock, request);
    reply := answer;
    ctx.Clear();
    r := 0;
  }

  /** client_exit up to the end of the process: the request goes out, whatever comes back, and the context is cleared. */
  method ClientExit(ctx: ClientContext, sock: Socket) returns (ghost reply: Option<Msg>)
    requires ctx.Valid() && ctx.View() == Client(Connected, [], [])
    modifies ctx, ctx.activeGroups, sock
    ensures ctx.Valid() && ctx.View() == Client(Connected, [], [])
    ensures Spoken(old(At(ctx, sock)), DoExit, reply, At(ctx, sock), sock.reliable)
  {
    var request := new TLVMessage();
    var built := BuildSimpleMsg(request, MSG_EXIT);
    var ok, response, answer := Talk(sock, request);
    reply := answer;
    ctx.Clear();
  }

  // ---- the two screens ----

  /** A turn of the second screen. */
  method Choose2(ctx: ClientContext, sock: Socket, input: Input) returns (out: bool, ghost reply: Option<Msg>)
    requires ctx.Valid() && ctx.state == LoggedIn
    modifies ctx, ctx.activeGroups, sock
    ensures ctx.Valid() && ctx.state == (if out then Connected else LoggedIn)
    ensures out <==> CommandOf(LoggedIn, input) == Some(DoLogout)
    ensures out ==> ctx.View() == Client(Connected, [], [])
    ensures match CommandOf(LoggedIn, input)
            case None => At(ctx, sock) == old(At(ctx, sock))
            case Some(cmd) => Spoken(old(At(ctx, sock)), cmd, reply, At(ctx, sock), sock.reliable)
  {
    out, reply := false, None;
    var r;
    match input.choice
    case 1 => r, reply := HandleCreateGroup(ctx, sock, input.first);
    case 2 => r, reply := HandleJoinGroup(ctx, sock, input.first);
    case 3 => r, reply := HandleLeaveGroup(ctx, sock, input.first);
    case 4 =>
      r, reply := ClientLogout(ctx, sock);
      out := r == 0;
    case _ =>
  }

  /** ui_run_screen2: every choice is carried out as the command of a logged-in client it stands for, until a logout. */
  method RunScreen2(ctx: ClientContext, sock: Socket, inputs: seq<Input>) returns (rest: seq<Input>, ghost said: seq<Exchange>)
    requires ctx.Valid() && ctx.state == LoggedIn
    modifies ctx, ctx.activeGroups, sock
    ensures ctx.Valid() && LeftOf(inputs, rest)
    ensures Script(old(At(ctx, sock)), Used(inputs, rest), said, At(ctx, sock), sock.reliable)
    ensures if ctx.state == Connected then EndsWith(said, DoLogout) && ctx.View() == Client(Connected, [], [])
            else rest == [] && Without(said, DoLogout)
    ensures Without(said, DoExit)
    ensures Followed(old(At(ctx, sock)), Used(inputs, rest), said, At(ctx, sock), sock.reliable)
  {
    rest, said := inputs, [];
    ghost var start := At(ctx, sock);
    while rest != []
      invariant ctx.Valid() && ctx.state == LoggedIn && LeftOf(inputs, rest)
      invariant Script(start, Used(inputs, rest), said, At(ctx, sock), sock.reliable)
      invariant Without(said, DoLogout) && Without(said, DoExit)
      decreases |rest|
    {
      var input := rest[0];
      ghost var now, used := At(ctx, sock), Used(inputs, rest);
      UseOne(inputs, rest);
      rest := rest[1..];
      var out, reply := Choose2(ctx, sock, input);
      said := ScriptNext(start, used, said, now, input, reply, At(ctx, sock), sock.reliable);
      if out {
        break;
      }
    }
    ScriptTheorem(start, Used(inputs, rest), said, At(ctx, sock), sock.reliable);
  }

  /** A turn of the first screen, without what follows a login. */
  method Choose1(ctx: ClientContext, sock: Socket, input: Input) returns (out: bool, ghost reply: Option<Msg>)
    requires ctx.Valid() && ctx.View() == Client(Connected, [], [])
    modifies ctx, ctx.activeGroups, sock
    ensures ctx.Valid() && (ctx.state == LoggedIn || ctx.View() == Client(Connected, [], []))
    ensures out <==> CommandOf(Connected, input) == Some(DoExit)
    ensures out ==> ctx.state == Connected
    ensures match CommandOf(Connected, input)
            case None => At(ctx, sock) == old(At(ctx, sock))
            case Some(cmd) => Spoken(old(At(ctx, sock)), cmd, reply, At(ctx, sock), sock.reliable)
  {
    out, reply := false, None;
    var r;
    match input.choice
    case 1 => r, reply := HandleRegister(ctx, sock, input.first, input.second);
    case 2 => r, reply := HandleLogin(ctx, sock, input.first, input.second);
    case 3 =>
      reply := ClientExit(ctx, sock);
      out := true;
    case _ =>
  }

  /** What follows a successful login: the second screen, until it is left. */
  method Follow(ctx: ClientContext, sock: Socket, inputs: seq<Input>) returns (rest: seq<Input>, ghost said: seq<Exchange>)
    requires ctx.Valid() && (ctx.state == LoggedIn || ctx.View() == Client(Connected, [], []))
    modifies ctx, ctx.activeGroups, sock
    ensures ctx.Valid() && LeftOf(inputs, rest) && Without(said, DoExit)
    ensures Script(old(At(ctx, sock)), Used(inputs, rest), said, At(ctx, sock), sock.reliable)
    ensures rest == [] || ctx.View() == Client(Connected, [], [])
  {
    rest, said := inputs, [];
    if ctx.state == LoggedIn {
      rest, said := RunScreen2(ctx, sock, inputs);
    }
  }

  /** ui_run_screen1: every choice is carried out as the command it stands for on the screen that is shown, from the first
      input up to an exit or the last one. */
  method RunScreen1(ctx: ClientContext, sock: Socket, inputs: seq<Input>) returns (rest: seq<Input>, ghost said: seq<Exchange>)
    requires ctx.Valid() && ctx.View() == Client(Connected, [], [])
    modifies ctx, ctx.activeGroups, sock
    ensures ctx.Valid() && LeftOf(inputs, rest)
    ensures Script(old(At(ctx, sock)), Used(inputs, rest), said, At(ctx, sock), sock.reliable)
    ensures EndsWith(said, DoExit) || (rest == [] && Without(said, DoExit))
    ensures Linked(old(At(ctx, sock)), said, At(ctx, sock)) && forall x :: x in said ==> OnScreen(x.from.client.mode, x.cmd)
    ensures Followed(old(At(ctx, sock)), Used(inputs, rest), said, At(ctx, sock), sock.reliable)
  {
    rest, said := inputs, [];
    ghost var start := At(ctx, sock);
    while rest != []
      invariant ctx.Valid() && (rest == [] || ctx.View() == Client(Connected, [], [])) && LeftOf(inputs, rest)
      invariant Script(start, Used(inputs, rest), said, At(ctx, sock), sock.reliable)
      invariant Without(said, DoExit)
      decreases |rest|
    {
      var input := rest[0];
      ghost var now, used := At(ctx, sock), Used(inputs, rest);
      UseOne(inputs, rest);
      rest := rest[1..];
      var out, reply := Choose1(ctx, sock, input);
      said := ScriptNext(start, used, said, now, input, reply, At(ctx, sock), sock.reliable);
      if out {
        break;
      }
      ghost var mid, before := rest, At(ctx, sock);
      var left, more := Follow(ctx, sock, rest);
      UseMore(inputs, mid, left);
      ScriptConcat(start, Used(inputs, mid), said, before, Used(mid, left), more, At(ctx, sock), sock.reliable);
      rest, said := left, said + more;
    }
    ScriptDiscipline(start, Used(inputs, rest), said, At(ctx, sock), sock.reliable);
    ScriptTheorem(start, Used(inputs, rest), said, At(ctx, sock), sock.reliable);
  }
}
