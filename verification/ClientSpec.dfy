/** The client: its two screens, its list of active groups, and what it makes of the server's replies. */
module ClientSpec {
  import opened Strings
  import opened Assoc
  import opened Protocol

  /** Screen 1 is shown while connected, screen 2 while logged in. */
  datatype Mode = Connected | LoggedIn

  datatype Client = Client(mode: Mode, username: CString, sessions: seq<Session>)

  /** What the user picks from the menus, with what was typed. */
  datatype Command =
    | DoRegister(user: CString, pass: CString)
    | DoLogin(user: CString, pass: CString)
    | DoExit
    | DoCreate(name: CString)
    | DoJoin(name: CString)
    | DoLeave(name: CString)
    | DoLogout

  predicate OnScreen(mode: Mode, cmd: Command) {
    mode == if cmd.DoRegister? || cmd.DoLogin? || cmd.DoExit? then Connected else LoggedIn
  }

  /** Index of the first session with that name; the length when there is none. */
  function SessionOf(sessions: seq<Session>, name: CString): (i: nat)
    ensures i <= |sessions|
    ensures i < |sessions| ==> sessions[i].name == name
    ensures forall j :: 0 <= j < i ==> sessions[j].name != name
  {
    if sessions == [] || sessions[0].name == name then 0 else 1 + SessionOf(sessions[1..], name)
  }

  /** The request a command sends; none when the client refuses it by itself. */
  function Ask(c: Client, cmd: Command): Option<Msg> {
    match cmd
    case DoRegister(user, pass) => BuildAuth(MSG_REGISTER, user, pass)
    case DoLogin(user, pass) => BuildAuth(MSG_LOGIN, user, pass)
    case DoExit => BuildSimple(MSG_EXIT)
    case DoCreate(name) =>
      if |c.sessions| >= MAX_GROUPS then None else BuildGroup(MSG_CREATE_GROUP, name)
    case DoJoin(name) =>
      if |c.sessions| >= MAX_GROUPS || SessionOf(c.sessions, name) < |c.sessions| then None
      else BuildGroup(MSG_JOIN_GROUP, name)
    case DoLeave(name) =>
      if SessionOf(c.sessions, name) == |c.sessions| then None else BuildGroup(MSG_LEAVE_GROUP, name)
    case DoLogout => BuildSimple(MSG_LOGOUT)
  }

  /** What the reply to a command does to the client. */
  function Receive(c: Client, cmd: Command, reply: Msg): Client {
    match cmd
    case DoRegister(_, _) => c
    case DoLogin(user, _) => if reply.tag == MSG_SUCCESS then c.(mode := LoggedIn, username := user) else c
    case DoExit => c
    case DoCreate(name) => Admit(c, name, reply)
    case DoJoin(name) => Admit(c, name, reply)
    case DoLeave(name) =>
      var i := SessionOf(c.sessions, name);
      if reply.tag == MSG_SUCCESS && i < |c.sessions| then c.(sessions := RemoveAt(c.sessions, i)) else c
    case DoLogout => Client(Connected, [], [])
  }

  /** A group-info reply adds a session at the end of the list. */
  function Admit(c: Client, name: CString, reply: Msg): Client {
    match ParseGroupInfo(reply)
    case None => c
    case Some(a) => c.(sessions := c.sessions + [Session(name, a)])
  }
}
