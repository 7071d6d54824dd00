/** The server as a machine on two maps and a queue: what each of the seven requests, and any other message, is answered
    and does in which situation, with codes and limits in numbers. It knows nothing of buckets, lists, counts or cursors. */
module ChatMachine {
  import opened Strings
  import opened Protocol
  import opened ServerSpec

  datatype Room = Room(address: Mcast, members: set<int>)

  /** Accounts and groups by name, and the free addresses, next one first. */
  datatype Chat = Chat(accounts: map<CString, User>, rooms: map<CString, Room>, free: seq<Mcast>)

  // ---- replies ----

  function Success(): Msg {
    Msg(100, [0])
  }

  function Error(code: byte): Msg {
    Msg(101, [code])
  }

  /** A reply that carries an address: its text behind its length, and the port, high byte first. */
  ghost predicate Tells(reply: Msg, a: Mcast) {
    |a.ip| < 16 && reply == Msg(102, [|a.ip|] + a.ip + [a.port / 256, a.port % 256])
  }

  // ---- requests ----

  ghost predicate Registers(c: Chat, msg: Msg, mem: Mem, reply: Msg, d: Chat) {
    match ParseAuth(msg)
    case None => reply == Error(2) && d == c
    case Some(a) =>
      if a.user in c.accounts then reply == Error(1) && d == c
      else if !mem.record || !mem.insert then reply == Error(8) && d == c
      else reply == Success() && d == c.(accounts := c.accounts[a.user := User(a.pass, false, -1)])
  }

  ghost predicate LogsIn(c: Chat, fd: int, msg: Msg, reply: Msg, d: Chat) {
    match ParseAuth(msg)
    case None => reply == Error(2) && d == c
    case Some(a) =>
      if a.user !in c.accounts then reply == Error(2) && d == c
      else if c.accounts[a.user].password != a.pass then reply == Error(3) && d == c
      else if c.accounts[a.user].loggedIn then reply == Error(4) && d == c
      else reply == Success() && d == c.(accounts := c.accounts[a.user := User(a.pass, true, fd)])
  }

  ghost predicate SignedIn(c: Chat, fd: int) {
    exists u :: u in c.accounts && c.accounts[u].loggedIn && c.accounts[u].fd == fd
  }

  /** Sixteen groups at most; a create without memory gives its address back at the tail. */
  ghost predicate Creates(c: Chat, fd: int, msg: Msg, mem: Mem, reply: Msg, d: Chat) {
    if !SignedIn(c, fd) then reply == Error(2) && d == c else
    match ParseGroup(msg)
    case None => reply == Error(5) && d == c
    case Some(name) =>
      if name in c.rooms then reply == Error(6) && d == c
      else if |c.rooms| >= 16 then reply == Error(8) && d == c
      else
        && c.free != []
        && if !mem.record || !mem.list || !mem.insert then reply == Error(8) && d == c.(free := c.free[1..] + [c.free[0]])
           else Tells(reply, c.free[0]) && d == c.(rooms := c.rooms[name := Room(c.free[0], {fd})], free := c.free[1..])
  }

  /** 32 members at most; who is in already is told the address again. */
  ghost predicate Joins(c: Chat, fd: int, msg: Msg, reply: Msg, d: Chat) {
    if !SignedIn(c, fd) then reply == Error(2) && d == c else
    match ParseGroup(msg)
    case None => reply == Error(5) && d == c
    case Some(name) =>
      if name !in c.rooms then reply == Error(5) && d == c else
      var room := c.rooms[name];
      if fd !in room.members && |room.members| >= 32 then reply == Error(6) && d == c
      else Tells(reply, room.address) && d == c.(rooms := c.rooms[name := room.(members := room.members + {fd})])
  }

  /** The last one out closes the group, and its address becomes the last free one. */
  ghost predicate Quits(c: Chat, fd: int, msg: Msg, reply: Msg, d: Chat) {
    match ParseGroup(msg)
    case None => reply == Error(5) && d == c
    case Some(name) =>
      if name !in c.rooms then reply == Error(5) && d == c else
      var room := c.rooms[name];
      if fd !in room.members then reply == Error(7) && d == c
      else
        && reply == Success()
        && d == if room.members == {fd} then c.(rooms := c.rooms - {name}, free := c.free + [room.address])
                else c.(rooms := c.rooms[name := room.(members := room.members - {fd})])
  }

  // ---- the end of a connection ----

  /** The session of one user on the fd ends, if there is any. */
  ghost predicate SessionEnds(a: map<CString, User>, fd: int, b: map<CString, User>) {
    if forall u :: u in a ==> a[u].fd != fd then b == a
    else exists u :: u in a && a[u].fd == fd && b == a[u := a[u].(loggedIn := false, fd := -1)]
  }

  /** The addresses of the groups that `fd` is alone in, once each, in some order. */
  ghost predicate Releases(rooms: map<CString, Room>, fd: int, freed: seq<Mcast>) {
    && (forall i, j :: 0 <= i < j < |freed| ==> freed[i] != freed[j])
    && (forall x :: x in freed <==> exists n :: n in rooms && rooms[n] == Room(x, {fd}))
  }

  /** The fd is taken out of every group; those it was alone in are closed. */
  ghost function WithoutFd(rooms: map<CString, Room>, fd: int): map<CString, Room> {
    map n | n in rooms && rooms[n].members != {fd} :: rooms[n].(members := rooms[n].members - {fd})
  }

  ghost predicate Ends(c: Chat, fd: int, d: Chat) {
    && SessionEnds(c.accounts, fd, d.accounts) && d.rooms == WithoutFd(c.rooms, fd)
    && exists freed :: Releases(c.rooms, fd, freed) && d.free == c.free + freed
  }

  // ---- the whole protocol ----

  /** What a message on `fd` is answered, and where that takes the machine. */
  ghost predicate Serves(c: Chat, fd: int, msg: Msg, mem: Mem, reply: Msg, d: Chat) {
    if msg.tag == 1 then Registers(c, msg, mem, reply, d)
    else if msg.tag == 2 then LogsIn(c, fd, msg, reply, d)
    else if msg.tag == 3 || msg.tag == 4 then reply == Success() && Ends(c, fd, d)
    else if msg.tag == 5 then Joins(c, fd, msg, reply, d)
    else if msg.tag == 6 then Quits(c, fd, msg, reply, d)
    else if msg.tag == 7 then Creates(c, fd, msg, mem, reply, d)
    else reply == Error(0) && d == c
  }

  /** What happens to the machine: a message on an fd, with the memory there is and the reply, or the end of an fd. */
  datatype Act = Heard(fd: int, msg: Msg, mem: Mem, reply: Msg) | Lost(fd: int)

  ghost predicate Acts(c: Chat, a: Act, d: Chat) {
    match a
    case Heard(fd, msg, mem, reply) => Serves(c, fd, msg, mem, reply, d)
    case Lost(fd) => Ends(c, fd, d)
  }

  /** One after the other. */
  ghost predicate Path(c: Chat, acts: seq<Act>, d: Chat)
    decreases |acts|
  {
    if acts == [] then d == c else exists m :: Acts(c, acts[0], m) && Path(m, acts[1..], d)
  }

  // ---- laws of the machine itself ----

  /** A refusal changes nothing, except that a create without memory moves the next address to the end. */
  lemma {:induction false} RefusalsChangeNothing(c: Chat, fd: int, msg: Msg, mem: Mem, reply: Msg, d: Chat)
    requires Serves(c, fd, msg, mem, reply, d) && reply.tag == 101
    ensures d == c || (msg.tag == 7 && c.free != [] && !(mem.record && mem.list && mem.insert)
                       && d == c.(free := c.free[1..] + [c.free[0]]))
  {
  }

  /** What is answered does not depend on anything but the machine's state. */
  lemma {:induction false} ReplyIsDetermined(c: Chat, fd: int, msg: Msg, mem: Mem, r1: Msg, d1: Chat, r2: Msg, d2: Chat)
    requires Serves(c, fd, msg, mem, r1, d1) && Serves(c, fd, msg, mem, r2, d2)
    ensures r1 == r2 && (msg.tag != 3 && msg.tag != 4 ==> d1 == d2)
  {
  }

  /** Whatever happens, an account stays, with its password. */
  lemma {:induction false} AccountsStay(c: Chat, a: Act, d: Chat, user: CString)
    requires Acts(c, a, d) && user in c.accounts
    ensures user in d.accounts && d.accounts[user].password == c.accounts[user].password
  {
  }
}
