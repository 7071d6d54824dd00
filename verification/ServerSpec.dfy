/** The state of the chat server and what each message, hang-up and connection does to it. */
module ServerSpec {
  import opened Strings
  import opened Assoc
  import opened Protocol

  const MAX_CLIENTS := 64
  const MAX_MEMBERS_PER_GROUP := 32
  const MULTICAST_POOL_SIZE := 16
  const MULTICAST_BASE_PORT: port := 5000

  /** Bucket counts of the two maps: the least primes from MAX_CLIENTS and MAX_GROUPS on. */
  const USER_BUCKETS := 67
  const GROUP_BUCKETS := 17

  /** A UserRecord; its name is the key it is stored under. `fd` is -1 when not connected. */
  datatype User = User(password: CString, loggedIn: bool, fd: int)

  /** A GroupRecord; its name is the key it is stored under. */
  datatype Group = Group(address: Mcast, members: seq<int>, count: int)

  type Users = seq<Pair<CString, User>>
  type Groups = seq<Pair<CString, Group>>

  /** Users and groups in the iteration order of their hash maps, the free addresses in queue order,
      and the fd slots, in which a negative number means free. */
  datatype Server = Server(users: Users, groups: Groups, pool: seq<Mcast>, slots: seq<int>)

  /** Which allocations on the way of a request succeed. */
  datatype Mem = Mem(record: bool, list: bool, insert: bool)

  datatype Outcome = Outcome(server: Server, reply: Msg, keepOpen: bool)

  // ---- lookups ----

  function IndexOf<V>(e: seq<Pair<CString, V>>, name: CString): (i: nat)
    ensures i <= |e|
    ensures i < |e| ==> e[i].key == name
    ensures forall j :: 0 <= j < i ==> e[j].key != name
  {
    Find(e, name, EqualString)
  }

  predicate Has<V>(e: seq<Pair<CString, V>>, name: CString) {
    IndexOf(e, name) < |e|
  }

  /** find_user_by_fd: the first user in iteration order whose fd is `fd`; the length when there is none. */
  function UserOn(users: Users, fd: int): (i: nat)
    ensures i <= |users|
    ensures i < |users| ==> users[i].value.fd == fd
    ensures forall j :: 0 <= j < i ==> users[j].value.fd != fd
  {
    if users == [] || users[0].value.fd == fd then 0 else 1 + UserOn(users[1..], fd)
  }

  /** Index of the first occurrence; the length when there is none. */
  function FirstOf(s: seq<int>, x: int): (i: nat)
    ensures i <= |s|
    ensures i < |s| ==> s[i] == x
    ensures x !in s[..i]
    ensures i == |s| <==> x !in s
  {
    if s == [] || s[0] == x then 0 else
    var i := 1 + FirstOf(s[1..], x);
    assert s[..i] == [s[0]] + s[1..][..i - 1];
    i
  }

  // ---- group membership ----

  /** The record after the member node of `fd` has been unlinked, if there is one. */
  function Drop(g: Group, fd: int): Group {
    var i := FirstOf(g.members, fd);
    if i < |g.members| then g.(members := RemoveAt(g.members, i), count := g.count - 1) else g
  }

  /** QueueInsert on the pool: a full queue refuses the entry. */
  function PoolInsert(pool: seq<Mcast>, m: Mcast): seq<Mcast> {
    if |pool| == MULTICAST_POOL_SIZE then pool else pool + [m]
  }

  /** close_empty_group */
  function CloseGroup(s: Server, name: CString): Server {
    var i := IndexOf(s.groups, name);
    if i == |s.groups| then s
    else s.(groups := RemoveAt(s.groups, i), pool := PoolInsert(s.pool, s.groups[i].value.address))
  }

  function CloseGroups(s: Server, names: seq<CString>): Server
    decreases |names|
  {
    if names == [] then s else CloseGroups(CloseGroup(s, names[0]), names[1..])
  }

  /** cleanup_group_action over the whole map: every record after `fd` has been dropped from it. */
  function Sweep(groups: Groups, fd: int): (r: Groups)
    ensures |r| == |groups|
  {
    if groups == [] then []
    else [groups[0].(value := Drop(groups[0].value, fd))] + Sweep(groups[1..], fd)
  }

  /** The names the sweep remembers: groups it emptied, as long as the fixed array has room. */
  function Emptied(groups: Groups, fd: int, room: nat): seq<CString> {
    if groups == [] then [] else
    var g := groups[0].value;
    if fd in g.members && Drop(g, fd).count == 0 && room > 0
    then [groups[0].key] + Emptied(groups[1..], fd, room - 1)
    else Emptied(groups[1..], fd, room)
  }

  /** End the session of the first user found on `fd`. */
  function EndSession(s: Server, fd: int): Server {
    var i := UserOn(s.users, fd);
    if i == |s.users| then s
    else s.(users := s.users[i := s.users[i].(value := s.users[i].value.(loggedIn := false, fd := -1))])
  }

  /** cleanup_client */
  function Cleanup(s: Server, fd: int): Server {
    EndSession(CloseGroups(s.(groups := Sweep(s.groups, fd)), Emptied(s.groups, fd, MAX_GROUPS)), fd)
  }

  // ---- message handlers ----

  function Fail(s: Server, code: byte): Outcome {
    Outcome(s, ErrorMsg(code), true)
  }

  function Succeed(s: Server): Outcome {
    Outcome(s, SuccessMsg(), true)
  }

  function Register(s: Server, msg: Msg, mem: Mem): Outcome {
    match ParseAuth(msg)
    case None => Fail(s, ERR_USER_NOT_FOUND)
    case Some(a) =>
      if Has(s.users, a.user) then Fail(s, ERR_USER_EXISTS)
      else if !mem.record || !mem.insert then Fail(s, ERR_SERVER_FULL)
      else Succeed(s.(users := Insert(s.users, a.user, User(a.pass, false, -1), Djb2, USER_BUCKETS)))
  }

  function Login(s: Server, fd: int, msg: Msg): Outcome {
    match ParseAuth(msg)
    case None => Fail(s, ERR_USER_NOT_FOUND)
    case Some(a) =>
      var i := IndexOf(s.users, a.user);
      if i == |s.users| then Fail(s, ERR_USER_NOT_FOUND) else
      var u := s.users[i].value;
      if u.password != a.pass then Fail(s, ERR_WRONG_PASSWORD)
      else if u.loggedIn then Fail(s, ERR_ALREADY_LOGGED_IN)
      else Succeed(s.(users := s.users[i := s.users[i].(value := u.(loggedIn := true, fd := fd))]))
  }

  predicate LoggedInOn(s: Server, fd: int) {
    var i := UserOn(s.users, fd);
    i < |s.users| && s.users[i].value.loggedIn
  }

  /** add_member and the reply of its caller: the group at index `i` gets `fd` unless it has it already. */
  function AddMember(s: Server, fd: int, i: nat): Outcome
    requires i < |s.groups|
  {
    var g := s.groups[i].value;
    if fd in g.members then Outcome(s, InfoMsg(g.address), true)
    else if g.count >= MAX_MEMBERS_PER_GROUP then Fail(s, ERR_GROUP_FULL)
    else Outcome(s.(groups := s.groups[i := s.groups[i].(value := g.(members := g.members + [fd], count := g.count + 1))]),
                 InfoMsg(g.address), true)
  }

  /** The group-info reply; the builder never refuses the address of a live group. */
  function InfoMsg(a: Mcast): Msg {
    match BuildGroupInfo(a.ip, a.port)
    case Some(m) => m
    case None => ErrorMsg(ERR_NONE)
  }

  /** Whether a create request gets as far as taking an address out of the pool. */
  predicate TakesAddress(s: Server, fd: int, msg: Msg) {
    && LoggedInOn(s, fd)
    && ParseGroup(msg).Some?
    && !Has(s.groups, ParseGroup(msg).value)
    && s.pool != []
  }

  function CreateGroup(s: Server, fd: int, msg: Msg, mem: Mem): Outcome {
    if !LoggedInOn(s, fd) then Fail(s, ERR_USER_NOT_FOUND) else
    match ParseGroup(msg)
    case None => Fail(s, ERR_GROUP_NOT_FOUND)
    case Some(name) =>
      if Has(s.groups, name) then Fail(s, ERR_GROUP_FULL)
      else if s.pool == [] then Fail(s, ERR_SERVER_FULL)
      else if !mem.record || !mem.list || !mem.insert then
        Fail(s.(pool := PoolInsert(s.pool[1..], s.pool[0])), ERR_SERVER_FULL)
      else
        var groups := Insert(s.groups, name, Group(s.pool[0], [], 0), Djb2, GROUP_BUCKETS);
        AddMember(s.(groups := groups, pool := s.pool[1..]), fd, Position(s.groups, Djb2(name) % GROUP_BUCKETS, Djb2, GROUP_BUCKETS))
  }

  function JoinGroup(s: Server, fd: int, msg: Msg): Outcome {
    if !LoggedInOn(s, fd) then Fail(s, ERR_USER_NOT_FOUND) else
    match ParseGroup(msg)
    case None => Fail(s, ERR_GROUP_NOT_FOUND)
    case Some(name) =>
      var i := IndexOf(s.groups, name);
      if i == |s.groups| then Fail(s, ERR_GROUP_NOT_FOUND) else AddMember(s, fd, i)
  }

  /** Take `fd` out of the named group and close the group when that empties it. */
  function Leave(s: Server, fd: int, name: CString): Server {
    var i := IndexOf(s.groups, name);
    if i == |s.groups| || fd !in s.groups[i].value.members then s else
    var g := Drop(s.groups[i].value, fd);
    var s1 := s.(groups := s.groups[i := s.groups[i].(value := g)]);
    if g.count == 0 then CloseGroup(s1, name) else s1
  }

  function LeaveGroup(s: Server, fd: int, msg: Msg): Outcome {
    match ParseGroup(msg)
    case None => Fail(s, ERR_GROUP_NOT_FOUND)
    case Some(name) =>
      var i := IndexOf(s.groups, name);
      if i == |s.groups| then Fail(s, ERR_GROUP_NOT_FOUND)
      else if fd !in s.groups[i].value.members then Fail(s, ERR_NOT_IN_GROUP)
      else Succeed(Leave(s, fd, name))
  }

  /** dispatch_message */
  function Dispatch(s: Server, fd: int, msg: Msg, mem: Mem): Outcome {
    if msg.tag == MSG_REGISTER then Register(s, msg, mem)
    else if msg.tag == MSG_LOGIN then Login(s, fd, msg)
    else if msg.tag == MSG_LOGOUT then Succeed(Cleanup(s, fd))
    else if msg.tag == MSG_EXIT then Outcome(Cleanup(s, fd), SuccessMsg(), false)
    else if msg.tag == MSG_CREATE_GROUP then CreateGroup(s, fd, msg, mem)
    else if msg.tag == MSG_JOIN_GROUP then JoinGroup(s, fd, msg)
    else if msg.tag == MSG_LEAVE_GROUP then LeaveGroup(s, fd, msg)
    else Fail(s, ERR_NONE)
  }

  // ---- the server loop ----

  /** Index of the first free slot; the length when all are taken. */
  function FreeSlot(slots: seq<int>): (i: nat)
    ensures i <= |slots|
    ensures i < |slots| ==> slots[i] < 0
    ensures forall j :: 0 <= j < i ==> slots[j] >= 0
  {
    if slots == [] || slots[0] < 0 then 0 else 1 + FreeSlot(slots[1..])
  }

  /** What the loop meets: a new connection, a message on the fd of a slot, or the end of that stream. */
  datatype Event =
    | Accept(fd: int)
    | Request(slot: nat, msg: Msg, mem: Mem)
    | HangUp(slot: nat)

  /** `accept` returns an fd that is not open; messages arrive on used slots. */
  predicate Enabled(s: Server, e: Event) {
    match e
    case Accept(fd) => fd >= 0 && fd !in s.slots
    case Request(i, _, _) => i < |s.slots| && s.slots[i] >= 0
    case HangUp(i) => i < |s.slots| && s.slots[i] >= 0
  }

  function Step(s: Server, e: Event): Server
    requires Enabled(s, e)
  {
    match e
    case Accept(fd) =>
      var i := FreeSlot(s.slots);
      if i < |s.slots| then s.(slots := s.slots[i := fd]) else s
    case Request(i, msg, mem) =>
      var o := Dispatch(s, s.slots[i], msg, mem);
      if o.keepOpen then o.server else o.server.(slots := s.slots[i := -1])
    case HangUp(i) => Cleanup(s, s.slots[i]).(slots := s.slots[i := -1])
  }

  // ---- server_create ----

  function Digits(n: nat): (r: CString)
    ensures |r| > 0
  {
    if n < 10 then [48 + n] else Digits(n / 10) + [48 + n % 10]
  }

  /** 224.0.0.{i + 1}, as inet_ntop writes it. */
  function PoolAddress(i: nat): Mcast {
    Mcast([50, 50, 52, 46, 48, 46, 48, 46] + Digits(i + 1), MULTICAST_BASE_PORT)
  }

  /** The addresses server_create loads into the queue, in queue order. */
  function Preloaded(): seq<Mcast> {
    seq(MULTICAST_POOL_SIZE, i requires i >= 0 => PoolAddress(i))
  }

  function Create(): Server {
    Server([], [], Preloaded(), seq(MAX_CLIENTS, _ => -1))
  }
}
