/** The message handlers: each does to the server in memory what its specification does to the server's state,
    and sends exactly one reply, to the fd it was called for. */
module Handlers {
  import opened Strings
  import opened Assoc
  import opened Protocol
  import opened Buffers
  import opened ServerSpec
  import opened GroupTables
  import opened ServerContexts
  import opened Answers

  // ---- cleanup ----

  method CloseEmptyGroup(ctx: ServerContext, name: CString)
    requires ctx.Valid()
    modifies ctx.Repr()
    ensures Reached(ctx, CloseGroup(old(ctx.View()), name), old(ctx.sent)) && ctx.Repr() == old(ctx.Repr())
  {
    var grp := ctx.RemoveGroup(name);
    if grp == None {
      return;
    }
    ctx.PutAddress(Mcast(grp.value.mcastIp, grp.value.mcastPort));
  }

  lemma {:induction false} SweepSnoc(a: Groups, p: Pair<CString, Group>, fd: int)
    ensures Sweep(a + [p], fd) == Sweep(a, fd) + [p.(value := Drop(p.value, fd))]
  {
    if a == [] {
      assert a + [p] == [p];
    } else {
      assert (a + [p])[1..] == a[1..] + [p];
      SweepSnoc(a[1..], p, fd);
    }
  }

  lemma {:induction false} EmptiedSnoc(a: Groups, p: Pair<CString, Group>, fd: int, room: nat)
    ensures |Emptied(a, fd, room)| <= room
    ensures Emptied(a + [p], fd, room) == Emptied(a, fd, room)
         + if fd in p.value.members && Drop(p.value, fd).count == 0 && |Emptied(a, fd, room)| < room then [p.key] else []
  {
    if a == [] {
      assert a + [p] == [p];
    } else {
      assert (a + [p])[1..] == a[1..] + [p] && (a + [p])[0] == a[0];
      var g := a[0].value;
      EmptiedSnoc(a[1..], p, fd, if fd in g.members && Drop(g, fd).count == 0 && room > 0 then room - 1 else room);
    }
  }

  /** The state in the middle of the sweep. */
  ghost function SweptBefore(s: Server, fd: int, j: nat): Server
    requires j <= |s.groups|
  {
    s.(groups := Sweep(s.groups[..j], fd) + s.groups[j..])
  }

  lemma {:induction false} SweptNext(s: Server, fd: int, j: nat)
    requires j < |s.groups|
    ensures var t, p := SweptBefore(s, fd, j), s.groups[j];
            && j < |t.groups| && t.groups[j] == p
            && SweptBefore(s, fd, j + 1) == t.(groups := t.groups[j := p.(value := Drop(p.value, fd))])
            && (fd !in p.value.members ==> SweptBefore(s, fd, j + 1) == t)
            && |Emptied(s.groups[..j], fd, MAX_GROUPS)| <= MAX_GROUPS
            && Emptied(s.groups[..j + 1], fd, MAX_GROUPS) == Emptied(s.groups[..j], fd, MAX_GROUPS)
               + if fd in p.value.members && Drop(p.value, fd).count == 0 && |Emptied(s.groups[..j], fd, MAX_GROUPS)| < MAX_GROUPS then [p.key] else []
  {
    var e, p := s.groups, s.groups[j];
    assert e[..j + 1] == e[..j] + [p] && e[j..] == [p] + e[j + 1..];
    SweepSnoc(e[..j], p, fd);
    EmptiedSnoc(e[..j], p, fd, MAX_GROUPS);
  }

  ghost function WithoutMember(s: Server, fd: int, i: nat): Server
    requires i < |s.groups|
  {
    s.(groups := s.groups[i := s.groups[i].(value := Drop(s.groups[i].value, fd))])
  }

  /** Look for the member node of `fd`; if there is one, unlink it and count down. */
  method DropMember(ctx: ServerContext, grp: GroupRecord, fd: int, ghost i: nat) returns (found: bool)
    requires ctx.Valid() && ctx.groups.At(i, grp)
    modifies ctx.Repr()
    ensures found <==> fd in old(ctx.View()).groups[i].value.members
    ensures Reached(ctx, if found then WithoutMember(old(ctx.View()), fd, i) else old(ctx.View()), old(ctx.sent))
    ensures ctx.groups.groupMap.Entries() == old(ctx.groups.groupMap.Entries()) && ctx.Repr() == old(ctx.Repr())
  {
    ctx.groups.RecordIs(grp, i);
    var itr, hit, k := FindMember(grp, fd, ctx.View().groups[i].value, ctx.groups.owns[i]);
    found := hit;
    if found {
      ctx.TakeFrom(grp, itr, fd, k, i);
    }
  }

  /** A name is noted as long as there is room. */
  method NoteName(names: array<CString>, nEmpty: nat, name: CString) returns (n: nat)
    requires nEmpty <= MAX_GROUPS == names.Length
    modifies names
    ensures n <= MAX_GROUPS && names[..n] == old(names[..nEmpty]) + if nEmpty < MAX_GROUPS then [name] else []
  {
    n := nEmpty;
    if nEmpty < MAX_GROUPS {
      names[nEmpty] := name;
      n := nEmpty + 1;
    }
  }

  /** The name of a group that has become empty is noted; the server itself stays as it is. */
  method NoteEmptied(ctx: ServerContext, grp: GroupRecord, found: bool, names: array<CString>, nEmpty: nat, ghost i: nat)
    returns (n: nat)
    requires ctx.Valid() && ctx.groups.At(i, grp) && names !in ctx.Repr() && nEmpty <= MAX_GROUPS == names.Length
    modifies names
    ensures ctx.groups.groupMap.Entries() == old(ctx.groups.groupMap.Entries()) && ctx.Repr() == old(ctx.Repr())
    ensures Reached(ctx, old(ctx.View()), old(ctx.sent))
    ensures n <= MAX_GROUPS
    ensures var p := old(ctx.View()).groups[i];
            names[..n] == old(names[..nEmpty]) + if found && p.value.count == 0 && nEmpty < MAX_GROUPS then [p.key] else []
  {
    n := nEmpty;
    ctx.groups.RecordIs(grp, i);
    if found && grp.memberCount == 0 {
      n := NoteName(names, nEmpty, grp.name);
    }
  }

  /** What cleanup_group_action does to one group. */
  method CleanupGroupAction(ctx: ServerContext, grp: GroupRecord, fd: int, names: array<CString>, nEmpty: nat, ghost i: nat)
    returns (n: nat)
    requires ctx.Valid() && ctx.groups.At(i, grp) && names !in ctx.Repr() && nEmpty <= MAX_GROUPS == names.Length
    modifies ctx.Repr(), names
    ensures ctx.groups.groupMap.Entries() == old(ctx.groups.groupMap.Entries()) && ctx.Repr() == old(ctx.Repr())
    ensures var s := old(ctx.View()); var p := s.groups[i];
            && Reached(ctx, if fd in p.value.members then WithoutMember(s, fd, i) else s, old(ctx.sent))
            && n <= MAX_GROUPS
            && names[..n] == old(names[..nEmpty])
               + if fd in p.value.members && Drop(p.value, fd).count == 0 && nEmpty < MAX_GROUPS then [p.key] else []
  {
    var found := DropMember(ctx, grp, fd, i);
    n := NoteEmptied(ctx, grp, found, names, nEmpty, i);
  }

  /** HashMap_ForEach with cleanup_group_action on the group map. */
  method SweepGroups(ctx: ServerContext, fd: int, names: array<CString>) returns (nEmpty: nat)
    requires ctx.Valid() && names !in ctx.Repr() && names.Length == MAX_GROUPS
    modifies ctx.Repr(), names
    ensures ctx.Repr() == old(ctx.Repr())
    ensures var s := old(ctx.View());
            && Reached(ctx, s.(groups := Sweep(s.groups, fd)), old(ctx.sent))
            && nEmpty <= MAX_GROUPS && names[..nEmpty] == Emptied(s.groups, fd, MAX_GROUPS)
  {
    ghost var s, sent, e := ctx.View(), ctx.sent, ctx.groups.groupMap.Entries();
    var records := ctx.groups.Records();
    nEmpty := 0;
    assert s.groups[..0] == [] && s.groups[0..] == s.groups;
    for j := 0 to |records|
      invariant ctx.Repr() == old(ctx.Repr()) && ctx.groups.groupMap.Entries() == e
      invariant Reached(ctx, SweptBefore(s, fd, j), sent)
      invariant nEmpty <= MAX_GROUPS && names[..nEmpty] == Emptied(s.groups[..j], fd, MAX_GROUPS)
    {
      SweptNext(s, fd, j);
      assert ctx.groups.At(j, records[j]);
      nEmpty := CleanupGroupAction(ctx, records[j], fd, names, nEmpty, j);
    }
    assert s.groups[..|records|] == s.groups && s.groups[|records|..] == [];
  }

  method CloseEmptied(ctx: ServerContext, names: array<CString>, nEmpty: nat)
    requires ctx.Valid() && names !in ctx.Repr() && nEmpty <= names.Length
    modifies ctx.Repr()
    ensures Reached(ctx, CloseGroups(old(ctx.View()), old(names[..nEmpty])), old(ctx.sent)) && ctx.Repr() == old(ctx.Repr())
  {
    ghost var s, ns := ctx.View(), names[..nEmpty];
    for i := 0 to nEmpty
      invariant ctx.Valid() && ctx.sent == old(ctx.sent) && ctx.Repr() == old(ctx.Repr()) && names[..nEmpty] == ns
      invariant CloseGroups(ctx.View(), ns[i..]) == CloseGroups(s, ns)
    {
      assert ns[i..][0] == names[i] && ns[i..][1..] == ns[i + 1..];
      CloseEmptyGroup(ctx, names[i]);
    }
  }

  /** The user found on the fd is marked inactive. */
  method MarkInactive(ctx: ServerContext, fd: int)
    requires ctx.Valid()
    modifies ctx.Repr()
    ensures Reached(ctx, EndSession(old(ctx.View()), fd), old(ctx.sent)) && ctx.Repr() == old(ctx.Repr())
  {
    var u, i := ctx.users.FindUserByFd(fd);
    if u != None {
      ctx.SetSession(u.value, false, -1, i);
    }
  }

  /** cleanup_client */
  method CleanupClient(ctx: ServerContext, fd: int)
    requires ctx.Valid()
    modifies ctx.Repr()
    ensures Reached(ctx, Cleanup(old(ctx.View()), fd), old(ctx.sent)) && ctx.Repr() == old(ctx.Repr())
  {
    var names := new CString[MAX_GROUPS](_ => []);
    var nEmpty := SweepGroups(ctx, fd, names);
    CloseEmptied(ctx, names, nEmpty);
    MarkInactive(ctx, fd);
  }

  // ---- accounts ----

  /** The two name buffers of the handlers, filled by parse_auth_value. */
  method ReadAuth(msg: TLVMessage) returns (a: Option<Auth>)
    requires msg.value.Length == TLV_MAX_VALUE_LEN
    ensures a == ParseAuth(msg.View())
  {
    var uname := new byte[MAX_USERNAME_LEN];
    var pass := new byte[MAX_PASSWORD_LEN];
    var r := ParseAuthValue(msg, uname, pass);
    a := if r != 0 then None else Some(Auth(CStr(uname[..]), CStr(pass[..])));
  }

  /** build_error_msg, net_send_msg, and the end of the handler. */
  method Refuse(ctx: ServerContext, fd: int, code: byte)
    requires ctx.Valid()
    modifies ctx`sent
    ensures Answered(ctx, Fail(old(ctx.View()), code), old(ctx.sent), fd) && ctx.Repr() == old(ctx.Repr())
  {
    ctx.ReplyError(fd, code);
  }

  method HandleRegister(ctx: ServerContext, fd: int, msg: TLVMessage, mem: Mem) returns (ghost more: set<object>)
    requires ctx.Valid() && Outside(ctx, msg)
    modifies ctx.Repr()
    ensures Answered(ctx, Register(old(ctx.View()), old(msg.View()), mem), old(ctx.sent), fd) && fresh(more) && ctx.Repr() == old(ctx.Repr()) + more
  {
    more := {};
    var a := ReadAuth(msg);
    if a == None {
      Refuse(ctx, fd, ERR_USER_NOT_FOUND);
      return;
    }
    more := RegisterNew(ctx, fd, a.value, mem, msg.View());
  }

  method RegisterNew(ctx: ServerContext, fd: int, a: Auth, mem: Mem, ghost m: Msg) returns (ghost more: set<object>)
    requires ctx.Valid() && ParseAuth(m) == Some(a)
    modifies ctx.Repr()
    ensures Answered(ctx, Register(old(ctx.View()), m, mem), old(ctx.sent), fd) && fresh(more) && ctx.Repr() == old(ctx.Repr()) + more
  {
    more := {};
    var dummy, i := ctx.users.FindUser(a.user);
    if dummy != None {
      Refuse(ctx, fd, ERR_USER_EXISTS);
      return;
    }
    if !mem.record {
      Refuse(ctx, fd, ERR_SERVER_FULL);
      return;
    }
    var ok, grown := ctx.InsertUser(a.user, a.pass, mem.insert);
    more := grown;
    if !ok {
      Refuse(ctx, fd, ERR_SERVER_FULL);
      return;
    }
    ctx.ReplySuccess(fd);
  }

  method HandleLogin(ctx: ServerContext, fd: int, msg: TLVMessage)
    requires ctx.Valid() && Outside(ctx, msg)
    modifies ctx.Repr()
    ensures Answered(ctx, Login(old(ctx.View()), fd, old(msg.View())), old(ctx.sent), fd) && ctx.Repr() == old(ctx.Repr())
  {
    var a := ReadAuth(msg);
    if a == None {
      Refuse(ctx, fd, ERR_USER_NOT_FOUND);
      return;
    }
    LoginAs(ctx, fd, a.value, msg.View());
  }

  method LoginAs(ctx: ServerContext, fd: int, a: Auth, ghost m: Msg)
    requires ctx.Valid() && ParseAuth(m) == Some(a)
    modifies ctx.Repr()
    ensures Answered(ctx, Login(old(ctx.View()), fd, m), old(ctx.sent), fd) && ctx.Repr() == old(ctx.Repr())
  {
    var u, i := ctx.users.FindUser(a.user);
    if u == None {
      Refuse(ctx, fd, ERR_USER_NOT_FOUND);
      return;
    }
    ctx.users.RecordIs(u.value, i);
    if u.value.password != a.pass {
      Refuse(ctx, fd, ERR_WRONG_PASSWORD);
      return;
    }
    if u.value.loggedIn {
      Refuse(ctx, fd, ERR_ALREADY_LOGGED_IN);
      return;
    }
    ctx.SetSession(u.value, true, fd, i);
    ctx.ReplySuccess(fd);
  }

  method HandleLogout(ctx: ServerContext, fd: int)
    requires ctx.Valid()
    modifies ctx.Repr()
    ensures Answered(ctx, Succeed(Cleanup(old(ctx.View()), fd)), old(ctx.sent), fd) && ctx.Repr() == old(ctx.Repr())
  {
    CleanupClient(ctx, fd);
    ctx.ReplySuccess(fd);
  }

  method HandleExit(ctx: ServerContext, fd: int)
    requires ctx.Valid()
    modifies ctx.Repr()
    ensures Answered(ctx, Succeed(Cleanup(old(ctx.View()), fd)), old(ctx.sent), fd) && ctx.Repr() == old(ctx.Repr())
  {
    CleanupClient(ctx, fd);
    ctx.ReplySuccess(fd);
  }

  // ---- groups ----

  /** The name buffer of the handlers, filled by parse_group_value. */
  method ReadGroup(msg: TLVMessage) returns (name: Option<CString>)
    requires msg.value.Length == TLV_MAX_VALUE_LEN
    ensures name == ParseGroup(msg.View())
  {
    var gname := new byte[MAX_GROUP_NAME_LEN];
    var r := ParseGroupValue(msg, gname);
    name := if r != 0 then None else Some(CStr(gname[..]));
  }

  /** ListItrForEach with match_fd on the member list, and the member count. */
  method LookFor(ctx: ServerContext, fd: int, grp: GroupRecord, ghost i: nat) returns (found: bool, count: int)
    requires ctx.Valid() && ctx.groups.At(i, grp)
    ensures var g := ctx.View().groups[i].value; (found <==> fd in g.members) && count == g.count
  {
    ctx.groups.RecordIs(grp, i);
    var itr, hit, k := FindMember(grp, fd, ctx.View().groups[i].value, ctx.groups.owns[i]);
    found, count := hit, grp.memberCount;
  }

  lemma {:induction false} AddMemberIsJoined(s: Server, fd: int, i: nat)
    requires i < |s.groups|
    ensures var g := s.groups[i].value;
            ServerSpec.AddMember(s, fd, i)
            == if fd in g.members then Outcome(s, InfoMsg(g.address), true)
               else if g.count >= MAX_MEMBERS_PER_GROUP then Fail(s, ERR_GROUP_FULL)
               else Outcome(s.(groups := s.groups[i := s.groups[i].(value := Joined(g, fd))]), InfoMsg(g.address), true)
  {
  }

  /** add_member: -1 when the group is full and the requester has been told. */
  method AddMember(ctx: ServerContext, fd: int, grp: GroupRecord, ghost i: nat) returns (r: int, ghost more: set<object>)
    requires ctx.Valid() && ctx.groups.At(i, grp)
    modifies ctx.Repr()
    ensures var s := old(ctx.View()); var o := ServerSpec.AddMember(s, fd, i);
            if r == 0 then Reached(ctx, o.server, old(ctx.sent)) && o.reply == InfoMsg(s.groups[i].value.address)
            else r == -1 && Answered(ctx, o, old(ctx.sent), fd)
    ensures fresh(more) && ctx.Repr() == old(ctx.Repr()) + more
  {
    more := {};
    AddMemberIsJoined(ctx.View(), fd, i);
    var found, count := LookFor(ctx, fd, grp, i);
    if found {
      r := 0;
      return;
    }
    if count >= MAX_MEMBERS_PER_GROUP {
      Refuse(ctx, fd, ERR_GROUP_FULL);
      r := -1;
      return;
    }
    more := ctx.AddTo(grp, fd, i);
    r := 0;
  }

  /** add_member and the group-info reply of its callers. */
  method AdmitTo(ctx: ServerContext, fd: int, grp: GroupRecord, ghost i: nat) returns (ghost more: set<object>)
    requires ctx.Valid() && ctx.groups.At(i, grp) && Sendable(ctx.View().groups[i].value.address)
    modifies ctx.Repr()
    ensures Answered(ctx, ServerSpec.AddMember(old(ctx.View()), fd, i), old(ctx.sent), fd) && fresh(more) && ctx.Repr() == old(ctx.Repr()) + more
  {
    more := {};
    ctx.groups.RecordIs(grp, i);
    var r, grown := AddMember(ctx, fd, grp, i);
    more := grown;
    if r != 0 {
      return;
    }
    ctx.ReplyGroupInfo(fd, grp.mcastIp, grp.mcastPort);
  }

  /** The guard of the create and join handlers. */
  method RequesterLoggedIn(ctx: ServerContext, fd: int) returns (yes: bool)
    requires ctx.Valid()
    ensures yes == LoggedInOn(ctx.View(), fd)
  {
    var u, i := ctx.users.FindUserByFd(fd);
    if u == None {
      return false;
    }
    ctx.users.RecordIs(u.value, i);
    yes := u.value.loggedIn;
  }

  /** What the create and join handlers check first: a requester who is logged in, and a well-formed name. */
  method CheckRequest(ctx: ServerContext, fd: int, msg: TLVMessage) returns (gname: Option<CString>, error: byte)
    requires ctx.Valid() && msg.value.Length == TLV_MAX_VALUE_LEN
    ensures gname == if LoggedInOn(ctx.View(), fd) then ParseGroup(msg.View()) else None
    ensures error == if LoggedInOn(ctx.View(), fd) then ERR_GROUP_NOT_FOUND else ERR_USER_NOT_FOUND
  {
    var loggedIn := RequesterLoggedIn(ctx, fd);
    if !loggedIn {
      return None, ERR_USER_NOT_FOUND;
    }
    var name := ReadGroup(msg);
    return name, ERR_GROUP_NOT_FOUND;
  }

  lemma {:induction false} JoinIsJoinAs(s: Server, fd: int, m: Msg)
    ensures JoinGroup(s, fd, m)
         == if !LoggedInOn(s, fd) then Fail(s, ERR_USER_NOT_FOUND)
            else if ParseGroup(m).None? then Fail(s, ERR_GROUP_NOT_FOUND)
            else JoinAs(s, fd, ParseGroup(m).value)
  {
  }

  method HandleJoinGroup(ctx: ServerContext, fd: int, msg: TLVMessage) returns (ghost more: set<object>)
    requires ctx.Valid() && Outside(ctx, msg)
    requires forall p :: p in ctx.View().groups ==> Sendable(p.value.address)
    modifies ctx.Repr()
    ensures Answered(ctx, JoinGroup(old(ctx.View()), fd, old(msg.View())), old(ctx.sent), fd) && fresh(more) && ctx.Repr() == old(ctx.Repr()) + more
  {
    more := {};
    JoinIsJoinAs(ctx.View(), fd, msg.View());
    var gname, error := CheckRequest(ctx, fd, msg);
    if gname == None {
      Refuse(ctx, fd, error);
      return;
    }
    more := JoinNamed(ctx, fd, gname.value);
  }

  /** A join request once its sender and its group name are known. */
  function JoinAs(s: Server, fd: int, name: CString): Outcome {
    var i := IndexOf(s.groups, name);
    if i == |s.groups| then Fail(s, ERR_GROUP_NOT_FOUND) else ServerSpec.AddMember(s, fd, i)
  }

  method JoinNamed(ctx: ServerContext, fd: int, gname: CString) returns (ghost more: set<object>)
    requires ctx.Valid()
    requires var gs := ctx.View().groups; var i := IndexOf(gs, gname); i < |gs| ==> Sendable(gs[i].value.address)
    modifies ctx.Repr()
    ensures Answered(ctx, JoinAs(old(ctx.View()), fd, gname), old(ctx.sent), fd) && fresh(more) && ctx.Repr() == old(ctx.Repr()) + more
  {
    more := {};
    var grp, i := ctx.groups.FindGroup(gname);
    if grp == None {
      Refuse(ctx, fd, ERR_GROUP_NOT_FOUND);
      return;
    }
    more := AdmitTo(ctx, fd, grp.value, i);
  }

  /** What is left of a create request once an address has been taken out of the pool. */
  function Founding(s: Server, fd: int, name: CString, me: Mcast, mem: Mem): Outcome {
    if !mem.record || !mem.list || !mem.insert then Fail(s.(pool := PoolInsert(s.pool, me)), ERR_SERVER_FULL)
    else
      ServerSpec.AddMember(s.(groups := Insert(s.groups, name, Group(me, [], 0), Djb2, GROUP_BUCKETS)), fd,
                           Position(s.groups, Djb2(name) % GROUP_BUCKETS, Djb2, GROUP_BUCKETS))
  }

  method PutBack(ctx: ServerContext, fd: int, me: Mcast)
    requires ctx.Valid()
    modifies ctx.Repr()
    ensures Answered(ctx, (var s := old(ctx.View()); Fail(s.(pool := PoolInsert(s.pool, me)), ERR_SERVER_FULL)), old(ctx.sent), fd)
    ensures ctx.Repr() == old(ctx.Repr())
  {
    ctx.PutAddress(me);
    Refuse(ctx, fd, ERR_SERVER_FULL);
  }

  method Found(ctx: ServerContext, fd: int, gname: CString, me: Mcast, mem: Mem) returns (ghost more: set<object>)
    requires ctx.Valid() && !Has(ctx.View().groups, gname) && Sendable(me)
    modifies ctx.Repr()
    ensures Answered(ctx, Founding(old(ctx.View()), fd, gname, me, mem), old(ctx.sent), fd)
    ensures fresh(more) && ctx.Repr() == old(ctx.Repr()) + more
  {
    more := {};
    if !mem.record || !mem.list {
      PutBack(ctx, fd, me);
      return;
    }
    var grp, ok, grown := ctx.InsertGroup(gname, me, mem.insert);
    more := grown;
    if !ok {
      PutBack(ctx, fd, me);
      return;
    }
    var last := AdmitTo(ctx, fd, grp, PlaceOf(old(ctx.View()).groups, gname));
    more := more + last;
  }

  /** A create request once its sender and its group name are known. */
  function CreateAs(s: Server, fd: int, name: CString, mem: Mem): Outcome {
    if Has(s.groups, name) then Fail(s, ERR_GROUP_FULL)
    else if s.pool == [] then Fail(s, ERR_SERVER_FULL)
    else Founding(s.(pool := s.pool[1..]), fd, name, s.pool[0], mem)
  }

  lemma {:induction false} CreateIsCreateAs(s: Server, fd: int, m: Msg, mem: Mem)
    ensures CreateGroup(s, fd, m, mem)
         == if !LoggedInOn(s, fd) then Fail(s, ERR_USER_NOT_FOUND)
            else if ParseGroup(m).None? then Fail(s, ERR_GROUP_NOT_FOUND)
            else CreateAs(s, fd, ParseGroup(m).value, mem)
  {
  }

  method TakeAndFound(ctx: ServerContext, fd: int, gname: CString, mem: Mem) returns (ghost more: set<object>)
    requires ctx.Valid() && !Has(ctx.View().groups, gname) && ctx.View().pool != [] && Sendable(ctx.View().pool[0])
    modifies ctx.Repr()
    ensures Answered(ctx, CreateAs(old(ctx.View()), fd, gname, mem), old(ctx.sent), fd)
    ensures fresh(more) && ctx.Repr() == old(ctx.Repr()) + more
  {
    var me := ctx.TakeAddress();
    more := Found(ctx, fd, gname, me, mem);
  }

  /** What stands in the way of a group of that name, if anything does. */
  method Hindrance(ctx: ServerContext, gname: CString) returns (error: Option<byte>)
    requires ctx.Valid()
    ensures error == if Has(ctx.View().groups, gname) then Some(ERR_GROUP_FULL)
                     else if ctx.View().pool == [] then Some(ERR_SERVER_FULL)
                     else None
  {
    var dummy, i := ctx.groups.FindGroup(gname);
    if dummy != None {
      return Some(ERR_GROUP_FULL);
    }
    var empty := ctx.mcastQueue.IsEmpty();
    return if empty then Some(ERR_SERVER_FULL) else None;
  }

  method CreateNamed(ctx: ServerContext, fd: int, gname: CString, mem: Mem) returns (ghost more: set<object>)
    requires ctx.Valid()
    requires ctx.View().pool != [] ==> Sendable(ctx.View().pool[0])
    modifies ctx.Repr()
    ensures Answered(ctx, CreateAs(old(ctx.View()), fd, gname, mem), old(ctx.sent), fd)
    ensures fresh(more) && ctx.Repr() == old(ctx.Repr()) + more
  {
    more := {};
    var error := Hindrance(ctx, gname);
    if error != None {
      Refuse(ctx, fd, error.value);
      return;
    }
    more := TakeAndFound(ctx, fd, gname, mem);
  }

  method HandleCreateGroup(ctx: ServerContext, fd: int, msg: TLVMessage, mem: Mem) returns (ghost more: set<object>)
    requires ctx.Valid() && Outside(ctx, msg)
    requires ctx.View().pool != [] ==> Sendable(ctx.View().pool[0])
    modifies ctx.Repr()
    ensures Answered(ctx, CreateGroup(old(ctx.View()), fd, old(msg.View()), mem), old(ctx.sent), fd)
    ensures fresh(more) && ctx.Repr() == old(ctx.Repr()) + more
  {
    more := {};
    CreateIsCreateAs(ctx.View(), fd, msg.View(), mem);
    var gname, error := CheckRequest(ctx, fd, msg);
    if gname == None {
      Refuse(ctx, fd, error);
      return;
    }
    more := CreateNamed(ctx, fd, gname.value, mem);
  }

  /** The named group, whose record is known, without `fd`; closed when that empties it. */
  method TakeOut(ctx: ServerContext, grp: GroupRecord, fd: int, name: CString, ghost i: nat) returns (found: bool)
    requires ctx.Valid() && ctx.groups.At(i, grp) && i == IndexOf(ctx.View().groups, name)
    modifies ctx.Repr()
    ensures found <==> fd in old(ctx.View()).groups[i].value.members
    ensures Reached(ctx, Leave(old(ctx.View()), fd, name), old(ctx.sent)) && ctx.Repr() == old(ctx.Repr())
  {
    found := DropMember(ctx, grp, fd, i);
    ctx.groups.RecordIs(grp, i);
    if found && grp.memberCount == 0 {
      CloseEmptyGroup(ctx, name);
    }
  }

  method HandleLeaveGroup(ctx: ServerContext, fd: int, msg: TLVMessage)
    requires ctx.Valid() && Outside(ctx, msg)
    modifies ctx.Repr()
    ensures Answered(ctx, LeaveGroup(old(ctx.View()), fd, old(msg.View())), old(ctx.sent), fd) && ctx.Repr() == old(ctx.Repr())
  {
    var gname := ReadGroup(msg);
    if gname == None {
      Refuse(ctx, fd, ERR_GROUP_NOT_FOUND);
      return;
    }
    var grp, i := ctx.groups.FindGroup(gname.value);
    if grp == None {
      Refuse(ctx, fd, ERR_GROUP_NOT_FOUND);
      return;
    }
    var found := TakeOut(ctx, grp.value, fd, gname.value, i);
    if !found {
      Refuse(ctx, fd, ERR_NOT_IN_GROUP);
      return;
    }
    ctx.ReplySuccess(fd);
  }
}
