/** The server as it is in memory: the two maps with their records, the address queue and the slot array. */
module ServerContexts {
  import opened Strings
  import opened Assoc
  import opened Lists
  import opened Queues
  import opened Protocol
  import opened Buffers
  import opened ServerSpec
  import opened UserTables
  import opened GroupTables

  /** The queue with the preloaded addresses in it. */
  method CreatePool() returns (q: Queue<Mcast>)
    ensures q.Valid() && fresh(q) && fresh(q.items) && q.items.Length == MULTICAST_POOL_SIZE && q.contents == Preloaded()
  {
    q := new Queue<Mcast>(MULTICAST_POOL_SIZE);
    for i := 0 to MULTICAST_POOL_SIZE
      invariant q.Valid() && q.contents == Preloaded()[..i]
    {
      var r := q.Insert(PoolAddress(i));
      assert Preloaded()[..i + 1] == Preloaded()[..i] + [PoolAddress(i)];
    }
  }

  method CreateSlots() returns (fds: array<int>)
    ensures fresh(fds) && fds.Length == MAX_CLIENTS && fds[..] == Create().slots
  {
    fds := new int[MAX_CLIENTS](_ => -1);
    assert fds[..] == Create().slots;
  }

  ghost predicate Disjoint(core: set<object>, users: set<object>, groups: set<object>) {
    core !! users && core !! groups && users !! groups
  }

  lemma {:induction false} UsersGrow(core: set<object>, users: set<object>, groups: set<object>, more: set<object>, mine: set<object>)
    requires Disjoint(core, users, groups) && more !! core && more !! groups && mine !! core && mine !! groups
    ensures core + (users + (more + mine)) + groups == core + users + groups + (more + mine)
    ensures Disjoint(core, users + (more + mine), groups)
  {
  }

  lemma {:induction false} GroupsGrow(core: set<object>, users: set<object>, groups: set<object>, more: set<object>, mine: set<object>)
    requires Disjoint(core, users, groups) && more !! core && more !! users && mine !! core && mine !! users
    ensures core + users + (groups + (more + mine)) == core + users + groups + (more + mine)
    ensures Disjoint(core, users, groups + (more + mine))
  {
  }

  class ServerContext {
    const users: UserTable
    const groups: GroupTable
    const mcastQueue: Queue<Mcast>
    const clientFds: array<int>

    /** The replies sent so far, with the fds they went to. */
    var sent: seq<(int, Msg)>

    ghost function Core(): set<object> {
      {this, clientFds, mcastQueue, mcastQueue.items}
    }

    ghost function Repr(): set<object>
      reads users, groups
    {
      Core() + users.Repr + groups.Repr
    }

    ghost predicate Valid()
      reads this, users, groups, Repr()
    {
      && Disjoint(Core(), users.Repr, groups.Repr) && mcastQueue.items as object != clientFds
      && users.Valid() && groups.Valid()
      && mcastQueue.Valid() && mcastQueue.items.Length == MULTICAST_POOL_SIZE
      && clientFds.Length == MAX_CLIENTS
    }

    /** What the server stands for. */
    ghost function View(): Server
      reads users, groups, mcastQueue, clientFds
    {
      Server(users.users, groups.groups, mcastQueue.contents, clientFds[..])
    }

    constructor (users: UserTable, groups: GroupTable, pool: Queue<Mcast>, fds: array<int>)
      requires users.Valid() && groups.Valid() && pool.Valid()
      requires pool.items.Length == MULTICAST_POOL_SIZE && fds.Length == MAX_CLIENTS && pool.items as object != fds
      requires Disjoint({fds, pool, pool.items}, users.Repr, groups.Repr)
      ensures Valid() && sent == [] && View() == Server(old(users.users), old(groups.groups), old(pool.contents), old(fds[..]))
      ensures this.users == users && this.groups == groups && mcastQueue == pool && clientFds == fds
      ensures Repr() == {this} + ({fds, pool, pool.items} + users.Repr + groups.Repr)
    {
      this.users, this.groups, mcastQueue, clientFds := users, groups, pool, fds;
      sent := [];
    }

    // ---- replies ----

    /** net_send_msg on the fd of a client. */
    method NetSend(fd: int, msg: TLVMessage)
      requires Valid() && msg.value.Length == TLV_MAX_VALUE_LEN
      modifies this`sent
      ensures Valid() && View() == old(View()) && Repr() == old(Repr())
      ensures sent == old(sent) + [(fd, msg.View())]
    {
      sent := sent + [(fd, Msg(msg.tag, msg.value[..msg.length]))];
    }

    method ReplyError(fd: int, code: byte)
      requires Valid()
      modifies this`sent
      ensures Valid() && View() == old(View()) && Repr() == old(Repr())
      ensures sent == old(sent) + [(fd, ErrorMsg(code))]
    {
      var reply := new TLVMessage();
      var _ := BuildErrorMsg(reply, code);
      NetSend(fd, reply);
    }

    method ReplySuccess(fd: int)
      requires Valid()
      modifies this`sent
      ensures Valid() && View() == old(View()) && Repr() == old(Repr())
      ensures sent == old(sent) + [(fd, SuccessMsg())]
    {
      var reply := new TLVMessage();
      var _ := BuildSuccessMsg(reply);
      NetSend(fd, reply);
    }

    method ReplyGroupInfo(fd: int, ip: CString, p: port)
      requires Valid() && BuildGroupInfo(ip, p).Some?
      modifies this`sent
      ensures Valid() && View() == old(View()) && Repr() == old(Repr())
      ensures sent == old(sent) + [(fd, InfoMsg(Mcast(ip, p)))]
    {
      var reply := new TLVMessage();
      var _ := BuildGroupInfoMsg(reply, ip, p);
      NetSend(fd, reply);
    }

    // ---- one structure at a time ----

    method SetSession(u: UserRecord, loggedIn: bool, fd: int, ghost i: nat)
      requires Valid() && i < |users.users| && users.userMap.Entries()[i].value == u
      modifies Repr()
      ensures Valid() && Repr() == old(Repr()) && sent == old(sent)
      ensures var us := old(View()).users;
              View() == old(View()).(users := us[i := us[i].(value := us[i].value.(loggedIn := loggedIn, fd := fd))])
    {
      users.SetSession(u, loggedIn, fd, i);
    }

    method InsertUserRecord(u: UserRecord, mem: bool) returns (ok: bool, ghost more: set<object>)
      requires Valid() && u !in Repr() && !u.loggedIn && u.socketFd == -1 && !Has(View().users, u.username)
      modifies Repr()
      ensures Valid() && fresh(more) && Repr() == old(Repr()) + (more + {u})
      ensures sent == old(sent) && ok == mem
      ensures View() == if mem then old(View()).(users := WithUser(old(View()).users, u.username, u.password)) else old(View())
    {
      ghost var was := users.Repr;
      ok, more := users.InsertUser(u, mem);
      UsersGrow(Core(), was, groups.Repr, more, {u});
    }

    /** A new record, put into the user map under a name that is not there. */
    method InsertUser(name: CString, password: CString, mem: bool) returns (ok: bool, ghost more: set<object>)
      requires Valid() && !Has(View().users, name)
      modifies Repr()
      ensures Valid() && fresh(more) && Repr() == old(Repr()) + more && sent == old(sent) && ok == mem
      ensures View() == if mem then old(View()).(users := WithUser(old(View()).users, name, password)) else old(View())
    {
      var u := new UserRecord(name, password);
      ok, more := InsertUserRecord(u, mem);
      more := more + {u};
    }

    method AddTo(r: GroupRecord, fd: int, ghost i: nat) returns (ghost more: set<object>)
      requires Valid() && groups.At(i, r)
      modifies Repr()
      ensures Valid() && fresh(more) && Repr() == old(Repr()) + more && sent == old(sent)
      ensures var gs := old(View()).groups; View() == old(View()).(groups := gs[i := gs[i].(value := Joined(gs[i].value, fd))])
      ensures groups.At(i, r)
    {
      ghost var was := groups.Repr;
      more := groups.AddTo(r, fd, i);
      GroupsGrow(Core(), users.Repr, was, more, {});
      assert more + {} == more;
    }

    method TakeFrom(r: GroupRecord, itr: Node<int>, ghost fd: int, ghost k: nat, ghost i: nat)
      requires Valid() && groups.At(i, r) && fd in View().groups[i].value.members
      requires k == FirstOf(View().groups[i].value.members, fd) + 1 < |r.members.nodes| && itr == r.members.nodes[k]
      modifies Repr()
      ensures Valid() && Repr() == old(Repr()) && sent == old(sent)
      ensures groups.groupMap.Entries() == old(groups.groupMap.Entries())
      ensures var gs := old(View()).groups; View() == old(View()).(groups := gs[i := gs[i].(value := Drop(gs[i].value, fd))])
    {
      groups.TakeFrom(r, itr, fd, k, i);
    }

    method InsertGroupRecord(r: GroupRecord, mem: bool, ghost g: Group, ghost mine: set<object>) returns (ok: bool, ghost more: set<object>)
      requires Valid() && mine !! Repr() && RecordHeld(r, g, mine) && !Has(View().groups, r.name)
      modifies Repr()
      ensures Valid() && fresh(more) && Repr() == old(Repr()) + (more + mine)
      ensures sent == old(sent) && ok == mem
      ensures View() == if mem then old(View()).(groups := WithGroup(old(View()).groups, r.name, g)) else old(View())
      ensures ok ==> groups.At(PlaceOf(old(View()).groups, r.name), r)
    {
      ghost var was, core := groups.Repr, Core();
      assert mine !! core && mine !! users.Repr;
      ok, more := groups.InsertGroup(r, mem, g, mine);
      assert more !! core && more !! users.Repr;
      GroupsGrow(Core(), users.Repr, was, more, mine);
    }

    /** A new record without members, put into the group map under a name that is not there. */
    method InsertGroup(name: CString, me: Mcast, mem: bool) returns (r: GroupRecord, ok: bool, ghost more: set<object>)
      requires Valid() && !Has(View().groups, name)
      modifies Repr()
      ensures Valid() && fresh(more) && Repr() == old(Repr()) + more && sent == old(sent) && ok == mem
      ensures View() == if mem then old(View()).(groups := WithGroup(old(View()).groups, name, Group(me, [], 0))) else old(View())
      ensures ok ==> groups.At(PlaceOf(old(View()).groups, name), r)
    {
      var grp, mine := NewGroup(name, me);
      r := grp;
      ok, more := InsertGroupRecord(grp, mem, Group(me, [], 0), mine);
      more := more + mine;
    }

    method RemoveGroup(name: CString) returns (removed: Option<GroupRecord>)
      requires Valid()
      modifies Repr()
      ensures Valid() && Repr() == old(Repr()) && sent == old(sent)
      ensures var gs := old(View()).groups; var i := IndexOf(gs, name);
              if i == |gs| then removed == None && View() == old(View())
              else removed.Some? && Mcast(removed.value.mcastIp, removed.value.mcastPort) == gs[i].value.address
                   && View() == old(View()).(groups := RemoveAt(gs, i))
    {
      removed := groups.RemoveGroup(name);
    }

    /** QueueRemove on a queue that is not empty */
    method TakeAddress() returns (me: Mcast)
      requires Valid() && View().pool != []
      modifies Repr()
      ensures Valid() && Repr() == old(Repr()) && sent == old(sent)
      ensures me == old(View()).pool[0] && View() == old(View()).(pool := old(View()).pool[1..])
    {
      var _, item := mcastQueue.Remove();
      me := item;
    }

    /** QueueInsert */
    method PutAddress(me: Mcast)
      requires Valid()
      modifies Repr()
      ensures Valid() && Repr() == old(Repr()) && sent == old(sent)
      ensures View() == old(View()).(pool := PoolInsert(old(View()).pool, me))
    {
      var _ := mcastQueue.Insert(me);
    }
  }

  method CreateTables() returns (users: UserTable, groups: GroupTable)
    ensures users.Valid() && users.users == [] && fresh(users.Repr)
    ensures groups.Valid() && groups.groups == [] && fresh(groups.Repr) && users.Repr !! groups.Repr
  {
    users := new UserTable();
    groups := new GroupTable();
  }

  method CreateParts() returns (users: UserTable, groups: GroupTable, pool: Queue<Mcast>, fds: array<int>, ghost parts: set<object>)
    ensures users.Valid() && users.users == [] && groups.Valid() && groups.groups == []
    ensures pool.Valid() && pool.items.Length == MULTICAST_POOL_SIZE && pool.contents == Preloaded()
    ensures fds[..] == Create().slots
    ensures parts == {fds, pool, pool.items} + users.Repr + groups.Repr && fresh(parts)
    ensures Disjoint({fds, pool, pool.items}, users.Repr, groups.Repr) && pool.items as object != fds
  {
    users, groups := CreateTables();
    fds := CreateSlots();
    pool := CreatePool();
    parts := {fds, pool, pool.items} + users.Repr + groups.Repr;
  }

  /** server_create, when no allocation fails: two empty maps, all slots free, the pool preloaded. */
  method ServerCreate() returns (ctx: ServerContext, ghost own: set<object>)
    ensures ctx.Valid() && ctx.View() == Create() && ctx.sent == []
    ensures own == ctx.Repr() && fresh(own)
  {
    var users, groups, pool, fds, parts := CreateParts();
    ctx, own := Assemble(users, groups, pool, fds, parts);
  }

  method Assemble(users: UserTable, groups: GroupTable, pool: Queue<Mcast>, fds: array<int>, ghost parts: set<object>)
    returns (ctx: ServerContext, ghost own: set<object>)
    requires users.Valid() && groups.Valid() && pool.Valid()
    requires pool.items.Length == MULTICAST_POOL_SIZE && fds.Length == MAX_CLIENTS && pool.items as object != fds
    requires Disjoint({fds, pool, pool.items}, users.Repr, groups.Repr) && parts == {fds, pool, pool.items} + users.Repr + groups.Repr
    ensures ctx.Valid() && fresh(ctx) && ctx.sent == []
    ensures ctx.View() == Server(users.users, groups.groups, pool.contents, fds[..])
    ensures own == ctx.Repr() == {ctx} + parts
  {
    ctx := new ServerContext(users, groups, pool, fds);
    own := {ctx} + parts;
  }
}
