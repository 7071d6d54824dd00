/** The server's state in hash-map order stands for a state of the machine on maps, and every reachable step is one of the
    machine's, with the same reply. */
module Refinement {
  import opened Strings
  import opened Assoc
  import opened Protocol
  import opened Framing
  import opened ServerSpec
  import opened ServerInvariants
  import opened Withdrawal
  import opened ServerSafety
  import opened ServerRuns
  import opened Recycling
  import opened Conversations
  import opened ChatMachine

  // ---- pairs as maps ----

  function Dict<V>(e: seq<Pair<CString, V>>): map<CString, V> {
    if e == [] then map[] else Dict(e[1..])[e[0].key := e[0].value]
  }

  ghost predicate Maps<V>(m: map<CString, V>, e: seq<Pair<CString, V>>) {
    && (forall p :: p in e ==> p.key in m && m[p.key] == p.value)
    && (forall n: CString :: n in m ==> Pair(n, m[n]) in e)
  }

  lemma {:induction false} DictMaps<V>(e: seq<Pair<CString, V>>)
    requires UniqueNames(e)
    ensures Maps(Dict(e), e) && |Dict(e)| == |e|
  {
    if e != [] {
      DictMaps(e[1..]);
      assert forall p :: p in e <==> p == e[0] || p in e[1..];
      assert forall p :: p in e[1..] ==> p.key != e[0].key;
    }
  }

  /** A map with the same pairs is the same map. */
  lemma {:induction false} DictIs<V>(m: map<CString, V>, e: seq<Pair<CString, V>>)
    requires UniqueNames(e) && Maps(m, e)
    ensures Dict(e) == m
  {
    DictMaps(e);
    forall n: CString
      ensures n in Dict(e) <==> n in m
    {
      if n in m {
        assert Pair(n, m[n]) in e;
      }
      if n in Dict(e) {
        assert Pair(n, Dict(e)[n]) in e;
      }
    }
    forall n: CString | n in m
      ensures Dict(e)[n] == m[n]
    {
      assert Pair(n, m[n]) in e;
    }
  }

  lemma {:induction false} DictFinds<V>(e: seq<Pair<CString, V>>, name: CString)
    requires UniqueNames(e)
    ensures Has(e, name) <==> name in Dict(e)
    ensures Has(e, name) ==> Dict(e)[name] == e[IndexOf(e, name)].value
  {
    DictMaps(e);
    var i := IndexOf(e, name);
    if i < |e| {
      assert e[i] in e;
    }
  }

  lemma {:induction false} DictAdded<V>(e: seq<Pair<CString, V>>, t: seq<Pair<CString, V>>, name: CString, v: V)
    requires UniqueNames(e) && UniqueNames(t) && name !in Dict(e)
    requires forall p :: p in t <==> p == Pair(name, v) || p in e
    ensures Dict(t) == Dict(e)[name := v]
  {
    DictMaps(e);
    DictIs(Dict(e)[name := v], t);
  }

  lemma {:induction false} DictInserted<V>(e: seq<Pair<CString, V>>, name: CString, v: V, cap: nat)
    requires cap > 0 && UniqueNames(e) && !Has(e, name)
    ensures Dict(Insert(e, name, v, Djb2, cap)) == Dict(e)[name := v]
  {
    InsertFacts(e, name, v, cap);
    DictFinds(e, name);
    DictAdded(e, Insert(e, name, v, Djb2, cap), name, v);
  }

  lemma {:induction false} DictUpdated<V>(e: seq<Pair<CString, V>>, i: nat, v: V)
    requires UniqueNames(e) && i < |e|
    ensures UniqueNames(e[i := e[i].(value := v)]) && Dict(e[i := e[i].(value := v)]) == Dict(e)[e[i].key := v]
  {
    var t := e[i := e[i].(value := v)];
    DictMaps(e);
    assert t[i] in t;
    forall n: CString | n in Dict(e) && n != e[i].key
      ensures Pair(n, Dict(e)[n]) in t
    {
      var j :| 0 <= j < |e| && e[j] == Pair(n, Dict(e)[n]);
      assert t[j] in t;
    }
    DictIs(Dict(e)[e[i].key := v], t);
  }

  // ---- the state that is stood for ----

  function Members(g: Group): set<int> {
    set m | m in g.members
  }

  ghost function RoomOf(g: Group): Room {
    Room(g.address, Members(g))
  }

  ghost function RoomsOf(groups: Groups): map<CString, Room> {
    var all := Dict(groups);
    map n | n in all :: RoomOf(all[n])
  }

  ghost function ChatOf(s: Server): Chat {
    Chat(Dict(s.users), RoomsOf(s.groups), s.pool)
  }

  lemma {:induction false} MemberCount(g: Group)
    requires Distinct(g.members)
    ensures |Members(g)| == |g.members|
  {
    SetOfDistinct(g.members);
  }

  lemma {:induction false} SetOfDistinct(s: seq<int>)
    requires Distinct(s)
    ensures |(set m | m in s)| == |s|
  {
    if s != [] {
      SetOfDistinct(s[1..]);
      assert (set m | m in s) == {s[0]} + (set m | m in s[1..]);
    }
  }

  lemma {:induction false} RoomsFind(groups: Groups, name: CString)
    requires UniqueNames(groups)
    ensures Has(groups, name) <==> name in RoomsOf(groups)
    ensures Has(groups, name) ==> RoomsOf(groups)[name] == RoomOf(groups[IndexOf(groups, name)].value)
    ensures |RoomsOf(groups)| == |groups|
  {
    DictFinds(groups, name);
    DictMaps(groups);
    assert RoomsOf(groups).Keys == Dict(groups).Keys;
  }

  lemma {:induction false} SignedInIs(s: Server, fd: int)
    requires UsersOk(s.users) && fd != -1
    ensures LoggedInOn(s, fd) <==> SignedIn(ChatOf(s), fd)
  {
    var i, a := UserOn(s.users, fd), Dict(s.users);
    DictMaps(s.users);
    if i < |s.users| {
      assert s.users[i] in s.users && a[s.users[i].key] == s.users[i].value;
    }
    if u: CString :| u in a && a[u].loggedIn && a[u].fd == fd {
      assert Pair(u, a[u]) in s.users;
    }
  }

  // ---- accounts ----

  lemma {:induction false} RegisterRefines(s: Server, msg: Msg, mem: Mem)
    requires UniqueNames(s.users)
    ensures var o := Register(s, msg, mem); Registers(ChatOf(s), msg, mem, o.reply, ChatOf(o.server))
  {
    if ParseAuth(msg).Some? {
      var a := ParseAuth(msg).value;
      DictFinds(s.users, a.user);
      if !Has(s.users, a.user) {
        DictInserted(s.users, a.user, User(a.pass, false, -1), USER_BUCKETS);
      }
    }
  }

  lemma {:induction false} LoginRefines(s: Server, fd: int, msg: Msg)
    requires UniqueNames(s.users)
    ensures var o := Login(s, fd, msg); LogsIn(ChatOf(s), fd, msg, o.reply, ChatOf(o.server))
  {
    if ParseAuth(msg).Some? {
      var a := ParseAuth(msg).value;
      DictFinds(s.users, a.user);
      if Has(s.users, a.user) {
        DictUpdated(s.users, IndexOf(s.users, a.user), User(a.pass, true, fd));
      }
    }
  }

  // ---- groups ----

  lemma {:induction false} TellsIt(a: Mcast)
    requires BuildGroupInfo(a.ip, a.port) == Some(InfoMsg(a))
    ensures Tells(InfoMsg(a), a)
  {
  }

  lemma {:induction false} RoomsInserted(groups: Groups, name: CString, a: Mcast, fd: int)
    requires UniqueNames(groups) && !Has(groups, name)
    ensures RoomsOf(Insert(groups, name, Group(a, [fd], 1), Djb2, GROUP_BUCKETS)) == RoomsOf(groups)[name := Room(a, {fd})]
  {
    var g := Group(a, [fd], 1);
    DictInserted(groups, name, g, GROUP_BUCKETS);
    RoomsAdded(groups, Insert(groups, name, g, Djb2, GROUP_BUCKETS), name, g);
    assert Members(g) == {fd};
  }

  lemma {:induction false} RoomsAdded(groups: Groups, after: Groups, name: CString, g: Group)
    requires Dict(after) == Dict(groups)[name := g]
    ensures RoomsOf(after) == RoomsOf(groups)[name := RoomOf(g)]
  {
  }

  lemma {:induction false} RoomsUpdated(groups: Groups, i: nat, g: Group)
    requires UniqueNames(groups) && i < |groups|
    ensures RoomsOf(groups[i := groups[i].(value := g)]) == RoomsOf(groups)[groups[i].key := RoomOf(g)]
  {
    DictUpdated(groups, i, g);
    RoomsAdded(groups, groups[i := groups[i].(value := g)], groups[i].key, g);
  }

  lemma {:induction false} CreateRefines(s: Server, fd: int, msg: Msg, mem: Mem)
    requires Inv(s) && fd != -1
    ensures var o := CreateGroup(s, fd, msg, mem); Creates(ChatOf(s), fd, msg, mem, o.reply, ChatOf(o.server))
  {
    SignedInIs(s, fd);
    ConservedMeans(s.pool, s.groups);
    CreateIs(s, fd, msg, mem);
    if ParseGroup(msg).Some? {
      RoomsFind(s.groups, ParseGroup(msg).value);
    }
    if TakesAddress(s, fd, msg) {
      FreeAddressIsInfo(s.pool, s.groups, s.pool[0]);
      TellsIt(s.pool[0]);
      RoomsInserted(s.groups, ParseGroup(msg).value, s.pool[0], fd);
      var o := CreateGroup(s, fd, msg, mem);
      if mem.record && mem.list && mem.insert {
        CreateSucceeds(s, fd, msg, mem);
      } else {
        assert o.reply == Error(8);
        assert ChatOf(o.server) == ChatOf(s).(free := s.pool[1..] + [s.pool[0]]);
      }
    }
  }

  lemma {:induction false} JoinRefines(s: Server, fd: int, msg: Msg)
    requires Inv(s) && fd != -1
    ensures var o := JoinGroup(s, fd, msg); Joins(ChatOf(s), fd, msg, o.reply, ChatOf(o.server))
  {
    SignedInIs(s, fd);
    JoinIs(s, fd, msg);
    if ParseGroup(msg).Some? {
      RoomsFind(s.groups, ParseGroup(msg).value);
      if LoggedInOn(s, fd) && Has(s.groups, ParseGroup(msg).value) {
        AddRefines(s, fd, IndexOf(s.groups, ParseGroup(msg).value));
      }
    }
  }

  lemma {:induction false} AddRefines(s: Server, fd: int, i: nat)
    requires Inv(s) && i < |s.groups|
    ensures var o, name, room := AddMember(s, fd, i), s.groups[i].key, RoomOf(s.groups[i].value);
            if fd !in room.members && |room.members| >= 32 then o.reply == Error(6) && ChatOf(o.server) == ChatOf(s)
            else && Tells(o.reply, room.address)
                 && ChatOf(o.server) == ChatOf(s).(rooms := ChatOf(s).rooms[name := room.(members := room.members + {fd})])
  {
    var p := s.groups[i];
    assert p in s.groups;
    AddMemberIs(s, fd, i);
    MemberCount(p.value);
    InfoIsInfo(s, i);
    TellsIt(p.value.address);
    RoomGrows(s.groups, i, fd);
  }

  lemma {:induction false} RoomGrows(e: Groups, i: nat, fd: int)
    requires UniqueNames(e) && i < |e|
    ensures var grown := RoomsOf(e)[e[i].key := Room(e[i].value.address, Members(e[i].value) + {fd})];
            if fd in e[i].value.members then RoomsOf(e) == grown
            else RoomsOf(e[i := e[i].(value := Grown(e[i].value, fd))]) == grown
  {
    IndexIs(e, i);
    RoomsFind(e, e[i].key);
    if fd in e[i].value.members {
      assert Members(e[i].value) + {fd} == Members(e[i].value);
    } else {
      RoomsUpdated(e, i, Grown(e[i].value, fd));
      assert Members(Grown(e[i].value, fd)) == Members(e[i].value) + {fd};
    }
  }

  lemma {:induction false} DictRemoved<V>(e: seq<Pair<CString, V>>, i: nat)
    requires UniqueNames(e) && i < |e|
    ensures UniqueNames(RemoveAt(e, i)) && Dict(RemoveAt(e, i)) == Dict(e) - {e[i].key}
  {
    UniqueWithout(e, i);
    DictMaps(e);
    forall p: Pair<CString, V>
      ensures p in RemoveAt(e, i) <==> p in e && p.key != e[i].key
    {
      StillIn(e, i, p);
    }
    DictIs(Dict(e) - {e[i].key}, RemoveAt(e, i));
  }

  lemma {:induction false} StillIn<V>(e: seq<Pair<CString, V>>, i: nat, p: Pair<CString, V>)
    requires UniqueNames(e) && i < |e|
    ensures p in RemoveAt(e, i) <==> p in e && p.key != e[i].key
  {
    var t := RemoveAt(e, i);
    if p in t {
      var j :| 0 <= j < |t| && t[j] == p;
      RemovedAt(e, i, j);
    }
    if p in e && p.key != e[i].key {
      var j :| 0 <= j < |e| && e[j] == p;
      RemovedAt(e, i, if j < i then j else j - 1);
      assert p == t[if j < i then j else j - 1];
    }
  }

  /** A group that only `fd` is in. */
  lemma {:induction false} AloneIs(p: Pair<CString, Group>, fd: int, only: set<CString>)
    requires LiveGroup(p.value) && p.key in only
    ensures Closes(p, fd, only) <==> Members(p.value) == {fd}
    ensures !Closes(p, fd, only) ==> RoomOf(After(p, fd, only).value) == Room(p.value.address, Members(p.value) - {fd})
  {
    MemberCount(p.value);
    DropFacts(p.value, fd);
    AloneCloses(p, fd, only);
    assert p.value.members == [fd] ==> Members(p.value) == {fd};
    if Members(p.value) == {fd} {
      assert p.value.members == [p.value.members[0]] && p.value.members[0] in Members(p.value);
    }
  }

  lemma {:induction false} LeaveRefines(s: Server, fd: int, msg: Msg)
    requires Inv(s)
    ensures var o := LeaveGroup(s, fd, msg); Quits(ChatOf(s), fd, msg, o.reply, ChatOf(o.server))
  {
    if ParseGroup(msg).Some? {
      var name := ParseGroup(msg).value;
      RoomsFind(s.groups, name);
      if Has(s.groups, name) && fd in s.groups[IndexOf(s.groups, name)].value.members {
        QuitRefines(s, fd, IndexOf(s.groups, name));
      }
    }
  }

  lemma {:induction false} QuitRefines(s: Server, fd: int, i: nat)
    requires Inv(s) && i < |s.groups| && fd in s.groups[i].value.members
    ensures var c, d, name, room := ChatOf(s), ChatOf(Leave(s, fd, s.groups[i].key)), s.groups[i].key, RoomOf(s.groups[i].value);
            d == if room.members == {fd} then c.(rooms := c.rooms - {name}, free := c.free + [room.address])
                 else c.(rooms := c.rooms[name := room.(members := room.members - {fd})])
  {
    var e, p := s.groups, s.groups[i];
    assert p in e;
    ConservedMeans(s.pool, e);
    LeaveFound(s, fd, i);
    AloneIs(p, fd, {p.key});
    if Closes(p, fd, {p.key}) {
      assert e[..i] + [] + e[i + 1..] == RemoveAt(e, i);
      DictRemoved(e, i);
      assert RoomsOf(RemoveAt(e, i)) == RoomsOf(e) - {p.key};
    } else {
      var q := After(p, fd, {p.key});
      assert e[..i] + [q] + e[i + 1..] == e[i := q];
      RoomsUpdated(e, i, q.value);
      assert s.pool + [] == s.pool;
    }
  }

  // ---- the end of a connection ----

  lemma {:induction false} SessionRefines(s: Server, fd: int)
    requires UniqueNames(s.users)
    ensures SessionEnds(Dict(s.users), fd, Dict(EndSession(s, fd).users))
  {
    var i, a := UserOn(s.users, fd), Dict(s.users);
    DictMaps(s.users);
    if i < |s.users| {
      assert s.users[i] in s.users && a[s.users[i].key] == s.users[i].value;
      DictUpdated(s.users, i, s.users[i].value.(loggedIn := false, fd := -1));
    } else {
      forall u: CString | u in a
        ensures a[u].fd != fd
      {
        assert Pair(u, a[u]) in s.users;
      }
    }
  }

  /** Which group survives under a name, and with which members. */
  lemma {:induction false} SurvivorNamed(e: Groups, fd: int, n: CString)
    requires UniqueNames(e) && LiveGroups(e)
    ensures var d, t := Dict(e), Dict(Survivors(e, fd, Names(e)));
            && (n in t <==> n in d && Members(d[n]) != {fd})
            && (n in t ==> RoomOf(t[n]) == Room(d[n].address, Members(d[n]) - {fd}))
  {
    var all := Names(e);
    var d, t := Dict(e), Dict(Survivors(e, fd, all));
    SurvivorsUnique(e, fd, all);
    DictMaps(e);
    DictMaps(Survivors(e, fd, all));
    if n in t {
      SurvivorsIn(e, fd, all, Pair(n, t[n]));
      var p :| p in e && !Closes(p, fd, all) && Pair(n, t[n]) == After(p, fd, all);
      AloneIs(p, fd, all);
    }
    if n in d && Members(d[n]) != {fd} {
      var p := Pair(n, d[n]);
      AloneIs(p, fd, all);
      SurvivorsIn(e, fd, all, After(p, fd, all));
    }
  }

  lemma {:induction false} SurvivorsRefine(e: Groups, fd: int)
    requires UniqueNames(e) && LiveGroups(e)
    ensures RoomsOf(Survivors(e, fd, Names(e))) == WithoutFd(RoomsOf(e), fd)
  {
    forall n: CString
      ensures var d, t := Dict(e), Dict(Survivors(e, fd, Names(e)));
              && (n in t <==> n in d && Members(d[n]) != {fd})
              && (n in t ==> RoomOf(t[n]) == Room(d[n].address, Members(d[n]) - {fd}))
    {
      SurvivorNamed(e, fd, n);
    }
  }

  lemma {:induction false} ReleasedIn(e: Groups, fd: int, only: set<CString>, x: Mcast)
    ensures x in Released(e, fd, only) <==> exists p :: p in e && Closes(p, fd, only) && p.value.address == x
  {
    if e != [] {
      ReleasedIn(e[1..], fd, only, x);
      assert forall p :: p in e <==> p == e[0] || p in e[1..];
    }
  }

  lemma {:induction false} ReleaseRefines(s: Server, fd: int)
    requires Inv(s)
    ensures Releases(RoomsOf(s.groups), fd, Released(s.groups, fd, Names(s.groups)))
  {
    var e, all, rooms := s.groups, Names(s.groups), RoomsOf(s.groups);
    ConservedMeans(s.pool, e);
    SurvivorsConserve(e, fd, all);
    SplitOfDistinct(Addresses(e), Addresses(Survivors(e, fd, all)), Released(e, fd, all));
    DictMaps(e);
    forall x
      ensures x in Released(e, fd, all) <==> exists n :: n in rooms && rooms[n] == Room(x, {fd})
    {
      ReleasedIn(e, fd, all, x);
      if p :| p in e && Closes(p, fd, all) && p.value.address == x {
        AloneIs(p, fd, all);
        assert rooms[p.key] == Room(x, {fd});
      }
      if n: CString :| n in rooms && rooms[n] == Room(x, {fd}) {
        AloneIs(Pair(n, Dict(e)[n]), fd, all);
      }
    }
  }

  lemma {:induction false} CleanupRefines(s: Server, fd: int)
    requires Inv(s)
    ensures Ends(ChatOf(s), fd, ChatOf(Cleanup(s, fd)))
  {
    ConservedMeans(s.pool, s.groups);
    CleanupIsWithdrawal(s, fd);
    SessionRefines(WithdrawAll(s, fd), fd);
    SurvivorsRefine(s.groups, fd);
    ReleaseRefines(s, fd);
  }

  // ---- the whole server ----

  lemma {:induction false} DispatchRefines(s: Server, fd: int, msg: Msg, mem: Mem)
    requires Inv(s) && fd >= 0
    ensures var o := Dispatch(s, fd, msg, mem); Serves(ChatOf(s), fd, msg, mem, o.reply, ChatOf(o.server))
  {
    if msg.tag == 1 {
      RegisterRefines(s, msg, mem);
    } else if msg.tag == 2 {
      LoginRefines(s, fd, msg);
    } else if msg.tag == 3 || msg.tag == 4 {
      CleanupRefines(s, fd);
    } else if msg.tag == 5 {
      JoinRefines(s, fd, msg);
    } else if msg.tag == 6 {
      LeaveRefines(s, fd, msg);
    } else if msg.tag == 7 {
      CreateRefines(s, fd, msg, mem);
    }
  }

  /** In every reachable state, whatever is received on whatever connection: the reply is the machine's, the server comes
      to stand for the state the machine comes to, and only an exit closes the connection. */
  lemma {:induction false} RefinementTheorem(s: Server, fd: int, msg: Msg, mem: Mem)
    requires Reachable(s) && fd >= 0
    ensures var o := Dispatch(s, fd, msg, mem);
            Serves(ChatOf(s), fd, msg, mem, o.reply, ChatOf(o.server)) && (o.keepOpen <==> msg.tag != 4)
  {
    ReachableInv(s);
    DispatchRefines(s, fd, msg, mem);
    OnlyExitCloses(s, fd, msg, mem);
  }

  // ---- whole runs ----

  /** What a server event is to the machine; a new connection is nothing to it. */
  function ActOf(s: Server, e: Event): seq<Act>
    requires Enabled(s, e)
  {
    match e
    case Accept(_) => []
    case Request(i, msg, mem) => [Heard(s.slots[i], msg, mem, Dispatch(s, s.slots[i], msg, mem).reply)]
    case HangUp(i) => [Lost(s.slots[i])]
  }

  ghost function ActsOf(s: Server, run: seq<Event>): seq<Act>
    requires ValidRun(s, run)
    decreases |run|
  {
    if run == [] then [] else ActOf(s, run[0]) + ActsOf(Step(s, run[0]), run[1..])
  }

  lemma {:induction false} EventRefines(s: Server, e: Event)
    requires Inv(s) && Enabled(s, e)
    ensures var acts := ActOf(s, e);
            if acts == [] then ChatOf(Step(s, e)) == ChatOf(s) else acts == [acts[0]] && Acts(ChatOf(s), acts[0], ChatOf(Step(s, e)))
  {
    match e
    case Accept(_) =>
    case Request(i, msg, mem) => DispatchRefines(s, s.slots[i], msg, mem);
    case HangUp(i) => CleanupRefines(s, s.slots[i]);
  }

  /** A run of the server is a path of the machine, act by act. */
  lemma {:induction false} RunRefines(s: Server, run: seq<Event>)
    requires Inv(s) && ValidRun(s, run)
    ensures Path(ChatOf(s), ActsOf(s, run), ChatOf(AfterRun(s, run)))
    decreases |run|
  {
    if run != [] {
      var t, acts, more := Step(s, run[0]), ActOf(s, run[0]), ActsOf(Step(s, run[0]), run[1..]);
      StepKeeps(s, run[0]);
      RunRefines(t, run[1..]);
      EventRefines(s, run[0]);
      if acts == [] {
        assert acts + more == more;
      } else {
        assert (acts + more)[0] == acts[0] && (acts + more)[1..] == more;
      }
    }
  }

  /** From the start: no accounts, no groups, and the preloaded addresses. */
  lemma {:induction false} RunTheorem(run: seq<Event>)
    requires ValidRun(Create(), run)
    ensures Path(Chat(map[], map[], Create().pool), ActsOf(Create(), run), ChatOf(AfterRun(Create(), run)))
  {
    CreateInv();
    RunRefines(Create(), run);
    assert ChatOf(Create()) == Chat(map[], map[], Create().pool);
  }

  // ---- on the stream ----

  lemma {:induction false} AskedIn(s: Server, run: seq<Event>, fd: int, k: nat)
    requires Inv(s) && ValidRun(s, run) && k < |RequestsOn(s, run, fd)|
    ensures Inv(RequestsOn(s, run, fd)[k].server) && fd >= 0
    decreases |run|
  {
    var first, t := RequestOf(s, run[0], fd), Step(s, run[0]);
    StepKeeps(s, run[0]);
    if k >= |first| {
      AskedIn(t, run[1..], fd, k - |first|);
    }
  }

  /** What a client reads off its stream: unless its connection was turned away, the k-th message is what the machine
      answers to the k-th request, in the state the server was in then. */
  lemma {:induction false} StreamTheorem(run: seq<Event>, fd: int, k: nat)
    requires ValidRun(Create(), run) && TurnedAway(Create(), run, fd) == 0 && k < |RequestsOn(Create(), run, fd)|
    ensures var got, q := DecodeAll(WireAll(SentTo(RunReplies(Create(), run), fd))), RequestsOn(Create(), run, fd)[k];
            |got| == |RequestsOn(Create(), run, fd)| && exists d :: Serves(ChatOf(q.server), fd, q.msg, q.mem, got[k], d)
  {
    CreateInv();
    AskedIn(Create(), run, fd, k);
    StreamAnswersRequests(Create(), run, fd);
    var q := RequestsOn(Create(), run, fd)[k];
    DispatchRefines(q.server, fd, q.msg, q.mem);
  }

  // ---- the table of connections ----

  /** Of 64 slots a new connection gets the first that is free; when none is, it is told so with code 8 and nothing
      changes. */
  lemma {:induction false} AcceptTheorem(s: Server, fd: int)
    requires Reachable(s) && Enabled(s, Accept(fd))
    ensures |s.slots| == 64
    ensures if forall j :: 0 <= j < 64 ==> s.slots[j] >= 0 then
              Step(s, Accept(fd)) == s && Replies(s, Accept(fd)) == [(fd, Error(8))]
            else
              exists i :: && 0 <= i < 64 && s.slots[i] < 0 && (forall j :: 0 <= j < i ==> s.slots[j] >= 0)
                          && Step(s, Accept(fd)) == s.(slots := s.slots[i := fd]) && Replies(s, Accept(fd)) == []
  {
    ReachableInv(s);
    var i := FreeSlot(s.slots);
    assert i < 64 ==> s.slots[i] < 0;
  }
}
