/** The user map of the server with the records it holds. */
module UserTables {
  import opened Strings
  import opened Assoc
  import opened Primes
  import opened HashMaps
  import opened ServerSpec

  class UserRecord {
    const username: CString
    const password: CString
    var loggedIn: bool
    var socketFd: int

    constructor (username: CString, password: CString)
      ensures this.username == username && this.password == password && !loggedIn && socketFd == -1
    {
      this.username, this.password := username, password;
      loggedIn, socketFd := false, -1;
    }
  }

  // ---- maps with strings as keys ----

  lemma {:induction false} StringsLawful()
    ensures Lawful(Djb2, EqualString)
  {
  }

  ghost predicate MapOk<V>(m: HashMap<CString, V>, cap: nat)
    reads m, m.Repr
  {
    m.Valid() && m.hashFunc == Djb2 && m.keysEqualFunc == EqualString && m.buckets.Length == cap
  }

  /** Two tables with the same keys in the same order find a key at the same place. */
  lemma {:induction false} SameKeys<V, W>(a: seq<Pair<CString, V>>, b: seq<Pair<CString, W>>, name: CString)
    requires |a| == |b| && forall i :: 0 <= i < |a| ==> a[i].key == b[i].key
    ensures Find(a, name, EqualString) == Find(b, name, EqualString)
  {
    FirstIs(a, name, EqualString, Find(b, name, EqualString));
  }

  /** They also take a new key at the same place. */
  lemma {:induction false} SamePosition<V, W>(a: seq<Pair<CString, V>>, b: seq<Pair<CString, W>>, slot: nat, cap: nat)
    requires cap > 0 && |a| == |b| && forall i :: 0 <= i < |a| ==> a[i].key == b[i].key
    ensures Position(a, slot, Djb2, cap) == Position(b, slot, Djb2, cap)
  {
    var p, q := Position(a, slot, Djb2, cap), Position(b, slot, Djb2, cap);
    assert p < |a| ==> a[p].key == b[p].key;
    assert q < |a| ==> a[q].key == b[q].key;
  }

  lemma {:induction false} LeastIsUnique(n: nat, p: nat, q: nat)
    requires LeastPrimeFrom(n, p) && LeastPrimeFrom(n, q)
    ensures p == q
  {
  }

  /** HashMap_Create with the two capacities the server asks for. */
  method CreateMap<V>(capacity: nat, ghost cap: nat) returns (m: HashMap<CString, V>)
    requires (capacity == MAX_CLIENTS && cap == USER_BUCKETS) || (capacity == 16 && cap == GROUP_BUCKETS)
    ensures MapOk(m, cap) && m.Entries() == [] && fresh(m) && fresh(m.Repr)
  {
    StringsLawful();
    ServerCapacities();
    m := new HashMap<CString, V>(capacity, Djb2, EqualString);
    LeastIsUnique(capacity, cap, m.buckets.Length);
  }

  /** A table, the objects of its map and those of its records are distinct parts of `all`. */
  ghost predicate Apart(table: object, buckets: set<object>, records: set<object>, all: set<object>) {
    table in all && buckets <= all && records <= all && buckets !! records && table !in buckets && table !in records
  }

  lemma {:induction false} StillApart(table: object, buckets: set<object>, records: set<object>, all: set<object>, map': set<object>, more: set<object>)
    requires Apart(table, buckets, records, all) && map' - buckets !! all && more !! all && more !! map'
    ensures Apart(table, map', records + more, all + map' + more)
  {
  }

  // ---- the records ----

  ghost predicate UserHeld(p: Pair<CString, UserRecord>, q: Pair<CString, User>, own: set<object>)
    reads own
  {
    && p.key == q.key && p.value in own && p.value.username == p.key
    && q.value == User(p.value.password, p.value.loggedIn, p.value.socketFd)
  }

  ghost predicate UsersHeld(e: seq<Pair<CString, UserRecord>>, users: Users, own: set<object>)
    reads own
  {
    && |e| == |users|
    && (forall i :: 0 <= i < |e| ==> UserHeld(e[i], users[i], own))
    && (forall i, j :: 0 <= i < j < |e| ==> e[i].value != e[j].value)
  }

  lemma {:induction false} UsersHeldInsert(e: seq<Pair<CString, UserRecord>>, users: Users, own: set<object>,
                                           x: Pair<CString, UserRecord>, y: Pair<CString, User>, more: set<object>, p: nat)
    requires UsersHeld(e, users, own) && p <= |e| && own <= more && x.value !in own && UserHeld(x, y, more)
    ensures UsersHeld(e[..p] + [x] + e[p..], users[..p] + [y] + users[p..], more)
  {
    var e', users' := e[..p] + [x] + e[p..], users[..p] + [y] + users[p..];
    forall i | 0 <= i <= |e|
      ensures UserHeld(e'[i], users'[i], more)
    {
      InsertedAt(e, p, x, i);
      InsertedAt(users, p, y, i);
      assert i < p ==> UserHeld(e[i], users[i], own);
      assert i > p ==> UserHeld(e[i - 1], users[i - 1], own);
    }
    forall i, j | 0 <= i < j <= |e|
      ensures e'[i].value != e'[j].value
    {
      InsertedAt(e, p, x, i);
      InsertedAt(e, p, x, j);
      assert i == p ==> UserHeld(e[j - 1], users[j - 1], own);
      assert j == p ==> UserHeld(e[i], users[i], own);
    }
  }

  lemma {:induction false} UsersHeldIn(e: seq<Pair<CString, UserRecord>>, users: Users, own: set<object>, more: set<object>)
    requires UsersHeld(e, users, own) && own <= more
    ensures UsersHeld(e, users, more)
  {
    assert forall i :: 0 <= i < |e| ==> UserHeld(e[i], users[i], own);
  }

  lemma {:induction false} UserOnIs(users: Users, fd: int, i: nat)
    requires i <= |users| && (i < |users| ==> users[i].value.fd == fd)
    requires forall j :: 0 <= j < i ==> users[j].value.fd != fd
    ensures UserOn(users, fd) == i
  {
  }

  ghost predicate UserPart(m: HashMap<CString, UserRecord>, users: Users, space: set<object>)
    reads m, m.Repr, space
  {
    MapOk(m, USER_BUCKETS) && UsersHeld(m.Entries(), users, space)
  }

  ghost function WithUser(users: Users, name: CString, password: CString): Users {
    Assoc.Insert(users, name, User(password, false, -1), Djb2, USER_BUCKETS)
  }

  method InsertRecord(m: HashMap<CString, UserRecord>, u: UserRecord, mem: bool, ghost users: Users, ghost space: set<object>)
    returns (ok: bool)
    requires UserPart(m, users, space) && m.Repr !! space && u !in space && u !in m.Repr
    requires !u.loggedIn && u.socketFd == -1 && !Has(users, u.username)
    modifies m.Repr
    ensures ok == mem && fresh(m.Repr - old(m.Repr))
    ensures if mem then UserPart(m, WithUser(users, u.username, u.password), space + {u}) else UserPart(m, users, space + {u})
  {
    ghost var e := m.Entries();
    SameKeys(e, users, u.username);
    SamePosition(e, users, Djb2(u.username) % USER_BUCKETS, USER_BUCKETS);
    var r := m.Insert(u.username, u, mem, mem, mem);
    ok := r == MAP_SUCCESS;
    if ok {
      ghost var p := Position(e, Djb2(u.username) % USER_BUCKETS, Djb2, USER_BUCKETS);
      UsersHeldInsert(e, users, space, Pair(u.username, u), Pair(u.username, User(u.password, false, -1)), space + {u}, p);
    } else {
      UsersHeldIn(e, users, space, space + {u});
    }
  }

  class UserTable {
    ghost var users: Users
    ghost var space: set<object>   // the records
    ghost var Repr: set<object>

    const userMap: HashMap<CString, UserRecord>

    ghost predicate Valid()
      reads this, Repr
    {
      && userMap in Repr && Apart(this, userMap.Repr, space, Repr)
      && UserPart(userMap, users, space)
    }

    /** The ghost fields follow what has happened to the map. */
    ghost method Adopt(users': Users, space': set<object>, Repr': set<object>)
      requires UserPart(userMap, users', space') && userMap in Repr' && Apart(this, userMap.Repr, space', Repr')
      modifies this
      ensures Valid() && users == users' && space == space' && Repr == Repr'
    {
      users, space, Repr := users', space', Repr';
      assert UserPart(userMap, users, space);
    }

    constructor ()
      ensures Valid() && fresh(Repr) && users == []
    {
      var m := CreateMap<UserRecord>(MAX_CLIENTS, USER_BUCKETS);
      userMap := m;
      users, space := [], {};
      Repr := {this} + m.Repr;
    }

    /** HashMap_Find */
    method FindUser(name: CString) returns (u: Option<UserRecord>, ghost i: nat)
      requires Valid()
      ensures i == IndexOf(users, name) && (u.Some? <==> i < |users|)
      ensures u.Some? ==> userMap.Entries()[i].value == u.value
    {
      i := Find(userMap.Entries(), name, EqualString);
      SameKeys(userMap.Entries(), users, name);
      var _, found := userMap.FindValue(name);
      u := found;
    }

    /** find_user_by_fd: the record of the first user on that fd, if and only if some user is on it. */
    method FindUserByFd(fd: int) returns (u: Option<UserRecord>, ghost i: nat)
      requires Valid()
      ensures u.Some? <==> UserOn(users, fd) < |users|
      ensures u.Some? ==> u.value.socketFd == fd && userMap.Entries()[UserOn(users, fd)].value == u.value
      ensures i == UserOn(users, fd)
    {
      var pairs := userMap.Pairs();
      i := 0;
      for k := 0 to |pairs|
        invariant i == k && forall j :: 0 <= j < k ==> users[j].value.fd != fd
      {
        assert UserHeld(pairs[k], users[k], space);
        if pairs[k].value.socketFd == fd {
          UserOnIs(users, fd, k);
          return Some(pairs[k].value), k;
        }
        i := k + 1;
      }
      UserOnIs(users, fd, |pairs|);
      u := None;
    }

    /** The fields of a record, for whoever holds its place. */
    lemma {:induction false} RecordIs(u: UserRecord, i: nat)
      requires Valid() && i < |users| && userMap.Entries()[i].value == u
      ensures users[i].value == User(u.password, u.loggedIn, u.socketFd) && u in Repr
    {
      assert UserHeld(userMap.Entries()[i], users[i], space);
    }

    /** Writing the session fields of a record. */
    method SetSession(u: UserRecord, loggedIn: bool, fd: int, ghost i: nat)
      requires Valid() && i < |users| && userMap.Entries()[i].value == u
      modifies Repr
      ensures Valid() && Repr == old(Repr)
      ensures users == old(users)[i := old(users)[i].(value := old(users)[i].value.(loggedIn := loggedIn, fd := fd))]
    {
      ghost var e := userMap.Entries();
      assert UserHeld(e[i], users[i], space);
      u.loggedIn := loggedIn;
      u.socketFd := fd;
      users := users[i := users[i].(value := users[i].value.(loggedIn := loggedIn, fd := fd))];
      forall j | 0 <= j < |users|
        ensures UserHeld(e[j], users[j], space)
      {
        assert old(UserHeld(e[j], users[j], space));
      }
    }

    /** HashMap_Insert of a new record whose name is not in the map. */
    method InsertUser(u: UserRecord, mem: bool) returns (ok: bool, ghost more: set<object>)
      requires Valid() && u !in Repr && !u.loggedIn && u.socketFd == -1 && !Has(users, u.username)
      modifies Repr
      ensures Valid() && fresh(more) && Repr == old(Repr) + (more + {u}) && ok == mem
      ensures users == if mem then WithUser(old(users), u.username, u.password) else old(users)
    {
      ghost var us, sp, all, before := users, space, Repr, userMap.Repr;
      ok := InsertRecord(userMap, u, mem, us, sp);
      more := userMap.Repr - before;
      StillApart(this, before, sp, all, userMap.Repr, {u});
      if ok {
        Adopt(WithUser(us, u.username, u.password), sp + {u}, all + (more + {u}));
      } else {
        Adopt(us, sp + {u}, all + (more + {u}));
      }
    }
  }
}
