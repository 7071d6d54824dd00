/** What a login is answered follows from the history of requests and replies alone. */
module LoginHistory {
  import opened Strings
  import opened Assoc
  import opened Protocol
  import opened ServerSpec
  import opened ServerInvariants
  import opened Withdrawal
  import opened ServerSafety
  import opened ServerRuns

  /** What can be seen from outside: a request with its reply, or the end of a connection. */
  datatype Entry = Exchange(fd: int, msg: Msg, reply: Msg) | Closed(fd: int)

  function Entries(s: Server, e: Event): seq<Entry>
    requires Enabled(s, e)
  {
    match e
    case Accept(fd) => []
    case Request(i, msg, mem) => [Exchange(s.slots[i], msg, Dispatch(s, s.slots[i], msg, mem).reply)]
    case HangUp(i) => [Closed(s.slots[i])]
  }

  // ---- what the history says ----

  predicate Registers(x: Entry, name: CString) {
    && x.Exchange? && x.msg.tag == MSG_REGISTER && x.reply.tag == MSG_SUCCESS
    && ParseAuth(x.msg).Some? && ParseAuth(x.msg).value.user == name
  }

  predicate LogsIn(x: Entry, name: CString) {
    && x.Exchange? && x.msg.tag == MSG_LOGIN && x.reply.tag == MSG_SUCCESS
    && ParseAuth(x.msg).Some? && ParseAuth(x.msg).value.user == name
  }

  predicate EndsSessionsOn(x: Entry, fd: int) {
    x.fd == fd && (x.Closed? || x.msg.tag == MSG_LOGOUT || x.msg.tag == MSG_EXIT)
  }

  /** The password of the first successful registration of the name. */
  function PasswordOf(log: seq<Entry>, name: CString): Option<CString>
    decreases |log|
  {
    if log == [] then None else
    var before, last := PasswordOf(log[..|log| - 1], name), log[|log| - 1];
    if before.None? && Registers(last, name) then Some(ParseAuth(last.msg).value.pass) else before
  }

  /** The fd on which the name has a session open, -1 if it has none: the one of its last login, unless the
      connection was logged out or closed since. */
  function SessionOf(log: seq<Entry>, name: CString): int
    decreases |log|
  {
    if log == [] then -1 else
    var before, last := SessionOf(log[..|log| - 1], name), log[|log| - 1];
    if LogsIn(last, name) then last.fd
    else if before != -1 && EndsSessionsOn(last, before) then -1
    else before
  }

  lemma {:induction false} Snoc(log: seq<Entry>, x: Entry, name: CString)
    ensures PasswordOf(log + [x], name) == (var p := PasswordOf(log, name);
            if p.None? && Registers(x, name) then Some(ParseAuth(x.msg).value.pass) else p)
    ensures SessionOf(log + [x], name) == (var f := SessionOf(log, name);
            if LogsIn(x, name) then x.fd else if f != -1 && EndsSessionsOn(x, f) then -1 else f)
  {
    assert (log + [x])[..|log + [x]| - 1] == log;
  }

  // ---- what the server stores ----

  function Record(users: Users, name: CString): Option<User> {
    var i := IndexOf(users, name);
    if i < |users| then Some(users[i].value) else None
  }

  /** The server knows of each name what the history says. */
  ghost predicate Remembers(users: Users, log: seq<Entry>) {
    && UniqueNames(users) && SessionsMarked(users)
    && forall name :: RecordIs(users, name, PasswordOf(log, name), SessionOf(log, name))
  }

  ghost predicate RecordIs(users: Users, name: CString, password: Option<CString>, fd: int) {
    match Record(users, name)
    case None => password == None && fd == -1
    case Some(u) => password == Some(u.password) && fd == u.fd
  }

  /** By the history, no two names have their session on `fd`. */
  ghost predicate AtMostOneOn(log: seq<Entry>, fd: int) {
    forall a, b :: SessionOf(log, a) == fd && SessionOf(log, b) == fd ==> a == b
  }

  /** A logout, an exit or a hang-up comes on a connection with at most one session. */
  ghost predicate EndsOne(s: Server, log: seq<Entry>, e: Event)
    requires Enabled(s, e)
  {
    match e
    case Accept(_) => true
    case Request(i, msg, _) => msg.tag == MSG_LOGOUT || msg.tag == MSG_EXIT ==> AtMostOneOn(log, s.slots[i])
    case HangUp(i) => AtMostOneOn(log, s.slots[i])
  }

  // ---- records after each kind of change ----

  lemma {:induction false} RecordUpdated(users: Users, i: nat, u: User, name: CString)
    requires UniqueNames(users) && i < |users|
    ensures Record(users[i := users[i].(value := u)], name) == if name == users[i].key then Some(u) else Record(users, name)
  {
    var t := users[i := users[i].(value := u)];
    assert forall k :: 0 <= k < |users| ==> t[k].key == users[k].key;
    var j, k := IndexOf(t, name), IndexOf(users, name);
    assert j == k;
    if name == users[i].key {
      IndexIs(users, i);
    }
  }

  lemma {:induction false} RecordInserted(users: Users, name: CString, u: User, q: CString)
    requires UniqueNames(users) && !Has(users, name)
    ensures Record(Insert(users, name, u, Djb2, USER_BUCKETS), q) == if q == name then Some(u) else Record(users, q)
  {
    var p := Position(users, Djb2(name) % USER_BUCKETS, Djb2, USER_BUCKETS);
    assert users[..p] + users[p..] == users;
    LookupAcross(users[..p], Pair(name, u), users[p..], q, EqualString);
  }

  // ---- one event ----

  /** An entry that neither registers, nor logs in, nor ends anything leaves the history's answers alone. */
  lemma {:induction false} NothingHappens(users: Users, log: seq<Entry>, x: Entry)
    requires Remembers(users, log)
    requires forall name :: !Registers(x, name) && !LogsIn(x, name)
    requires forall fd :: fd != -1 ==> !EndsSessionsOn(x, fd)
    ensures Remembers(users, log + [x])
  {
    forall name
      ensures PasswordOf(log + [x], name) == PasswordOf(log, name) && SessionOf(log + [x], name) == SessionOf(log, name)
    {
      Snoc(log, x, name);
    }
  }

  lemma {:induction false} Registered(users: Users, log: seq<Entry>, x: Entry, a: Auth)
    requires Remembers(users, log) && !Has(users, a.user)
    requires x.Exchange? && x.msg.tag == MSG_REGISTER && x.reply.tag == MSG_SUCCESS && ParseAuth(x.msg) == Some(a)
    ensures Remembers(Insert(users, a.user, User(a.pass, false, -1), Djb2, USER_BUCKETS), log + [x])
  {
    var u := User(a.pass, false, -1);
    var t := Insert(users, a.user, u, Djb2, USER_BUCKETS);
    InsertFacts(users, a.user, u, USER_BUCKETS);
    assert RecordIs(users, a.user, PasswordOf(log, a.user), SessionOf(log, a.user));
    forall name
      ensures RecordIs(t, name, PasswordOf(log + [x], name), SessionOf(log + [x], name))
    {
      assert RecordIs(users, name, PasswordOf(log, name), SessionOf(log, name));
      RecordInserted(users, a.user, u, name);
      Snoc(log, x, name);
    }
  }

  lemma {:induction false} LoggedIn(users: Users, log: seq<Entry>, x: Entry, a: Auth, i: nat)
    requires Remembers(users, log) && x.fd >= 0
    requires i < |users| && users[i].key == a.user
    requires x.Exchange? && x.msg.tag == MSG_LOGIN && x.reply.tag == MSG_SUCCESS && ParseAuth(x.msg) == Some(a)
    ensures var u := users[i].value.(loggedIn := true, fd := x.fd);
            Remembers(users[i := users[i].(value := u)], log + [x])
  {
    var u := users[i].value.(loggedIn := true, fd := x.fd);
    var t := users[i := users[i].(value := u)];
    UserUpdate(users, i, u, 0);
    MarkedUpdate(users, i, u);
    IndexIs(users, i);
    forall name
      ensures RecordIs(t, name, PasswordOf(log + [x], name), SessionOf(log + [x], name))
    {
      assert RecordIs(users, name, PasswordOf(log, name), SessionOf(log, name));
      RecordUpdated(users, i, u, name);
      Snoc(log, x, name);
    }
  }

  /** What the end of the connection means for the history. */
  lemma {:induction false} EndInHistory(log: seq<Entry>, x: Entry, name: CString)
    requires x.fd >= 0 && EndsSessionsOn(x, x.fd)
    ensures SessionOf(log + [x], name) == if SessionOf(log, name) == x.fd then -1 else SessionOf(log, name)
    ensures PasswordOf(log + [x], name) == PasswordOf(log, name)
  {
    Snoc(log, x, name);
  }

  lemma {:induction false} SessionEnded(s: Server, log: seq<Entry>, x: Entry)
    requires Remembers(s.users, log) && AtMostOneOn(log, x.fd) && x.fd >= 0 && EndsSessionsOn(x, x.fd)
    ensures Remembers(EndSession(s, x.fd).users, log + [x])
  {
    var t := EndSession(s, x.fd).users;
    EndSessionFacts(s, x.fd, x.fd);
    forall name
      ensures RecordIs(t, name, PasswordOf(log + [x], name), SessionOf(log + [x], name))
    {
      EndInHistory(log, x, name);
      EndedRecord(s, log, x.fd, name);
    }
  }

  /** Ending the session found first ends exactly the session of the name that has this fd. */
  lemma {:induction false} EndedRecord(s: Server, log: seq<Entry>, fd: int, name: CString)
    requires Remembers(s.users, log) && AtMostOneOn(log, fd) && fd >= 0
    ensures RecordIs(EndSession(s, fd).users, name, PasswordOf(log, name),
                     if SessionOf(log, name) == fd then -1 else SessionOf(log, name))
  {
    var users, i := s.users, UserOn(s.users, fd);
    assert RecordIs(users, name, PasswordOf(log, name), SessionOf(log, name));
    if i < |users| {
      var n := users[i].key;
      IndexIs(users, i);
      assert RecordIs(users, n, PasswordOf(log, n), SessionOf(log, n));
      RecordUpdated(users, i, users[i].value.(loggedIn := false, fd := -1), name);
      assert SessionOf(log, n) == fd;
    }
  }

  /** Its record says that the name is logged in, and the history that it is not. */
  ghost predicate LeftOver(users: Users, log: seq<Entry>, name: CString) {
    && SessionOf(log, name) == -1
    && match Record(users, name) case None => false case Some(u) => u.loggedIn && PasswordOf(log, name) == Some(u.password)
  }

  /** Of two sessions on the connection the one that is not found first is left over. */
  lemma {:induction false} SessionLeft(s: Server, log: seq<Entry>, x: Entry) returns (name: CString)
    requires Remembers(s.users, log) && !AtMostOneOn(log, x.fd) && x.fd >= 0 && EndsSessionsOn(x, x.fd)
    ensures LeftOver(EndSession(s, x.fd).users, log + [x], name)
  {
    var a: CString, b: CString :| SessionOf(log, a) == x.fd && SessionOf(log, b) == x.fd && a != b;
    var i := UserOn(s.users, x.fd);
    name := if i < |s.users| && s.users[i].key == a then b else a;
    EndInHistory(log, x, name);
    NotEnded(s, log, x.fd, name);
  }

  lemma {:induction false} NotEnded(s: Server, log: seq<Entry>, fd: int, name: CString)
    requires Remembers(s.users, log) && SessionOf(log, name) == fd >= 0
    requires var i := UserOn(s.users, fd); i < |s.users| ==> s.users[i].key != name
    ensures match Record(EndSession(s, fd).users, name)
            case None => false
            case Some(u) => u.loggedIn && PasswordOf(log, name) == Some(u.password)
  {
    var users, i := s.users, UserOn(s.users, fd);
    assert RecordIs(users, name, PasswordOf(log, name), SessionOf(log, name));
    assert users[IndexOf(users, name)] in users;
    if i < |users| {
      RecordUpdated(users, i, users[i].value.(loggedIn := false, fd := -1), name);
    }
  }

  lemma {:induction false} UsersUntouched(s: Server, fd: int, msg: Msg, mem: Mem)
    requires msg.tag !in {MSG_REGISTER, MSG_LOGIN, MSG_LOGOUT, MSG_EXIT} && Inv(s) && fd >= 0 && fd in s.slots
    ensures Dispatch(s, fd, msg, mem).server.users == s.users
  {
    if msg.tag == MSG_CREATE_GROUP {
      CreateKeeps(s, fd, msg, mem);
    } else if msg.tag == MSG_JOIN_GROUP {
      JoinKeeps(s, fd, msg);
    } else if msg.tag == MSG_LEAVE_GROUP {
      LeaveGroupKeeps(s, fd, msg);
    }
  }

  lemma {:induction false} CleanupUsers(s: Server, fd: int)
    requires Inv(s)
    ensures Cleanup(s, fd).users == EndSession(s, fd).users
  {
    ConservedMeans(s.pool, s.groups);
    CleanupIsWithdrawal(s, fd);
  }

  lemma {:induction false} RegisterRemembered(s: Server, log: seq<Entry>, fd: int, msg: Msg, mem: Mem)
    requires Remembers(s.users, log) && msg.tag == MSG_REGISTER
    ensures var x := Exchange(fd, msg, Register(s, msg, mem).reply);
            Remembers(Register(s, msg, mem).server.users, log + [x])
  {
    var o := Register(s, msg, mem);
    var x := Exchange(fd, msg, o.reply);
    if o.reply.tag == MSG_SUCCESS {
      Registered(s.users, log, x, ParseAuth(msg).value);
    } else {
      NothingHappens(s.users, log, x);
    }
  }

  lemma {:induction false} LoginRemembered(s: Server, log: seq<Entry>, fd: int, msg: Msg)
    requires Remembers(s.users, log) && msg.tag == MSG_LOGIN && fd >= 0
    ensures var x := Exchange(fd, msg, Login(s, fd, msg).reply);
            Remembers(Login(s, fd, msg).server.users, log + [x])
  {
    var o := Login(s, fd, msg);
    var x := Exchange(fd, msg, o.reply);
    if o.reply.tag == MSG_SUCCESS {
      LoggedIn(s.users, log, x, ParseAuth(msg).value, IndexOf(s.users, ParseAuth(msg).value.user));
    } else {
      NothingHappens(s.users, log, x);
    }
  }

  /** The entry of an event that ends a connection or its session; the record side is the end of one session. */
  lemma {:induction false} EndingStep(s: Server, e: Event) returns (x: Entry)
    requires Inv(s) && Enabled(s, e) && (e.HangUp? || (e.Request? && (e.msg.tag == MSG_LOGOUT || e.msg.tag == MSG_EXIT)))
    ensures Entries(s, e) == [x] && x.fd == s.slots[e.slot] >= 0 && EndsSessionsOn(x, x.fd)
    ensures Step(s, e).users == EndSession(s, x.fd).users
  {
    x := if e.HangUp? then Closed(s.slots[e.slot]) else Exchange(s.slots[e.slot], e.msg, SuccessMsg());
    CleanupUsers(s, s.slots[e.slot]);
  }

  /** Every event but an ambiguous end keeps the server's records in step with the history. */
  lemma {:induction false} StepRemembers(s: Server, log: seq<Entry>, e: Event)
    requires Inv(s) && Enabled(s, e) && Remembers(s.users, log) && EndsOne(s, log, e)
    ensures Remembers(Step(s, e).users, log + Entries(s, e))
  {
    if e.Accept? {
      assert log + [] == log;
    } else if e.HangUp? || e.msg.tag == MSG_LOGOUT || e.msg.tag == MSG_EXIT {
      var x := EndingStep(s, e);
      SessionEnded(s, log, x);
    } else {
      RequestRemembers(s, log, e.slot, e.msg, e.mem);
    }
  }

  lemma {:induction false} RequestRemembers(s: Server, log: seq<Entry>, i: nat, msg: Msg, mem: Mem)
    requires Inv(s) && Enabled(s, Request(i, msg, mem)) && Remembers(s.users, log)
    requires msg.tag != MSG_LOGOUT && msg.tag != MSG_EXIT
    ensures Remembers(Step(s, Request(i, msg, mem)).users, log + Entries(s, Request(i, msg, mem)))
  {
    var fd := s.slots[i];
    OnlyExitCloses(s, fd, msg, mem);
    if msg.tag == MSG_REGISTER {
      RegisterRemembered(s, log, fd, msg, mem);
    } else if msg.tag == MSG_LOGIN {
      LoginRemembered(s, log, fd, msg);
    } else {
      UsersUntouched(s, fd, msg, mem);
      NothingHappens(s.users, log, Exchange(fd, msg, Dispatch(s, fd, msg, mem).reply));
    }
  }

  /** After an ambiguous end somebody is left over. */
  lemma {:induction false} StepLeaves(s: Server, log: seq<Entry>, e: Event) returns (name: CString)
    requires Inv(s) && Enabled(s, e) && Remembers(s.users, log) && !EndsOne(s, log, e)
    ensures LeftOver(Step(s, e).users, log + Entries(s, e), name)
  {
    var x := EndingStep(s, e);
    name := SessionLeft(s, log, x);
  }

  // ---- what a login is answered ----

  /** What the history says a login should be answered: whether the name was registered with this password and has no
      session open, and otherwise what is wrong. */
  function HistoryAnswer(log: seq<Entry>, a: Auth): Msg {
    if PasswordOf(log, a.user).None? then ErrorMsg(ERR_USER_NOT_FOUND)
    else if PasswordOf(log, a.user) != Some(a.pass) then ErrorMsg(ERR_WRONG_PASSWORD)
    else if SessionOf(log, a.user) != -1 then ErrorMsg(ERR_ALREADY_LOGGED_IN)
    else SuccessMsg()
  }

  ghost predicate AnswersByHistory(s: Server, log: seq<Entry>) {
    forall fd, msg :: ParseAuth(msg).Some? ==> Login(s, fd, msg).reply == HistoryAnswer(log, ParseAuth(msg).value)
  }

  lemma {:induction false} LoginAnswer(s: Server, log: seq<Entry>, fd: int, msg: Msg)
    requires Remembers(s.users, log) && ParseAuth(msg).Some?
    ensures Login(s, fd, msg).reply == HistoryAnswer(log, ParseAuth(msg).value)
  {
    var a := ParseAuth(msg).value;
    assert RecordIs(s.users, a.user, PasswordOf(log, a.user), SessionOf(log, a.user));
    var i := IndexOf(s.users, a.user);
    assert i < |s.users| ==> s.users[i] in s.users;
  }

  lemma {:induction false} RememberingAnswers(s: Server, log: seq<Entry>)
    requires Remembers(s.users, log)
    ensures AnswersByHistory(s, log)
  {
    forall fd, msg | ParseAuth(msg).Some?
      ensures Login(s, fd, msg).reply == HistoryAnswer(log, ParseAuth(msg).value)
    {
      LoginAnswer(s, log, fd, msg);
    }
  }

  /** The message that registered a name would do for a login too. */
  lemma {:induction false} Credentials(log: seq<Entry>, name: CString) returns (msg: Msg)
    requires PasswordOf(log, name).Some?
    ensures msg.tag == MSG_LOGIN && ParseAuth(msg) == Some(Auth(name, PasswordOf(log, name).value))
    decreases |log|
  {
    var front, last := log[..|log| - 1], log[|log| - 1];
    if PasswordOf(front, name).Some? {
      msg := Credentials(front, name);
    } else {
      msg := last.msg.(tag := MSG_LOGIN);
    }
  }

  /** A name that is left over cannot log in, though by the history it could. */
  lemma {:induction false} LeftOverIsRefused(s: Server, log: seq<Entry>, fd: int, name: CString) returns (msg: Msg)
    requires LeftOver(s.users, log, name)
    ensures msg.tag == MSG_LOGIN && ParseAuth(msg) == Some(Auth(name, PasswordOf(log, name).value))
    ensures HistoryAnswer(log, ParseAuth(msg).value) == SuccessMsg() && Login(s, fd, msg).reply == ErrorMsg(ERR_ALREADY_LOGGED_IN)
    ensures !AnswersByHistory(s, log)
  {
    msg := Credentials(log, name);
  }

  // ---- whole runs ----

  /** What can be seen of a run from outside. */
  ghost function RunLog(s: Server, run: seq<Event>): seq<Entry>
    requires ValidRun(s, run)
    decreases |run|
  {
    if run == [] then [] else Entries(s, run[0]) + RunLog(Step(s, run[0]), run[1..])
  }

  /** No event of the run ends a connection on which two sessions are open. */
  ghost predicate EndsOneAtATime(s: Server, log: seq<Entry>, run: seq<Event>)
    requires ValidRun(s, run)
    decreases |run|
  {
    run == [] || (EndsOne(s, log, run[0]) && EndsOneAtATime(Step(s, run[0]), log + Entries(s, run[0]), run[1..]))
  }

  /** From now on, at every point of the run, logins would be answered as the history says. */
  ghost predicate AlwaysByHistory(s: Server, log: seq<Entry>, run: seq<Event>)
    requires ValidRun(s, run)
    decreases |run|
  {
    && AnswersByHistory(s, log)
    && (run == [] || AlwaysByHistory(Step(s, run[0]), log + Entries(s, run[0]), run[1..]))
  }

  /** The head of a run whose records agree with the history. */
  lemma {:induction false} HeadRemembers(s: Server, log: seq<Entry>, run: seq<Event>) returns (t: Server, more: seq<Entry>)
    requires Inv(s) && Remembers(s.users, log) && ValidRun(s, run) && run != []
    ensures Inv(t) && ValidRun(t, run[1..]) && AfterRun(s, run) == AfterRun(t, run[1..]) && RunLog(s, run) == more + RunLog(t, run[1..])
    ensures EndsOneAtATime(s, log, run) <==> EndsOne(s, log, run[0]) && EndsOneAtATime(t, log + more, run[1..])
    ensures AlwaysByHistory(s, log, run) <==> AlwaysByHistory(t, log + more, run[1..])
    ensures if EndsOne(s, log, run[0]) then Remembers(t.users, log + more) else !AnswersByHistory(t, log + more)
  {
    t, more := Step(s, run[0]), Entries(s, run[0]);
    StepKeeps(s, run[0]);
    RememberingAnswers(s, log);
    if EndsOne(s, log, run[0]) {
      StepRemembers(s, log, run[0]);
    } else {
      var name := StepLeaves(s, log, run[0]);
      var _ := LeftOverIsRefused(t, log + more, 0, name);
    }
  }

  lemma {:induction false} RunRemembers(s: Server, log: seq<Entry>, run: seq<Event>)
    requires Inv(s) && Remembers(s.users, log) && ValidRun(s, run) && EndsOneAtATime(s, log, run)
    ensures Inv(AfterRun(s, run)) && Remembers(AfterRun(s, run).users, log + RunLog(s, run))
    decreases |run|
  {
    if run == [] {
      assert log + [] == log;
    } else {
      var t, more := HeadRemembers(s, log, run);
      RunRemembers(t, log + more, run[1..]);
      Regroup(log, more, RunLog(t, run[1..]));
    }
  }

  lemma {:induction false} RunByHistoryIff(s: Server, log: seq<Entry>, run: seq<Event>)
    requires Inv(s) && Remembers(s.users, log) && ValidRun(s, run)
    ensures AlwaysByHistory(s, log, run) <==> EndsOneAtATime(s, log, run)
    decreases |run|
  {
    if run == [] {
      RememberingAnswers(s, log);
    } else {
      var t, more := HeadRemembers(s, log, run);
      if EndsOne(s, log, run[0]) {
        RunByHistoryIff(t, log + more, run[1..]);
      }
    }
  }

  lemma {:induction false} LogCons(s: Server, log: seq<Entry>, e: Event, run: seq<Event>)
    requires Enabled(s, e) && ValidRun(Step(s, e), run)
    ensures ValidRun(s, [e] + run) && RunLog(s, [e] + run) == Entries(s, e) + RunLog(Step(s, e), run)
    ensures EndsOneAtATime(s, log, [e] + run) <==> EndsOne(s, log, e) && EndsOneAtATime(Step(s, e), log + Entries(s, e), run)
  {
    assert ([e] + run)[0] == e && ([e] + run)[1..] == run;
  }

  /** One more event at the end of a run. */
  lemma {:induction false} LogSnoc(s: Server, log: seq<Entry>, run: seq<Event>, e: Event)
    requires ValidRun(s, run) && Enabled(AfterRun(s, run), e)
    ensures ValidRun(s, run + [e]) && AfterRun(s, run + [e]) == Step(AfterRun(s, run), e)
    ensures RunLog(s, run + [e]) == RunLog(s, run) + Entries(AfterRun(s, run), e)
    ensures EndsOneAtATime(s, log, run + [e]) <==>
              EndsOneAtATime(s, log, run) && EndsOne(AfterRun(s, run), log + RunLog(s, run), e)
    decreases |run|
  {
    if run == [] {
      assert run + [e] == [e] + [] && log + [] == log;
      LogCons(s, log, e, []);
      RunCons(s, e, []);
    } else {
      var t, more := Step(s, run[0]), Entries(s, run[0]);
      LogSnoc(t, log + more, run[1..], e);
      LogCons(s, log, run[0], run[1..] + [e]);
      RunCons(s, run[0], run[1..] + [e]);
      ConcatCons(run, [e]);
      Regroup(log, more, RunLog(t, run[1..]));
      Regroup(more, RunLog(t, run[1..]), Entries(AfterRun(s, run), e));
    }
  }

  lemma {:induction false} StartRemembers()
    ensures Inv(Create()) && Remembers(Create().users, [])
  {
    CreateInv();
    assert Create().users == [];
  }

  /** After any run in which no connection ends with two sessions open, a login succeeds exactly when by the history the
      name was registered with this password and has no session open; and otherwise the reply says why. */
  lemma {:induction false} LoginTheorem(run: seq<Event>, fd: int, msg: Msg)
    requires ValidRun(Create(), run) && EndsOneAtATime(Create(), [], run) && ParseAuth(msg).Some?
    ensures Login(AfterRun(Create(), run), fd, msg).reply == HistoryAnswer(RunLog(Create(), run), ParseAuth(msg).value)
  {
    StartRemembers();
    RunRemembers(Create(), [], run);
    assert [] + RunLog(Create(), run) == RunLog(Create(), run);
    LoginAnswer(AfterRun(Create(), run), RunLog(Create(), run), fd, msg);
  }

  /** Over any run, logins would be answered as the history says at every point if and only if no event ends a connection
      on which two sessions are open. */
  lemma {:induction false} LoginTheoremIff(run: seq<Event>)
    requires ValidRun(Create(), run)
    ensures AlwaysByHistory(Create(), [], run) <==> EndsOneAtATime(Create(), [], run)
  {
    StartRemembers();
    RunByHistoryIff(Create(), [], run);
  }
}
