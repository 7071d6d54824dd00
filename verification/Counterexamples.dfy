/** Inputs on which the server does less than it seems to promise: two logins on one connection, and a create that runs
    out of memory. */
module Counterexamples {
  import opened Strings
  import opened Assoc
  import opened Protocol
  import opened ServerSpec
  import opened ServerInvariants
  import opened ServerSafety
  import opened ServerRuns
  import opened LoginHistory
  import opened Recycling

  const ALL := Mem(true, true, true)

  /** A registration and a login that nothing stands in the way of. */
  lemma {:induction false} RegistersFresh(s: Server, i: nat, a: Auth, msg: Msg)
    requires Inv(s) && i < |s.slots| && s.slots[i] >= 0
    requires BuildAuth(MSG_REGISTER, a.user, a.pass) == Some(msg) && ParseAuth(msg) == Some(a) && Record(s.users, a.user) == None
    ensures var e := Request(i, msg, ALL); var t := Step(s, e);
            && Enabled(s, e) && Inv(t) && t == s.(users := t.users)
            && forall q :: Record(t.users, q) == if q == a.user then Some(User(a.pass, false, -1)) else Record(s.users, q)
  {
    StepKeeps(s, Request(i, msg, ALL));
    var t := Step(s, Request(i, msg, ALL));
    forall q
      ensures Record(t.users, q) == if q == a.user then Some(User(a.pass, false, -1)) else Record(s.users, q)
    {
      RecordInserted(s.users, a.user, User(a.pass, false, -1), q);
    }
  }

  lemma {:induction false} LogsInFresh(s: Server, i: nat, a: Auth, msg: Msg)
    requires Inv(s) && i < |s.slots| && s.slots[i] >= 0
    requires BuildAuth(MSG_LOGIN, a.user, a.pass) == Some(msg) && ParseAuth(msg) == Some(a)
    requires Record(s.users, a.user) == Some(User(a.pass, false, -1))
    ensures var e := Request(i, msg, ALL); var t := Step(s, e);
            && Enabled(s, e) && Inv(t) && t == s.(users := t.users)
            && forall q :: Record(t.users, q) == if q == a.user then Some(User(a.pass, true, s.slots[i])) else Record(s.users, q)
  {
    StepKeeps(s, Request(i, msg, ALL));
    var t := Step(s, Request(i, msg, ALL));
    forall q
      ensures Record(t.users, q) == if q == a.user then Some(User(a.pass, true, s.slots[i])) else Record(s.users, q)
    {
      RecordUpdated(s.users, IndexOf(s.users, a.user), User(a.pass, true, s.slots[i]), q);
    }
  }

  /** Where a run from the start has come to, when no connection has ended with two sessions open. */
  ghost predicate Ran(run: seq<Event>, s: Server) {
    ValidRun(Create(), run) && s == AfterRun(Create(), run) && EndsOneAtATime(Create(), [], run)
  }

  lemma {:induction false} Goes(run: seq<Event>, s: Server, e: Event) returns (run': seq<Event>)
    requires Ran(run, s) && Enabled(s, e) && EndsOne(s, RunLog(Create(), run), e)
    ensures run' == run + [e] && Ran(run', Step(s, e))
  {
    run' := run + [e];
    assert [] + RunLog(Create(), run) == RunLog(Create(), run);
    LogSnoc(Create(), [], run, e);
  }

  /** What holds wherever such a run has come to. */
  lemma {:induction false} RanFacts(run: seq<Event>, s: Server)
    requires Ran(run, s)
    ensures Reachable(s) && Inv(s) && Remembers(s.users, RunLog(Create(), run))
  {
    StartRemembers();
    assert [] + RunLog(Create(), run) == RunLog(Create(), run);
    RunRemembers(Create(), [], run);
  }

  lemma {:induction false} AccountMessages(a: Auth)
    requires ValidStr(a.user, MAX_USERNAME_LEN) && ValidStr(a.pass, MAX_PASSWORD_LEN)
    ensures BuildAuth(MSG_REGISTER, a.user, a.pass).Some? && BuildAuth(MSG_LOGIN, a.user, a.pass).Some?
    ensures ParseAuth(BuildAuth(MSG_REGISTER, a.user, a.pass).value) == Some(a)
    ensures ParseAuth(BuildAuth(MSG_LOGIN, a.user, a.pass).value) == Some(a)
  {
    AuthRoundTrip(MSG_REGISTER, a.user, a.pass);
    AuthRoundTrip(MSG_LOGIN, a.user, a.pass);
  }

  /** The account exists, and its session is open on `fd`. */
  ghost predicate OpenOn(s: Server, a: Auth, fd: int) {
    Record(s.users, a.user) == Some(User(a.pass, true, fd))
  }

  /** A new account is registered and logged in on a connection, whoever is logged in on it already. */
  lemma {:induction false} OpensOn(run: seq<Event>, s: Server, i: nat, a: Auth) returns (run': seq<Event>, t: Server)
    requires Ran(run, s) && i < |s.slots| && s.slots[i] >= 0 && Record(s.users, a.user) == None
    requires ValidStr(a.user, MAX_USERNAME_LEN) && ValidStr(a.pass, MAX_PASSWORD_LEN)
    ensures Ran(run', t) && t == s.(users := t.users) && OpenOn(t, a, s.slots[i])
    ensures forall q :: q != a.user ==> Record(t.users, q) == Record(s.users, q)
  {
    AccountMessages(a);
    RanFacts(run, s);
    var reg, login := BuildAuth(MSG_REGISTER, a.user, a.pass).value, BuildAuth(MSG_LOGIN, a.user, a.pass).value;
    RegistersFresh(s, i, a, reg);
    var mid := Goes(run, s, Request(i, reg, ALL));
    var m := Step(s, Request(i, reg, ALL));
    LogsInFresh(m, i, a, login);
    run' := Goes(mid, m, Request(i, login, ALL));
    t := Step(m, Request(i, login, ALL));
  }

  lemma {:induction false} OpenIsOn(s: Server, a: Auth, fd: int)
    requires OpenOn(s, a, fd)
    ensures a.user in UsersOn(s.users, fd)
  {
    var u := s.users[IndexOf(s.users, a.user)];
    assert u in s.users;
  }

  // ---- two logins on one connection ----

  /** Two accounts, both logged in on one and the same connection. */
  lemma {:induction false} TwoOnOne(a: Auth, b: Auth, fd: int) returns (run: seq<Event>, s: Server)
    requires a.user != b.user && fd >= 0
    requires ValidStr(a.user, MAX_USERNAME_LEN) && ValidStr(a.pass, MAX_PASSWORD_LEN)
    requires ValidStr(b.user, MAX_USERNAME_LEN) && ValidStr(b.pass, MAX_PASSWORD_LEN)
    ensures Ran(run, s) && s.slots == Create().slots[0 := fd] && OpenOn(s, a, fd) && OpenOn(s, b, fd)
  {
    var run1, s1 := Opened(fd);
    var run2, s2 := OpensOn(run1, s1, 0, a);
    run, s := OpensOn(run2, s2, 0, b);
  }

  /** A connection to a server that has done nothing else. */
  lemma {:induction false} Opened(fd: int) returns (run: seq<Event>, s: Server)
    requires fd >= 0
    ensures Ran(run, s) && s == Create().(slots := Create().slots[0 := fd])
  {
    assert Ran([], Create());
    run := Goes([], Create(), Accept(fd));
    s := Step(Create(), Accept(fd));
  }

  /** A session can outlive its connection: two users log in on one connection, it ends, and the next connection that
      gets the same fd is logged in before it has sent anything. */
  lemma {:induction false} LeftoverSession(a: Auth, b: Auth, fd: int) returns (s: Server)
    requires a.user != b.user && fd >= 0
    requires ValidStr(a.user, MAX_USERNAME_LEN) && ValidStr(a.pass, MAX_PASSWORD_LEN)
    requires ValidStr(b.user, MAX_USERNAME_LEN) && ValidStr(b.pass, MAX_PASSWORD_LEN)
    ensures Reachable(s) && fd !in s.slots && Enabled(s, Accept(fd)) && LoggedInOn(Step(s, Accept(fd)), fd)
  {
    var run, t := TwoOnOne(a, b, fd);
    s := Ended(run, t, 0, a, b);
  }

  /** By then one of the two cannot log in any more: by the history its session has ended, but its login is refused
      because it has one. */
  lemma {:induction false} RefusedLogin(a: Auth, b: Auth, fd: int) returns (run: seq<Event>, msg: Msg)
    requires a.user != b.user && fd >= 0
    requires ValidStr(a.user, MAX_USERNAME_LEN) && ValidStr(a.pass, MAX_PASSWORD_LEN)
    requires ValidStr(b.user, MAX_USERNAME_LEN) && ValidStr(b.pass, MAX_PASSWORD_LEN)
    ensures ValidRun(Create(), run) && msg.tag == MSG_LOGIN && ParseAuth(msg).Some?
    ensures HistoryAnswer(RunLog(Create(), run), ParseAuth(msg).value) == SuccessMsg()
    ensures forall other :: Login(AfterRun(Create(), run), other, msg).reply == ErrorMsg(ERR_ALREADY_LOGGED_IN)
  {
    var before, t := TwoOnOne(a, b, fd);
    var log := RunLog(Create(), before);
    RanFacts(before, t);
    assert RecordIs(t.users, a.user, PasswordOf(log, a.user), SessionOf(log, a.user));
    assert RecordIs(t.users, b.user, PasswordOf(log, b.user), SessionOf(log, b.user));
    LogSnoc(Create(), [], before, HangUp(0));
    run := before + [HangUp(0)];
    var name := StepLeaves(t, log, HangUp(0));
    msg := LeftOverIsRefused(AfterRun(Create(), run), RunLog(Create(), run), fd, name);
  }

  lemma {:induction false} Ended(run: seq<Event>, t: Server, i: nat, a: Auth, b: Auth) returns (s: Server)
    requires Ran(run, t) && i < |t.slots| && t.slots[i] >= 0 && a.user != b.user
    requires OpenOn(t, a, t.slots[i]) && OpenOn(t, b, t.slots[i])
    ensures var fd := t.slots[i];
            Reachable(s) && s.slots == t.slots[i := -1] && fd !in s.slots && LoggedInOn(s, fd)
  {
    var fd := t.slots[i];
    RanFacts(run, t);
    OpenIsOn(t, a, fd);
    OpenIsOn(t, b, fd);
    TwoAreMore(UsersOn(t.users, fd), a.user, b.user);
    HangUpEndsSessionsIff(t, i);
    LogSnoc(Create(), [], run, HangUp(i));
    s := Step(t, HangUp(i));
    StepKeeps(t, HangUp(i));
    CleanupKeeps(t, fd);
    FirstIsLoggedIn(s, fd);
  }

  lemma {:induction false} FirstIsLoggedIn(s: Server, fd: int)
    requires SessionsMarked(s.users) && UsersOn(s.users, fd) != {} && fd != -1
    ensures LoggedInOn(s, fd)
  {
    UserOnIff(s.users, fd);
    assert s.users[UserOn(s.users, fd)] in s.users;
  }

  lemma {:induction false} TwoAreMore<T>(s: set<T>, a: T, b: T)
    requires a in s && b in s && a != b
    ensures |s| > 1
  {
    assert |s| == |s - {a}| + 1 && b in s - {a};
  }

  // ---- a create without memory ----

  /** The first user's create runs out of memory and is sent again. It is the first one to succeed, but the address it
      gets is the second of the queue. */
  lemma {:induction false} OutOfOrder(a: Auth, name: CString, fd: int) returns (s: Server, fails: Event, succeeds: Event)
    requires fd >= 0 && ValidStr(a.user, MAX_USERNAME_LEN) && ValidStr(a.pass, MAX_PASSWORD_LEN)
    requires ValidStr(name, MAX_GROUP_NAME_LEN)
    ensures Reachable(s) && Enabled(s, fails) && Enabled(Step(s, fails), succeeds)
    ensures Takes(s, fails) == 1 && Takes(Step(s, fails), succeeds) == 1 && Succeeds(succeeds)
    ensures ValidRun(s, [fails]) && FoundsInRun(s, [fails]) == 0 && FreeAt(s, 1, Preloaded()[1])
    ensures HandsOut(Step(s, fails), succeeds, Preloaded()[1], Step(Step(s, fails), succeeds))
  {
    var run0, s0 := Opened(fd);
    var run, t := OpensOn(run0, s0, 0, a);
    s := t;
    RanFacts(run, s);
    var msg := BuildGroup(MSG_CREATE_GROUP, name).value;
    GroupRoundTrip(MSG_CREATE_GROUP, name);
    OpenIsOn(s, a, fd);
    FirstIsLoggedIn(s, fd);
    fails, succeeds := Request(0, msg, Mem(false, false, false)), Request(0, msg, ALL);
    RecycledEarly(s, 0, msg);
  }
}
