/** Registrations, over any run whatever the clients do: a name is registered once and for all, with one password. */
module Registrations {
  import opened Strings
  import opened Assoc
  import opened Protocol
  import opened ServerSpec
  import opened ServerInvariants
  import opened Withdrawal
  import opened ServerSafety
  import opened ServerRuns
  import opened LoginHistory

  // ---- registrations ----

  ghost function PasswordIn(users: Users, name: CString): Option<CString> {
    match Record(users, name)
    case None => None
    case Some(u) => Some(u.password)
  }

  lemma {:induction false} EndSessionPasswords(s: Server, fd: int, name: CString)
    requires UniqueNames(s.users)
    ensures PasswordIn(EndSession(s, fd).users, name) == PasswordIn(s.users, name)
  {
    var i := UserOn(s.users, fd);
    if i < |s.users| {
      RecordUpdated(s.users, i, s.users[i].value.(loggedIn := false, fd := -1), name);
      KeyRecord(s.users, i);
    }
  }

  lemma {:induction false} KeyRecord(users: Users, i: nat)
    requires UniqueNames(users) && i < |users|
    ensures Record(users, users[i].key) == Some(users[i].value)
  {
    IndexIs(users, i);
  }

  lemma {:induction false} CloseGroupsUsers(s: Server, names: seq<CString>)
    ensures CloseGroups(s, names).users == s.users
    decreases |names|
  {
    if names != [] {
      CloseGroupsUsers(CloseGroup(s, names[0]), names[1..]);
    }
  }

  lemma {:induction false} CleanupPasswords(s: Server, fd: int, name: CString)
    requires UniqueNames(s.users)
    ensures PasswordIn(Cleanup(s, fd).users, name) == PasswordIn(s.users, name)
  {
    var swept := s.(groups := Sweep(s.groups, fd));
    CloseGroupsUsers(swept, Emptied(s.groups, fd, MAX_GROUPS));
    EndSessionPasswords(CloseGroups(swept, Emptied(s.groups, fd, MAX_GROUPS)), fd, name);
  }

  /** The password a name has after an entry of the history, when it had `before`. */
  ghost function PasswordAfter(before: Option<CString>, x: Entry, name: CString): Option<CString> {
    if before.None? && Registers(x, name) then Some(ParseAuth(x.msg).value.pass) else before
  }

  lemma {:induction false} RegisterPasswords(s: Server, fd: int, msg: Msg, mem: Mem, name: CString)
    requires UniqueNames(s.users) && msg.tag == MSG_REGISTER
    ensures var o := Register(s, msg, mem);
            PasswordIn(o.server.users, name) == PasswordAfter(PasswordIn(s.users, name), Exchange(fd, msg, o.reply), name)
  {
    if Register(s, msg, mem).reply.tag == MSG_SUCCESS {
      var a := ParseAuth(msg).value;
      RecordInserted(s.users, a.user, User(a.pass, false, -1), name);
    }
  }

  lemma {:induction false} LoginPasswords(s: Server, fd: int, msg: Msg, name: CString)
    requires UniqueNames(s.users)
    ensures PasswordIn(Login(s, fd, msg).server.users, name) == PasswordIn(s.users, name)
  {
    if Login(s, fd, msg).server != s {
      var i := IndexOf(s.users, ParseAuth(msg).value.user);
      RecordUpdated(s.users, i, s.users[i].value.(loggedIn := true, fd := fd), name);
      KeyRecord(s.users, i);
    }
  }

  lemma {:induction false} GroupRequestUsers(s: Server, fd: int, msg: Msg, mem: Mem)
    requires msg.tag !in {MSG_REGISTER, MSG_LOGIN, MSG_LOGOUT, MSG_EXIT}
    ensures Dispatch(s, fd, msg, mem).server.users == s.users
  {
  }

  /** The password a name has after a piece of history. */
  ghost function PasswordsAfter(before: Option<CString>, log: seq<Entry>, name: CString): Option<CString>
    decreases |log|
  {
    if log == [] then before else PasswordsAfter(PasswordAfter(before, log[0], name), log[1..], name)
  }

  lemma {:induction false} PasswordsAfterConcat(before: Option<CString>, a: seq<Entry>, b: seq<Entry>, name: CString)
    ensures PasswordsAfter(before, a + b, name) == PasswordsAfter(PasswordsAfter(before, a, name), b, name)
    decreases |a|
  {
    if a == [] {
      assert a + b == b;
    } else {
      ConcatCons(a, b);
      PasswordsAfterConcat(PasswordAfter(before, a[0], name), a[1..], b, name);
    }
  }

  lemma {:induction false} PasswordsAfterOne(before: Option<CString>, x: Entry, name: CString)
    ensures PasswordsAfter(before, [x], name) == PasswordAfter(before, x, name)
  {
    assert [x][1..] == [];
  }

  /** From the start of history it is the password of the first successful registration. */
  lemma {:induction false} PasswordOfAll(log: seq<Entry>, name: CString)
    ensures PasswordsAfter(None, log, name) == PasswordOf(log, name)
    decreases |log|
  {
    if log != [] {
      var front, last := log[..|log| - 1], log[|log| - 1];
      assert log == front + [last];
      PasswordOfAll(front, name);
      PasswordsAfterConcat(None, front, [last], name);
      PasswordsAfterOne(PasswordOf(front, name), last, name);
    }
  }

  /** A password, once there, stays. */
  lemma {:induction false} PasswordsStay(before: Option<CString>, log: seq<Entry>, name: CString)
    requires before.Some?
    ensures PasswordsAfter(before, log, name) == before
    decreases |log|
  {
    if log != [] {
      PasswordsStay(before, log[1..], name);
    }
  }

  lemma {:induction false} StepPasswords(s: Server, e: Event, name: CString)
    requires Inv(s) && Enabled(s, e)
    ensures PasswordIn(Step(s, e).users, name) == PasswordsAfter(PasswordIn(s.users, name), Entries(s, e), name)
  {
    match e
    case Accept(_) =>
    case HangUp(i) =>
      PasswordsAfterOne(PasswordIn(s.users, name), Closed(s.slots[i]), name);
      CleanupPasswords(s, s.slots[i], name);
    case Request(i, msg, mem) =>
      PasswordsAfterOne(PasswordIn(s.users, name), Exchange(s.slots[i], msg, Dispatch(s, s.slots[i], msg, mem).reply), name);
      if msg.tag == MSG_REGISTER {
        RegisterPasswords(s, s.slots[i], msg, mem, name);
      } else if msg.tag == MSG_LOGIN {
        LoginPasswords(s, s.slots[i], msg, name);
      } else if msg.tag == MSG_LOGOUT || msg.tag == MSG_EXIT {
        CleanupPasswords(s, s.slots[i], name);
      } else {
        GroupRequestUsers(s, s.slots[i], msg, mem);
      }
  }

  // ---- whole runs ----

  lemma {:induction false} HeadOfRun(s: Server, run: seq<Event>, name: CString) returns (t: Server, more: seq<Entry>)
    requires Inv(s) && ValidRun(s, run) && run != []
    ensures Inv(t) && ValidRun(t, run[1..]) && AfterRun(t, run[1..]) == AfterRun(s, run)
    ensures RunLog(s, run) == more + RunLog(t, run[1..])
    ensures PasswordIn(t.users, name) == PasswordsAfter(PasswordIn(s.users, name), more, name)
  {
    t, more := Step(s, run[0]), Entries(s, run[0]);
    StepKeeps(s, run[0]);
    StepPasswords(s, run[0], name);
  }

  lemma {:induction false} RunPasswords(s: Server, run: seq<Event>, name: CString)
    requires Inv(s) && ValidRun(s, run)
    ensures PasswordIn(AfterRun(s, run).users, name) == PasswordsAfter(PasswordIn(s.users, name), RunLog(s, run), name)
    decreases |run|
  {
    if run != [] {
      var t, more := HeadOfRun(s, run, name);
      RunPasswords(t, run[1..], name);
      PasswordsAfterConcat(PasswordIn(s.users, name), more, RunLog(t, run[1..]), name);
    }
  }

  /** Whatever happens, a registered name stays registered and keeps its password. */
  lemma {:induction false} PasswordsPersist(s: Server, run: seq<Event>, name: CString)
    requires Inv(s) && ValidRun(s, run) && Has(s.users, name)
    ensures PasswordIn(AfterRun(s, run).users, name) == PasswordIn(s.users, name) != None
  {
    RunPasswords(s, run, name);
    PasswordsStay(PasswordIn(s.users, name), RunLog(s, run), name);
  }

  /** Whatever the clients do, the server stores of each name exactly the password of its first successful
      registration, and refuses every later one. */
  lemma {:induction false} RegistrationTheorem(run: seq<Event>, msg: Msg, mem: Mem)
    requires ValidRun(Create(), run) && ParseAuth(msg).Some?
    ensures var s, name := AfterRun(Create(), run), ParseAuth(msg).value.user;
            && PasswordIn(s.users, name) == PasswordOf(RunLog(Create(), run), name)
            && (Register(s, msg, mem).reply == ErrorMsg(ERR_USER_EXISTS) <==> PasswordOf(RunLog(Create(), run), name).Some?)
  {
    CreateInv();
    RunPasswords(Create(), run, ParseAuth(msg).value.user);
    PasswordOfAll(RunLog(Create(), run), ParseAuth(msg).value.user);
    assert Create().users == [];
  }
}
