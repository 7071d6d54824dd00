/** Whole runs of the server loop: what holds in every reachable state. */
module ServerRuns {
  import opened Strings
  import opened Assoc
  import opened ServerSpec
  import opened ServerInvariants
  import opened Withdrawal
  import opened ServerSafety

  ghost predicate ValidRun(s: Server, run: seq<Event>)
    decreases |run|
  {
    run == [] || (Enabled(s, run[0]) && ValidRun(Step(s, run[0]), run[1..]))
  }

  ghost function AfterRun(s: Server, run: seq<Event>): Server
    requires ValidRun(s, run)
    decreases |run|
  {
    if run == [] then s else AfterRun(Step(s, run[0]), run[1..])
  }

  lemma {:induction false} RunKeeps(s: Server, run: seq<Event>)
    requires Inv(s) && ValidRun(s, run)
    ensures Inv(AfterRun(s, run))
    decreases |run|
  {
    if run != [] {
      StepKeeps(s, run[0]);
      RunKeeps(Step(s, run[0]), run[1..]);
    }
  }

  ghost predicate Reachable(s: Server) {
    exists run :: ValidRun(Create(), run) && s == AfterRun(Create(), run)
  }

  lemma {:induction false} RunConcat(s: Server, a: seq<Event>, b: seq<Event>)
    requires ValidRun(s, a) && ValidRun(AfterRun(s, a), b)
    ensures ValidRun(s, a + b) && AfterRun(s, a + b) == AfterRun(AfterRun(s, a), b)
    decreases |a|
  {
    if a == [] {
      assert a + b == b;
    } else {
      RunConcat(Step(s, a[0]), a[1..], b);
      RunCons(s, a[0], a[1..] + b);
      ConcatCons(a, b);
    }
  }

  lemma {:induction false} RunCons(s: Server, e: Event, run: seq<Event>)
    requires Enabled(s, e) && ValidRun(Step(s, e), run)
    ensures ValidRun(s, [e] + run) && AfterRun(s, [e] + run) == AfterRun(Step(s, e), run)
  {
    assert ([e] + run)[0] == e && ([e] + run)[1..] == run;
  }

  lemma {:induction false} ReachableOn(s: Server, run: seq<Event>)
    requires Reachable(s) && ValidRun(s, run)
    ensures Reachable(AfterRun(s, run))
  {
    var before :| ValidRun(Create(), before) && s == AfterRun(Create(), before);
    RunConcat(Create(), before, run);
  }

  lemma {:induction false} ReachableInv(s: Server)
    requires Reachable(s)
    ensures Inv(s)
  {
    var run :| ValidRun(Create(), run) && s == AfterRun(Create(), run);
    CreateInv();
    RunKeeps(Create(), run);
  }

  /** Whatever clients send, and in whatever order: the pool and the groups share out the sixteen addresses
      between them, no group is empty or over-full, counts are right, and nobody is in a group twice. */
  lemma {:induction false} ReachableGroups(s: Server)
    requires Reachable(s)
    ensures |s.pool| + |s.groups| == MULTICAST_POOL_SIZE
    ensures Distinct(s.pool) && Distinct(Addresses(s.groups))
    ensures forall a :: a in Preloaded() <==> a in s.pool || a in Addresses(s.groups)
    ensures forall a :: a in s.pool ==> a !in Addresses(s.groups)
    ensures forall p :: p in s.groups ==> LiveGroup(p.value)
  {
    ReachableInv(s);
    ConservedMeans(s.pool, s.groups);
  }

  /** Every member is connected and logged in, marks and fds of sessions go together, and no fd has two slots. */
  lemma {:induction false} ReachableSessions(s: Server)
    requires Reachable(s)
    ensures forall p, m :: p in s.groups && m in p.value.members ==> m in s.slots && LoggedInOn(s, m)
    ensures forall p :: p in s.users ==> (p.value.loggedIn <==> p.value.fd != -1)
    ensures forall i, j :: 0 <= i < j < |s.slots| && s.slots[i] >= 0 ==> s.slots[i] != s.slots[j]
  {
    ReachableInv(s);
    forall p, m | p in s.groups && m in p.value.members
      ensures m in s.slots && LoggedInOn(s, m)
    {
      KnownIsLoggedIn(s, p, m);
    }
  }

  lemma {:induction false} KnownIsLoggedIn(s: Server, p: Pair<CString, Group>, m: int)
    requires MembersKnown(s) && SessionsMarked(s.users) && p in s.groups && m in p.value.members
    ensures m in s.slots && LoggedInOn(s, m)
  {
    assert Known(s.users, s.slots, m);
    var u := s.users[UserOn(s.users, m)];
    assert u in s.users;
  }

  // ---- the end of a connection ----

  /** When a connection ends, no session is left on its fd exactly if there was at most one: the first one
      found is all that a cleanup ends. */
  lemma {:induction false} HangUpEndsSessionsIff(s: Server, i: nat)
    requires Inv(s) && Enabled(s, HangUp(i))
    ensures UsersOn(Step(s, HangUp(i)).users, s.slots[i]) == {} <==> |UsersOn(s.users, s.slots[i])| <= 1
    ensures Memberships(Step(s, HangUp(i)).groups, s.slots[i]) == {}
  {
    CleanupKeeps(s, s.slots[i]);
  }
}
