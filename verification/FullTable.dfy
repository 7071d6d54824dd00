/** The connection that is turned away: it reads the refusal as the answer to its first request. */
module FullTable {
  import opened Strings
  import opened Assoc
  import opened Protocol
  import opened Framing
  import opened ServerSpec
  import opened ServerSafety
  import opened ServerRuns
  import opened Counterexamples
  import opened Conversations
  import opened ClientSpec
  import opened ClientSessions

  /** The slots after the first `n` connections. */
  ghost function Filled(n: nat): seq<int>
    requires n <= MAX_CLIENTS
  {
    seq(MAX_CLIENTS, j => if j < n then j else -1)
  }

  lemma {:induction false} Fills(n: nat) returns (run: seq<Event>, s: Server)
    requires n <= MAX_CLIENTS
    ensures Ran(run, s) && s == Create().(slots := Filled(n)) && |run| == n
    ensures forall e :: e in run ==> e.Accept? && e.fd < n
  {
    if n == 0 {
      run, s := [], Create();
      assert Filled(0) == Create().slots;
    } else {
      var before, t := Fills(n - 1);
      FreeSlotIs(t.slots, n - 1);
      run := Goes(before, t, Accept(n - 1));
      s := Step(t, Accept(n - 1));
      assert Filled(n - 1)[n - 1 := n - 1] == Filled(n);
    }
  }

  /** A run of nothing but accepts, one more than there are slots: the last connection is sent one reply without having
      made a request. */
  lemma {:induction false} OneTooMany() returns (run: seq<Event>)
    ensures ValidRun(Create(), run) && Accept(MAX_CLIENTS) in run && TurnedAway(Create(), run, MAX_CLIENTS) == 1
    ensures RequestsOn(Create(), run, MAX_CLIENTS) == []
    ensures SentTo(RunReplies(Create(), run), MAX_CLIENTS) == [ErrorMsg(ERR_SERVER_FULL)]
  {
    var before, s := Fills(MAX_CLIENTS);
    NoSlotLeft(s.slots);
    RefusedAfter(Create(), before, MAX_CLIENTS);
    run := before + [Accept(MAX_CLIENTS)];
  }

  lemma {:induction false} RefusedAfter(s: Server, run: seq<Event>, fd: int)
    requires ValidRun(s, run) && forall e :: e in run ==> e.Accept? && e.fd < fd
    requires var t := AfterRun(s, run); Enabled(t, Accept(fd)) && FreeSlot(t.slots) == |t.slots|
    ensures ValidRun(s, run + [Accept(fd)]) && TurnedAway(s, run + [Accept(fd)], fd) == 1 && RequestsOn(s, run + [Accept(fd)], fd) == []
    ensures SentTo(RunReplies(s, run + [Accept(fd)]), fd) == [ErrorMsg(ERR_SERVER_FULL)]
  {
    QuietUpTo(s, run, fd);
    AwaySnoc(s, run, Accept(fd), fd);
    SentSnoc(s, run, Accept(fd), fd);
    SentToSingle(fd, ErrorMsg(ERR_SERVER_FULL), fd);
  }

  lemma {:induction false} NoSlotLeft(slots: seq<int>)
    requires forall j :: 0 <= j < |slots| ==> slots[j] >= 0
    ensures FreeSlot(slots) == |slots|
  {
  }

  lemma {:induction false} QuietUpTo(s: Server, run: seq<Event>, fd: int)
    requires ValidRun(s, run) && forall e :: e in run ==> e.Accept? && e.fd < fd
    ensures TurnedAway(s, run, fd) == 0 && RequestsOn(s, run, fd) == [] && SentTo(RunReplies(s, run), fd) == []
    decreases |run|
  {
    RepliesAnswer(s, run, fd);
    if run != [] {
      assert run[0] in run;
      QuietUpTo(Step(s, run[0]), run[1..], fd);
    }
  }

  lemma {:induction false} AwayCons(s: Server, e: Event, run: seq<Event>, fd: int)
    requires Enabled(s, e) && ValidRun(Step(s, e), run)
    ensures ValidRun(s, [e] + run)
    ensures TurnedAway(s, [e] + run, fd) == (if TurnsAway(s, e, fd) then 1 else 0) + TurnedAway(Step(s, e), run, fd)
    ensures RequestsOn(s, [e] + run, fd) == RequestOf(s, e, fd) + RequestsOn(Step(s, e), run, fd)
  {
    assert ([e] + run)[0] == e && ([e] + run)[1..] == run;
  }

  lemma {:induction false} AwaySnoc(s: Server, run: seq<Event>, e: Event, fd: int)
    requires ValidRun(s, run) && Enabled(AfterRun(s, run), e)
    ensures ValidRun(s, run + [e])
    ensures TurnedAway(s, run + [e], fd) == TurnedAway(s, run, fd) + if TurnsAway(AfterRun(s, run), e, fd) then 1 else 0
    ensures RequestsOn(s, run + [e], fd) == RequestsOn(s, run, fd) + RequestOf(AfterRun(s, run), e, fd)
    decreases |run|
  {
    if run == [] {
      assert run + [e] == [e] + [];
      AwayCons(s, e, [], fd);
    } else {
      var t := Step(s, run[0]);
      AwaySnoc(t, run[1..], e, fd);
      AwayCons(s, run[0], run[1..] + [e], fd);
      ConcatCons(run, [e]);
      Regroup(RequestOf(s, run[0], fd), RequestsOn(t, run[1..], fd), RequestOf(AfterRun(s, run), e, fd));
    }
  }

  /** What such a client makes of it: whatever it asks first, the refusal is in its stream already and counts as the answer. */
  lemma {:induction false} ReadAsAnswer(c: Client, cmd: Command, request: Msg, outbox: seq<byte>)
    requires Ask(c, cmd) == Some(request)
    ensures var refusal := ErrorMsg(ERR_SERVER_FULL);
            Spoken(Moment(c, Wire(refusal), outbox), cmd, Some(refusal),
                   Moment(Receive(c, cmd, refusal), [], outbox + Wire(request)), true)
  {
    WireRoundTripIff(ErrorMsg(ERR_SERVER_FULL));
  }
}
