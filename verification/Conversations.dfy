/** What the server sends in the course of a run, and what a single connection sees of it. */
module Conversations {
  import opened Assoc
  import opened Protocol
  import opened Framing
  import opened ServerSpec
  import opened ServerRuns

  /** What an event makes the server send. */
  function Replies(s: Server, e: Event): seq<(int, Msg)>
    requires Enabled(s, e)
  {
    match e
    case Accept(fd) => if FreeSlot(s.slots) < |s.slots| then [] else [(fd, ErrorMsg(ERR_SERVER_FULL))]
    case Request(i, msg, mem) => [(s.slots[i], Dispatch(s, s.slots[i], msg, mem).reply)]
    case HangUp(_) => []
  }

  /** Everything the server sends in a run. */
  ghost function RunReplies(s: Server, run: seq<Event>): seq<(int, Msg)>
    requires ValidRun(s, run)
    decreases |run|
  {
    if run == [] then [] else Replies(s, run[0]) + RunReplies(Step(s, run[0]), run[1..])
  }

  lemma {:induction false} RepliesCons(s: Server, e: Event, run: seq<Event>)
    requires Enabled(s, e) && ValidRun(Step(s, e), run)
    ensures ValidRun(s, [e] + run) && AfterRun(s, [e] + run) == AfterRun(Step(s, e), run)
    ensures RunReplies(s, [e] + run) == Replies(s, e) + RunReplies(Step(s, e), run)
  {
    assert ([e] + run)[0] == e && ([e] + run)[1..] == run;
  }

  lemma {:induction false} RunSnoc(s: Server, run: seq<Event>, e: Event)
    requires ValidRun(s, run) && Enabled(AfterRun(s, run), e)
    ensures ValidRun(s, run + [e])
    ensures AfterRun(s, run + [e]) == Step(AfterRun(s, run), e)
    ensures RunReplies(s, run + [e]) == RunReplies(s, run) + Replies(AfterRun(s, run), e)
    decreases |run|
  {
    if run == [] {
      RepliesCons(s, e, []);
      assert run + [e] == [e] + [];
    } else {
      RunSnoc(Step(s, run[0]), run[1..], e);
      RepliesCons(s, run[0], run[1..] + [e]);
      ConcatCons(run, [e]);
      Regroup(Replies(s, run[0]), RunReplies(Step(s, run[0]), run[1..]), Replies(AfterRun(s, run), e));
    }
  }

  // ---- what one connection sees ----

  /** A request, with the state of the server it was made in. */
  datatype Asked = Asked(server: Server, msg: Msg, mem: Mem)

  ghost function RequestOf(s: Server, e: Event, fd: int): seq<Asked>
    requires Enabled(s, e)
  {
    if e.Request? && s.slots[e.slot] == fd then [Asked(s, e.msg, e.mem)] else []
  }

  /** The requests made on a connection in the course of a run. */
  ghost function RequestsOn(s: Server, run: seq<Event>, fd: int): seq<Asked>
    requires ValidRun(s, run)
    decreases |run|
  {
    if run == [] then [] else RequestOf(s, run[0], fd) + RequestsOn(Step(s, run[0]), run[1..], fd)
  }

  function SentTo(sent: seq<(int, Msg)>, fd: int): seq<Msg> {
    if sent == [] then [] else (if sent[0].0 == fd then [sent[0].1] else []) + SentTo(sent[1..], fd)
  }

  lemma {:induction false} SentToConcat(a: seq<(int, Msg)>, b: seq<(int, Msg)>, fd: int)
    ensures SentTo(a + b, fd) == SentTo(a, fd) + SentTo(b, fd)
  {
    if a == [] {
      assert a + b == b;
    } else {
      ConcatCons(a, b);
      SentToConcat(a[1..], b, fd);
      Regroup(if a[0].0 == fd then [a[0].1] else [], SentTo(a[1..], fd), SentTo(b, fd));
    }
  }

  /** The connection meets a full table. */
  ghost predicate TurnsAway(s: Server, e: Event, fd: int) {
    e == Accept(fd) && FreeSlot(s.slots) == |s.slots|
  }

  /** How often in the course of a run a connection with this fd is turned away. */
  ghost function TurnedAway(s: Server, run: seq<Event>, fd: int): nat
    requires ValidRun(s, run)
    decreases |run|
  {
    if run == [] then 0 else (if TurnsAway(s, run[0], fd) then 1 else 0) + TurnedAway(Step(s, run[0]), run[1..], fd)
  }

  ghost function Answer(q: Asked, fd: int): Msg {
    Dispatch(q.server, fd, q.msg, q.mem).reply
  }

  /** An fd is sent one reply for each of its requests, and one refusal each time it is turned away. */
  ghost predicate Answering(rs: seq<Msg>, qs: seq<Asked>, away: nat, fd: int) {
    && |rs| == |qs| + away
    && (away == 0 ==> forall k :: 0 <= k < |qs| ==> rs[k] == Answer(qs[k], fd))
  }

  lemma {:induction false} AnsweringConcat(r1: seq<Msg>, q1: seq<Asked>, a1: nat, r2: seq<Msg>, q2: seq<Asked>, a2: nat, fd: int)
    requires Answering(r1, q1, a1, fd) && Answering(r2, q2, a2, fd)
    ensures Answering(r1 + r2, q1 + q2, a1 + a2, fd)
  {
    if a1 + a2 == 0 {
      forall k | 0 <= k < |q1 + q2|
        ensures (r1 + r2)[k] == Answer((q1 + q2)[k], fd)
      {
        if k < |q1| {
          assert (q1 + q2)[k] == q1[k] && r1[k] == Answer(q1[k], fd);
        } else {
          assert (q1 + q2)[k] == q2[k - |q1|] && r2[k - |q1|] == Answer(q2[k - |q1|], fd);
        }
      }
    }
  }

  /** On an fd there are as many replies as requests if and only if no connection with it was turned away, and then the
      k-th reply is the server's answer to the k-th request. */
  lemma {:induction false} RepliesAnswerRequests(s: Server, run: seq<Event>, fd: int)
    requires ValidRun(s, run)
    ensures var rs, qs, away := SentTo(RunReplies(s, run), fd), RequestsOn(s, run, fd), TurnedAway(s, run, fd);
            && |rs| == |qs| + away
            && (away == 0 ==> forall k :: 0 <= k < |qs| ==> rs[k] == Dispatch(qs[k].server, fd, qs[k].msg, qs[k].mem).reply)
  {
    RepliesAnswer(s, run, fd);
  }

  lemma {:induction false} RepliesAnswer(s: Server, run: seq<Event>, fd: int)
    requires ValidRun(s, run)
    ensures Answering(SentTo(RunReplies(s, run), fd), RequestsOn(s, run, fd), TurnedAway(s, run, fd), fd)
    decreases |run|
  {
    if run != [] {
      var e, t := run[0], Step(s, run[0]);
      RepliesAnswer(t, run[1..], fd);
      SentToConcat(Replies(s, e), RunReplies(t, run[1..]), fd);
      OneAnswers(s, e, fd);
      AnsweringConcat(SentTo(Replies(s, e), fd), RequestOf(s, e, fd), if TurnsAway(s, e, fd) then 1 else 0,
                      SentTo(RunReplies(t, run[1..]), fd), RequestsOn(t, run[1..], fd), TurnedAway(t, run[1..], fd), fd);
    }
  }

  lemma {:induction false} OneAnswers(s: Server, e: Event, fd: int)
    requires Enabled(s, e)
    ensures Answering(SentTo(Replies(s, e), fd), RequestOf(s, e, fd), if TurnsAway(s, e, fd) then 1 else 0, fd)
  {
    if e.Request? {
      SentToSingle(s.slots[e.slot], Dispatch(s, s.slots[e.slot], e.msg, e.mem).reply, fd);
    } else if e.Accept? {
      SentToSingle(e.fd, ErrorMsg(ERR_SERVER_FULL), fd);
    }
  }

  lemma {:induction false} SentToSingle(to: int, m: Msg, fd: int)
    ensures SentTo([(to, m)], fd) == if to == fd then [m] else []
  {
    assert [(to, m)][1..] == [];
  }

  // ---- and what it reads ----

  /** Every reply fits into a frame, whatever the request and the state. */
  lemma {:induction false} ReplyFits(s: Server, fd: int, msg: Msg, mem: Mem)
    ensures |Dispatch(s, fd, msg, mem).reply.value| <= 18
  {
    if msg.tag == MSG_CREATE_GROUP {
      CreateReplyFits(s, fd, msg, mem);
    } else if msg.tag == MSG_JOIN_GROUP {
      JoinReplyFits(s, fd, msg);
    }
  }

  lemma {:induction false} CreateReplyFits(s: Server, fd: int, msg: Msg, mem: Mem)
    ensures |CreateGroup(s, fd, msg, mem).reply.value| <= 18
  {
  }

  lemma {:induction false} JoinReplyFits(s: Server, fd: int, msg: Msg)
    ensures |JoinGroup(s, fd, msg).reply.value| <= 18
  {
  }

  lemma {:induction false} RepliesFit(s: Server, run: seq<Event>, fd: int)
    requires ValidRun(s, run)
    ensures AllFit(SentTo(RunReplies(s, run), fd))
    decreases |run|
  {
    if run != [] {
      var e, t := run[0], Step(s, run[0]);
      RepliesFit(t, run[1..], fd);
      SentToConcat(Replies(s, e), RunReplies(t, run[1..]), fd);
      OneFits(s, e, fd);
    }
  }

  lemma {:induction false} OneFits(s: Server, e: Event, fd: int)
    requires Enabled(s, e)
    ensures AllFit(SentTo(Replies(s, e), fd))
  {
    if e.Request? {
      ReplyFits(s, s.slots[e.slot], e.msg, e.mem);
      SentToSingle(s.slots[e.slot], Dispatch(s, s.slots[e.slot], e.msg, e.mem).reply, fd);
    } else if e.Accept? {
      SentToSingle(e.fd, ErrorMsg(ERR_SERVER_FULL), fd);
    }
  }

  /** On the other end of the stream the replies are read one by one as they were sent: the k-th message read is the
      answer to the k-th request, unless a connection with this fd was turned away. */
  lemma {:induction false} StreamAnswersRequests(s: Server, run: seq<Event>, fd: int)
    requires ValidRun(s, run)
    ensures var got, qs := DecodeAll(WireAll(SentTo(RunReplies(s, run), fd))), RequestsOn(s, run, fd);
            && |got| == |qs| + TurnedAway(s, run, fd)
            && (TurnedAway(s, run, fd) == 0 ==> forall k :: 0 <= k < |qs| ==> got[k] == Dispatch(qs[k].server, fd, qs[k].msg, qs[k].mem).reply)
  {
    RepliesFit(s, run, fd);
    StreamRoundTripIff(SentTo(RunReplies(s, run), fd));
    RepliesAnswerRequests(s, run, fd);
  }

  // ---- between other connections ----

  /** What a turn of slot `i` sends goes to the fd in that slot. */
  lemma {:induction false} RepliesElsewhere(s: Server, e: Event, fd: int)
    requires Enabled(s, e) && !e.Accept? && s.slots[e.slot] != fd
    ensures SentTo(Replies(s, e), fd) == []
  {
    if e.Request? {
      SentToSingle(s.slots[e.slot], Dispatch(s, s.slots[e.slot], e.msg, e.mem).reply, fd);
    }
  }

  /** One more event adds what it sends. */
  lemma {:induction false} SentSnoc(s: Server, run: seq<Event>, e: Event, fd: int)
    requires ValidRun(s, run) && Enabled(AfterRun(s, run), e)
    ensures ValidRun(s, run + [e])
    ensures SentTo(RunReplies(s, run + [e]), fd) == SentTo(RunReplies(s, run), fd) + SentTo(Replies(AfterRun(s, run), e), fd)
  {
    RunSnoc(s, run, e);
    SentToConcat(RunReplies(s, run), Replies(AfterRun(s, run), e), fd);
  }
}
