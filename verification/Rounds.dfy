/** Rounds of the server loop in terms of runs: who is served, what is heard, and where that takes the server. */
module Rounds {
  import opened Assoc
  import opened Protocol
  import opened Framing
  import opened Network
  import opened ServerSpec
  import opened ServerInvariants
  import opened ServerSafety
  import opened ServerRuns
  import opened ServerContexts
  import opened Answers
  import opened Conversations

  /** Between events every address fits into a reply. */
  lemma {:induction false} InvSendable(s: Server)
    requires Inv(s)
    ensures AllSendable(s)
  {
    forall p | p in s.groups
      ensures Sendable(p.value.address)
    {
      var i :| 0 <= i < |s.groups| && s.groups[i] == p;
      InfoIsInfo(s, i);
    }
    forall a | a in s.pool
      ensures Sendable(a)
    {
      FreeAddressIsInfo(s.pool, s.groups, a);
    }
  }

  /** The server in memory is where this run has taken it. */
  ghost predicate Follows(ctx: ServerContext, s: Server, run: seq<Event>, before: seq<(int, Msg)>)
    reads ctx, ctx.users, ctx.groups, ctx.Repr()
  {
    ValidRun(s, run) && Reached(ctx, AfterRun(s, run), before + RunReplies(s, run))
  }

  /** What came off a socket: the next message of its stream, or its end. */
  ghost predicate Heard(e: Event, i: nat, mem: Mem, stream: seq<Strings.byte>, rest: seq<Strings.byte>, reliable: bool) {
    match e
    case Accept(_) => false
    case Request(j, msg, m) => j == i && m == mem && Decode(stream) == Some(Frame(msg, rest))
    case HangUp(j) => j == i && (reliable ==> Decode(stream) == None)
  }

  // ---- one turn of the inner loop ----

  function Messages(sent: seq<(int, Msg)>): seq<Msg> {
    seq(|sent|, k requires 0 <= k < |sent| => sent[k].1)
  }

  /** What the server answers on the slot of an event. */
  ghost function AnswersOf(s: Server, e: Event): seq<Msg>
    requires Enabled(s, e)
  {
    if e.Request? then [Dispatch(s, s.slots[e.slot], e.msg, e.mem).reply] else []
  }

  /** It is what is sent to its fd. */
  lemma {:induction false} AnswerTo(s: Server, e: Event, i: nat)
    requires Enabled(s, e) && !e.Accept? && e.slot == i
    ensures SentTo(Replies(s, e), s.slots[i]) == AnswersOf(s, e)
  {
    if e.Request? {
      SentToSingle(s.slots[i], Dispatch(s, s.slots[i], e.msg, e.mem).reply, s.slots[i]);
    }
  }

  /** It is all that an event on a slot adds to what has been sent. */
  lemma {:induction false} NewMessages(s: Server, e: Event, i: nat, before: seq<(int, Msg)>)
    requires Enabled(s, e) && !e.Accept? && e.slot == i
    ensures Messages((before + Replies(s, e))[|before|..]) == AnswersOf(s, e)
  {
    assert (before + Replies(s, e))[|before|..] == Replies(s, e);
  }

  /** The two directions of a connection: what will still arrive, and what has been sent. */
  datatype Pipe = Pipe(inbox: seq<Strings.byte>, outbox: seq<Strings.byte>)

  ghost function PipeOf(sock: Socket?): Pipe
    reads sock
  {
    if sock == null then Pipe([], []) else Pipe(sock.inbox, sock.outbox)
  }

  /** What a turn was: the event, if the slot was served, the messages sent to its fd, and what the socket is left with. */
  datatype Turned = Turned(event: Option<Event>, answer: seq<Msg>, pipe: Pipe)

  /** A slot is served exactly if it is in use and its socket is ready, which is null when there is nothing to read;
      the event is what the socket gives, the answer goes out on it, and a socket that is not served stays as it is. */
  ghost predicate Turn(t: Turned, i: nat, slot: int, ready: Socket?, mem: Mem, was: Pipe) {
    && (t.event.Some? <==> ready != null && slot >= 0)
    && match t.event
       case None => t.answer == [] && t.pipe == was
       case Some(event) =>
         && Heard(event, i, mem, was.inbox, t.pipe.inbox, ready.reliable)
         && (ready.reliable ==> t.pipe.outbox == was.outbox + WireAll(t.answer))
  }

  /** What a turn of slot `i` is for the server: an event that it can make, and its answer. */
  ghost predicate Move(s: Server, t: Turned, i: nat)
    requires i < |s.slots|
  {
    match t.event
    case None => true
    case Some(event) =>
      Enabled(s, event) && !event.Accept? && event.slot == i && t.answer == SentTo(Replies(s, event), s.slots[i])
  }

  // ---- a round ----

  function Taken(t: Turned): seq<Event> {
    if t.event.Some? then [t.event.value] else []
  }

  /** The events among the turns. */
  function Chosen(turns: seq<Turned>): seq<Event>
    decreases |turns|
  {
    if turns == [] then [] else Chosen(turns[..|turns| - 1]) + Taken(turns[|turns| - 1])
  }

  lemma {:induction false} ChosenSnoc(turns: seq<Turned>, t: Turned)
    ensures Chosen(turns + [t]) == Chosen(turns) + Taken(t)
  {
    assert (turns + [t])[..|turns|] == turns;
  }

  function Accepted(newFd: int): seq<Event> {
    if newFd >= 0 then [Accept(newFd)] else []
  }

  /** The slots the inner loop finds. */
  function SlotsAfterAccept(s: Server, newFd: int): seq<int> {
    if newFd >= 0 && FreeSlot(s.slots) < |s.slots| then s.slots[FreeSlot(s.slots) := newFd] else s.slots
  }

  /** A round as it goes on: where it started, the new connection if there is one, and the sockets that are ready. */
  datatype Round = Round(start: Server, newFd: int, ready: seq<Socket?>, mems: seq<Mem>, pipes: seq<Pipe>, before: seq<(int, Msg)>)

  ghost function RunOf(r: Round, turns: seq<Turned>): seq<Event> {
    Accepted(r.newFd) + Chosen(turns)
  }

  ghost function SlotsOf(r: Round): seq<int> {
    SlotsAfterAccept(r.start, r.newFd)
  }

  /** No two slots share a socket. */
  ghost predicate OwnSockets(ready: seq<Socket?>) {
    forall i, j :: 0 <= i < j < |ready| && ready[i] != null ==> ready[i] != ready[j]
  }

  /** The sockets are not part of the server's own structures. */
  ghost predicate Aside(ready: seq<Socket?>, all: set<object>) {
    forall i :: 0 <= i < |ready| ==> ready[i] !in all
  }

  ghost predicate Shaped(r: Round) {
    && MAX_CLIENTS == |r.start.slots| == |r.ready| == |r.mems| == |r.pipes|
    && OwnSockets(r.ready) && (r.newFd >= 0 ==> r.newFd !in r.start.slots)
  }

  // ---- the server's side ----

  /** The slots from `n` on are these. */
  ghost predicate SlotsWait(s: Server, n: nat, slots: seq<int>) {
    |s.slots| == |slots| && forall j :: n <= j < |slots| ==> s.slots[j] == slots[j]
  }

  /** Of a run that far: its state keeps the invariant, and the slots still to be served are as they were. */
  ghost predicate RunAt(r: Round, turns: seq<Turned>, s: Server) {
    && ValidRun(r.start, RunOf(r, turns)) && s == AfterRun(r.start, RunOf(r, turns))
    && Inv(s) && SlotsWait(s, |turns|, SlotsOf(r))
  }

  lemma {:induction false} OtherSlots(s: Server, e: Event, i: nat)
    requires Inv(s) && Enabled(s, e) && !e.Accept? && e.slot == i
    ensures |Step(s, e).slots| == |s.slots| && forall j :: 0 <= j < |s.slots| && j != i ==> Step(s, e).slots[j] == s.slots[j]
  {
    if e.HangUp? {
      CleanupKeeps(s, s.slots[i]);
    } else {
      DispatchKeeps(s, s.slots[i], e.msg, e.mem);
    }
  }

  /** What a turn makes the server send. */
  ghost function Said(s: Server, t: Turned): seq<(int, Msg)>
    requires t.event.Some? ==> Enabled(s, t.event.value)
  {
    if t.event.Some? then Replies(s, t.event.value) else []
  }

  /** One more turn of the run, as a fact about states alone. */
  lemma {:induction false} RunNext(r: Round, turns: seq<Turned>, t: Turned, s: Server) returns (s': Server)
    requires RunAt(r, turns, s) && |turns| < |SlotsOf(r)|
    requires t.event.Some? ==> Enabled(s, t.event.value) && !t.event.value.Accept? && t.event.value.slot == |turns|
    ensures RunAt(r, turns + [t], s')
    ensures if t.event.None? then s' == s && RunOf(r, turns + [t]) == RunOf(r, turns)
            else s' == Step(s, t.event.value) && RunOf(r, turns + [t]) == RunOf(r, turns) + [t.event.value]
    ensures RunReplies(r.start, RunOf(r, turns + [t])) == RunReplies(r.start, RunOf(r, turns)) + Said(s, t)
  {
    ChosenSnoc(turns, t);
    Regroup(Accepted(r.newFd), Chosen(turns), Taken(t));
    s' := s;
    if t.event.Some? {
      var e := t.event.value;
      s' := Step(s, e);
      RunSnoc(r.start, RunOf(r, turns), e);
      StepKeeps(s, e);
      OtherSlots(s, e, |turns|);
    } else {
      assert RunOf(r, turns) + [] == RunOf(r, turns);
      assert RunReplies(r.start, RunOf(r, turns)) + [] == RunReplies(r.start, RunOf(r, turns));
    }
  }

  // ---- the sockets' side ----

  /** Each socket is in this state. */
  ghost predicate Held(ready: seq<Socket?>, pipes: seq<Pipe>)
    reads ready
  {
    |pipes| == |ready| && forall j :: 0 <= j < |ready| ==> PipeOf(ready[j]) == pipes[j]
  }

  /** The first turns of a round, each on its own slot and socket. */
  ghost predicate Turns(turns: seq<Turned>, slots: seq<int>, ready: seq<Socket?>, mems: seq<Mem>, pipes: seq<Pipe>)
    requires |turns| <= |slots| == |ready| == |mems| == |pipes|
  {
    forall j :: 0 <= j < |turns| ==> Turn(turns[j], j, slots[j], ready[j], mems[j], pipes[j])
  }

  /** Those sockets are as their turns have left them, the others as they were. */
  ghost predicate PipesAt(turns: seq<Turned>, pipes: seq<Pipe>, now: seq<Pipe>)
    requires |turns| <= |pipes| == |now|
  {
    forall j :: 0 <= j < |pipes| ==> now[j] == if j < |turns| then turns[j].pipe else pipes[j]
  }

  lemma {:induction false} TurnsSnoc(turns: seq<Turned>, t: Turned, slots: seq<int>, ready: seq<Socket?>, mems: seq<Mem>,
                                     pipes: seq<Pipe>, now: seq<Pipe>)
    requires |turns| < |slots| == |ready| == |mems| == |pipes| == |now|
    requires Turns(turns, slots, ready, mems, pipes) && PipesAt(turns, pipes, now)
    requires var i := |turns|; Turn(t, i, slots[i], ready[i], mems[i], now[i])
    ensures Turns(turns + [t], slots, ready, mems, pipes) && PipesAt(turns + [t], pipes, now[|turns| := t.pipe])
  {
    forall j | 0 <= j <= |turns|
      ensures Turn((turns + [t])[j], j, slots[j], ready[j], mems[j], pipes[j])
    {
      if j < |turns| {
        assert Turn(turns[j], j, slots[j], ready[j], mems[j], pipes[j]);
      }
    }
  }

  // ---- what has been sent to whom ----

  /** To the fd of a slot that has been served the answer of its turn has been sent, to the others nothing yet. */
  ghost predicate Delivered(slots: seq<int>, turns: seq<Turned>, sent: seq<(int, Msg)>) {
    forall j :: 0 <= j < |slots| && slots[j] >= 0 ==> SentTo(sent, slots[j]) == if j < |turns| then turns[j].answer else []
  }

  lemma {:induction false} DeliveredFirst(r: Round)
    requires Shaped(r) && ValidRun(r.start, Accepted(r.newFd))
    ensures Delivered(SlotsOf(r), [], RunReplies(r.start, Accepted(r.newFd)))
  {
    if r.newFd >= 0 {
      RepliesCons(r.start, Accept(r.newFd), []);
      assert [Accept(r.newFd)] + [] == [Accept(r.newFd)];
      if FreeSlot(r.start.slots) == |r.start.slots| {
        assert Replies(r.start, Accept(r.newFd)) + [] == [(r.newFd, ErrorMsg(ERR_SERVER_FULL))];
        forall j | 0 <= j < |r.start.slots|
          ensures SentTo([(r.newFd, ErrorMsg(ERR_SERVER_FULL))], r.start.slots[j]) == []
        {
          assert r.start.slots[j] in r.start.slots;
          SentToSingle(r.newFd, ErrorMsg(ERR_SERVER_FULL), r.start.slots[j]);
        }
      }
    }
  }

  lemma {:induction false} DeliveredAt(slots: seq<int>, turns: seq<Turned>, t: Turned, sent: seq<(int, Msg)>, more: seq<(int, Msg)>, j: nat)
    requires Delivered(slots, turns, sent) && |turns| < |slots| && j < |slots| && slots[j] >= 0
    requires SentTo(more, slots[j]) == if j == |turns| then t.answer else []
    ensures SentTo(sent + more, slots[j]) == if j <= |turns| then (turns + [t])[j].answer else []
  {
    var was := SentTo(sent, slots[j]);
    SentToConcat(sent, more, slots[j]);
    assert was + [] == was && [] + t.answer == t.answer;
  }

  /** The next turn sends to the fd of its own slot only. */
  lemma {:induction false} DeliveredNext(slots: seq<int>, turns: seq<Turned>, t: Turned, sent: seq<(int, Msg)>, more: seq<(int, Msg)>)
    requires Delivered(slots, turns, sent) && |turns| < |slots|
    requires forall i, j :: 0 <= i < j < |slots| && slots[i] >= 0 ==> slots[i] != slots[j]
    requires forall fd :: SentTo(more, fd) == if fd == slots[|turns|] then t.answer else []
    ensures Delivered(slots, turns + [t], sent + more)
  {
    forall j | 0 <= j < |slots| && slots[j] >= 0
      ensures SentTo(sent + more, slots[j]) == if j <= |turns| then (turns + [t])[j].answer else []
    {
      DeliveredAt(slots, turns, t, sent, more, j);
    }
  }

  lemma {:induction false} MoveSends(s: Server, t: Turned, i: nat)
    requires i < |s.slots| && Move(s, t, i) && (t.event.None? ==> t.answer == [])
    ensures forall fd :: SentTo(Said(s, t), fd) == if fd == s.slots[i] then t.answer else []
  {
    if t.event.Some? {
      forall fd | fd != s.slots[i]
        ensures SentTo(Replies(s, t.event.value), fd) == []
      {
        RepliesElsewhere(s, t.event.value, fd);
      }
    }
  }

  /** On every reliable socket exactly the replies that the run has sent to the fd of its slot have gone out. */
  ghost predicate Outboxes(r: Round, turns: seq<Turned>)
    requires ValidRun(r.start, RunOf(r, turns)) && |turns| == |SlotsOf(r)| == |r.ready| == |r.pipes|
  {
    var slots, sent := SlotsOf(r), RunReplies(r.start, RunOf(r, turns));
    forall j :: 0 <= j < |slots| && r.ready[j] != null && r.ready[j].reliable ==>
      turns[j].pipe.outbox == r.pipes[j].outbox + WireAll(if slots[j] >= 0 then SentTo(sent, slots[j]) else [])
  }

  lemma {:induction false} OutboxesAre(r: Round, turns: seq<Turned>)
    requires ValidRun(r.start, RunOf(r, turns)) && |turns| == |SlotsOf(r)| == |r.ready| == |r.mems| == |r.pipes|
    requires Turns(turns, SlotsOf(r), r.ready, r.mems, r.pipes) && Delivered(SlotsOf(r), turns, RunReplies(r.start, RunOf(r, turns)))
    ensures Outboxes(r, turns)
  {
    var slots := SlotsOf(r);
    forall j | 0 <= j < |slots| && r.ready[j] != null && r.ready[j].reliable
      ensures turns[j].pipe.outbox
           == r.pipes[j].outbox + WireAll(if slots[j] >= 0 then SentTo(RunReplies(r.start, RunOf(r, turns)), slots[j]) else [])
    {
      assert Turn(turns[j], j, slots[j], r.ready[j], r.mems[j], r.pipes[j]);
      assert r.pipes[j].outbox + [] == r.pipes[j].outbox;
    }
  }

  // ---- turn by turn ----

  /** Where a round is: the server, what it has sent, and the sockets. */
  datatype Point = Point(server: Server, sent: seq<(int, Msg)>, pipes: seq<Pipe>)

  ghost predicate Fits(r: Round, from: Point, t: Turned, i: nat) {
    var s := from.server;
    && Shaped(r) && i < MAX_CLIENTS == |s.slots| == |from.pipes|
    && Turn(t, i, s.slots[i], r.ready[i], r.mems[i], from.pipes[i]) && Move(s, t, i)
  }

  ghost function NextPoint(from: Point, t: Turned, i: nat): Point
    requires i < |from.pipes| && (t.event.Some? ==> Enabled(from.server, t.event.value))
  {
    Point(if t.event.None? then from.server else Step(from.server, t.event.value), from.sent + Said(from.server, t),
          from.pipes[i := t.pipe])
  }

  /** Where a turn leads, if it is one that can be taken. */
  ghost function Onward(r: Round, from: Point, t: Turned, i: nat): Option<Point> {
    if Fits(r, from, t, i) then Some(NextPoint(from, t, i)) else None
  }

  ghost predicate Sound(r: Round) {
    Shaped(r) && Inv(r.start) && ValidRun(r.start, Accepted(r.newFd))
  }

  /** Where these turns lead, if each is one that can be taken where those before it have led. */
  ghost function LedTo(r: Round, turns: seq<Turned>): Option<Point>
    decreases |turns|
  {
    if turns == [] then
      var run := Accepted(r.newFd);
      if Sound(r) then Some(Point(AfterRun(r.start, run), r.before + RunReplies(r.start, run), r.pipes)) else None
    else
      var i := |turns| - 1;
      match LedTo(r, turns[..i])
      case None => None
      case Some(from) => Onward(r, from, turns[i], i)
  }

  lemma {:induction false} LedFurther(r: Round, turns: seq<Turned>, from: Point, t: Turned)
    requires LedTo(r, turns) == Some(from)
    ensures LedTo(r, turns + [t]) == Onward(r, from, t, |turns|)
  {
    assert (turns + [t])[..|turns|] == turns;
  }

  lemma {:induction false} LastTurn(r: Round, turns: seq<Turned>) returns (front: seq<Turned>, from: Point, t: Turned)
    requires LedTo(r, turns).Some? && turns != []
    ensures turns == front + [t] && LedTo(r, front) == Some(from)
    ensures LedTo(r, turns) == Onward(r, from, t, |front|)
  {
    var i := |turns| - 1;
    front, t := turns[..i], turns[i];
    from := LedTo(r, front).value;
  }

  lemma {:induction false} Begins(r: Round) returns (first: Point)
    requires Shaped(r) && Inv(r.start)
    ensures LedTo(r, []) == Some(first)
    ensures first == if r.newFd < 0 then Point(r.start, r.before, r.pipes)
                     else Point(Step(r.start, Accept(r.newFd)), r.before + Replies(r.start, Accept(r.newFd)), r.pipes)
  {
    if r.newFd >= 0 {
      RepliesCons(r.start, Accept(r.newFd), []);
      assert [Accept(r.newFd)] + [] == [Accept(r.newFd)];
      assert Replies(r.start, Accept(r.newFd)) + [] == Replies(r.start, Accept(r.newFd));
    } else {
      assert r.before + [] == r.before;
    }
    first := LedTo(r, []).value;
  }

  // ---- all of it together ----

  /** What is known of a round in progress. */
  ghost predicate Going(r: Round, turns: seq<Turned>, at: Point) {
    && Shaped(r) && |turns| <= MAX_CLIENTS == |SlotsOf(r)| == |at.pipes|
    && (forall i, j :: 0 <= i < j < |SlotsOf(r)| && SlotsOf(r)[i] >= 0 ==> SlotsOf(r)[i] != SlotsOf(r)[j])
    && RunAt(r, turns, at.server) && at.sent == r.before + RunReplies(r.start, RunOf(r, turns))
    && Delivered(SlotsOf(r), turns, RunReplies(r.start, RunOf(r, turns)))
    && Turns(turns, SlotsOf(r), r.ready, r.mems, r.pipes) && PipesAt(turns, r.pipes, at.pipes)
  }

  lemma {:induction false} GoingFirst(r: Round)
    requires Sound(r)
    ensures LedTo(r, []).Some? && Going(r, [], LedTo(r, []).value)
  {
    assert RunOf(r, []) == Accepted(r.newFd);
    var first := Begins(r);
    RunKeeps(r.start, Accepted(r.newFd));
    assert first.server.slots == SlotsOf(r);
    DeliveredFirst(r);
  }

  lemma {:induction false} GoingNext(r: Round, turns: seq<Turned>, from: Point, t: Turned)
    requires Going(r, turns, from) && Fits(r, from, t, |turns|)
    ensures Going(r, turns + [t], NextPoint(from, t, |turns|))
  {
    var _ := RunNext(r, turns, t, from.server);
    TurnsSnoc(turns, t, SlotsOf(r), r.ready, r.mems, r.pipes, from.pipes);
    var sent := RunReplies(r.start, RunOf(r, turns));
    Regroup(r.before, sent, Said(from.server, t));
    MoveSends(from.server, t, |turns|);
    DeliveredNext(SlotsOf(r), turns, t, sent, Said(from.server, t));
  }

  /** Turn by turn, the whole of what is known of a round. */
  lemma {:induction false} LedIsGoing(r: Round, turns: seq<Turned>, at: Point)
    requires LedTo(r, turns) == Some(at)
    ensures Going(r, turns, at)
    decreases |turns|
  {
    if turns == [] {
      GoingFirst(r);
    } else {
      var front, from, t := LastTurn(r, turns);
      LedIsGoing(r, front, from);
      GoingNext(r, front, from, t);
    }
  }

  /** In particular the invariant holds before every turn. */
  lemma {:induction false} LedKeeps(r: Round, turns: seq<Turned>, at: Point)
    requires LedTo(r, turns) == Some(at)
    ensures Shaped(r) && Inv(at.server) && |at.server.slots| == MAX_CLIENTS == |at.pipes|
  {
    LedIsGoing(r, turns, at);
  }

  /** A round goes from reachable states to reachable states. */
  lemma {:induction false} RoundReaches(r: Round, turns: seq<Turned>, at: Point)
    requires LedTo(r, turns) == Some(at)
    ensures Reachable(r.start) ==> Reachable(at.server)
  {
    LedIsGoing(r, turns, at);
    if Reachable(r.start) {
      ReachableOn(r.start, RunOf(r, turns));
    }
  }

  /** The round as a whole. */
  lemma {:induction false} RoundDone(r: Round, turns: seq<Turned>, at: Point)
    requires LedTo(r, turns) == Some(at) && |turns| == MAX_CLIENTS
    ensures |SlotsOf(r)| == |r.ready| == |r.mems| == |r.pipes| == |at.pipes| == MAX_CLIENTS
    ensures Turns(turns, SlotsOf(r), r.ready, r.mems, r.pipes) && PipesAt(turns, r.pipes, at.pipes)
    ensures ValidRun(r.start, RunOf(r, turns)) && Inv(at.server) && Outboxes(r, turns)
    ensures at.server == AfterRun(r.start, RunOf(r, turns)) && at.sent == r.before + RunReplies(r.start, RunOf(r, turns))
  {
    LedIsGoing(r, turns, at);
    OutboxesAre(r, turns);
  }
}
