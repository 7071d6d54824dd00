/** The loop of server_run on real structures: every round is a run of the server's specification, so what holds of
    reachable states holds of the server in memory. */
module ServerRounds {
  import opened Assoc
  import opened Protocol
  import opened Buffers
  import opened Network
  import opened Framing
  import opened ServerSpec
  import opened ServerInvariants
  import opened ServerRuns
  import opened ServerContexts
  import opened Answers
  import opened ServerLoop
  import opened Rounds

  method Hear(i: nat, sock: Socket, msg: TLVMessage, mem: Mem) returns (got: bool, ghost e: Event)
    requires msg.value.Length == TLV_MAX_VALUE_LEN
    modifies sock`inbox, msg, msg.value
    ensures Heard(e, i, mem, old(sock.inbox), sock.inbox, sock.reliable)
    ensures e == if got then Request(i, msg.View(), mem) else HangUp(i)
  {
    var r := NetReadMsg(sock, msg);
    got := r == 0;
    e := if got then Request(i, msg.View(), mem) else HangUp(i);
  }

  /** What came off the wire is served: a request is dispatched, an end of the stream hangs up; `own` are the heap
      objects of the server. */
  method ServeEvent(ctx: ServerContext, i: nat, msg: TLVMessage, mem: Mem, got: bool, ghost e: Event, ghost own: set<object>)
    returns (ghost more: set<object>)
    requires ctx.Valid() && i < MAX_CLIENTS && ctx.View().slots[i] >= 0 && Outside(ctx, msg) && AllSendable(ctx.View())
    requires e == (if got then Request(i, msg.View(), mem) else HangUp(i)) && own == ctx.Repr()
    modifies own
    ensures Stepped(ctx, old(ctx.View()), e, old(ctx.sent))
    ensures fresh(more) && ctx.Repr() == own + more
  {
    more := {};
    if got {
      more := ServeRequest(ctx, i, msg, mem);
    } else {
      HangUpSlot(ctx, i);
    }
  }

  method HearAndServe(ctx: ServerContext, i: nat, sock: Socket, mem: Mem, ghost own: set<object>) returns (ghost e: Event, ghost more: set<object>)
    requires ctx.Valid() && i < MAX_CLIENTS && ctx.View().slots[i] >= 0 && sock !in own && own == ctx.Repr() && AllSendable(ctx.View())
    modifies own, sock`inbox
    ensures Heard(e, i, mem, old(sock.inbox), sock.inbox, sock.reliable)
    ensures Stepped(ctx, old(ctx.View()), e, old(ctx.sent))
    ensures fresh(more) && ctx.Repr() == own + more
  {
    var msg := new TLVMessage();
    var got, event := Hear(i, sock, msg, mem);
    e := event;
    more := ServeEvent(ctx, i, msg, mem, got, event, own);
  }

  /** What an event has added to the `n` messages recorded as sent goes out on the socket. */
  method Deliver(ctx: ServerContext, sock: Socket, n: nat, ghost s: Server, ghost e: Event, ghost before: seq<(int, Msg)>)
    requires Enabled(s, e) && !e.Accept? && Stepped(ctx, s, e, before) && n == |before| && sock !in ctx.Repr()
    modifies sock`outbox
    ensures Stepped(ctx, s, e, before) && ctx.Repr() == old(ctx.Repr())
    ensures sock.reliable ==> sock.outbox == old(sock.outbox) + WireAll(AnswersOf(s, e))
  {
    NewMessages(s, e, e.slot, before);
    var _ := SendAllMsgs(sock, Messages(ctx.sent[n..]));
  }

  /** Serving a slot whose socket is ready. */
  method ServeSlot(ctx: ServerContext, i: nat, sock: Socket, mem: Mem, ghost own: set<object>) returns (ghost e: Event, ghost more: set<object>)
    requires ctx.Valid() && i < MAX_CLIENTS && ctx.View().slots[i] >= 0 && sock !in own && own == ctx.Repr() && AllSendable(ctx.View())
    modifies own, sock
    ensures Heard(e, i, mem, old(sock.inbox), sock.inbox, sock.reliable)
    ensures Stepped(ctx, old(ctx.View()), e, old(ctx.sent))
    ensures sock.reliable ==> sock.outbox == old(sock.outbox) + WireAll(AnswersOf(old(ctx.View()), e))
    ensures fresh(more) && ctx.Repr() == own + more
  {
    var n := |ctx.sent|;
    e, more := HearAndServe(ctx, i, sock, mem, own);
    Deliver(ctx, sock, n, old(ctx.View()), e, old(ctx.sent));
  }

  /** The server has taken this turn. */
  ghost predicate Moved(ctx: ServerContext, s: Server, t: Turned, i: nat, before: seq<(int, Msg)>)
    requires i < |s.slots|
    reads ctx, ctx.users, ctx.groups, ctx.Repr()
  {
    Move(s, t, i) && if t.event.None? then Reached(ctx, s, before) else Stepped(ctx, s, t.event.value, before)
  }

  method ServeTurn(ctx: ServerContext, i: nat, ready: Socket?, mem: Mem, ghost own: set<object>) returns (ghost t: Turned, ghost more: set<object>)
    requires ctx.Valid() && Inv(ctx.View()) && i < MAX_CLIENTS && ready !in own && own == ctx.Repr()
    modifies own, if ready == null then {} else {ready}
    ensures Turn(t, i, old(ctx.View()).slots[i], ready, mem, old(PipeOf(ready))) && t.pipe == PipeOf(ready)
    ensures Moved(ctx, old(ctx.View()), t, i, old(ctx.sent))
    ensures fresh(more) && ctx.Repr() == own + more
  {
    t, more := Turned(None, [], PipeOf(ready)), {};
    if ctx.clientFds[i] < 0 || ready == null {
      return;
    }
    InvSendable(ctx.View());
    var e, grown := ServeSlot(ctx, i, ready, mem, own);
    AnswerTo(old(ctx.View()), e, i);
    t, more := Turned(Some(e), AnswersOf(old(ctx.View()), e), PipeOf(ready)), grown;
  }

  /** A turn on one of the sockets leaves the others alone. */
  method TurnAmong(ctx: ServerContext, ghost ready: seq<Socket?>, ghost now: seq<Pipe>, i: nat, sock: Socket?, mem: Mem, ghost own: set<object>)
    returns (ghost t: Turned, ghost more: set<object>)
    requires ctx.Valid() && Inv(ctx.View()) && own == ctx.Repr() && Aside(ready, own) && OwnSockets(ready)
    requires i < MAX_CLIENTS == |ready| && sock == ready[i] && Held(ready, now)
    modifies own, if sock == null then {} else {sock}
    ensures Turn(t, i, old(ctx.View()).slots[i], sock, mem, now[i]) && Held(ready, now[i := t.pipe])
    ensures Moved(ctx, old(ctx.View()), t, i, old(ctx.sent))
    ensures fresh(more) && ctx.Repr() == own + more
  {
    var turn, grown := ServeTurn(ctx, i, sock, mem, own);
    t, more := turn, grown;
    forall j | 0 <= j < |ready|
      ensures PipeOf(ready[j]) == now[i := t.pipe][j]
    {
      assert j != i ==> PipeOf(ready[j]) == old(PipeOf(ready[j]));
    }
  }

  /** The server in memory and the sockets are at this point of the round. */
  ghost predicate Stands(ctx: ServerContext, ready: seq<Socket?>, at: Point)
    reads ctx, ctx.users, ctx.groups, ctx.Repr(), ready
  {
    Reached(ctx, at.server, at.sent) && Held(ready, at.pipes)
  }

  lemma {:induction false} TakeTurn(ctx: ServerContext, r: Round, turns: seq<Turned>, from: Point, t: Turned) returns (at: Point)
    requires LedTo(r, turns) == Some(from) && Shaped(r) && |turns| < MAX_CLIENTS == |from.server.slots| == |from.pipes|
    requires var i := |turns|; Turn(t, i, from.server.slots[i], r.ready[i], r.mems[i], from.pipes[i])
    requires Moved(ctx, from.server, t, |turns|, from.sent) && Held(r.ready, from.pipes[|turns| := t.pipe])
    ensures LedTo(r, turns + [t]) == Some(at) && Stands(ctx, r.ready, at)
  {
    LedFurther(r, turns, from, t);
    assert from.sent + [] == from.sent;
    at := NextPoint(from, t, |turns|);
  }

  /** One more turn of the round. */
  method RoundTurn(ctx: ServerContext, ghost r: Round, ghost turns: seq<Turned>, ghost from: Point, i: nat, sock: Socket?, mem: Mem,
                   ghost own: set<object>)
    returns (ghost t: Turned, ghost at: Point, ghost all: set<object>)
    requires i == |turns| < MAX_CLIENTS == |r.ready| == |r.mems| && sock == r.ready[i] && mem == r.mems[i]
    requires LedTo(r, turns) == Some(from) && Stands(ctx, r.ready, from)
    requires Aside(r.ready, own) && own == ctx.Repr()
    modifies own, if sock == null then {} else {sock}
    ensures LedTo(r, turns + [t]) == Some(at) && Stands(ctx, r.ready, at)
    ensures all == ctx.Repr() && own <= all && fresh(all - own) && Aside(r.ready, all)
  {
    LedKeeps(r, turns, from);
    var turn, grown := TurnAmong(ctx, r.ready, from.pipes, i, sock, mem, own);
    t, all := turn, own + grown;
    at := TakeTurn(ctx, r, turns, from, t);
  }

  /** The inner loop over the slots. */
  method ServeSlots(ctx: ServerContext, ready: seq<Socket?>, mems: seq<Mem>, ghost r: Round, ghost first: Point, ghost own: set<object>)
    returns (ghost turns: seq<Turned>, ghost at: Point, ghost all: set<object>)
    requires MAX_CLIENTS == |ready| == |mems| && r.ready == ready && r.mems == mems
    requires LedTo(r, []) == Some(first) && Stands(ctx, ready, first) && Aside(ready, own) && own == ctx.Repr()
    modifies own, set x | x in ready && x != null
    ensures |turns| == MAX_CLIENTS && LedTo(r, turns) == Some(at) && Stands(ctx, ready, at)
    ensures all == ctx.Repr() && own <= all && fresh(all - own)
  {
    turns, at, all := [], first, own;
    for i := 0 to MAX_CLIENTS
      invariant |turns| == i && LedTo(r, turns) == Some(at) && Stands(ctx, ready, at)
      invariant all == ctx.Repr() && own <= all && fresh(all - own) && Aside(ready, all)
    {
      var t, next, grown := RoundTurn(ctx, r, turns, at, i, ready[i], mems[i], all);
      turns, at, all := turns + [t], next, grown;
    }
  }

  /** The new connection comes before all turns. */
  method AcceptTurn(ctx: ServerContext, newFd: int, ghost r: Round, ghost own: set<object>) returns (ghost first: Point)
    requires Shaped(r) && Inv(r.start) && Stands(ctx, r.ready, Point(r.start, r.before, r.pipes)) && newFd == r.newFd
    requires Aside(r.ready, own) && own == ctx.Repr()
    modifies own
    ensures LedTo(r, []) == Some(first) && Stands(ctx, r.ready, first) && own == ctx.Repr()
  {
    first := Begins(r);
    if newFd >= 0 {
      AcceptClient(ctx, newFd);
    }
  }

  method ServeAll(ctx: ServerContext, newFd: int, ready: seq<Socket?>, mems: seq<Mem>, ghost r: Round, ghost own: set<object>)
    returns (ghost turns: seq<Turned>, ghost at: Point, ghost all: set<object>)
    requires Shaped(r) && Inv(r.start) && Stands(ctx, ready, Point(r.start, r.before, r.pipes))
    requires newFd == r.newFd && r.ready == ready && r.mems == mems && Aside(ready, own) && own == ctx.Repr()
    modifies own, set x | x in ready && x != null
    ensures |turns| == MAX_CLIENTS && LedTo(r, turns) == Some(at) && Stands(ctx, ready, at)
    ensures all == ctx.Repr() && own <= all && fresh(all - own)
  {
    var first := AcceptTurn(ctx, newFd, r, own);
    turns, at, all := ServeSlots(ctx, ready, mems, r, first, own);
  }

  /** One round of the main loop: perhaps a new connection, then the slots in order. */
  method ServerRound(ctx: ServerContext, newFd: int, ready: seq<Socket?>, mems: seq<Mem>, ghost pipes: seq<Pipe>)
    returns (ghost turns: seq<Turned>, ghost all: set<object>)
    requires ctx.Valid() && Inv(ctx.View()) && |ready| == |mems| == MAX_CLIENTS
    requires newFd >= 0 ==> newFd !in ctx.View().slots
    requires Held(ready, pipes) && OwnSockets(ready) && Aside(ready, ctx.Repr())
    modifies ctx.Repr(), set r | r in ready && r != null
    ensures |turns| == MAX_CLIENTS && forall j :: 0 <= j < MAX_CLIENTS ==> PipeOf(ready[j]) == turns[j].pipe
    ensures Turns(turns, SlotsAfterAccept(old(ctx.View()), newFd), ready, mems, pipes)
    ensures Follows(ctx, old(ctx.View()), Accepted(newFd) + Chosen(turns), old(ctx.sent)) && Inv(ctx.View())
    ensures Reachable(old(ctx.View())) ==> Reachable(ctx.View())
    ensures Outboxes(Round(old(ctx.View()), newFd, ready, mems, pipes, old(ctx.sent)), turns)
    ensures all == ctx.Repr() && old(ctx.Repr()) <= all && fresh(all - old(ctx.Repr()))
  {
    ghost var r, own := Round(ctx.View(), newFd, ready, mems, pipes, ctx.sent), ctx.Repr();
    var taken, at, grown := ServeAll(ctx, newFd, ready, mems, r, own);
    turns, all := taken, grown;
    RoundDone(r, turns, at);
    RoundReaches(r, turns, at);
  }
}
