/** dispatch_message and the loop of server_run: connections, requests off the wire, and ends of streams. */
module ServerLoop {
  import opened Strings
  import opened Protocol
  import opened Buffers
  import opened ServerSpec
  import opened ServerContexts
  import opened Answers
  import opened Handlers
  import ServerSafety

  predicate IsAccountTag(tag: byte) {
    tag == MSG_REGISTER || tag == MSG_LOGIN || tag == MSG_LOGOUT || tag == MSG_EXIT
  }

  method DispatchAccount(ctx: ServerContext, fd: int, msg: TLVMessage, mem: Mem) returns (r: int, ghost more: set<object>)
    requires ctx.Valid() && Outside(ctx, msg) && IsAccountTag(msg.tag)
    modifies ctx.Repr()
    ensures Answered(ctx, Dispatch(old(ctx.View()), fd, old(msg.View()), mem), old(ctx.sent), fd)
    ensures r == if old(msg.tag) == MSG_EXIT then -1 else 0
    ensures fresh(more) && ctx.Repr() == old(ctx.Repr()) + more
  {
    r, more := 0, {};
    if msg.tag == MSG_REGISTER {
      more := HandleRegister(ctx, fd, msg, mem);
    } else if msg.tag == MSG_LOGIN {
      HandleLogin(ctx, fd, msg);
    } else if msg.tag == MSG_LOGOUT {
      HandleLogout(ctx, fd);
    } else {
      HandleExit(ctx, fd);
      r := -1;
    }
  }

  method DispatchGroup(ctx: ServerContext, fd: int, msg: TLVMessage, mem: Mem) returns (ghost more: set<object>)
    requires ctx.Valid() && Outside(ctx, msg) && !IsAccountTag(msg.tag) && AllSendable(ctx.View())
    modifies ctx.Repr()
    ensures Answered(ctx, Dispatch(old(ctx.View()), fd, old(msg.View()), mem), old(ctx.sent), fd)
    ensures fresh(more) && ctx.Repr() == old(ctx.Repr()) + more
  {
    more := {};
    if msg.tag == MSG_CREATE_GROUP {
      more := HandleCreateGroup(ctx, fd, msg, mem);
    } else if msg.tag == MSG_JOIN_GROUP {
      more := HandleJoinGroup(ctx, fd, msg);
    } else if msg.tag == MSG_LEAVE_GROUP {
      HandleLeaveGroup(ctx, fd, msg);
    } else {
      Refuse(ctx, fd, ERR_NONE);
    }
  }

  /** dispatch_message: exactly one reply, to the requesting fd, whatever the message; -1 only for an exit. */
  method DispatchMessage(ctx: ServerContext, fd: int, msg: TLVMessage, mem: Mem) returns (r: int, ghost more: set<object>)
    requires ctx.Valid() && Outside(ctx, msg) && AllSendable(ctx.View())
    modifies ctx.Repr()
    ensures Answered(ctx, Dispatch(old(ctx.View()), fd, old(msg.View()), mem), old(ctx.sent), fd)
    ensures r == if old(msg.tag) == MSG_EXIT then -1 else 0
    ensures fresh(more) && ctx.Repr() == old(ctx.Repr()) + more
  {
    if IsAccountTag(msg.tag) {
      r, more := DispatchAccount(ctx, fd, msg, mem);
    } else {
      r := 0;
      more := DispatchGroup(ctx, fd, msg, mem);
    }
  }

  // ---- one event ----

  method SetSlot(ctx: ServerContext, i: nat, fd: int)
    requires ctx.Valid() && i < MAX_CLIENTS
    modifies ctx.Repr()
    ensures Reached(ctx, (var s := old(ctx.View()); s.(slots := s.slots[i := fd])), old(ctx.sent)) && ctx.Repr() == old(ctx.Repr())
  {
    ctx.clientFds[i] := fd;
  }

  method FindFreeSlot(ctx: ServerContext) returns (slot: int)
    requires ctx.Valid()
    ensures var i := FreeSlot(ctx.View().slots); slot == if i < MAX_CLIENTS then i else -1
  {
    for i := 0 to MAX_CLIENTS
      invariant forall j :: 0 <= j < i ==> ctx.clientFds[j] >= 0
    {
      if ctx.clientFds[i] < 0 {
        ServerSafety.FreeSlotIs(ctx.View().slots, i);
        return i;
      }
    }
    ServerSafety.FreeSlotIs(ctx.View().slots, MAX_CLIENTS);
    return -1;
  }

  /** A new connection gets the first free slot, or is told that there is none. */
  method AcceptClient(ctx: ServerContext, newFd: int)
    requires ctx.Valid() && Enabled(ctx.View(), Accept(newFd))
    modifies ctx.Repr()
    ensures Stepped(ctx, old(ctx.View()), Accept(newFd), old(ctx.sent)) && ctx.Repr() == old(ctx.Repr())
  {
    var slot := FindFreeSlot(ctx);
    if slot >= 0 {
      SetSlot(ctx, slot, newFd);
    } else {
      Refuse(ctx, newFd, ERR_SERVER_FULL);
    }
  }

  lemma {:induction false} CleanupSlots(s: Server, fd: int)
    ensures Cleanup(s, fd).slots == s.slots
  {
    CloseGroupsSlots(s.(groups := Sweep(s.groups, fd)), Emptied(s.groups, fd, MAX_GROUPS));
  }

  lemma {:induction false} CloseGroupsSlots(s: Server, names: seq<CString>)
    ensures CloseGroups(s, names).slots == s.slots
    decreases |names|
  {
    if names != [] {
      CloseGroupsSlots(CloseGroup(s, names[0]), names[1..]);
    }
  }

  /** client_disconnected */
  method ClientDisconnected(ctx: ServerContext, fd: int)
    requires ctx.Valid()
    modifies ctx.Repr()
    ensures Reached(ctx, Cleanup(old(ctx.View()), fd), old(ctx.sent)) && ctx.Repr() == old(ctx.Repr())
  {
    CleanupClient(ctx, fd);
  }

  method HangUpSlot(ctx: ServerContext, i: nat)
    requires ctx.Valid() && i < MAX_CLIENTS && ctx.View().slots[i] >= 0
    modifies ctx.Repr()
    ensures Stepped(ctx, old(ctx.View()), HangUp(i), old(ctx.sent)) && ctx.Repr() == old(ctx.Repr())
  {
    var fd := ctx.clientFds[i];
    CleanupSlots(ctx.View(), fd);
    ClientDisconnected(ctx, fd);
    SetSlot(ctx, i, -1);
  }

  /** A request on a slot, in terms of the dispatch: an exit also frees the slot. */
  lemma {:induction false} RequestStep(s: Server, i: nat, m: Msg, mem: Mem)
    requires i < |s.slots| && s.slots[i] >= 0
    ensures var t, u := Step(s, Request(i, m, mem)), Dispatch(s, s.slots[i], m, mem).server;
            if m.tag == MSG_EXIT then u.slots == s.slots && t == u.(slots := u.slots[i := -1]) else t == u
  {
    ServerSafety.OnlyExitCloses(s, s.slots[i], m, mem);
    if m.tag == MSG_EXIT {
      CleanupSlots(s, s.slots[i]);
    }
  }

  method ServeRequest(ctx: ServerContext, i: nat, msg: TLVMessage, mem: Mem) returns (ghost more: set<object>)
    requires ctx.Valid() && i < MAX_CLIENTS && ctx.View().slots[i] >= 0 && Outside(ctx, msg) && AllSendable(ctx.View())
    modifies ctx.Repr()
    ensures Stepped(ctx, old(ctx.View()), Request(i, old(msg.View()), mem), old(ctx.sent))
    ensures fresh(more) && ctx.Repr() == old(ctx.Repr()) + more
  {
    ghost var s, m := ctx.View(), msg.View();
    var fd := ctx.clientFds[i];
    RequestStep(s, i, m, mem);
    var r, grown := DispatchMessage(ctx, fd, msg, mem);
    more := grown;
    if r < 0 {
      SetSlot(ctx, i, -1);
    }
  }
}
