/** When the server says yes, in terms of what every reachable state looks like. */
module ServerReplies {
  import opened Strings
  import opened Assoc
  import opened Protocol
  import opened ServerSpec
  import opened ServerInvariants
  import opened Withdrawal
  import opened ServerSafety

  /** A group is founded exactly when its name is new and fewer than sixteen groups are live: an address is free
      as long as some group is missing. */
  lemma {:induction false} CreateAnsweredIff(s: Server, fd: int, msg: Msg, mem: Mem)
    requires Inv(s)
    ensures CreateGroup(s, fd, msg, mem).reply.tag == MSG_GROUP_INFO <==>
              && LoggedInOn(s, fd) && ParseGroup(msg).Some? && ParseGroup(msg).value !in Names(s.groups)
              && |s.groups| < MULTICAST_POOL_SIZE && mem.record && mem.list && mem.insert
  {
    CreateIs(s, fd, msg, mem);
    ConservedMeans(s.pool, s.groups);
    if ParseGroup(msg).Some? {
      HasIsName(s.groups, ParseGroup(msg).value);
    }
  }

  lemma {:induction false} HasIsName(groups: Groups, name: CString)
    ensures Has(groups, name) <==> name in Names(groups)
  {
    var i := IndexOf(groups, name);
    if i < |groups| {
      assert groups[i] in groups;
    }
  }

  /** The one pair with this name. */
  lemma {:induction false} OnlyOne<V>(e: seq<Pair<CString, V>>, name: CString)
    requires UniqueNames(e) && Has(e, name)
    ensures forall p :: p in e && p.key == name <==> p == e[IndexOf(e, name)]
  {
    var i := IndexOf(e, name);
    assert e[i] in e;
  }

  /** A member may join again; anybody else needs a group with fewer than 32 members. */
  lemma {:induction false} JoinAnsweredIff(s: Server, fd: int, msg: Msg)
    requires Inv(s)
    ensures JoinGroup(s, fd, msg).reply.tag == MSG_GROUP_INFO <==>
              && LoggedInOn(s, fd) && ParseGroup(msg).Some?
              && exists p :: p in s.groups && p.key == ParseGroup(msg).value
                             && (fd in p.value.members || |p.value.members| < MAX_MEMBERS_PER_GROUP)
  {
    if LoggedInOn(s, fd) && ParseGroup(msg).Some? {
      var i := IndexOf(s.groups, ParseGroup(msg).value);
      if i < |s.groups| {
        AddMemberIs(s, fd, i);
        OnlyOne(s.groups, ParseGroup(msg).value);
      }
    }
  }

  /** Leaving succeeds exactly for the groups the fd is a member of. */
  lemma {:induction false} LeaveAnsweredIff(s: Server, fd: int, msg: Msg)
    requires Inv(s)
    ensures LeaveGroup(s, fd, msg).reply == SuccessMsg() <==>
              ParseGroup(msg).Some? && exists m :: m in Memberships(s.groups, fd) && m.name == ParseGroup(msg).value
  {
    if ParseGroup(msg).Some? {
      var i := IndexOf(s.groups, ParseGroup(msg).value);
      if i < |s.groups| {
        var p := s.groups[i];
        assert p in s.groups;
        assert fd in p.value.members ==> Session(p.key, p.value.address) in Memberships(s.groups, fd);
      }
    }
  }

  // ---- why it says no ----

  /** GROUP_FULL answers a create whose name is taken, never one whose new group is full; SERVER_FULL means that
      sixteen groups are live or memory ran out. */
  lemma {:induction false} CreateRefusals(s: Server, fd: int, msg: Msg, mem: Mem)
    requires Inv(s)
    ensures var reply, named := CreateGroup(s, fd, msg, mem).reply, LoggedInOn(s, fd) && ParseGroup(msg).Some?;
            && (reply == ErrorMsg(ERR_USER_NOT_FOUND) <==> !LoggedInOn(s, fd))
            && (reply == ErrorMsg(ERR_GROUP_NOT_FOUND) <==> LoggedInOn(s, fd) && ParseGroup(msg).None?)
            && (reply == ErrorMsg(ERR_GROUP_FULL) <==> named && ParseGroup(msg).value in Names(s.groups))
            && (reply == ErrorMsg(ERR_SERVER_FULL) <==>
                  && named && ParseGroup(msg).value !in Names(s.groups)
                  && (|s.groups| == MULTICAST_POOL_SIZE || !(mem.record && mem.list && mem.insert)))
  {
    CreateAnsweredIff(s, fd, msg, mem);
    ConservedMeans(s.pool, s.groups);
    if ParseGroup(msg).Some? {
      HasIsName(s.groups, ParseGroup(msg).value);
    }
  }

  /** GROUP_FULL answers a join exactly when the group has 32 members and the sender is none of them. */
  lemma {:induction false} JoinRefusals(s: Server, fd: int, msg: Msg)
    requires Inv(s)
    ensures var reply, named := JoinGroup(s, fd, msg).reply, LoggedInOn(s, fd) && ParseGroup(msg).Some?;
            && (reply == ErrorMsg(ERR_USER_NOT_FOUND) <==> !LoggedInOn(s, fd))
            && (reply == ErrorMsg(ERR_GROUP_NOT_FOUND) <==>
                  LoggedInOn(s, fd) && (named ==> ParseGroup(msg).value !in Names(s.groups)))
            && (reply == ErrorMsg(ERR_GROUP_FULL) <==>
                  && named
                  && exists p :: p in s.groups && p.key == ParseGroup(msg).value
                                 && fd !in p.value.members && |p.value.members| == MAX_MEMBERS_PER_GROUP)
  {
    JoinIs(s, fd, msg);
    if LoggedInOn(s, fd) && ParseGroup(msg).Some? {
      var name := ParseGroup(msg).value;
      HasIsName(s.groups, name);
      if Has(s.groups, name) {
        AddMemberIs(s, fd, IndexOf(s.groups, name));
        OnlyOne(s.groups, name);
      }
    }
  }
}
