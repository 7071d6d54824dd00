/** What it means for the server in memory to be in a state, to have answered a request, and to have made a step. */
module Answers {
  import opened Protocol
  import opened Buffers
  import opened ServerSpec
  import opened ServerContexts
  import opened Conversations

  /** The server stands for `s`, and nothing has been sent. */
  ghost predicate Reached(ctx: ServerContext, s: Server, sent: seq<(int, Msg)>)
    reads ctx, ctx.users, ctx.groups, ctx.Repr()
  {
    ctx.Valid() && ctx.View() == s && ctx.sent == sent
  }

  /** The server stands for the outcome's state, and the outcome's reply is the only thing sent since. */
  ghost predicate Answered(ctx: ServerContext, o: Outcome, before: seq<(int, Msg)>, fd: int)
    reads ctx, ctx.users, ctx.groups, ctx.Repr()
  {
    ctx.Valid() && ctx.View() == o.server && ctx.sent == before + [(fd, o.reply)]
  }

  /** A message on the stack of the caller, and its buffer. */
  ghost predicate Outside(ctx: ServerContext, msg: TLVMessage)
    reads ctx.users, ctx.groups
  {
    msg !in ctx.Repr() && msg.value !in ctx.Repr() && msg.value.Length == TLV_MAX_VALUE_LEN
  }

  predicate Sendable(a: Mcast) {
    BuildGroupInfo(a.ip, a.port).Some?
  }

  /** Every address a reply may have to carry fits into one. */
  ghost predicate AllSendable(s: Server) {
    && (forall p :: p in s.groups ==> Sendable(p.value.address))
    && (forall a :: a in s.pool ==> Sendable(a))
  }

  /** The server has made this step. */
  ghost predicate Stepped(ctx: ServerContext, s: Server, e: Event, before: seq<(int, Msg)>)
    requires Enabled(s, e)
    reads ctx, ctx.users, ctx.groups, ctx.Repr()
  {
    Reached(ctx, Step(s, e), before + Replies(s, e))
  }
}
