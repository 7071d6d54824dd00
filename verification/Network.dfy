/** Reading and writing messages on a socket, with short reads and writes. */
module Network {
  import opened Strings
  import opened Assoc
  import opened Protocol
  import opened Framing
  import opened Buffers

  /** One end of a TCP connection: the bytes that will still arrive and the bytes handed over for sending.
      A reliable connection fails only at the end of its input. */
  class Socket {
    var inbox: seq<byte>
    var outbox: seq<byte>
    const reliable: bool

    constructor (incoming: seq<byte>, reliable: bool)
      ensures inbox == incoming && outbox == [] && this.reliable == reliable
    {
      inbox, outbox, this.reliable := incoming, [], reliable;
    }

    /** read: some of the next bytes, how many is up to the network; nothing at the end or on an error. */
    method Read(max: nat) returns (chunk: seq<byte>)
      requires max > 0
      modifies this`inbox
      ensures |chunk| <= max && old(inbox) == chunk + inbox
      ensures reliable ==> (chunk == [] <==> old(inbox) == [])
    {
      var n: nat :| n <= |inbox| && n <= max && (reliable && inbox != [] ==> n > 0) by {
        assert (if inbox == [] then 0 else 1) <= |inbox|;
      }
      chunk := inbox[..n];
      inbox := inbox[n..];
    }

    /** write: some of the given bytes; none on an error. */
    method Write(bytes: seq<byte>) returns (n: nat)
      requires bytes != []
      modifies this`outbox
      ensures n <= |bytes| && outbox == old(outbox) + bytes[..n]
      ensures reliable ==> n > 0
    {
      n :| n <= |bytes| && (reliable ==> n > 0) by {
        assert 1 <= |bytes|;
      }
      outbox := outbox + bytes[..n];
    }
  }

  /** One more chunk behind the part that is filled already. */
  lemma {:induction false} Filled(before: seq<byte>, after: seq<byte>, at: nat, n: nat, chunk: seq<byte>, len: nat)
    requires |before| == |after| && at + n + |chunk| <= at + len <= |after|
    requires after[..at + n] == before[..at + n] && after[at + n..at + n + |chunk|] == chunk
    requires after[at + n + |chunk|..] == before[at + n + |chunk|..]
    ensures after[at..at + n + |chunk|] == before[at..at + n] + chunk
    ensures after[..at] == before[..at] && after[at + len..] == before[at + len..]
  {
    SplitSlice(after, at, at + n, at + n + |chunk|);
    SliceOfPrefix(after, at + n, at, at + n);
    SliceOfPrefix(before, at + n, at, at + n);
    SliceOfPrefix(after, at + n, 0, at);
    SliceOfPrefix(before, at + n, 0, at);
    SliceOfSuffix(after, at + n + |chunk|, at + len);
    SliceOfSuffix(before, at + n + |chunk|, at + len);
  }

  /** recv_all, and the reading loops of net_read_msg: exactly `len` bytes into the buffer from `at` on. */
  method ReadExactly(sock: Socket, buf: array<byte>, at: nat, len: nat) returns (r: int)
    requires at + len <= buf.Length
    modifies sock`inbox, buf
    ensures r == 0 || r == -1
    ensures r == 0 ==> buf[at..at + len] + sock.inbox == old(sock.inbox)
    ensures buf[..at] == old(buf[..at]) && buf[at + len..] == old(buf[at + len..])
    ensures sock.reliable ==> (r == 0 <==> |old(sock.inbox)| >= len)
  {
    var n := 0;
    while n < len
      invariant n <= len
      invariant buf[at..at + n] + sock.inbox == old(sock.inbox)
      invariant buf[..at] == old(buf[..at]) && buf[at + len..] == old(buf[at + len..])
    {
      var chunk := sock.Read(len - n);
      if chunk == [] {
        assert sock.reliable ==> |old(sock.inbox)| == n;
        return -1;
      }
      ghost var before := buf[..];
      Copy(buf, at + n, chunk);
      Filled(before, buf[..], at, n, chunk, len);
      Regroup(before[at..at + n], chunk, sock.inbox);
      n := n + |chunk|;
    }
    return 0;
  }

  /** send_all, and the writing loop of net_send_msg: all of the first `len` bytes of the buffer. */
  method WriteExactly(sock: Socket, buf: array<byte>, len: nat) returns (r: int)
    requires len <= buf.Length
    modifies sock`outbox
    ensures r == 0 || r == -1
    ensures r == 0 ==> sock.outbox == old(sock.outbox) + buf[..len]
    ensures r != 0 ==> exists k :: 0 <= k < len && sock.outbox == old(sock.outbox) + buf[..k]
    ensures sock.reliable ==> r == 0
  {
    var sent := 0;
    assert buf[..0] == [];
    while sent < len
      invariant sent <= len
      invariant sock.outbox == old(sock.outbox) + buf[..sent]
      decreases len - sent, if sock.reliable then 0 else 1
    {
      var w := sock.Write(buf[sent..len]);
      if w == 0 {
        assert buf[sent..len][..0] == [];
        return -1;
      }
      assert buf[..sent] + buf[sent..len][..w] == buf[..sent + w];
      sent := sent + w;
    }
    return 0;
  }

  // ---- the server's half ----

  method NetReadMsg(sock: Socket, msg: TLVMessage) returns (r: int)
    requires msg.value.Length == TLV_MAX_VALUE_LEN
    modifies sock`inbox, msg, msg.value
    ensures r == 0 || r == -1
    ensures r == 0 ==> Decode(old(sock.inbox)) == Some(Frame(msg.View(), sock.inbox))
    ensures sock.reliable ==> (r == 0 <==> Decode(old(sock.inbox)).Some?)
  {
    var header := new byte[2];
    r := ReadExactly(sock, header, 0, 2);
    if r != 0 {
      return -1;
    }
    ghost var afterHeader := sock.inbox;
    assert old(sock.inbox)[0] == header[0] && old(sock.inbox)[1] == header[1];
    assert old(sock.inbox)[2..] == afterHeader;
    msg.tag := header[0];
    msg.length := header[1];
    if msg.length == 0 {
      assert old(sock.inbox)[2..2] == msg.value[..0];
      return 0;
    }
    r := ReadExactly(sock, msg.value, 0, msg.length);
    if r != 0 {
      return -1;
    }
    assert afterHeader[..msg.length] == msg.value[..msg.length] && afterHeader[msg.length..] == sock.inbox;
    assert old(sock.inbox)[2..2 + msg.length] == afterHeader[..msg.length];
    assert old(sock.inbox)[2 + msg.length..] == afterHeader[msg.length..];
    return 0;
  }

  method NetSendMsg(sock: Socket, msg: TLVMessage) returns (r: int)
    requires msg.value.Length == TLV_MAX_VALUE_LEN
    modifies sock`outbox
    ensures r == 0 || r == -1
    ensures r == 0 ==> sock.outbox == old(sock.outbox) + Wire(msg.View())
    ensures sock.reliable ==> r == 0
  {
    var buf := new byte[2 + TLV_MAX_VALUE_LEN];
    var outLen := SerializeMsg(msg, buf);
    assert buf[..outLen] == buf[..2 + msg.length][..outLen];
    r := WriteExactly(sock, buf, outLen);
  }

  // ---- the client's half ----

  /** net_send_recv: the request goes out as it is sent by the server too; the reply is the next message of the
      stream, unless it is one of those whose length no eight-bit total can carry. */
  method NetSendRecv(sock: Socket, request: TLVMessage, response: TLVMessage) returns (r: int)
    requires request.value.Length == TLV_MAX_VALUE_LEN && response.value.Length == TLV_MAX_VALUE_LEN
    requires request != response && request.value != response.value
    modifies sock, response, response.value
    ensures r == 0 || r == -1
    ensures r == 0 ==> sock.outbox == old(sock.outbox) + Wire(request.View())
    ensures r == 0 ==> Decode(old(sock.inbox)) == Some(Frame(response.View(), sock.inbox))
    ensures sock.reliable ==>
              (r == 0 <==> Decode(old(sock.inbox)).Some? && |Decode(old(sock.inbox)).value.msg.value| <= 253)
  {
    var sendBuf := new byte[TLV_MAX_VALUE_LEN + 2];
    var outLen := SerializeMsg(request, sendBuf);
    assert sendBuf[..outLen] == sendBuf[..2 + request.length][..outLen];
    r := WriteExactly(sock, sendBuf, outLen);
    if r != 0 {
      return -1;
    }
    var recvBuf := new byte[TLV_MAX_VALUE_LEN + 2];
    r := ReceiveReply(sock, recvBuf, response);
  }

  /** The receiving part: header, value, and their deserialization. */
  method ReceiveReply(sock: Socket, buf: array<byte>, response: TLVMessage) returns (r: int)
    requires response.value.Length == TLV_MAX_VALUE_LEN && buf.Length == TLV_MAX_VALUE_LEN + 2 && buf != response.value
    modifies sock`inbox, buf, response, response.value
    ensures r == 0 || r == -1
    ensures r == 0 ==> Decode(old(sock.inbox)) == Some(Frame(response.View(), sock.inbox))
    ensures sock.reliable ==>
              (r == 0 <==> Decode(old(sock.inbox)).Some? && |Decode(old(sock.inbox)).value.msg.value| <= 253)
  {
    ghost var stream := sock.inbox;
    r := ReadExactly(sock, buf, 0, 2);
    if r != 0 {
      return -1;
    }
    var length := buf[1];
    assert stream[0] == buf[0] && stream[1] == buf[1] && stream[2..] == sock.inbox;
    if length > 0 {
      r := ReadExactly(sock, buf, 2, length);
      if r != 0 {
        return -1;
      }
    }
    assert buf[..2 + length] + sock.inbox == stream by {
      SplitSlice(buf[..], 0, 2, 2 + length as int);
      assert buf[..2 + length] == buf[..2] + buf[2..2 + length];
      Regroup(buf[..2], buf[2..2 + length], sock.inbox);
    }
    ReplyDecodes(buf[..2 + length], sock.inbox);
    assert buf[..2 + length][1] == length;
    r := DeserializeMsg(buf, (2 + length as int) % 256, response);
    if r != 0 {
      return -1;
    }
    return 0;
  }

  /** Header and value of a message, and the rest of the stream behind them. */
  lemma {:induction false} ReplyDecodes(message: seq<byte>, rest: seq<byte>)
    requires |message| >= 2 && |message| == 2 + message[1] as int
    ensures Decode(message) == Some(Frame(Msg(message[0], message[2..]), []))
    ensures Decode(message + rest) == Some(Frame(Msg(message[0], message[2..]), rest))
  {
    DecodeEncode(Msg(message[0], message[2..]), []);
    DecodeEncode(Msg(message[0], message[2..]), rest);
    assert message == Encode(Msg(message[0], message[2..])) && message + [] == message;
  }

  // ---- many messages ----

  /** net_send_msg for one message after the other, until one cannot be sent. */
  method SendAllMsgs(sock: Socket, ms: seq<Msg>) returns (r: int)
    modifies sock`outbox
    ensures r == 0 || r == -1
    ensures r == 0 ==> sock.outbox == old(sock.outbox) + WireAll(ms)
    ensures sock.reliable ==> r == 0
  {
    r := 0;
    for i := 0 to |ms|
      invariant sock.outbox + WireAll(ms[i..]) == old(sock.outbox) + WireAll(ms)
    {
      var msg := new TLVMessage();
      msg.tag, msg.length := ms[i].tag, |ms[i].value|;
      Copy(msg.value, 0, ms[i].value);
      assert msg.View() == ms[i] && ms[i..][1..] == ms[i + 1..];
      ghost var before := sock.outbox;
      r := NetSendMsg(sock, msg);
      if r != 0 {
        return;
      }
      Regroup(before, Wire(ms[i]), WireAll(ms[i + 1..]));
    }
    assert ms[|ms|..] == [];
  }

  /** net_read_msg again and again until it fails: on a reliable connection, exactly the messages of the stream. */
  method ReadAllMsgs(sock: Socket) returns (ms: seq<Msg>)
    modifies sock`inbox
    ensures ms <= DecodeAll(old(sock.inbox))
    ensures sock.reliable ==> ms == DecodeAll(old(sock.inbox))
  {
    ms := [];
    ghost var stream := sock.inbox;
    while true
      invariant DecodeAll(stream) == ms + DecodeAll(sock.inbox)
      decreases |sock.inbox|
    {
      ghost var before := sock.inbox;
      var msg := new TLVMessage();
      var r := NetReadMsg(sock, msg);
      if r != 0 {
        assert DecodeAll(before) == [] || !sock.reliable;
        assert ms <= ms + DecodeAll(before);
        return;
      }
      var m := Msg(msg.tag, msg.value[..msg.length]);
      Regroup(ms, [m], DecodeAll(sock.inbox));
      ms := ms + [m];
    }
  }

  /** From one end of a reliable connection to the other, however the bytes are split up on the way: what is read is
      what was sent if and only if no message has more than 253 bytes. */
  method Transmit(ms: seq<Msg>) returns (arrived: seq<Msg>)
    ensures arrived == DecodeAll(WireAll(ms))
    ensures arrived == ms <==> AllFit(ms)
  {
    var sender := new Socket([], true);
    var _ := SendAllMsgs(sender, ms);
    var receiver := new Socket(sender.outbox, true);
    arrived := ReadAllMsgs(receiver);
    assert [] + WireAll(ms) == WireAll(ms);
    StreamRoundTripIff(ms);
  }
}
