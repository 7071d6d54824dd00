/** Messages on a byte stream: what a sender writes and what a reader makes of it. */
module Framing {
  import opened Strings
  import opened Assoc
  import opened Protocol

  /** Header and value, as `serialize_msg` lays them out. */
  function Encode(m: Msg): seq<byte> {
    [m.tag, |m.value|] + m.value
  }

  /** What is sent: the eight-bit total of the sender wraps for values of 254 and 255 bytes. */
  function Wire(m: Msg): seq<byte> {
    Encode(m)[..(2 + |m.value|) % 256]
  }

  datatype Frame = Frame(msg: Msg, rest: seq<byte>)

  /** The first complete message at the head of a stream. */
  function Decode(b: seq<byte>): (f: Option<Frame>)
    ensures f.Some? ==> |f.value.rest| < |b| && b == Encode(f.value.msg) + f.value.rest
  {
    if |b| < 2 || |b| < 2 + b[1] as int then None
    else Some(Frame(Msg(b[0], b[2..2 + b[1] as int]), b[2 + b[1] as int..]))
  }

  /** Message after message until the stream ends or the next one is incomplete. */
  function DecodeAll(b: seq<byte>): seq<Msg>
    decreases |b|
  {
    match Decode(b)
    case None => []
    case Some(f) => [f.msg] + DecodeAll(f.rest)
  }

  function WireAll(ms: seq<Msg>): seq<byte> {
    if ms == [] then [] else Wire(ms[0]) + WireAll(ms[1..])
  }

  lemma {:induction false} DecodeEncode(m: Msg, rest: seq<byte>)
    ensures Decode(Encode(m) + rest) == Some(Frame(m, rest))
  {
    var b := Encode(m) + rest;
    assert b[2..2 + |m.value|] == m.value && b[2 + |m.value|..] == rest;
  }

  /** One message arrives as it was sent exactly when its value has at most 253 bytes. */
  lemma {:induction false} WireRoundTripIff(m: Msg)
    ensures Decode(Wire(m)) == Some(Frame(m, [])) <==> |m.value| <= 253
  {
    if |m.value| <= 253 {
      assert Wire(m) == Encode(m) + [];
      DecodeEncode(m, []);
    }
  }

  // ---- lists of messages ----

  predicate AllFit(ms: seq<Msg>) {
    forall m :: m in ms ==> |m.value| <= 253
  }

  lemma {:induction false} StreamRoundTrip(ms: seq<Msg>)
    requires AllFit(ms)
    ensures DecodeAll(WireAll(ms)) == ms
  {
    if ms != [] {
      assert Wire(ms[0]) == Encode(ms[0]);
      DecodeEncode(ms[0], WireAll(ms[1..]));
      StreamRoundTrip(ms[1..]);
    }
  }

  /** How many bytes the messages take with nothing cut off. */
  function TotalLength(ms: seq<Msg>): nat {
    if ms == [] then 0 else 2 + |ms[0].value| + TotalLength(ms[1..])
  }

  lemma {:induction false} DecodedFits(b: seq<byte>)
    ensures TotalLength(DecodeAll(b)) <= |b|
    decreases |b|
  {
    var f := Decode(b);
    if f.Some? {
      DecodedFits(f.value.rest);
      assert |b| == |Encode(f.value.msg)| + |f.value.rest|;
    }
  }

  lemma {:induction false} WireIsShorter(ms: seq<Msg>)
    ensures |WireAll(ms)| <= TotalLength(ms)
    ensures |WireAll(ms)| == TotalLength(ms) ==> AllFit(ms)
  {
    if ms != [] {
      WireIsShorter(ms[1..]);
      assert |Wire(ms[0])| == (2 + |ms[0].value|) % 256;
      assert forall m :: m in ms ==> m == ms[0] || m in ms[1..];
    }
  }

  /** Messages sent back to back are read as they were sent, one by one, if and only if none has more than 253 bytes. */
  lemma {:induction false} StreamRoundTripIff(ms: seq<Msg>)
    ensures DecodeAll(WireAll(ms)) == ms <==> AllFit(ms)
  {
    if AllFit(ms) {
      StreamRoundTrip(ms);
    } else if DecodeAll(WireAll(ms)) == ms {
      DecodedFits(WireAll(ms));
      WireIsShorter(ms);
    }
  }

  /** From the strings on one side to the strings on the other: built, serialized, sent, read, taken apart. */
  lemma {:induction false} BuiltMessagesArrive(tag: byte, a: CString, b: CString, p: port)
    ensures BuildAuth(tag, a, b).Some? ==>
              match Decode(Wire(BuildAuth(tag, a, b).value)) case None => false
              case Some(f) => ParseAuth(f.msg) == Some(Auth(a, b)) && f.rest == []
    ensures BuildGroup(tag, a).Some? ==>
              match Decode(Wire(BuildGroup(tag, a).value)) case None => false
              case Some(f) => ParseGroup(f.msg) == Some(a) && f.rest == []
    ensures BuildGroupInfo(a, p).Some? ==>
              match Decode(Wire(BuildGroupInfo(a, p).value)) case None => false
              case Some(f) => ParseGroupInfo(f.msg) == Some(Mcast(a, p)) && f.rest == []
  {
    BuildersAreShort(tag, a, b, p);
    if BuildAuth(tag, a, b).Some? {
      WireRoundTripIff(BuildAuth(tag, a, b).value);
      AuthRoundTrip(tag, a, b);
    }
    if BuildGroup(tag, a).Some? {
      WireRoundTripIff(BuildGroup(tag, a).value);
      GroupRoundTrip(tag, a);
    }
    if BuildGroupInfo(a, p).Some? {
      WireRoundTripIff(BuildGroupInfo(a, p).value);
      GroupInfoRoundTrip(a, p);
    }
  }
}
