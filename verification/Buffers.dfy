/** TLV messages in memory: the fixed-size record the C code fills in place, and the code that builds,
    takes apart, serializes and sends it. */
module Buffers {
  import opened Strings
  import opened Assoc
  import opened Protocol
  import opened Framing

  class TLVMessage {
    var tag: byte
    var length: byte
    const value: array<byte>

    constructor ()
      ensures value.Length == TLV_MAX_VALUE_LEN && fresh(value)
    {
      tag, length := 0, 0;
      value := new byte[TLV_MAX_VALUE_LEN](_ => 0);
    }

    /** The message the record holds. */
    ghost function View(): Msg
      requires value.Length == TLV_MAX_VALUE_LEN
      reads this, value
    {
      Msg(tag, value[..length])
    }
  }

  /** memcpy into a buffer */
  method Copy(dst: array<byte>, at: nat, src: seq<byte>)
    requires at + |src| <= dst.Length
    modifies dst
    ensures dst[at..at + |src|] == src
    ensures dst[..at] == old(dst[..at]) && dst[at + |src|..] == old(dst[at + |src|..])
  {
    var i := 0;
    while i < |src|
      invariant i <= |src|
      invariant dst[at..at + i] == src[..i]
      invariant dst[..at] == old(dst[..at]) && dst[at + |src|..] == old(dst[at + |src|..])
    {
      dst[at + i] := src[i];
      assert dst[at..at + i + 1] == dst[at..at + i] + [src[i]];
      i := i + 1;
    }
  }

  // ---- serialize_msg, deserialize_msg ----

  method SerializeMsg(msg: TLVMessage, buf: array<byte>) returns (outLen: byte)
    requires msg.value.Length == TLV_MAX_VALUE_LEN && buf != msg.value
    requires buf.Length >= 2 + msg.length
    modifies buf
    ensures buf[..2 + msg.length] == Encode(msg.View())
    ensures outLen == (2 + msg.length) % 256
    ensures buf[2 + msg.length..] == old(buf[2 + msg.length..])
  {
    buf[0] := msg.tag;
    buf[1] := msg.length;
    Copy(buf, 2, msg.value[..msg.length]);
    assert buf[..2 + msg.length] == buf[..2] + buf[2..2 + msg.length];
    outLen := (2 + msg.length) % 256;
  }

  method DeserializeMsg(buf: array<byte>, len: byte, msg: TLVMessage) returns (r: int)
    requires msg.value.Length == TLV_MAX_VALUE_LEN && buf != msg.value && len <= buf.Length
    modifies msg, msg.value
    ensures r == 0 <==> Decode(buf[..len]).Some?
    ensures r == 0 ==> msg.View() == Decode(buf[..len]).value.msg
    ensures r != 0 ==> r == -1
  {
    if len < 2 {
      return -1;
    }
    msg.tag := buf[0];
    msg.length := buf[1];
    if msg.length > len - 2 {
      return -1;
    }
    Copy(msg.value, 0, buf[2..2 + msg.length]);
    assert buf[..len][2..2 + msg.length] == buf[2..2 + msg.length];
    return 0;
  }

  // ---- builders ----

  /** The outcome of a builder: it fills the record, or refuses and leaves it alone. */
  twostate predicate Built(msg: TLVMessage, r: int, want: Option<Msg>)
    requires msg.value.Length == TLV_MAX_VALUE_LEN
    reads msg, msg.value
  {
    match want
    case None => r == -1 && msg.View() == old(msg.View())
    case Some(m) => r == 0 && msg.View() == m
  }

  method BuildAuthMsg(msg: TLVMessage, tag: byte, username: CString, password: CString) returns (r: int)
    requires msg.value.Length == TLV_MAX_VALUE_LEN
    modifies msg, msg.value
    ensures Built(msg, r, BuildAuth(tag, username, password))
  {
    if tag != MSG_REGISTER && tag != MSG_LOGIN {
      return -1;
    }
    if !ValidStr(username, MAX_USERNAME_LEN) || !ValidStr(password, MAX_PASSWORD_LEN) {
      return -1;
    }
    msg.tag := tag;
    msg.length := 1 + |username| + 1 + |password|;
    FillAuth(msg.value, username, password);
    return 0;
  }

  /** The value part, with its running offset. */
  method FillAuth(value: array<byte>, username: seq<byte>, password: seq<byte>)
    requires |username| < 256 && |password| < 256 && 2 + |username| + |password| <= value.Length
    modifies value
    ensures value[..1 + |username| + 1 + |password|] == [|username|] + username + [|password|] + password
  {
    var ulen, plen := |username|, |password|;
    var offset := 0;
    value[offset] := ulen;
    offset := offset + 1;
    Copy(value, offset, username);
    offset := offset + ulen;
    value[offset] := plen;
    offset := offset + 1;
    ghost var first := value[..];
    assert first[0] == ulen && first[1..1 + ulen] == username && first[1 + ulen] == plen;
    Copy(value, offset, password);
    AuthLaidOut(first, value[..], ulen, plen);
  }

  /** The four fields behind each other, the last of them copied behind the others. */
  lemma {:induction false} AuthLaidOut(first: seq<byte>, v: seq<byte>, ulen: nat, plen: nat)
    requires |first| == |v| && ulen + plen + 2 <= |v|
    requires v[..2 + ulen] == first[..2 + ulen]
    ensures v[..1 + ulen + 1 + plen] == [first[0]] + first[1..1 + ulen] + [first[1 + ulen]] + v[2 + ulen..2 + ulen + plen]
  {
    HeadAndParts(v, 1 + ulen, 2 + ulen + plen);
    SplitSlice(v, 1 + ulen, 2 + ulen, 2 + ulen + plen);
    SliceOfPrefix(v, 2 + ulen, 1, 1 + ulen);
    SliceOfPrefix(first, 2 + ulen, 1, 1 + ulen);
    assert v[0] == v[..2 + ulen][0] && v[1 + ulen] == v[..2 + ulen][1 + ulen];
    assert v[1 + ulen..2 + ulen] == [first[1 + ulen]];
    Regroup([v[0]] + v[1..1 + ulen], v[1 + ulen..2 + ulen], v[2 + ulen..2 + ulen + plen]);
  }

  method BuildGroupMsg(msg: TLVMessage, tag: byte, name: CString) returns (r: int)
    requires msg.value.Length == TLV_MAX_VALUE_LEN
    modifies msg, msg.value
    ensures Built(msg, r, BuildGroup(tag, name))
  {
    if tag != MSG_JOIN_GROUP && tag != MSG_LEAVE_GROUP && tag != MSG_CREATE_GROUP {
      return -1;
    }
    if !ValidStr(name, MAX_GROUP_NAME_LEN) {
      return -1;
    }
    msg.tag := tag;
    msg.length := 1 + |name|;
    msg.value[0] := |name|;
    Copy(msg.value, 1, name);
    assert msg.value[..msg.length] == msg.value[..1] + msg.value[1..1 + |name|];
    return 0;
  }

  method BuildSimpleMsg(msg: TLVMessage, tag: byte) returns (r: int)
    requires msg.value.Length == TLV_MAX_VALUE_LEN
    modifies msg
    ensures Built(msg, r, BuildSimple(tag))
  {
    if tag != MSG_LOGOUT && tag != MSG_EXIT {
      return -1;
    }
    msg.tag := tag;
    msg.length := 0;
    return 0;
  }

  method BuildSuccessMsg(msg: TLVMessage) returns (r: int)
    requires msg.value.Length == TLV_MAX_VALUE_LEN
    modifies msg, msg.value
    ensures Built(msg, r, Some(SuccessMsg()))
  {
    msg.tag := MSG_SUCCESS;
    msg.length := 1;
    msg.value[0] := 0;
    return 0;
  }

  method BuildErrorMsg(msg: TLVMessage, code: byte) returns (r: int)
    requires msg.value.Length == TLV_MAX_VALUE_LEN
    modifies msg, msg.value
    ensures Built(msg, r, Some(ErrorMsg(code)))
  {
    msg.tag := MSG_ERROR;
    msg.length := 1;
    msg.value[0] := code;
    return 0;
  }

  method BuildGroupInfoMsg(msg: TLVMessage, ip: CString, p: port) returns (r: int)
    requires msg.value.Length == TLV_MAX_VALUE_LEN
    modifies msg, msg.value
    ensures Built(msg, r, BuildGroupInfo(ip, p))
  {
    if !ValidStr(ip, MAX_IP_LEN) {
      return -1;
    }
    var network := [p / 256, p % 256];
    msg.tag := MSG_GROUP_INFO;
    msg.length := 1 + |ip| + 2;
    msg.value[0] := |ip|;
    Copy(msg.value, 1, ip);
    ghost var first := msg.value[..];
    Copy(msg.value, 1 + |ip|, network);
    ghost var v := msg.value[..];
    SliceOfPrefix(first, 1 + |ip|, 1, 1 + |ip|);
    SliceOfPrefix(v, 1 + |ip|, 1, 1 + |ip|);
    HeadAndParts(v, 1 + |ip|, msg.length);
    assert v[0] == first[..1][0];
    return 0;
  }

  // ---- parsers ----

  /** Copies bytes to the start of a buffer and terminates them; the buffer then reads as their C string. */
  method CopyString(dst: array<byte>, src: seq<byte>)
    requires |src| < dst.Length
    modifies dst
    ensures 0 in dst[..] && CStr(dst[..]) == CStr(src)
  {
    Copy(dst, 0, src);
    dst[|src|] := 0;
    assert dst[0..|src|] == src;
    assert dst[..] == src + [0] + dst[|src| + 1..];
    CStrOfPrefix(src, dst[|src| + 1..]);
  }

  lemma {:induction false} CStrOfPrefix(s: seq<byte>, rest: seq<byte>)
    ensures CStr(s + [0] + rest) == CStr(s)
  {
    if s == [] {
      assert s + [0] + rest == [0] + rest;
    } else {
      CStrOfPrefix(s[1..], rest);
      assert (s + [0] + rest)[1..] == s[1..] + [0] + rest;
    }
  }

  method CopyStrings(dst1: array<byte>, src1: seq<byte>, dst2: array<byte>, src2: seq<byte>)
    requires |src1| < dst1.Length && |src2| < dst2.Length && dst1 != dst2
    modifies dst1, dst2
    ensures 0 in dst1[..] && CStr(dst1[..]) == CStr(src1)
    ensures 0 in dst2[..] && CStr(dst2[..]) == CStr(src2)
  {
    CopyString(dst1, src1);
    CopyString(dst2, src2);
  }

  /** Whether the two lengths at their places in the buffer fit each other, the length of the value, and the limits. */
  predicate AuthFits(v: seq<byte>, n: byte)
    requires |v| == TLV_MAX_VALUE_LEN
  {
    && n >= 2 && 2 + v[0] as int <= n && 2 + v[0] as int + v[1 + v[0] as int] as int == n
    && 0 < v[0] < MAX_USERNAME_LEN && 0 < v[1 + v[0] as int] < MAX_PASSWORD_LEN
  }

  /** Parsing in terms of the whole buffer of the record. */
  lemma {:induction false} ParseAuthIs(tag: byte, v: seq<byte>, n: byte)
    requires |v| == TLV_MAX_VALUE_LEN
    ensures ParseAuth(Msg(tag, v[..n]))
            == if AuthFits(v, n) then Some(Auth(CStr(v[1..1 + v[0] as int]), CStr(v[2 + v[0] as int..n]))) else None
  {
    var pos := 1 + v[0] as int;
    if n >= 2 && pos + 1 <= n {
      SliceOfPrefix(v, n, 1, pos);
      SliceOfPrefix(v, n, pos + 1, n);
    }
  }

  /** The checks of parse_auth_value. */
  method CheckAuth(v: seq<byte>, length: byte) returns (ok: bool)
    requires |v| == TLV_MAX_VALUE_LEN
    ensures ok == AuthFits(v, length)
  {
    if length < 2 {
      return false;
    }
    var ulen := v[0];
    var pos := 1 + ulen as int;
    if pos + 1 > length {
      return false;
    }
    var plen := v[pos];
    if pos + 1 + plen as int != length {
      return false;
    }
    if ulen == 0 || ulen >= MAX_USERNAME_LEN {
      return false;
    }
    return 0 < plen && plen < MAX_PASSWORD_LEN;
  }

  /** parse_auth_value */
  method ParseAuthValue(msg: TLVMessage, uname: array<byte>, pass: array<byte>) returns (r: int)
    requires msg.value.Length == TLV_MAX_VALUE_LEN
    requires uname.Length == MAX_USERNAME_LEN && pass.Length == MAX_PASSWORD_LEN
    requires uname != pass && msg.value != uname && msg.value != pass
    modifies uname, pass
    ensures match ParseAuth(msg.View())
            case None => r == -1 && uname[..] == old(uname[..]) && pass[..] == old(pass[..])
            case Some(a) => r == 0 && 0 in uname[..] && 0 in pass[..] && CStr(uname[..]) == a.user && CStr(pass[..]) == a.pass
  {
    var v := msg.value[..];
    ghost var m := msg.View();
    assert m == Msg(msg.tag, v[..msg.length]);
    ParseAuthIs(msg.tag, v, msg.length);
    var ok := CheckAuth(v, msg.length);
    if !ok {
      return -1;
    }
    CopyStrings(uname, v[1..1 + v[0] as int], pass, v[2 + v[0] as int..msg.length]);
    assert msg.View() == m;
    return 0;
  }

  /** parse_group_value */
  method ParseGroupValue(msg: TLVMessage, gname: array<byte>) returns (r: int)
    requires msg.value.Length == TLV_MAX_VALUE_LEN
    requires gname.Length == MAX_GROUP_NAME_LEN && msg.value != gname
    modifies gname
    ensures match ParseGroup(msg.View())
            case None => r == -1 && gname[..] == old(gname[..])
            case Some(name) => r == 0 && 0 in gname[..] && CStr(gname[..]) == name
  {
    if msg.length < 1 {
      return -1;
    }
    ghost var v := msg.value[..msg.length];
    var glen := msg.value[0];
    if 1 + glen as int != msg.length {
      return -1;
    }
    if glen == 0 || glen >= MAX_GROUP_NAME_LEN {
      return -1;
    }
    CopyString(gname, msg.value[1..1 + glen as int]);
    assert v[1..] == msg.value[1..1 + glen as int];
    return 0;
  }

  /** The check of parse_group_info, with its eight-bit sum. */
  predicate InfoFits(tag: byte, v: seq<byte>, n: byte)
    requires |v| == TLV_MAX_VALUE_LEN
  {
    tag == MSG_GROUP_INFO && n >= 3 && (1 + v[0] as int + 2) % 256 <= n && v[0] < MAX_IP_LEN
  }

  lemma {:induction false} ParseGroupInfoIs(tag: byte, v: seq<byte>, n: byte)
    requires |v| == TLV_MAX_VALUE_LEN
    ensures ParseGroupInfo(Msg(tag, v[..n]))
            == if InfoFits(tag, v, n)
               then Some(Mcast(CStr(v[1..1 + v[0] as int]), 256 * (v[1 + v[0] as int] as int) + v[2 + v[0] as int]))
               else None
  {
    if InfoFits(tag, v, n) {
      SliceOfPrefix(v, n, 1, 1 + v[0] as int);
    }
  }

  method CheckInfo(tag: byte, v: seq<byte>, length: byte) returns (ok: bool)
    requires |v| == TLV_MAX_VALUE_LEN
    ensures ok == InfoFits(tag, v, length)
  {
    if tag != MSG_GROUP_INFO || length < 3 {
      return false;
    }
    var ipLen := v[0];
    if (1 + ipLen as int + 2) % 256 > length || ipLen >= MAX_IP_LEN {
      return false;
    }
    return true;
  }

  /** parse_group_info */
  method ParseGroupInfoMsg(msg: TLVMessage, ip: array<byte>) returns (r: int, p: port)
    requires msg.value.Length == TLV_MAX_VALUE_LEN
    requires ip.Length >= MAX_IP_LEN && msg.value != ip
    modifies ip
    ensures match ParseGroupInfo(msg.View())
            case None => r == -1 && ip[..] == old(ip[..])
            case Some(a) => r == 0 && 0 in ip[..] && CStr(ip[..]) == a.ip && p == a.port
  {
    var v := msg.value[..];
    ghost var m := msg.View();
    assert m == Msg(msg.tag, v[..msg.length]);
    ParseGroupInfoIs(msg.tag, v, msg.length);
    var ok := CheckInfo(msg.tag, v, msg.length);
    if !ok {
      return -1, 0;
    }
    var ipLen := v[0];
    CopyString(ip, v[1..1 + ipLen as int]);
    p := 256 * (v[1 + ipLen as int] as int) + v[2 + ipLen as int];
    assert msg.View() == m;
    return 0, p;
  }
}
