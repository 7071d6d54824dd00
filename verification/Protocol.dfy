/** The TLV messages exchanged by clients and server, as values. */
module Protocol {
  import opened Strings
  import opened Assoc

  const MAX_USERNAME_LEN := 32
  const MAX_PASSWORD_LEN := 64
  const MAX_GROUP_NAME_LEN := 32
  const MAX_IP_LEN := 16
  const TLV_MAX_VALUE_LEN := 256

  const MSG_REGISTER: byte := 1
  const MSG_LOGIN: byte := 2
  const MSG_LOGOUT: byte := 3
  const MSG_EXIT: byte := 4
  const MSG_JOIN_GROUP: byte := 5
  const MSG_LEAVE_GROUP: byte := 6
  const MSG_CREATE_GROUP: byte := 7
  const MSG_SUCCESS: byte := 100
  const MSG_ERROR: byte := 101
  const MSG_GROUP_INFO: byte := 102

  const ERR_NONE: byte := 0
  const ERR_USER_EXISTS: byte := 1
  const ERR_USER_NOT_FOUND: byte := 2
  const ERR_WRONG_PASSWORD: byte := 3
  const ERR_ALREADY_LOGGED_IN: byte := 4
  const ERR_GROUP_NOT_FOUND: byte := 5
  const ERR_GROUP_FULL: byte := 6
  const ERR_NOT_IN_GROUP: byte := 7
  const ERR_SERVER_FULL: byte := 8

  const MAX_GROUPS := 16

  type port = p: int | 0 <= p < 0x1_0000

  /** A multicast address. */
  datatype Mcast = Mcast(ip: CString, port: port)

  /** A group and where its chat takes place, as told to a member. */
  datatype Session = Session(name: CString, address: Mcast)

  /** A message; its length byte is the number of value bytes. */
  datatype RawMsg = Msg(tag: byte, value: seq<byte>)
  type Msg = m: RawMsg | |m.value| < 256 witness Msg(0, [])

  // ---- builders ----

  predicate ValidStr(s: CString, max: nat) {
    0 < |s| < max
  }

  function BuildAuth(tag: byte, user: CString, pass: CString): Option<Msg> {
    if tag != MSG_REGISTER && tag != MSG_LOGIN then None
    else if !ValidStr(user, MAX_USERNAME_LEN) || !ValidStr(pass, MAX_PASSWORD_LEN) then None
    else Some(Msg(tag, [|user|] + user + [|pass|] + pass))
  }

  function BuildGroup(tag: byte, name: CString): Option<Msg> {
    if tag != MSG_JOIN_GROUP && tag != MSG_LEAVE_GROUP && tag != MSG_CREATE_GROUP then None
    else if !ValidStr(name, MAX_GROUP_NAME_LEN) then None
    else Some(Msg(tag, [|name|] + name))
  }

  function BuildSimple(tag: byte): Option<Msg> {
    if tag != MSG_LOGOUT && tag != MSG_EXIT then None else Some(Msg(tag, []))
  }

  function SuccessMsg(): Msg {
    Msg(MSG_SUCCESS, [0])
  }

  function ErrorMsg(code: byte): Msg {
    Msg(MSG_ERROR, [code])
  }

  /** The port travels as two bytes, the high one first. */
  function BuildGroupInfo(ip: CString, p: port): Option<Msg> {
    if !ValidStr(ip, MAX_IP_LEN) then None
    else Some(Msg(MSG_GROUP_INFO, [|ip|] + ip + [p / 256, p % 256]))
  }

  // ---- parsers ----

  datatype Auth = Auth(user: CString, pass: CString)

  function ParseAuth(m: Msg): Option<Auth> {
    var v := m.value;
    if |v| < 2 then None else
    var ulen := v[0];
    var pos := 1 + ulen;
    if pos + 1 > |v| then None else
    var plen := v[pos];
    if pos + 1 + plen != |v| then None
    else if ulen == 0 || ulen >= MAX_USERNAME_LEN || plen == 0 || plen >= MAX_PASSWORD_LEN then None
    else Some(Auth(CStr(v[1..pos]), CStr(v[pos + 1..])))
  }

  function ParseGroup(m: Msg): Option<CString> {
    var v := m.value;
    if |v| < 1 || 1 + v[0] as int != |v| || v[0] == 0 || v[0] >= MAX_GROUP_NAME_LEN then None
    else Some(CStr(v[1..]))
  }

  /** The length test is made on eight bits; the test on `ipLen` catches what it lets through. */
  function ParseGroupInfo(m: Msg): Option<Mcast> {
    var v := m.value;
    if m.tag != MSG_GROUP_INFO || |v| < 3 then None else
    var ipLen := v[0];
    if (1 + ipLen + 2) % 256 > |v| || ipLen >= MAX_IP_LEN then None
    else Some(Mcast(CStr(v[1..1 + ipLen]), 256 * (v[1 + ipLen] as int) + v[2 + ipLen]))
  }

  // ---- round trips ----

  /** Every user name and password the client may send is recovered by the server. */
  lemma {:induction false} AuthRoundTrip(tag: byte, user: CString, pass: CString)
    requires BuildAuth(tag, user, pass).Some?
    ensures ParseAuth(BuildAuth(tag, user, pass).value) == Some(Auth(user, pass))
  {
    var v := BuildAuth(tag, user, pass).value.value;
    FieldsOf(|user| as byte, user, |pass| as byte, pass);
    CStrOfTerminated(user, []);
    CStrOfTerminated(pass, []);
  }

  lemma {:induction false} GroupRoundTrip(tag: byte, name: CString)
    requires BuildGroup(tag, name).Some?
    ensures ParseGroup(BuildGroup(tag, name).value) == Some(name)
  {
    assert BuildGroup(tag, name).value.value[1..] == name;
    CStrOfTerminated(name, []);
  }

  lemma {:induction false} GroupInfoRoundTrip(ip: CString, p: port)
    requires BuildGroupInfo(ip, p).Some?
    ensures ParseGroupInfo(BuildGroupInfo(ip, p).value) == Some(Mcast(ip, p))
  {
    var v := BuildGroupInfo(ip, p).value.value;
    assert v[1..1 + |ip|] == ip && v[1 + |ip|] == p / 256 && v[2 + |ip|] == p % 256;
    CStrOfTerminated(ip, []);
  }

  /** The encoding is unambiguous: what the server accepts is, byte for byte, what the client's
      builder makes of the parsed strings, unless a NUL is hidden inside one of the fields. */
  lemma {:induction false} AuthUnambiguous(m: Msg)
    requires ParseAuth(m).Some? && (m.tag == MSG_REGISTER || m.tag == MSG_LOGIN)
    ensures var a := ParseAuth(m).value;
            BuildAuth(m.tag, a.user, a.pass) == Some(m) <==> 0 !in m.value
  {
    var a, v := ParseAuth(m).value, m.value;
    var pos := 1 + v[0];
    var u, p := v[1..pos], v[pos + 1..];
    assert v == [|u|] + u + [|p|] + p;
    if 0 !in v {
      CStrOfTerminated(u, []);
      CStrOfTerminated(p, []);
    }
  }

  lemma {:induction false} GroupUnambiguous(m: Msg)
    requires ParseGroup(m).Some? && m.tag in {MSG_JOIN_GROUP, MSG_LEAVE_GROUP, MSG_CREATE_GROUP}
    ensures BuildGroup(m.tag, ParseGroup(m).value) == Some(m) <==> 0 !in m.value
  {
    var v := m.value;
    assert v == [v[0]] + v[1..];
    if 0 !in v {
      CStrOfTerminated(v[1..], []);
    }
  }

  /** Every builder stays far below the 254 value bytes at which the eight-bit total of `serialize` wraps. */
  lemma {:induction false} BuildersAreShort(tag: byte, a: CString, b: CString, p: port)
    ensures BuildAuth(tag, a, b).Some? ==> |BuildAuth(tag, a, b).value.value| <= 96
    ensures BuildGroup(tag, a).Some? ==> |BuildGroup(tag, a).value.value| <= 32
    ensures BuildSimple(tag).Some? ==> |BuildSimple(tag).value.value| == 0
    ensures BuildGroupInfo(a, p).Some? ==> |BuildGroupInfo(a, p).value.value| <= 18
    ensures |SuccessMsg().value| == 1 && |ErrorMsg(tag).value| == 1
  {
  }
}
