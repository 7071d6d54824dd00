/** The byte layout of every message, position by position: what the builders write, what the parsers accept, and what
    travels on the stream. */
module WireFormats {
  import opened Strings
  import opened Assoc
  import opened Protocol
  import opened Framing

  // ---- what is built ----

  /** A field at `at`: its length in one byte, then its bytes. */
  ghost predicate FieldAt(v: seq<byte>, at: nat, field: seq<byte>) {
    && at + 1 + |field| <= |v| && v[at] == |field|
    && forall i :: 0 <= i < |field| ==> v[at + 1 + i] == field[i]
  }

  /** Registrations and logins: user name and password. */
  lemma {:induction false} AuthLayout(tag: byte, user: CString, pass: CString)
    ensures BuildAuth(tag, user, pass).Some? <==> (tag == 1 || tag == 2) && 0 < |user| < 32 && 0 < |pass| < 64
    ensures BuildAuth(tag, user, pass).Some? ==>
              var m := BuildAuth(tag, user, pass).value;
              && m.tag == tag && |m.value| == 2 + |user| + |pass|
              && FieldAt(m.value, 0, user) && FieldAt(m.value, 1 + |user|, pass)
  {
  }

  /** Joins, leaves and creates: the group's name. */
  lemma {:induction false} GroupLayout(tag: byte, name: CString)
    ensures BuildGroup(tag, name).Some? <==> (tag == 5 || tag == 6 || tag == 7) && 0 < |name| < 32
    ensures BuildGroup(tag, name).Some? ==>
              var m := BuildGroup(tag, name).value;
              m.tag == tag && |m.value| == 1 + |name| && FieldAt(m.value, 0, name)
  {
  }

  /** Group info: the address as text, then the port, high byte first. */
  lemma {:induction false} InfoLayout(ip: CString, p: port)
    ensures BuildGroupInfo(ip, p).Some? <==> 0 < |ip| < 16
    ensures BuildGroupInfo(ip, p).Some? ==>
              var m := BuildGroupInfo(ip, p).value;
              && m.tag == 102 && |m.value| == 3 + |ip| && FieldAt(m.value, 0, ip)
              && 256 * m.value[1 + |ip|] as int + m.value[2 + |ip|] == p
  {
  }

  // ---- what is accepted ----

  /** The string a reader finds in a field: everything in front of the first NUL. */
  ghost predicate Reads(field: seq<byte>, s: CString) {
    s <= field && (|s| == |field| || field[|s|] == 0)
  }

  lemma {:induction false} ReadsIs(field: seq<byte>, s: CString)
    ensures Reads(field, s) <==> s == CStr(field)
  {
    var t := CStr(field);
    assert |s| < |t| ==> t[|s|] in t;
    assert |t| < |s| ==> s[|t|] in s;
    if Reads(field, s) {
      assert s == field[..|s|] && t == field[..|t|];
    }
  }

  ghost predicate AuthFields(v: seq<byte>, a: seq<byte>, b: seq<byte>) {
    && |v| == 2 + |a| + |b| && FieldAt(v, 0, a) && FieldAt(v, 1 + |a|, b)
    && 0 < |a| < 32 && 0 < |b| < 64
  }

  lemma {:induction false} AuthAccepted(m: Msg, a: seq<byte>, b: seq<byte>)
    requires AuthFields(m.value, a, b)
    ensures ParseAuth(m) == Some(Auth(CStr(a), CStr(b)))
  {
    assert m.value[1..1 + |a|] == a && m.value[2 + |a|..] == b;
  }

  lemma {:induction false} AuthParts(m: Msg) returns (a: seq<byte>, b: seq<byte>)
    requires ParseAuth(m).Some?
    ensures AuthFields(m.value, a, b)
  {
    var v := m.value;
    a, b := v[1..1 + v[0] as int], v[2 + v[0] as int..];
  }

  /** An account is read from exactly the messages that consist of two fields within the length limits. */
  lemma {:induction false} AuthReading(m: Msg, user: CString, pass: CString)
    ensures ParseAuth(m) == Some(Auth(user, pass)) <==> exists a, b :: AuthFields(m.value, a, b) && Reads(a, user) && Reads(b, pass)
  {
    if ParseAuth(m) == Some(Auth(user, pass)) {
      var a, b := AuthParts(m);
      AuthAccepted(m, a, b);
      ReadsIs(a, user);
      ReadsIs(b, pass);
    }
    if a, b :| AuthFields(m.value, a, b) && Reads(a, user) && Reads(b, pass) {
      AuthAccepted(m, a, b);
      ReadsIs(a, user);
      ReadsIs(b, pass);
    }
  }

  ghost predicate GroupField(v: seq<byte>, a: seq<byte>) {
    |v| == 1 + |a| && FieldAt(v, 0, a) && 0 < |a| < 32
  }

  lemma {:induction false} GroupReading(m: Msg, name: CString)
    ensures ParseGroup(m) == Some(name) <==> exists a :: GroupField(m.value, a) && Reads(a, name)
  {
    var v := m.value;
    if ParseGroup(m) == Some(name) {
      ReadsIs(v[1..], name);
      assert GroupField(v, v[1..]);
    }
    if a :| GroupField(v, a) && Reads(a, name) {
      assert v[1..] == a;
      ReadsIs(a, name);
    }
  }

  /** More bytes may follow the port. */
  ghost predicate InfoFields(v: seq<byte>, a: seq<byte>, p: port) {
    && |v| >= 3 + |a| && FieldAt(v, 0, a) && |a| < 16
    && 256 * v[1 + |a|] as int + v[2 + |a|] == p
  }

  lemma {:induction false} InfoAccepted(m: Msg, a: seq<byte>, p: port)
    requires m.tag == 102 && InfoFields(m.value, a, p)
    ensures ParseGroupInfo(m) == Some(Mcast(CStr(a), p))
  {
    assert m.value[1..1 + |a|] == a;
  }

  lemma {:induction false} InfoParts(m: Msg) returns (a: seq<byte>)
    requires ParseGroupInfo(m).Some?
    ensures m.tag == 102 && InfoFields(m.value, a, ParseGroupInfo(m).value.port)
  {
    a := m.value[1..1 + m.value[0] as int];
  }

  /** An address is read from exactly the group-info messages that start with a field within the limit and a port. */
  lemma {:induction false} InfoReading(m: Msg, ip: CString, p: port)
    ensures ParseGroupInfo(m) == Some(Mcast(ip, p)) <==> m.tag == 102 && exists a :: InfoFields(m.value, a, p) && Reads(a, ip)
  {
    if ParseGroupInfo(m) == Some(Mcast(ip, p)) {
      var a := InfoParts(m);
      InfoAccepted(m, a, p);
      ReadsIs(a, ip);
    }
    if a :| m.tag == 102 && InfoFields(m.value, a, p) && Reads(a, ip) {
      InfoAccepted(m, a, p);
      ReadsIs(a, ip);
    }
  }

  // ---- what travels ----

  /** On the stream a message is its tag, the length of its value, and the value; from 254 value bytes on, where the
      eight-bit total wraps, nothing or only the tag goes out. */
  lemma {:induction false} FrameLayout(m: Msg)
    ensures |m.value| <= 253 ==> |Wire(m)| == 2 + |m.value| && Wire(m)[0] == m.tag && FieldAt(Wire(m), 1, m.value)
    ensures |m.value| == 254 ==> Wire(m) == []
    ensures |m.value| == 255 ==> Wire(m) == [m.tag]
  {
  }

  /** A message is read from exactly the streams that start like that, and what follows is left. */
  lemma {:induction false} FrameReading(b: seq<byte>, m: Msg, rest: seq<byte>)
    ensures Decode(b) == Some(Frame(m, rest)) <==>
              |b| == 2 + |m.value| + |rest| && b[0] == m.tag && FieldAt(b, 1, m.value) && rest == b[2 + |m.value|..]
  {
    if |b| == 2 + |m.value| + |rest| && b[0] == m.tag && FieldAt(b, 1, m.value) && rest == b[2 + |m.value|..] {
      assert b[2..2 + |m.value|] == m.value;
    }
  }
}
