/** The sixteen addresses that server_create loads, in numbers and letters: 224.0.0.1 to 224.0.0.16, all on port 5000. */
module AddressPool {
  import opened Strings
  import opened Assoc
  import opened Protocol
  import opened ServerSpec
  import opened ServerInvariants
  import opened ServerSafety
  import opened ServerRuns
  import opened Recycling
  import opened Conversations
  import opened Counterexamples
  import opened ChatMachine
  import opened Refinement

  predicate IsDigit(c: byte) {
    '0' as int <= c <= '9' as int
  }

  /** The text of a literal, in bytes. */
  function Text(s: string): seq<byte> {
    seq<byte>(|s|, i requires 0 <= i < |s| => s[i] as int % 256)
  }

  /** The number that digits spell, read from the left. */
  function Spelled(ds: seq<byte>): int
    decreases |ds|
  {
    if ds == [] then 0 else 10 * Spelled(ds[..|ds| - 1]) + (ds[|ds| - 1] - '0' as int)
  }

  /** A number in decimal: digits, without a leading zero. */
  ghost predicate Decimal(ds: seq<byte>, n: nat) {
    && ds != [] && (forall c :: c in ds ==> IsDigit(c)) && Spelled(ds) == n
    && (|ds| > 1 ==> ds[0] != '0' as int)
  }

  lemma {:induction false} DigitsAreDecimal(n: nat)
    ensures Decimal(Digits(n), n) && (n > 0 ==> Digits(n)[0] != '0' as int)
  {
    if n < 10 {
      assert [48 + n][..0] == [];
    } else {
      DigitsAreDecimal(n / 10);
      assert Digits(n)[..|Digits(n)| - 1] == Digits(n / 10);
    }
  }

  /** No two decimals of a number differ. */
  lemma {:induction false} DecimalIs(ds: seq<byte>, n: nat)
    requires Decimal(ds, n)
    ensures ds == Digits(n)
  {
    var front, last := ds[..|ds| - 1], ds[|ds| - 1];
    assert last in ds;
    if front != [] {
      assert forall c :: c in front ==> c in ds;
      SpelledIsPositive(front);
      DecimalIs(front, Spelled(front));
      assert ds == front + [last] && n == 10 * Spelled(front) + (last - 48);
      assert n >= 10 && n / 10 == Spelled(front) && n % 10 == last - 48;
    } else {
      assert Spelled(front) == 0 && ds == [last];
    }
  }

  lemma {:induction false} SpelledIsPositive(ds: seq<byte>)
    requires ds != [] && (forall c :: c in ds ==> IsDigit(c)) && ds[0] != '0' as int
    ensures Spelled(ds) > 0
  {
    var front, last := ds[..|ds| - 1], ds[|ds| - 1];
    assert last in ds && ds[0] in ds;
    if front != [] {
      assert forall c :: c in front ==> c in ds;
      SpelledIsPositive(front);
    } else {
      assert Spelled(front) == 0;
    }
  }

  /** 224.0.0.n on port 5000. */
  ghost predicate IsAddress(a: Mcast, n: nat) {
    a.port == 5000 && |a.ip| > 8 && a.ip[..8] == Text("224.0.0.") && Decimal(a.ip[8..], n)
  }

  /** A fresh server has sixteen addresses; the i-th, counted from zero, is 224.0.0.{i + 1} on port 5000, and nothing else
      is. */
  lemma {:induction false} PreloadedAre(i: nat, a: Mcast)
    requires i < 16
    ensures |Create().pool| == 16
    ensures IsAddress(a, i + 1) <==> a == Create().pool[i]
  {
    var b := Create().pool[i];
    DigitsAreDecimal(i + 1);
    assert b.ip[..8] == Text("224.0.0.") && b.ip[8..] == Digits(i + 1);
    if IsAddress(a, i + 1) {
      DecimalIs(a.ip[8..], i + 1);
      assert a.ip == a.ip[..8] + a.ip[8..];
    }
  }

  /** The first and the last of them in full. */
  lemma {:induction false} FirstAndLast()
    ensures |Create().pool| == 16
    ensures Create().pool[0] == Mcast(Text("224.0.0.1"), 5000) && Create().pool[15] == Mcast(Text("224.0.0.16"), 5000)
  {
    assert Digits(1) == [49] && Digits(16) == Digits(1) + [54];
    assert [50, 50, 52, 46, 48, 46, 48, 46] + [49] == Text("224.0.0.1");
    assert [50, 50, 52, 46, 48, 46, 48, 46] + Digits(16) == Text("224.0.0.16");
  }

  // ---- who gets which ----

  /** A create that takes an address and has memory tells it to its client. */
  lemma {:induction false} TakingTells(s: Server, i: nat, msg: Msg, mem: Mem) returns (reply: Msg)
    requires Inv(s) && Enabled(s, Request(i, msg, mem)) && Takes(s, Request(i, msg, mem)) == 1
    requires mem.record && mem.list && mem.insert
    ensures s.pool != [] && Tells(reply, s.pool[0]) && Replies(s, Request(i, msg, mem)) == [(s.slots[i], reply)]
  {
    CreateIs(s, s.slots[i], msg, mem);
    CreateSucceeds(s, s.slots[i], msg, mem);
    FreeAddressIsInfo(s.pool, s.groups, s.pool[0]);
    TellsIt(s.pool[0]);
    reply := InfoMsg(s.pool[0]);
  }

  /** On a server that has just started, the first sixteen creates that take an address get 224.0.0.1, 224.0.0.2 and so on in
      turn. */
  lemma {:induction false} HandedOutInTurn(run: seq<Event>, e: Event)
    requires ValidRun(Create(), run) && TakesInRun(Create(), run) < 16
    requires Enabled(AfterRun(Create(), run), e) && Takes(AfterRun(Create(), run), e) == 1
    ensures var s, u := AfterRun(Create(), run), Step(AfterRun(Create(), run), e);
            s.pool != [] && IsAddress(s.pool[0], TakesInRun(Create(), run) + 1) && HandsOut(s, e, s.pool[0], u)
  {
    var k := TakesInRun(Create(), run);
    CreateInv();
    PreloadedAre(k, Create().pool[k]);
    FifoTheorem(Create(), run, k, Create().pool[k], e);
  }

  lemma {:induction false} AnswerOn(s: Server, i: nat, msg: Msg)
    requires Inv(s) && i < |s.slots| && s.slots[i] >= 0 && LoggedInOn(s, s.slots[i]) && s.groups == [] && s.pool == Create().pool
    requires msg.tag == MSG_CREATE_GROUP && ParseGroup(msg).Some?
    ensures Replies(s, Request(i, msg, ALL)) == [(s.slots[i], Msg(102, [9] + Text("224.0.0.1") + [19, 136]))]
  {
    FirstAndLast();
    var reply := TakingTells(s, i, msg, ALL);
  }

  /** The first create on a fresh server is answered with 224.0.0.1 and port 5000, which is 19 * 256 + 136. */
  lemma {:induction false} FirstAnswer(a: Auth, name: CString, fd: int) returns (run: seq<Event>, msg: Msg)
    requires fd >= 0 && ValidStr(a.user, MAX_USERNAME_LEN) && ValidStr(a.pass, MAX_PASSWORD_LEN) && ValidStr(name, MAX_GROUP_NAME_LEN)
    ensures ValidRun(Create(), run) && msg.tag == 7 && ParseGroup(msg) == Some(name)
    ensures var s := AfterRun(Create(), run);
            && s.slots == Create().slots[0 := fd]
            && Replies(s, Request(0, msg, ALL)) == [(fd, Msg(102, [9] + Text("224.0.0.1") + [19, 136]))]
  {
    var run0, s0 := Opened(fd);
    var run1, s := OpensOn(run0, s0, 0, a);
    run, msg := run1, BuildGroup(MSG_CREATE_GROUP, name).value;
    RanFacts(run, s);
    GroupRoundTrip(MSG_CREATE_GROUP, name);
    OpenIsOn(s, a, fd);
    FirstIsLoggedIn(s, fd);
    AnswerOn(s, 0, msg);
  }
}
