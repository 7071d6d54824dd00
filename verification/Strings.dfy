/** Bytes, NUL-terminated strings, and the hash and equality the two server maps use on them. */
module Strings {
  type byte = b: int | 0 <= b < 256

  const U64 := 0x1_0000_0000_0000_0000

  /** The contents of a C string: the bytes in front of its terminator. */
  type CString = s: seq<byte> | 0 !in s

  /** What a reader of `buf` sees as a string: everything in front of the first NUL. */
  function CStr(buf: seq<byte>): (s: CString)
    ensures s <= buf
    ensures |s| < |buf| ==> buf[|s|] == 0
  {
    if buf == [] || buf[0] == 0 then [] else [buf[0]] + CStr(buf[1..])
  }

  /** Bytes without a NUL are read back whole, whatever follows their terminator. */
  lemma {:induction false} CStrOfTerminated(s: seq<byte>, rest: seq<byte>)
    requires 0 !in s
    ensures CStr(s) == s
    ensures CStr(s + [0] + rest) == s
  {
    if s == [] {
      assert s + [0] + rest == [0] + rest;
    } else {
      CStrOfTerminated(s[1..], rest);
      assert (s + [0] + rest)[1..] == s[1..] + [0] + rest;
    }
  }

  function Xor(a: nat, b: nat): nat {
    if a == 0 && b == 0 then 0
    else 2 * Xor(a / 2, b / 2) + (if a % 2 != b % 2 then 1 else 0)
  }

  /** One round of djb2 on a 64-bit `size_t`: the shift and the sum wrap. */
  function Round(h: nat, c: byte): nat {
    Xor((33 * h) % U64, c)
  }

  function HashFrom(h: nat, s: seq<byte>): nat
    decreases |s|
  {
    if s == [] then h else HashFrom(Round(h, s[0]), s[1..])
  }

  function Djb2(s: CString): nat {
    HashFrom(5381, s)
  }

  // ---- the hash, bit by bit ----

  function Bit(n: nat, k: nat): nat
    decreases k
  {
    if k == 0 then n % 2 else Bit(n / 2, k - 1)
  }

  lemma {:induction false} XorBits(a: nat, b: nat, k: nat)
    ensures Bit(Xor(a, b), k) == (Bit(a, k) + Bit(b, k)) % 2
    decreases k
  {
    if a == 0 && b == 0 {
      NoBits(k);
    } else if k > 0 {
      XorBits(a / 2, b / 2, k - 1);
    }
  }

  lemma {:induction false} NoBits(k: nat)
    ensures Bit(0, k) == 0
  {
    if k > 0 {
      NoBits(k - 1);
    }
  }

  function Pow2(n: nat): nat {
    if n == 0 then 1 else 2 * Pow2(n - 1)
  }

  lemma {:induction false} Pow2Sum(m: nat, n: nat)
    ensures Pow2(m + n) == Pow2(m) * Pow2(n)
  {
    if m > 0 {
      Pow2Sum(m - 1, n);
    }
  }

  lemma {:induction false} PowerOfSixtyFour()
    ensures Pow2(64) == U64
  {
    assert Pow2(4) == 16;
    Pow2Sum(4, 4);
    Pow2Sum(8, 8);
    Pow2Sum(16, 16);
    Pow2Sum(32, 32);
  }

  lemma {:induction false} XorFits(a: nat, b: nat, n: nat)
    requires a < Pow2(n) && b < Pow2(n)
    ensures Xor(a, b) < Pow2(n)
  {
    if n > 0 && (a > 0 || b > 0) {
      XorFits(a / 2, b / 2, n - 1);
    }
  }

  /** The hash starts at 5381; with each character, 32 times the hash is added to it on 64 bits, and the result is xored
      with the character, bit by bit; it stays on 64 bits. */
  lemma {:induction false} HashTheorem(s: CString, c: byte)
    requires c != 0
    ensures Djb2([]) == 5381 && Djb2(s) < 0x1_0000_0000_0000_0000
    ensures forall k :: Bit(Djb2(s + [c]), k) == (Bit((32 * Djb2(s) + Djb2(s)) % 0x1_0000_0000_0000_0000, k) + Bit(c, k)) % 2
  {
    HashFits(5381, s);
    forall k
      ensures Bit(Djb2(s + [c]), k) == (Bit((32 * Djb2(s) + Djb2(s)) % 0x1_0000_0000_0000_0000, k) + Bit(c, k)) % 2
    {
      HashBit(s, c, k);
    }
  }

  lemma {:induction false} HashBit(s: CString, c: byte, k: nat)
    requires c != 0
    ensures Bit(Djb2(s + [c]), k) == (Bit((32 * Djb2(s) + Djb2(s)) % U64, k) + Bit(c, k)) % 2
  {
    var h := HashFrom(5381, s);
    HashFromSnoc(5381, s, c);
    assert 33 * h == 32 * h + h;
    XorBits((33 * h) % U64, c, k);
  }

  lemma {:induction false} HashFits(h: nat, s: seq<byte>)
    requires h < U64
    ensures HashFrom(h, s) < U64
    decreases |s|
  {
    if s != [] {
      PowerOfSixtyFour();
      XorFits((33 * h) % U64, s[0], 64);
      HashFits(Round(h, s[0]), s[1..]);
    }
  }

  /** The equality the maps use, on contents: `strcmp` returns zero. */
  predicate EqualString(a: CString, b: CString) {
    a == b
  }

  lemma {:induction false} HashFromSnoc(h: nat, s: seq<byte>, c: byte)
    ensures HashFrom(h, s + [c]) == Round(HashFrom(h, s), c)
    decreases |s|
  {
    if s == [] {
      assert s + [c] == [c];
      assert HashFrom(h, [c]) == HashFrom(Round(h, c), [c][1..]);
    } else {
      assert (s + [c])[0] == s[0] && (s + [c])[1..] == s[1..] + [c];
      HashFromSnoc(Round(h, s[0]), s[1..], c);
    }
  }

  lemma {:induction false} CStrEnds(buf: seq<byte>)
    requires 0 in buf
    ensures |CStr(buf)| < |buf|
  {
    if buf[0] != 0 {
      CStrEnds(buf[1..]);
    }
  }

  /** hash_string: the loop stops at the terminator, so only the contents are hashed. */
  method HashString(str: array<byte>) returns (hash: nat)
    requires 0 in str[..]
    ensures hash == Djb2(CStr(str[..]))
  {
    ghost var s := CStr(str[..]);
    CStrEnds(str[..]);
    hash := 5381;
    var i := 0;
    while str[i] != 0
      invariant i <= |s|
      invariant hash == HashFrom(5381, s[..i])
      decreases |s| - i
    {
      HashFromSnoc(5381, s[..i], s[i]);
      assert s[..i + 1] == s[..i] + [s[i]];
      hash := Round(hash, str[i]);
      i := i + 1;
    }
    assert s[..i] == s;
  }

  /** equal_string: comparing byte by byte up to the first difference or terminator decides
      whether the contents are the same, whatever the buffers hold behind their terminators. */
  method EqualStrings(a: array<byte>, b: array<byte>) returns (equal: bool)
    requires 0 in a[..] && 0 in b[..]
    ensures equal <==> EqualString(CStr(a[..]), CStr(b[..]))
  {
    ghost var s, t := CStr(a[..]), CStr(b[..]);
    CStrEnds(a[..]);
    CStrEnds(b[..]);
    var i := 0;
    while a[i] == b[i] && a[i] != 0
      invariant i <= |s| && i <= |t| && s[..i] == t[..i]
      decreases |s| - i
    {
      assert s[i] == a[i] && t[i] == b[i];
      i := i + 1;
    }
    equal := a[i] == b[i];
    assert a[i] == 0 ==> i == |s|;
    assert b[i] == 0 ==> i == |t|;
  }
}
