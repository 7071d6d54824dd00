/** The prime capacity of the hash map: primality by trial division and the next prime, on 64-bit `size_t`. */
module Primes {
  import opened Arithmetic

  const U64 := 0x1_0000_0000_0000_0000

  ghost predicate Prime(n: nat) {
    n >= 2 && forall d :: 2 <= d < n ==> n % d != 0
  }

  // ---- trial division up to the square root ----

  lemma {:induction false} MultipleDivides(d: nat, e: nat)
    requires e > 0
    ensures (d * e) % e == 0
  {
    assert d * e == e * d + 0;
    DivisionIs(d * e, e, d, 0);
  }

  lemma {:induction false} DivisorPair(n: nat, d: nat)
    requires 2 <= d < n && n % d == 0
    ensures n == d * (n / d) && 2 <= n / d < n && n % (n / d) == 0
  {
    var e := n / d;
    assert n == d * e;
    if e <= 1 {
      MulMonotone(d, d, e, 1);
    }
    MulMonotone(2, d, e, e);
    MultipleDivides(d, e);
  }

  lemma {:induction false} SmallerOfPair(d: nat, e: nat, i: nat)
    requires d * e < i * i
    ensures d < i || e < i
  {
    if d >= i && e >= i {
      MulMonotone(i, d, i, e);
    }
  }

  /** A number that no divisor below `i` divides is prime once `i * i` is beyond it. */
  lemma {:induction false} NoSmallDivisor(n: nat, i: nat)
    requires n >= 2 && i * i > n && NoDivisorBelow(n, i)
    ensures Prime(n)
  {
    forall d | 2 <= d < n
      ensures n % d != 0
    {
      if n % d == 0 {
        DivisorPair(n, d);
        SmallerOfPair(d, n / d, i);
      }
    }
  }

  lemma {:induction false} OddHasOddDivisors(n: nat, d: nat)
    requires n % 2 == 1 && d % 2 == 0 && d > 0
    ensures n % d != 0
  {
    var q := n / d;
    assert n == d * q + n % d;
    assert d * q == 2 * ((d / 2) * q);
  }

  /** `i * i` on 64 bits. */
  function Square64(i: nat): nat {
    (i * i) % U64
  }

  lemma {:induction false} SmallSquare(n: nat)
    requires 2 <= n < 0x1_0000_0000
    ensures Square64(n) == n * n > n
  {
    MulMonotone(n, 0xFFFF_FFFF, n, 0xFFFF_FFFF);
    MulMonotone(2, n, n, n);
    NoWrap(n * n);
  }

  lemma {:induction false} NoWrap(a: nat)
    requires a < U64
    ensures a % U64 == a
  {
  }

  /** Where trial division stops at the latest: at a square, possibly a wrapped one, beyond `n`, or at a divisor.
      For the largest numbers the product wraps around, and still some odd number below `n` has a square that
      wraps to a value beyond it: 2^64 - 7 is a square modulo 2^64. */
  lemma {:induction false} StopFor(n: nat) returns (stop: nat)
    requires 3 <= n < U64 && n % 2 == 1
    ensures 3 <= stop <= n && stop % 2 == 1
    ensures Square64(stop) > n || (n % stop == 0 && stop < n)
  {
    if n < 0x1_0000_0000 {
      stop := n;
      SmallSquare(n);
    } else if n < 0xFFFF_FFFF * 0xFFFF_FFFF {
      stop := 0xFFFF_FFFF;
    } else if n < U64 - 7 {
      stop := 0x19b4_bb63_9c98_c0b5;
    } else {
      assert n == U64 - 7 || n == U64 - 5 || n == U64 - 3 || n == U64 - 1;
      stop := if n % 3 == 0 then 3 else if n % 11 == 0 then 11 else 13;
    }
  }

  ghost predicate NoDivisorBelow(n: nat, i: nat) {
    forall d :: 2 <= d < i ==> n % d != 0
  }

  lemma {:induction false} TwoMore(n: nat, i: nat)
    requires i >= 2 && NoDivisorBelow(n, i) && n % i != 0 && n % (i + 1) != 0
    ensures NoDivisorBelow(n, i + 2)
  {
    forall d | 2 <= d < i + 2
      ensures n % d != 0
    {
      assert d < i || d == i || d == i + 1;
    }
  }

  /** The loop of the trial division stops in time. */
  lemma {:induction false} BeforeStop(n: nat, i: nat, stop: nat)
    requires i <= stop <= n && i % 2 == 1 && stop % 2 == 1 && Square64(i) <= n
    requires Square64(stop) > n || (n % stop == 0 && stop < n)
    ensures i < n
    ensures i == stop ==> n % i == 0
    ensures i != stop ==> i + 2 <= stop
  {
  }

  lemma {:induction false} NextOdd(i: nat)
    requires i % 2 == 1 && i + 2 < U64
    ensures (i + 2) % U64 == i + 2 && (i + 2) % 2 == 1
  {
  }

  /** An odd number that is no divisor leads on to the next. */
  lemma {:induction false} NextTrial(n: nat, i: nat, stop: nat)
    requires 3 <= i <= stop <= n < U64 && n % 2 == 1 && i % 2 == 1 && stop % 2 == 1 && i != stop
    requires NoDivisorBelow(n, i) && n % i != 0
    ensures (i + 2) % U64 == i + 2 <= stop && (i + 2) % 2 == 1 && NoDivisorBelow(n, i + 2)
  {
    OddHasOddDivisors(n, i + 1);
    TwoMore(n, i);
    NextOdd(i);
  }

  lemma {:induction false} HasDivisor(n: nat, d: nat)
    requires 2 <= d < n && n % d == 0
    ensures !Prime(n)
  {
  }

  /** IsPrime: right for every 64-bit number, also for those near 2^64 where `i * i` overflows. */
  method IsPrime(n: nat) returns (prime: bool)
    requires n < U64
    ensures prime <==> Prime(n)
  {
    if n < 2 {
      return false;
    }
    if n == 2 {
      return true;
    }
    if n % 2 == 0 {
      HasDivisor(n, 2);
      return false;
    }
    ghost var stop := StopFor(n);
    var i := 3;
    while Square64(i) <= n
      invariant 3 <= i <= stop && i % 2 == 1 && NoDivisorBelow(n, i)
      decreases stop - i
    {
      BeforeStop(n, i, stop);
      if n % i == 0 {
        HasDivisor(n, i);
        return false;
      }
      NextTrial(n, i, stop);
      i := (i + 2) % U64;
    }
    SquareBeyond(n, i);
    NoSmallDivisor(n, i);
    return true;
  }

  /** A wrapped square can only stop the loop when the true one is beyond `n` anyway. */
  lemma {:induction false} SquareBeyond(n: nat, i: nat)
    requires n < U64 && Square64(i) > n
    ensures i * i > n
  {
  }

  /** Below (2^32 - 1)^2 no square computed on the way overflows. */
  lemma {:induction false} SquaresFit(n: nat, i: nat)
    requires n < 0xFFFF_FFFF * 0xFFFF_FFFF && 3 <= i && (i - 2) * (i - 2) <= n && i % 2 == 1
    ensures i * i < U64
  {
    if i > 0xFFFF_FFFF {
      MulMonotone(0xFFFF_FFFF, i - 2, 0xFFFF_FFFF, i - 2);
    } else {
      MulMonotone(i, 0xFFFF_FFFF, i, 0xFFFF_FFFF);
    }
  }

  // ---- the next prime ----

  ghost predicate LeastPrimeFrom(n: nat, p: nat) {
    && p >= n && Prime(p)
    && forall q :: n <= q < p ==> !Prime(q)
  }

  /** NextPrime: the least prime from `n` on, as long as there is one among the 64-bit numbers; past the last of
      them the counter wraps around and the result is 2. */
  method NextPrime(n: nat) returns (p: nat)
    requires n < U64
    ensures p < U64 && Prime(p)
    ensures (exists q :: n <= q < U64 && Prime(q)) ==> LeastPrimeFrom(n, p)
    ensures (forall q :: n <= q < U64 ==> !Prime(q)) ==> p == 2
  {
    p := n;
    if p < 2 {
      p := 2;
    }
    ghost var wrapped := false;
    var found := IsPrime(p);
    while !found
      invariant p < U64 && (found <==> Prime(p))
      invariant !wrapped ==> n <= p && forall q :: n <= q < p ==> !Prime(q)
      invariant wrapped ==> p <= 2 && forall q :: n <= q < U64 ==> !Prime(q)
      decreases if wrapped then 2 - p else U64 - p + 3
    {
      p := (p + 1) % U64;
      if p == 0 {
        wrapped := true;
      }
      found := IsPrime(p);
    }
  }

  // ---- there is always a next one ----

  function Factorial(n: nat): nat {
    if n == 0 then 1 else n * Factorial(n - 1)
  }

  lemma {:induction false} FactorialPositive(n: nat)
    ensures Factorial(n) >= 1
  {
    if n > 0 {
      FactorialPositive(n - 1);
      MulMonotone(1, n, 1, Factorial(n - 1));
    }
  }

  lemma {:induction false} FactorialDivides(n: nat, d: nat) returns (q: nat)
    requires 1 <= d <= n
    ensures Factorial(n) == d * q
  {
    if d == n {
      q := Factorial(n - 1);
    } else {
      var k := FactorialDivides(n - 1, d);
      q := n * k;
      assert n * (d * k) == d * (n * k);
    }
  }

  lemma {:induction false} HasPrimeDivisor(n: nat) returns (p: nat)
    requires n >= 2
    ensures Prime(p) && n % p == 0 && p <= n
    decreases n
  {
    if d :| 2 <= d < n && n % d == 0 {
      p := HasPrimeDivisor(d);
      var a, b := n / d, d / p;
      assert n == (b * p) * a == (a * b) * p;
      MultipleDivides(a * b, p);
    } else {
      p := n;
    }
  }

  /** Euclid: from any number on there is a prime, at the latest among the divisors of n! + 1. */
  lemma {:induction false} PrimeAbove(n: nat) returns (p: nat)
    ensures Prime(p) && n <= p <= Factorial(n) + 1
  {
    FactorialPositive(n);
    p := HasPrimeDivisor(Factorial(n) + 1);
    if p < n {
      var q := FactorialDivides(n, p);
      DivisionIs(Factorial(n) + 1, p, q, 1);
    }
  }

  /** The bucket counts of the server's two maps, created for 64 clients and for 16 groups. */
  lemma {:induction false} ServerCapacities()
    ensures LeastPrimeFrom(64, 67) && LeastPrimeFrom(16, 17)
  {
    HasDivisor(64, 2);
    HasDivisor(65, 5);
    HasDivisor(66, 2);
    HasDivisor(16, 2);
    assert NoDivisorBelow(67, 9) by {
      forall d | 2 <= d < 9
        ensures 67 % d != 0
      {
        assert d == 2 || d == 3 || d == 4 || d == 5 || d == 6 || d == 7 || d == 8;
      }
    }
    assert NoDivisorBelow(17, 5) by {
      forall d | 2 <= d < 5
        ensures 17 % d != 0
      {
        assert d == 2 || d == 3 || d == 4;
      }
    }
    NoSmallDivisor(67, 9);
    NoSmallDivisor(17, 5);
  }
}
