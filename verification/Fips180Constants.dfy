/** Where the constants of FIPS 180-4 come from: the fractional parts of the roots of the first primes. */
module Fips180Constants {
  import opened Fips180

  predicate IsPrime(n: nat) {
    n >= 2 && forall d :: 2 <= d < n ==> n % d != 0
  }

  /** No prime lies between two consecutive ones. */
  ghost predicate Consecutive(p: nat, q: nat) {
    IsPrime(p) && IsPrime(q) && p < q && forall n :: p < n < q ==> !IsPrime(n)
  }

  /** The first 64 primes, eight a row. */
  function Primes(row: nat): (s: seq<nat>)
    requires row < 8
    ensures |s| == 8
  {
    match row
    case 0 => [2, 3, 5, 7, 11, 13, 17, 19]
    case 1 => [23, 29, 31, 37, 41, 43, 47, 53]
    case 2 => [59, 61, 67, 71, 73, 79, 83, 89]
    case 3 => [97, 101, 103, 107, 109, 113, 127, 131]
    case 4 => [137, 139, 149, 151, 157, 163, 167, 173]
    case 5 => [179, 181, 191, 193, 197, 199, 211, 223]
    case 6 => [227, 229, 233, 239, 241, 251, 257, 263]
    case _ => [269, 271, 277, 281, 283, 293, 307, 311]
  }

  function Prime(t: nat): nat
    requires t < 64
  {
    Primes(t / 8)[t % 8]
  }

  /** Below 19 squared, trial division by the primes up to 17 is enough. */
  predicate Undivided(n: nat, q: nat)
    requires q > 0
  {
    n % q != 0 || n == q
  }

  predicate Tested(n: nat) {
    && Undivided(n, 2) && Undivided(n, 3) && Undivided(n, 5) && Undivided(n, 7) && Undivided(n, 11)
    && Undivided(n, 13) && Undivided(n, 17)
  }

  lemma TestedIsPrime(n: nat)
    requires 2 <= n < 361
    ensures IsPrime(n) <==> Tested(n)
  {
    if Tested(n) {
      forall d | 2 <= d < n ensures n % d != 0 {
        if n % d == 0 {
          var e := n / d;
          Cofactor(n, d, e);
          if d < 19 {
            SmallDivisor(n, d);
          } else {
            SmallDivisor(n, e);
          }
        }
      }
    }
  }

  lemma MultipleOf(q: nat, m: nat)
    requires q > 0
    ensures (q * m) % q == 0
  {
    var x := q * m;
    var z := m - x / q;
    assert x == q * (x / q) + x % q;
    Difference(q, m, x / q);
    NotBetween(q, z);
  }

  lemma Difference(q: int, a: int, b: int)
    ensures q * a - q * b == q * (a - b)
  {}

  lemma NotBetween(q: nat, z: int)
    requires q > 0
    ensures z >= 1 ==> q * z >= q
    ensures z < 0 ==> q * z < 0
  {}

  lemma AtLeastProduct(d: nat, e: nat, a: nat, b: nat)
    requires d >= a && e >= b
    ensures d * e >= a * b
  {
    assert d * e >= a * e && a * e >= a * b;
  }

  lemma Cofactor(n: nat, d: nat, e: nat)
    requires 2 <= d < n < 361 && n % d == 0 && e == n / d
    ensures 2 <= e < n && n % e == 0 && (d < 19 || e < 19)
  {
    assert n == d * e == e * d;
    assert d * 0 == 0 && d * 1 == d;
    AtLeastProduct(d, e, 2, e);
    MultipleOf(e, d);
    if d >= 19 && e >= 19 {
      AtLeastProduct(d, e, 19, 19);
    }
  }

  /** A divisor of a divisor divides. */
  lemma Divides(n: nat, d: nat, q: nat)
    requires q > 0 && d > 0 && d % q == 0 && n % d == 0
    ensures n % q == 0
  {
    var a, b := d / q, n / d;
    assert d == q * a && n == d * b;
    assert (q * a) * b == q * (a * b);
    MultipleOf(q, a * b);
  }

  lemma SmallDivisor(n: nat, d: nat)
    requires 2 <= d < 19 && d < n && n % d == 0
    ensures !Tested(n)
  {
    var q := if d % 2 == 0 then 2 else if d % 3 == 0 then 3 else if d == 5 then 5 else if d == 7 then 7
             else if d == 11 then 11 else if d == 13 then 13 else if d == 17 then 17 else d;
    Divides(n, d, q);
  }

  /** Section 4.2.2: the first 32 bits of the fractional part of the cube root of p. */
  predicate CubeRootBits(p: nat, bits: nat) {
    var whole := if p < 8 then 1 else if p < 27 then 2 else if p < 64 then 3 else if p < 125 then 4
                 else if p < 216 then 5 else 6;
    var c := whole * 0x1_0000_0000 + bits;
    bits < 0x1_0000_0000 && c * c * c <= p * 0x1_0000_0000_0000_0000_0000_0000 < (c + 1) * (c + 1) * (c + 1)
  }

  /** Section 5.3.3: the first 32 bits of the fractional part of the square root of p. */
  predicate SquareRootBits(p: nat, bits: nat) {
    var whole := if p < 4 then 1 else if p < 9 then 2 else if p < 16 then 3 else 4;
    var c := whole * 0x1_0000_0000 + bits;
    bits < 0x1_0000_0000 && c * c <= p * 0x1_0000_0000_0000_0000 < (c + 1) * (c + 1)
  }

  lemma CubeRoots0()
    ensures forall t :: 0 <= t < 8 ==> CubeRootBits(Prime(t), RoundConstant(t) as int)
  {
    assert CubeRootBits(2, 0x428a2f98);
    assert CubeRootBits(3, 0x71374491);
    assert CubeRootBits(5, 0xb5c0fbcf);
    assert CubeRootBits(7, 0xe9b5dba5);
    assert CubeRootBits(11, 0x3956c25b);
    assert CubeRootBits(13, 0x59f111f1);
    assert CubeRootBits(17, 0x923f82a4);
    assert CubeRootBits(19, 0xab1c5ed5);
  }

  lemma CubeRoots1()
    ensures forall t :: 8 <= t < 16 ==> CubeRootBits(Prime(t), RoundConstant(t) as int)
  {
    assert CubeRootBits(23, 0xd807aa98);
    assert CubeRootBits(29, 0x12835b01);
    assert CubeRootBits(31, 0x243185be);
    assert CubeRootBits(37, 0x550c7dc3);
    assert CubeRootBits(41, 0x72be5d74);
    assert CubeRootBits(43, 0x80deb1fe);
    assert CubeRootBits(47, 0x9bdc06a7);
    assert CubeRootBits(53, 0xc19bf174);
  }

  lemma CubeRoots2()
    ensures forall t :: 16 <= t < 24 ==> CubeRootBits(Prime(t), RoundConstant(t) as int)
  {
    assert CubeRootBits(59, 0xe49b69c1);
    assert CubeRootBits(61, 0xefbe4786);
    assert CubeRootBits(67, 0x0fc19dc6);
    assert CubeRootBits(71, 0x240ca1cc);
    assert CubeRootBits(73, 0x2de92c6f);
    assert CubeRootBits(79, 0x4a7484aa);
    assert CubeRootBits(83, 0x5cb0a9dc);
    assert CubeRootBits(89, 0x76f988da);
  }

  lemma CubeRoots3()
    ensures forall t :: 24 <= t < 32 ==> CubeRootBits(Prime(t), RoundConstant(t) as int)
  {
    assert CubeRootBits(97, 0x983e5152);
    assert CubeRootBits(101, 0xa831c66d);
    assert CubeRootBits(103, 0xb00327c8);
    assert CubeRootBits(107, 0xbf597fc7);
    assert CubeRootBits(109, 0xc6e00bf3);
    assert CubeRootBits(113, 0xd5a79147);
    assert CubeRootBits(127, 0x06ca6351);
    assert CubeRootBits(131, 0x14292967);
  }

  lemma CubeRoots4()
    ensures forall t :: 32 <= t < 40 ==> CubeRootBits(Prime(t), RoundConstant(t) as int)
  {
    assert CubeRootBits(137, 0x27b70a85);
    assert CubeRootBits(139, 0x2e1b2138);
    assert CubeRootBits(149, 0x4d2c6dfc);
    assert CubeRootBits(151, 0x53380d13);
    assert CubeRootBits(157, 0x650a7354);
    assert CubeRootBits(163, 0x766a0abb);
    assert CubeRootBits(167, 0x81c2c92e);
    assert CubeRootBits(173, 0x92722c85);
  }

  lemma CubeRoots5()
    ensures forall t :: 40 <= t < 48 ==> CubeRootBits(Prime(t), RoundConstant(t) as int)
  {
    assert CubeRootBits(179, 0xa2bfe8a1);
    assert CubeRootBits(181, 0xa81a664b);
    assert CubeRootBits(191, 0xc24b8b70);
    assert CubeRootBits(193, 0xc76c51a3);
    assert CubeRootBits(197, 0xd192e819);
    assert CubeRootBits(199, 0xd6990624);
    assert CubeRootBits(211, 0xf40e3585);
    assert CubeRootBits(223, 0x106aa070);
  }

  lemma CubeRoots6()
    ensures forall t :: 48 <= t < 56 ==> CubeRootBits(Prime(t), RoundConstant(t) as int)
  {
    assert CubeRootBits(227, 0x19a4c116);
    assert CubeRootBits(229, 0x1e376c08);
    assert CubeRootBits(233, 0x2748774c);
    assert CubeRootBits(239, 0x34b0bcb5);
    assert CubeRootBits(241, 0x391c0cb3);
    assert CubeRootBits(251, 0x4ed8aa4a);
    assert CubeRootBits(257, 0x5b9cca4f);
    assert CubeRootBits(263, 0x682e6ff3);
  }

  lemma CubeRoots7()
    ensures forall t :: 56 <= t < 64 ==> CubeRootBits(Prime(t), RoundConstant(t) as int)
  {
    assert CubeRootBits(269, 0x748f82ee);
    assert CubeRootBits(271, 0x78a5636f);
    assert CubeRootBits(277, 0x84c87814);
    assert CubeRootBits(281, 0x8cc70208);
    assert CubeRootBits(283, 0x90befffa);
    assert CubeRootBits(293, 0xa4506ceb);
    assert CubeRootBits(307, 0xbef9a3f7);
    assert CubeRootBits(311, 0xc67178f2);
  }

  lemma Primes0()
    ensures forall t :: 0 <= t < 4 ==> Consecutive(Prime(t), Prime(t + 1))
  {
    hide Consecutive;
    NextPrime(2, 3);
    NextPrime(3, 5);
    NextPrime(5, 7);
    NextPrime(7, 11);
  }

  lemma Primes1()
    ensures forall t :: 4 <= t < 8 ==> Consecutive(Prime(t), Prime(t + 1))
  {
    hide Consecutive;
    NextPrime(11, 13);
    NextPrime(13, 17);
    NextPrime(17, 19);
    NextPrime(19, 23);
  }

  lemma Primes2()
    ensures forall t :: 8 <= t < 12 ==> Consecutive(Prime(t), Prime(t + 1))
  {
    hide Consecutive;
    NextPrime(23, 29);
    NextPrime(29, 31);
    NextPrime(31, 37);
    NextPrime(37, 41);
  }

  lemma Primes3()
    ensures forall t :: 12 <= t < 16 ==> Consecutive(Prime(t), Prime(t + 1))
  {
    hide Consecutive;
    NextPrime(41, 43);
    NextPrime(43, 47);
    NextPrime(47, 53);
    NextPrime(53, 59);
  }

  lemma Primes4()
    ensures forall t :: 16 <= t < 20 ==> Consecutive(Prime(t), Prime(t + 1))
  {
    hide Consecutive;
    NextPrime(59, 61);
    NextPrime(61, 67);
    NextPrime(67, 71);
    NextPrime(71, 73);
  }

  lemma Primes5()
    ensures forall t :: 20 <= t < 24 ==> Consecutive(Prime(t), Prime(t + 1))
  {
    hide Consecutive;
    NextPrime(73, 79);
    NextPrime(79, 83);
    NextPrime(83, 89);
    NextPrime(89, 97);
  }

  lemma Primes6()
    ensures forall t :: 24 <= t < 28 ==> Consecutive(Prime(t), Prime(t + 1))
  {
    hide Consecutive;
    NextPrime(97, 101);
    NextPrime(101, 103);
    NextPrime(103, 107);
    NextPrime(107, 109);
  }

  lemma Primes7()
    ensures forall t :: 28 <= t < 32 ==> Consecutive(Prime(t), Prime(t + 1))
  {
    hide Consecutive;
    NextPrime(109, 113);
    NextPrime(113, 127);
    NextPrime(127, 131);
    NextPrime(131, 137);
  }

  lemma Primes8()
    ensures forall t :: 32 <= t < 36 ==> Consecutive(Prime(t), Prime(t + 1))
  {
    hide Consecutive;
    NextPrime(137, 139);
    NextPrime(139, 149);
    NextPrime(149, 151);
    NextPrime(151, 157);
  }

  lemma Primes9()
    ensures forall t :: 36 <= t < 40 ==> Consecutive(Prime(t), Prime(t + 1))
  {
    hide Consecutive;
    NextPrime(157, 163);
    NextPrime(163, 167);
    NextPrime(167, 173);
    NextPrime(173, 179);
  }

  lemma Primes10()
    ensures forall t :: 40 <= t < 44 ==> Consecutive(Prime(t), Prime(t + 1))
  {
    hide Consecutive;
    NextPrime(179, 181);
    NextPrime(181, 191);
    NextPrime(191, 193);
    NextPrime(193, 197);
  }

  lemma Primes11()
    ensures forall t :: 44 <= t < 48 ==> Consecutive(Prime(t), Prime(t + 1))
  {
    hide Consecutive;
    NextPrime(197, 199);
    NextPrime(199, 211);
    NextPrime(211, 223);
    NextPrime(223, 227);
  }

  lemma Primes12()
    ensures forall t :: 48 <= t < 52 ==> Consecutive(Prime(t), Prime(t + 1))
  {
    hide Consecutive;
    NextPrime(227, 229);
    NextPrime(229, 233);
    NextPrime(233, 239);
    NextPrime(239, 241);
  }

  lemma Primes13()
    ensures forall t :: 52 <= t < 56 ==> Consecutive(Prime(t), Prime(t + 1))
  {
    hide Consecutive;
    NextPrime(241, 251);
    NextPrime(251, 257);
    NextPrime(257, 263);
    NextPrime(263, 269);
  }

  lemma Primes14()
    ensures forall t :: 56 <= t < 60 ==> Consecutive(Prime(t), Prime(t + 1))
  {
    hide Consecutive;
    NextPrime(269, 271);
    NextPrime(271, 277);
    NextPrime(277, 281);
    NextPrime(281, 283);
  }

  lemma Primes15()
    ensures forall t :: 60 <= t < 63 ==> Consecutive(Prime(t), Prime(t + 1))
  {
    hide Consecutive;
    NextPrime(283, 293);
    NextPrime(293, 307);
    NextPrime(307, 311);
  }

  lemma NextPrime(p: nat, q: nat)
    requires 2 <= p < q < 361 && Tested(p) && Tested(q) && NoneTested(p, q)
    ensures Consecutive(p, q)
  {
    hide Tested;
    TestedIsPrime(p);
    TestedIsPrime(q);
    forall n | p < n < q ensures !IsPrime(n) {
      assert Skipped(n, q);
      TestedIsPrime(n);
    }
  }

  predicate Skipped(n: nat, q: nat) {
    n < q ==> !Tested(n)
  }

  /** Nothing between p and q passes the test; they are at most fourteen apart. */
  predicate NoneTested(p: nat, q: nat) {
    && q - p <= 14 && Skipped(p + 1, q) && Skipped(p + 2, q) && Skipped(p + 3, q) && Skipped(p + 4, q)
    && Skipped(p + 5, q) && Skipped(p + 6, q) && Skipped(p + 7, q) && Skipped(p + 8, q) && Skipped(p + 9, q)
    && Skipped(p + 10, q) && Skipped(p + 11, q) && Skipped(p + 12, q) && Skipped(p + 13, q)
  }

  /** Section 4.2.2: Prime lists the first 64 primes, and the round constants are the first 32 bits of the fractional
      parts of their cube roots. */
  lemma RoundConstantsAreCubeRoots()
    ensures Prime(0) == 2 && forall t :: 0 <= t < 63 ==> Consecutive(Prime(t), Prime(t + 1))
    ensures forall t :: 0 <= t < 64 ==> CubeRootBits(Prime(t), RoundConstant(t) as int)
  {
    hide Prime, RoundConstant, CubeRootBits, Consecutive;
    Primes0(); Primes1(); Primes2(); Primes3(); Primes4(); Primes5(); Primes6(); Primes7();
    Primes8(); Primes9(); Primes10(); Primes11(); Primes12(); Primes13(); Primes14(); Primes15();
    CubeRoots0(); CubeRoots1(); CubeRoots2(); CubeRoots3(); CubeRoots4(); CubeRoots5(); CubeRoots6(); CubeRoots7();
    assert Prime(0) == 2 by { FirstPrime(); }
  }

  lemma FirstPrime()
    ensures Prime(0) == 2
  {}

  /** Section 5.3.3: the initial hash value is the same for the square roots of the first eight primes. */
  lemma InitialHashIsSquareRoots()
    ensures SquareRootBits(Prime(0), H0.a as int) && SquareRootBits(Prime(1), H0.b as int)
    ensures SquareRootBits(Prime(2), H0.c as int) && SquareRootBits(Prime(3), H0.d as int)
    ensures SquareRootBits(Prime(4), H0.e as int) && SquareRootBits(Prime(5), H0.f as int)
    ensures SquareRootBits(Prime(6), H0.g as int) && SquareRootBits(Prime(7), H0.h as int)
  {
    assert SquareRootBits(2, 0x6a09e667);
    assert SquareRootBits(3, 0xbb67ae85);
    assert SquareRootBits(5, 0x3c6ef372);
    assert SquareRootBits(7, 0xa54ff53a);
    assert SquareRootBits(11, 0x510e527f);
    assert SquareRootBits(13, 0x9b05688c);
    assert SquareRootBits(17, 0x1f83d9ab);
    assert SquareRootBits(19, 0x5be0cd19);
  }
}
