/** The word functions of FIPS 180-4. */
module Fips180Words {
  /** Section 3.2: addition modulo 2^32. */
  function Plus(x: bv32, y: bv32): bv32 { x + y }

  /** Section 3.2: the rotation to the right, by the standard's own formula. */
  function ROTR(x: bv32, n: bv6): bv32
    requires 0 < n < 32
  {
    (x >> n) | (x << (32 - n))
  }

  // Section 4.1.2.

  function Ch(x: bv32, y: bv32, z: bv32): bv32 { (x & y) ^ (!x & z) }
  function Maj(x: bv32, y: bv32, z: bv32): bv32 { (x & y) ^ (x & z) ^ (y & z) }
  function BigSigma0(x: bv32): bv32 { ROTR(x, 2) ^ ROTR(x, 13) ^ ROTR(x, 22) }
  function BigSigma1(x: bv32): bv32 { ROTR(x, 6) ^ ROTR(x, 11) ^ ROTR(x, 25) }
  function SmallSigma0(x: bv32): bv32 { ROTR(x, 7) ^ ROTR(x, 18) ^ (x >> 3) }
  function SmallSigma1(x: bv32): bv32 { ROTR(x, 17) ^ ROTR(x, 19) ^ (x >> 10) }

  function Next(w2: bv32, w7: bv32, w15: bv32, w16: bv32): bv32 {
    Plus(Plus(Plus(SmallSigma1(w2), w7), SmallSigma0(w15)), w16)
  }

  function T1(e: bv32, f: bv32, g: bv32, h: bv32, k: bv32, w: bv32): bv32 {
    Plus(Plus(Plus(Plus(h, BigSigma1(e)), Ch(e, f, g)), k), w)
  }

  function T2(a: bv32, b: bv32, c: bv32): bv32 {
    Plus(BigSigma0(a), Maj(a, b, c))
  }
}
