/** SHA-256 as FIPS 180-4 states it: functions, constants, padding and compression. */
module Fips180 {
  import opened BytePatterns
  import opened Octets
  import opened Fips180Words

  /** Section 4.2.2, eight constants a row; Fips180Constants derives them from the primes. */
  function RoundConstants(row: nat): (s: seq<bv32>)
    requires row < 8
    ensures |s| == 8
  {
    match row
    case 0 => [0x428a2f98, 0x71374491, 0xb5c0fbcf, 0xe9b5dba5, 0x3956c25b, 0x59f111f1, 0x923f82a4, 0xab1c5ed5]
    case 1 => [0xd807aa98, 0x12835b01, 0x243185be, 0x550c7dc3, 0x72be5d74, 0x80deb1fe, 0x9bdc06a7, 0xc19bf174]
    case 2 => [0xe49b69c1, 0xefbe4786, 0x0fc19dc6, 0x240ca1cc, 0x2de92c6f, 0x4a7484aa, 0x5cb0a9dc, 0x76f988da]
    case 3 => [0x983e5152, 0xa831c66d, 0xb00327c8, 0xbf597fc7, 0xc6e00bf3, 0xd5a79147, 0x06ca6351, 0x14292967]
    case 4 => [0x27b70a85, 0x2e1b2138, 0x4d2c6dfc, 0x53380d13, 0x650a7354, 0x766a0abb, 0x81c2c92e, 0x92722c85]
    case 5 => [0xa2bfe8a1, 0xa81a664b, 0xc24b8b70, 0xc76c51a3, 0xd192e819, 0xd6990624, 0xf40e3585, 0x106aa070]
    case 6 => [0x19a4c116, 0x1e376c08, 0x2748774c, 0x34b0bcb5, 0x391c0cb3, 0x4ed8aa4a, 0x5b9cca4f, 0x682e6ff3]
    case _ => [0x748f82ee, 0x78a5636f, 0x84c87814, 0x8cc70208, 0x90befffa, 0xa4506ceb, 0xbef9a3f7, 0xc67178f2]
  }

  function RoundConstant(t: nat): bv32
    requires t < 64
  {
    RoundConstants(t / 8)[t % 8]
  }

  /** The working variables a to h, and the eight words of a hash value. */
  datatype Registers = Registers(a: bv32, b: bv32, c: bv32, d: bv32, e: bv32, f: bv32, g: bv32, h: bv32)

  /** Section 5.3.3. */
  const H0: Registers := Registers(0x6a09e667, 0xbb67ae85, 0x3c6ef372, 0xa54ff53a,
                                   0x510e527f, 0x9b05688c, 0x1f83d9ab, 0x5be0cd19)

  type Block = b: seq<byte> | |b| == 64 witness seq(64, _ => 0)

  /** A big-endian word. */
  function BigEndian(b0: byte, b1: byte, b2: byte, b3: byte): bv32 {
    (Pattern(b0) as bv32 << 24) | (Pattern(b1) as bv32 << 16) | (Pattern(b2) as bv32 << 8) | (Pattern(b3) as bv32)
  }

  /** Section 6.2.2 step 1: word t of the message schedule. */
  function W(block: Block, t: nat): bv32
    requires t < 64
  {
    if t < 16 then BigEndian(block[4 * t], block[4 * t + 1], block[4 * t + 2], block[4 * t + 3])
    else Next(W(block, t - 2), W(block, t - 7), W(block, t - 15), W(block, t - 16))
  }

  /** One round of section 6.2.2 step 3. */
  function Round(r: Registers, k: bv32, w: bv32): Registers {
    var t1, t2 := T1(r.e, r.f, r.g, r.h, k, w), T2(r.a, r.b, r.c);
    Registers(Plus(t1, t2), r.a, r.b, r.c, Plus(r.d, t1), r.e, r.f, r.g)
  }

  /** Section 6.2.2 step 3: rounds 0 to t-1. */
  function Rounds(v: Registers, block: Block, t: nat): Registers
    requires t <= 64
  {
    if t == 0 then v else Round(Rounds(v, block, t - 1), RoundConstant(t - 1), W(block, t - 1))
  }

  /** Section 6.2.2 step 4. */
  function AddRegisters(v: Registers, r: Registers): Registers {
    Registers(Plus(v.a, r.a), Plus(v.b, r.b), Plus(v.c, r.c), Plus(v.d, r.d),
              Plus(v.e, r.e), Plus(v.f, r.f), Plus(v.g, r.g), Plus(v.h, r.h))
  }

  /** Section 6.2.2: one block. */
  function Compress(v: Registers, block: Block): Registers {
    AddRegisters(v, Rounds(v, block, 64))
  }

  /** Section 6.2.2: the hash value after all blocks of m. */
  function HashBlocks(m: seq<byte>): Registers
    requires |m| % 64 == 0
  {
    if m == [] then H0 else Compress(HashBlocks(m[..|m| - 64]), m[|m| - 64..])
  }

  /** The 64-bit big-endian representation of n. */
  function Length64(n: u64): (s: seq<byte>)
    ensures |s| == 8
  {
    [n / 0x100_0000_0000_0000, n / 0x1_0000_0000_0000 % 0x100, n / 0x100_0000_0000 % 0x100, n / 0x1_0000_0000 % 0x100,
     n / 0x100_0000 % 0x100, n / 0x1_0000 % 0x100, n / 0x100 % 0x100, n % 0x100]
  }

  /** Section 5.1.1 with the length in bytes: the count of zero bytes after the byte 0x80. */
  function ZeroCount(length: nat): (k: nat) {
    (55 - length) % 64
  }

  /** ZeroCount is the smallest solution of the congruence that section 5.1.1 gives. */
  lemma ZeroCountIsSmallest(length: nat, k: nat)
    ensures (length + 1 + ZeroCount(length)) % 64 == 56
    ensures (length + 1 + k) % 64 == 56 ==> ZeroCount(length) <= k
  {}

  /** Section 5.1.1, with the length field an argument. */
  function Pad(m: seq<byte>, lengthBits: u64): (p: seq<byte>)
    ensures |p| % 64 == 0
  {
    m + [0x80] + Zeros(ZeroCount(|m|)) + Length64(lengthBits)
  }

  /** Byte k of a word, most significant first. */
  function WordByte(w: bv32, k: nat): byte
    requires k < 4
  {
    ((if k == 0 then w >> 24 else if k == 1 then (w >> 16) & 0xFF else if k == 2 then (w >> 8) & 0xFF else w & 0xFF)
     as bv8) as int
  }

  function WordBytes(w: bv32): (s: seq<byte>)
    ensures |s| == 4
  {
    [WordByte(w, 0), WordByte(w, 1), WordByte(w, 2), WordByte(w, 3)]
  }

  function Words(v: Registers): (s: seq<bv32>)
    ensures |s| == 8
  {
    [v.a, v.b, v.c, v.d, v.e, v.f, v.g, v.h]
  }

  function Bytes(w: seq<bv32>): (s: seq<byte>)
    ensures |s| == 4 * |w|
  {
    if w == [] then [] else Bytes(w[..|w| - 1]) + WordBytes(w[|w| - 1])
  }

  /** The message digest of a message shorter than 2^64 bits. */
  function Digest(m: seq<byte>): (d: seq<byte>)
    requires 8 * |m| < TWO64
    ensures |d| == 32
  {
    Bytes(Words(HashBlocks(Pad(m, 8 * |m|))))
  }
}
