/** The CRC-32 that names topics and schemas (components/mpubsub/topic_hash.cpp), proved to be the
    polynomial remainder of IEEE 802.3, section 3.2.9, and to detect every short burst of changes. */
module Crc32 {
  import opened Octets
  import opened BytePatterns
  import opened CrcRegister
  import Gf2

  const ALL_ONES: bv32 := 0xFFFF_FFFF

  /** The register after feeding the bytes of s to a register holding init. */
  function Register(init: bv32, s: seq<byte>): bv32
    decreases |s|
  {
    if s == [] then init else Register(ByteStep(init, Pattern(s[0])), s[1..])
  }

  /** topic_crc32 as a bit pattern. */
  function Crc(s: seq<byte>): bv32 {
    Register(ALL_ONES, s) ^ ALL_ONES
  }

  /** topic_crc32 as the unsigned value carried on the wire. */
  function Checksum(s: seq<byte>): u32 {
    Crc(s) as int
  }

  method TopicCrc32(topic: seq<byte>) returns (r: bv32)
    ensures r == Crc(topic)
  {
    hide BitStep, Pattern, Feed;
    var crc: bv32 := ALL_ONES;
    for k := 0 to |topic|
      invariant Register(crc, topic[k..]) == Register(ALL_ONES, topic)
    {
      assert topic[k..][1..] == topic[k + 1..];
      ghost var next := ByteStep(crc, Pattern(topic[k]));
      crc := Feed(crc, Pattern(topic[k]));
      for i := 0 to 8
        invariant BitSteps(crc, 8 - i) == next
      {
        crc := MaskedShift(crc);
      }
    }
    Complement(crc);
    r := !crc;
  }

  /** The body of the inner loop. */
  method MaskedShift(crc: bv32) returns (r: bv32)
    ensures r == BitStep(crc)
  {
    var mask := -(crc & 1);
    r := (crc >> 1) ^ (0xEDB8_8320 & mask);
  }

  lemma Complement(crc: bv32)
    ensures !crc == crc ^ ALL_ONES
  {}

  /** The bits of a message in the order they reach the register. */
  function MessageBits(s: seq<byte>): (m: Gf2.Poly)
    ensures |m| == 8 * |s|
  {
    if s == [] then [] else ByteBits(Pattern(s[0])) + MessageBits(s[1..])
  }

  function Ones(n: nat): (z: Gf2.Poly)
    ensures |z| == n && forall i :: 0 <= i < n ==> z[i]
  {
    seq(n, _ => true)
  }

  /** A byte xored into the register is a byte of the dividend. */
  lemma ByteEntersFront(init: bv32, c: bv8, f: Gf2.Poly)
    requires |f| >= 32
    ensures Gf2.AddFront(ByteBits(c) + f, Bits(init)) == Gf2.AddFront(Gf2.Zeros(8) + f, Bits(Feed(init, c)))
  {
    hide Bits, ByteBits, Feed;
    FeedBits(init, c);
    FrontSplits(ByteBits(c), f, Bits(init));
  }

  lemma FrontSplits(c: Gf2.Poly, f: Gf2.Poly, r: Gf2.Poly)
    requires |c| == 8 && |f| >= 32 && |r| == 32
    ensures Gf2.AddFront(c + f, r) == Gf2.AddFront(Gf2.Zeros(8) + f, Gf2.Add(r, c + Gf2.Zeros(24)))
  {
    var x, y := c + f, Gf2.Zeros(8) + f;
    assert x[32..] == y[32..];
    assert Gf2.Add(x[..32], r) == Gf2.Add(y[..32], Gf2.Add(r, c + Gf2.Zeros(24)));
  }

  /** The register is the remainder of the message, followed by 32 zeros, with init added to its front. */
  lemma {:induction false} RegisterIsRemainder(init: bv32, s: seq<byte>)
    ensures Bits(Register(init, s))
         == Gf2.Remainder(Gf2.AddFront(MessageBits(s) + Gf2.Zeros(32), Bits(init)), Bits(POLY))
    decreases |s|
  {
    hide Bits, ByteBits, BitSteps, Feed;
    if s == [] {
      assert MessageBits(s) + Gf2.Zeros(32) == Gf2.Zeros(32);
      Gf2.AddFrontAll(Gf2.Zeros(32), Bits(init));
    } else {
      var c, f := Pattern(s[0]), MessageBits(s[1..]) + Gf2.Zeros(32);
      assert MessageBits(s) + Gf2.Zeros(32) == ByteBits(c) + f;
      ByteEntersFront(init, c, f);
      Gf2.RemainderTurns(f, Bits(Feed(init, c)), Bits(POLY), 8);
      BitStepsAreTurns(Feed(init, c), 8);
      RegisterIsRemainder(ByteStep(init, c), s[1..]);
    }
  }

  lemma BitsAllOnes()
    ensures Bits(ALL_ONES) == Ones(32)
  {
    forall i | 0 <= i < 32 ensures Bit(ALL_ONES, i) {
      if Mask(i) == 0 {
        ZeroStays(i, 31);
        MaskEnds();
      }
      OnesHas(Mask(i));
    }
  }

  lemma OnesHas(m: bv32)
    requires m != 0
    ensures Has(0xFFFF_FFFF, m)
  {}

  /** The dividend of IEEE 802.3: the message times x^32 with its first 32 bits complemented. */
  function Dividend(s: seq<byte>): (f: Gf2.Poly)
    ensures |f| == 8 * |s| + 32
  {
    Gf2.AddFront(MessageBits(s) + Gf2.Zeros(32), Ones(32))
  }

  /** The masked shift loop computes the complemented remainder of IEEE 802.3, for every byte string. */
  lemma CrcIsRemainder(s: seq<byte>)
    ensures Bits(Crc(s)) == Gf2.Add(Gf2.Remainder(Dividend(s), Bits(POLY)), Ones(32))
  {
    hide Bits;
    RegisterIsRemainder(ALL_ONES, s);
    BitsAllOnes();
    BitsXor(Register(ALL_ONES, s), ALL_ONES);
  }

  lemma DividendsDiffer(s: seq<byte>, t: seq<byte>)
    requires |s| == |t|
    ensures Gf2.Add(Dividend(s), Dividend(t)) == Gf2.Add(MessageBits(s), MessageBits(t)) + Gf2.Zeros(32)
  {
    var a, b := MessageBits(s) + Gf2.Zeros(32), MessageBits(t) + Gf2.Zeros(32);
    assert Gf2.Add(a, b) == Gf2.Add(MessageBits(s), MessageBits(t)) + Gf2.Zeros(32);
    FrontsCancel(a, b, Ones(32));
  }

  lemma FrontsCancel(a: Gf2.Poly, b: Gf2.Poly, o: Gf2.Poly)
    requires |a| == |b| >= |o|
    ensures Gf2.Add(Gf2.AddFront(a, o), Gf2.AddFront(b, o)) == Gf2.Add(a, b)
  {}

  /** Two strings of one length collide exactly when the generator divides their shifted difference. */
  lemma CollisionIffDivisible(s: seq<byte>, t: seq<byte>)
    requires |s| == |t|
    ensures Crc(s) == Crc(t) <==>
            Gf2.Remainder(Gf2.Add(MessageBits(s), MessageBits(t)) + Gf2.Zeros(32), Bits(POLY)) == Gf2.Zeros(32)
  {
    hide Bits, Dividend, Crc, MessageBits;
    var p := Bits(POLY);
    var u, v := Gf2.Remainder(Dividend(s), p), Gf2.Remainder(Dividend(t), p);
    CrcIsRemainder(s);
    CrcIsRemainder(t);
    DividendsDiffer(s, t);
    Gf2.RemainderLinear(Dividend(s), Dividend(t), p);
    SumIsZero(u, v, Ones(32));
    if Gf2.Add(u, v) == Gf2.Zeros(32) {
      BitsInjective(Crc(s), Crc(t));
    }
  }

  lemma SumIsZero(u: Gf2.Poly, v: Gf2.Poly, o: Gf2.Poly)
    requires |u| == |v| == |o|
    ensures Gf2.Add(u, v) == Gf2.Zeros(|u|) <==> u == v
    ensures Gf2.Add(u, o) == Gf2.Add(v, o) <==> u == v
  {
    if Gf2.Add(u, v) == Gf2.Zeros(|u|) {
      forall i | 0 <= i < |u| ensures u[i] == v[i] { assert !Gf2.Add(u, v)[i]; }
    }
    if Gf2.Add(u, o) == Gf2.Add(v, o) {
      forall i | 0 <= i < |u| ensures u[i] == v[i] { assert Gf2.Add(u, o)[i] == Gf2.Add(v, o)[i]; }
    }
  }

  /** A polynomial that vanishes outside a window of 32 coefficients. */
  lemma Window(d: Gf2.Poly, k: nat, i: nat) returns (b: Gf2.Poly, n: nat)
    requires k <= |d| && i < |d| && d[i] && k <= i < k + 32
    requires forall j :: 0 <= j < |d| && !(k <= j < k + 32) ==> !d[j]
    ensures |b| == 32 && b != Gf2.Zeros(32)
    ensures d + Gf2.Zeros(32) == Gf2.Zeros(k) + (b + Gf2.Zeros(n))
  {
    var f := d + Gf2.Zeros(32);
    b, n := f[k..k + 32], |d| - k;
    assert b[i - k];
    assert forall j :: k + 32 <= j < |f| ==> !f[j];
    assert f[k + 32..] == Gf2.Zeros(n);
    assert f[..k] == Gf2.Zeros(k);
  }

  /** Strings of one length whose bits differ only inside a window of 32 never share a CRC. */
  lemma BitBurstDetected(s: seq<byte>, t: seq<byte>, k: nat)
    requires |s| == |t| && k <= 8 * |s| && MessageBits(s) != MessageBits(t)
    requires forall i :: 0 <= i < 8 * |s| && !(k <= i < k + 32) ==> MessageBits(s)[i] == MessageBits(t)[i]
    ensures Crc(s) != Crc(t)
  {
    hide Bits, Crc, MessageBits;
    var d := Gf2.Add(MessageBits(s), MessageBits(t));
    var f := d + Gf2.Zeros(32);
    var i :| 0 <= i < |d| && MessageBits(s)[i] != MessageBits(t)[i];
    var b, n := Window(d, k, i);
    PolyConstantTerm();
    Gf2.BurstNotDivisible(k, b, n, Bits(POLY));
    CollisionIffDivisible(s, t);
  }

  lemma {:induction false} MessageBitsAt(s: seq<byte>, i: nat)
    requires i < |s|
    ensures MessageBits(s)[8 * i..8 * i + 8] == ByteBits(Pattern(s[i]))
    decreases |s|
  {
    hide ByteBits;
    var c, r := ByteBits(Pattern(s[0])), MessageBits(s[1..]);
    assert MessageBits(s) == c + r;
    if i == 0 {
      assert (c + r)[..8] == c;
    } else {
      MessageBitsAt(s[1..], i - 1);
      assert (c + r)[8 * i..8 * i + 8] == r[8 * (i - 1)..8 * (i - 1) + 8];
    }
  }

  lemma WidenInjective(c: bv8, d: bv8)
    requires c as bv32 == d as bv32
    ensures c == d
  {}

  lemma ByteBitsInjective(c: bv8, d: bv8)
    requires ByteBits(c) == ByteBits(d)
    ensures c == d
  {
    hide Bits, ByteBits;
    BitsOfByte(c);
    BitsOfByte(d);
    BitsInjective(c as bv32, d as bv32);
    WidenInjective(c, d);
  }

  /** Two equal-length topics that differ, but only within four consecutive bytes, never share a CRC. */
  lemma ByteBurstDetected(s: seq<byte>, t: seq<byte>, k: nat)
    requires |s| == |t| && k <= |s| && s != t
    requires forall i :: 0 <= i < |s| && !(k <= i < k + 4) ==> s[i] == t[i]
    ensures Crc(s) != Crc(t)
  {
    hide ByteBits, Crc, MessageBits, Pattern;
    var i :| 0 <= i < |s| && s[i] != t[i];
    MessageBitsAt(s, i);
    MessageBitsAt(t, i);
    if MessageBits(s) == MessageBits(t) {
      ByteBitsInjective(Pattern(s[i]), Pattern(t[i]));
      PatternInjective(s[i], t[i]);
    }
    forall j | 0 <= j < 8 * |s| && !(8 * k <= j < 8 * k + 32) ensures MessageBits(s)[j] == MessageBits(t)[j] {
      MessageBitsAt(s, j / 8);
      MessageBitsAt(t, j / 8);
      assert MessageBits(s)[j] == MessageBits(s)[8 * (j / 8)..8 * (j / 8) + 8][j % 8];
      assert MessageBits(t)[j] == MessageBits(t)[8 * (j / 8)..8 * (j / 8) + 8][j % 8];
    }
    BitBurstDetected(s, t, 8 * k);
  }
}
