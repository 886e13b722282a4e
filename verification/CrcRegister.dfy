/** The CRC-32 bit step on a 32-bit register, and the register read as a polynomial
    (components/mpubsub/topic_hash.cpp). */
module CrcRegister {
  import Gf2

  /** The generator of IEEE 802.3 without its top coefficient, least significant bit first. */
  const POLY: bv32 := 0xEDB8_8320

  /** One turn of the inner loop: `mask = -(crc & 1)`, then shift and subtract. */
  function BitStep(crc: bv32): bv32 {
    (crc >> 1) ^ (POLY & -(crc & 1))
  }

  function BitSteps(crc: bv32, n: nat): bv32
    decreases n
  {
    if n == 0 then crc else BitSteps(BitStep(crc), n - 1)
  }

  /** `crc ^= c`. */
  function Feed(crc: bv32, c: bv8): bv32 {
    crc ^ (c as bv32)
  }

  /** `crc ^= c` followed by the inner loop. */
  function ByteStep(crc: bv32, c: bv8): bv32 {
    BitSteps(Feed(crc, c), 8)
  }

  function Mask(i: nat): bv32 {
    if i == 0 then 1 else Double(Mask(i - 1))
  }

  /** Bit i of a register. The code is reflected: bit 0 is the highest coefficient. */
  predicate Bit(w: bv32, i: nat) {
    Has(w, Mask(i))
  }

  function Bits(w: bv32): (s: Gf2.Poly)
    ensures |s| == 32
  {
    seq(32, i requires 0 <= i < 32 => Bit(w, i))
  }

  /** The eight bits of a byte, in the order the register consumes them. */
  function ByteBits(c: bv8): (s: Gf2.Poly)
    ensures |s| == 8
  {
    Bits(c as bv32)[..8]
  }

  lemma SingleShift(m: bv32)
    requires m & (m - 1) == 0
    ensures (m << 1) & ((m << 1) - 1) == 0
  {}

  lemma {:induction false} MaskSingle(i: nat)
    ensures Mask(i) & (Mask(i) - 1) == 0
  {
    if i > 0 {
      MaskSingle(i - 1);
      SingleShift(Mask(i - 1));
    }
  }

  lemma MaskEnds()
    ensures Mask(8) == 0x100 && Mask(31) == 0x8000_0000 && Mask(32) == 0
  {
    assert Mask(1) == 0x2 && Mask(2) == 0x4;
    assert Mask(3) == 0x8 && Mask(4) == 0x10;
    assert Mask(5) == 0x20 && Mask(6) == 0x40;
    assert Mask(7) == 0x80 && Mask(8) == 0x100;
    assert Mask(9) == 0x200 && Mask(10) == 0x400;
    assert Mask(11) == 0x800 && Mask(12) == 0x1000;
    assert Mask(13) == 0x2000 && Mask(14) == 0x4000;
    assert Mask(15) == 0x8000 && Mask(16) == 0x10000;
    assert Mask(17) == 0x20000 && Mask(18) == 0x40000;
    assert Mask(19) == 0x80000 && Mask(20) == 0x100000;
    assert Mask(21) == 0x200000 && Mask(22) == 0x400000;
    assert Mask(23) == 0x800000 && Mask(24) == 0x1000000;
    assert Mask(25) == 0x2000000 && Mask(26) == 0x4000000;
    assert Mask(27) == 0x8000000 && Mask(28) == 0x10000000;
    assert Mask(29) == 0x20000000 && Mask(30) == 0x40000000;
  }

  lemma TopThenZero(m: bv32)
    requires m & (m - 1) == 0 && m & 0x8000_0000 != 0
    ensures m << 1 == 0
  {}

  lemma {:induction false} ZeroStays(i: nat, j: nat)
    requires i <= j && Mask(i) == 0
    ensures Mask(j) == 0
    decreases j
  {
    if i < j {
      ZeroStays(i, j - 1);
    }
  }

  lemma MaskBelowTop(i: nat)
    requires i < 31
    ensures Mask(i) & 0x8000_0000 == 0
  {
    if Mask(i) & 0x8000_0000 != 0 {
      MaskSingle(i);
      TopThenZero(Mask(i));
      ZeroStays(i + 1, 31);
      MaskEnds();
    }
  }

  lemma ShiftOfMask(m: bv32)
    requires m & 0xFF == 0
    ensures (m << 1) & 0xFF == 0
  {}

  lemma {:induction false} MaskAboveByte(i: nat)
    requires i >= 8
    ensures Mask(i) & 0xFF == 0
  {
    if i == 8 {
      MaskEnds();
    } else {
      MaskAboveByte(i - 1);
      ShiftOfMask(Mask(i - 1));
    }
  }

  lemma XorAtMask(a: bv32, b: bv32, m: bv32)
    requires m & (m - 1) == 0
    ensures ((a ^ b) & m != 0) == ((a & m != 0) != (b & m != 0))
  {}

  predicate Has(w: bv32, m: bv32) { w & m != 0 }

  function Half(w: bv32): bv32 { w >> 1 }

  function Double(m: bv32): bv32 { m << 1 }

  lemma ShiftAtMask(w: bv32, m: bv32)
    requires m & 0x8000_0000 == 0
    ensures Has(Half(w), m) == Has(w, Double(m))
  {}

  lemma BitsXor(a: bv32, b: bv32)
    ensures Bits(a ^ b) == Gf2.Add(Bits(a), Bits(b))
  {
    hide Mask;
    var d := a ^ b;
    forall i | 0 <= i < 32 ensures Bit(d, i) == (Bit(a, i) != Bit(b, i)) {
      MaskSingle(i);
      XorAtMask(a, b, Mask(i));
    }
  }

  lemma TopAfterShift(w: bv32)
    ensures (w >> 1) & 0x8000_0000 == 0
  {}

  lemma BitShift(w: bv32, i: nat)
    requires i < 31
    ensures Bit(Half(w), i) == Bit(w, i + 1)
  {
    hide Has, Half, Double;
    MaskBelowTop(i);
    ShiftAtMask(w, Mask(i));
  }

  lemma BitShiftTop(w: bv32)
    ensures !Bit(Half(w), 31)
  {
    MaskEnds();
    TopAfterShift(w);
  }

  lemma BitsShift(w: bv32)
    ensures Bits(Half(w)) == Bits(w)[1..] + [false]
  {
    hide Bit, Half;
    BitShiftTop(w);
    forall i | 0 <= i < 31 ensures Bits(Half(w))[i] == Bits(w)[1..][i] {
      BitShift(w, i);
    }
  }

  lemma ByteHasNoHighBits(c: bv8, m: bv32)
    requires m & 0xFF == 0
    ensures (c as bv32) & m == 0
  {}

  lemma BitsOfByte(c: bv8)
    ensures Bits(c as bv32) == ByteBits(c) + Gf2.Zeros(24)
  {
    var w := c as bv32;
    forall i | 8 <= i < 32 ensures !Bit(w, i) {
      MaskAboveByte(i);
      ByteHasNoHighBits(c, Mask(i));
    }
  }

  /** A byte fed to the register lands on its eight highest coefficients. */
  lemma FeedBits(crc: bv32, c: bv8)
    ensures Bits(Feed(crc, c)) == Gf2.Add(Bits(crc), ByteBits(c) + Gf2.Zeros(24))
  {
    hide Bits, ByteBits;
    BitsXor(crc, c as bv32);
    BitsOfByte(c);
  }

  lemma BitStepCases(w: bv32)
    ensures w & 1 == 0 ==> BitStep(w) == Half(w)
    ensures w & 1 != 0 ==> BitStep(w) == Half(w) ^ POLY
  {}

  /** The masked shift is one turn of the polynomial division register. */
  lemma BitStepIsTurn(w: bv32)
    ensures Bits(BitStep(w)) == Gf2.Turn(Bits(w), Bits(POLY))
  {
    hide BitStep, Bits, Half;
    BitStepCases(w);
    BitsShift(w);
    assert Bits(w)[0] == (w & 1 != 0) by { FirstBit(w); }
    assert (Bits(w) + [false])[1..] == Bits(w)[1..] + [false];
    BitsXor(Half(w), POLY);
    Gf2.AddFrontAll(Bits(w)[1..] + [false], Bits(POLY));
  }

  lemma FirstBit(w: bv32)
    ensures Bits(w)[0] == (w & 1 != 0)
  {
    assert Mask(0) == 1;
  }

  lemma {:induction false} BitStepsAreTurns(w: bv32, n: nat)
    ensures Bits(BitSteps(w, n)) == Gf2.Turns(Bits(w), Bits(POLY), n)
    decreases n
  {
    hide BitStep, Bits;
    if n > 0 {
      BitStepIsTurn(w);
      BitStepsAreTurns(BitStep(w), n - 1);
    }
  }

  lemma LowAgree(d: bv32, m: bv32)
    requires m & (m - 1) == 0 && d & (m - 1) == 0 && d & m == 0
    ensures d & ((m << 1) - 1) == 0
  {}

  lemma {:induction false} NoBitsBelow(d: bv32, i: nat)
    requires forall j :: 0 <= j < i ==> !Bit(d, j)
    ensures d & (Mask(i) - 1) == 0
  {
    if i > 0 {
      NoBitsBelow(d, i - 1);
      MaskSingle(i - 1);
      assert !Bit(d, i - 1);
      LowAgree(d, Mask(i - 1));
    }
  }

  lemma XorZero(a: bv32, b: bv32)
    requires (a ^ b) & 0xFFFF_FFFF == 0
    ensures a == b
  {}

  /** A register is determined by its bits. */
  lemma BitsInjective(a: bv32, b: bv32)
    requires Bits(a) == Bits(b)
    ensures a == b
  {
    BitsXor(a, b);
    var d := a ^ b;
    forall j | 0 <= j < 32 ensures !Bit(d, j) {
      assert Bits(d)[j] == (Bits(a)[j] != Bits(b)[j]);
    }
    NoBitsBelow(d, 32);
    MaskEnds();
    XorZero(a, b);
  }

  /** The generator's constant coefficient is one. */
  lemma PolyConstantTerm()
    ensures Bits(POLY)[31]
  {
    MaskEnds();
  }

  /** The powers of x in the generator of section 3.2.9 of IEEE 802.3, below the 32nd. */
  const EXPONENTS: set<int> := {26, 23, 22, 16, 12, 11, 10, 8, 7, 5, 4, 2, 1, 0}

  lemma MaskEnds0()
    ensures Mask(0) == 0x1
    ensures Mask(1) == 0x2
    ensures Mask(2) == 0x4
    ensures Mask(3) == 0x8
  {
  }

  lemma MaskEnds1()
    ensures Mask(4) == 0x10
    ensures Mask(5) == 0x20
    ensures Mask(6) == 0x40
    ensures Mask(7) == 0x80
  {
    MaskEnds0();
  }

  lemma MaskEnds2()
    ensures Mask(8) == 0x100
    ensures Mask(9) == 0x200
    ensures Mask(10) == 0x400
    ensures Mask(11) == 0x800
  {
    MaskEnds1();
  }

  lemma MaskEnds3()
    ensures Mask(12) == 0x1000
    ensures Mask(13) == 0x2000
    ensures Mask(14) == 0x4000
    ensures Mask(15) == 0x8000
  {
    MaskEnds2();
  }

  lemma MaskEnds4()
    ensures Mask(16) == 0x10000
    ensures Mask(17) == 0x20000
    ensures Mask(18) == 0x40000
    ensures Mask(19) == 0x80000
  {
    MaskEnds3();
  }

  lemma MaskEnds5()
    ensures Mask(20) == 0x100000
    ensures Mask(21) == 0x200000
    ensures Mask(22) == 0x400000
    ensures Mask(23) == 0x800000
  {
    MaskEnds4();
  }

  lemma MaskEnds6()
    ensures Mask(24) == 0x1000000
    ensures Mask(25) == 0x2000000
    ensures Mask(26) == 0x4000000
    ensures Mask(27) == 0x8000000
  {
    MaskEnds5();
  }

  lemma MaskEnds7()
    ensures Mask(28) == 0x10000000
    ensures Mask(29) == 0x20000000
    ensures Mask(30) == 0x40000000
    ensures Mask(31) == 0x80000000
  {
    MaskEnds6();
  }

  lemma PolyBits0()
    ensures forall i :: 0 <= i < 4 ==> (Bit(POLY, i) <==> 31 - i in EXPONENTS)
  {
    MaskEnds0();
    assert !Has(0xEDB8_8320, 0x1);
    assert !Has(0xEDB8_8320, 0x2);
    assert !Has(0xEDB8_8320, 0x4);
    assert !Has(0xEDB8_8320, 0x8);
  }

  lemma PolyBits1()
    ensures forall i :: 4 <= i < 8 ==> (Bit(POLY, i) <==> 31 - i in EXPONENTS)
  {
    MaskEnds1();
    assert !Has(0xEDB8_8320, 0x10);
    assert Has(0xEDB8_8320, 0x20);
    assert !Has(0xEDB8_8320, 0x40);
    assert !Has(0xEDB8_8320, 0x80);
  }

  lemma PolyBits2()
    ensures forall i :: 8 <= i < 12 ==> (Bit(POLY, i) <==> 31 - i in EXPONENTS)
  {
    MaskEnds2();
    assert Has(0xEDB8_8320, 0x100);
    assert Has(0xEDB8_8320, 0x200);
    assert !Has(0xEDB8_8320, 0x400);
    assert !Has(0xEDB8_8320, 0x800);
  }

  lemma PolyBits3()
    ensures forall i :: 12 <= i < 16 ==> (Bit(POLY, i) <==> 31 - i in EXPONENTS)
  {
    MaskEnds3();
    assert !Has(0xEDB8_8320, 0x1000);
    assert !Has(0xEDB8_8320, 0x2000);
    assert !Has(0xEDB8_8320, 0x4000);
    assert Has(0xEDB8_8320, 0x8000);
  }

  lemma PolyBits4()
    ensures forall i :: 16 <= i < 20 ==> (Bit(POLY, i) <==> 31 - i in EXPONENTS)
  {
    MaskEnds4();
    assert !Has(0xEDB8_8320, 0x10000);
    assert !Has(0xEDB8_8320, 0x20000);
    assert !Has(0xEDB8_8320, 0x40000);
    assert Has(0xEDB8_8320, 0x80000);
  }

  lemma PolyBits5()
    ensures forall i :: 20 <= i < 24 ==> (Bit(POLY, i) <==> 31 - i in EXPONENTS)
  {
    MaskEnds5();
    assert Has(0xEDB8_8320, 0x100000);
    assert Has(0xEDB8_8320, 0x200000);
    assert !Has(0xEDB8_8320, 0x400000);
    assert Has(0xEDB8_8320, 0x800000);
  }

  lemma PolyBits6()
    ensures forall i :: 24 <= i < 28 ==> (Bit(POLY, i) <==> 31 - i in EXPONENTS)
  {
    MaskEnds6();
    assert Has(0xEDB8_8320, 0x1000000);
    assert !Has(0xEDB8_8320, 0x2000000);
    assert Has(0xEDB8_8320, 0x4000000);
    assert Has(0xEDB8_8320, 0x8000000);
  }

  lemma PolyBits7()
    ensures forall i :: 28 <= i < 32 ==> (Bit(POLY, i) <==> 31 - i in EXPONENTS)
  {
    MaskEnds7();
    assert !Has(0xEDB8_8320, 0x10000000);
    assert Has(0xEDB8_8320, 0x20000000);
    assert Has(0xEDB8_8320, 0x40000000);
    assert Has(0xEDB8_8320, 0x80000000);
  }

  /** The constant of the code is that generator. */
  lemma PolyIsGenerator()
    ensures forall i :: 0 <= i < 32 ==> (Bits(POLY)[i] <==> 31 - i in EXPONENTS)
  {
    hide Bit;
    PolyBits0(); PolyBits1(); PolyBits2(); PolyBits3(); PolyBits4(); PolyBits5(); PolyBits6(); PolyBits7();
  }
}
