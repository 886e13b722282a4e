/** The zigzag code of bridges/mqtt-go/proto.go and tests/unit/protobuf.py on machine words, tied to the integer maps
    that ProtoValues uses. */
module ZigzagWords {
  import opened ProtoValues

  // ----- 32-bit words

  /** The word of an integer: counting up and down from zero, so sums of integers are sums of words. */
  function Word32(n: int): bv32
    decreases if n < 0 then -n else n
  {
    if n == 0 then 0 else if n > 0 then Up32(Word32(n - 1)) else Down32(Word32(n + 1))
  }

  function Plus32(x: bv32, y: bv32): bv32 { x + y }
  function Up32(x: bv32): bv32 { Plus32(x, 1) }
  function Down32(x: bv32): bv32 { Plus32(x, 0xFFFF_FFFF) }

  lemma Reassociate32(a: bv32, b: bv32, c: bv32)
    ensures (a + b) + c == a + (b + c)
  {}

  lemma PlusAssociates32(a: bv32, b: bv32, c: bv32)
    ensures Plus32(Plus32(a, b), c) == Plus32(a, Plus32(b, c))
  {
    Reassociate32(a, b, c);
    assert Plus32(a + b, c) == a + b + c;
    assert Plus32(a, b + c) == a + (b + c);
    assert Plus32(a, b) == a + b;
    assert Plus32(b, c) == b + c;
  }

  lemma PlusZero32(x: bv32)
    ensures Plus32(x, 0) == x
  {}

  lemma OneAndOnes32()
    ensures Plus32(0xFFFF_FFFF, 1) == 0 && Plus32(1, 0xFFFF_FFFF) == 0
  {}

  lemma UpDown32(x: bv32)
    ensures Up32(Down32(x)) == x && Down32(Up32(x)) == x
  {
    hide Plus32;
    PlusAssociates32(x, 0xFFFF_FFFF, 1);
    PlusAssociates32(x, 1, 0xFFFF_FFFF);
    OneAndOnes32();
    PlusZero32(x);
  }

  lemma Next32(n: int)
    ensures Word32(n + 1) == Up32(Word32(n)) && Word32(n - 1) == Down32(Word32(n))
  {
    hide Up32, Down32;
    if n < 0 {
      UpDown32(Word32(n + 1));
    } else if n > 0 {
      UpDown32(Word32(n - 1));
    }
  }

  lemma {:induction false} Sum32(a: int, b: int)
    ensures Word32(a + b) == Plus32(Word32(a), Word32(b))
    decreases if b < 0 then -b else b
  {
    hide Plus32;
    if b == 0 {
      PlusZero32(Word32(a));
    } else if b > 0 {
      Sum32(a, b - 1);
      Next32(a + b - 1);
      PlusAssociates32(Word32(a), Word32(b - 1), 1);
    } else {
      Sum32(a, b + 1);
      Next32(a + b + 1);
      PlusAssociates32(Word32(a), Word32(b + 1), 0xFFFF_FFFF);
    }
  }

  /** `v >> 31` on a signed value: the floor of v / 2^31. */
  function Sign32(n: int): bv32 {
    if n < 0 then 0xFFFF_FFFF else 0
  }

  /** zigzag32 with its sign word. */
  function Zig32(x: bv32, sign: bv32): bv32 {
    (x << 1) ^ sign
  }

  lemma ZigPositive32(x: bv32)
    ensures Zig32(x, 0) == Plus32(x, x)
  {}

  lemma ZigNegative32(x: bv32)
    ensures Zig32(x, 0xFFFF_FFFF) == Down32(Plus32(Neg32(x), Neg32(x)))
  {}

  lemma Opposite32(x: bv32, y: bv32)
    requires Plus32(x, y) == 0
    ensures y == Neg32(x)
  {}

  lemma Negated32(n: int)
    ensures Word32(-n) == Neg32(Word32(n))
  {
    hide Word32, Plus32, Neg32;
    Sum32(n, -n);
    WordOne32();
    Opposite32(Word32(n), Word32(-n));
  }

  /** zigzag32: the shift and xor on words are the arithmetic map. */
  lemma Zigzag32IsShift(n: int)
    ensures Zig32(Word32(n), Sign32(n)) == Word32(Zigzag(n))
  {
    hide Zig32, Word32, Plus32, Down32, Neg32;
    if n >= 0 {
      ZigPositive32(Word32(n));
      Sum32(n, n);
    } else {
      ZigNegative32(Word32(n));
      Negated32(n);
      Sum32(-n, -n);
      Next32(-n - n);
    }
  }

  /** The words of the numbers below n are at most top. */
  ghost predicate UpTo32(n: nat, top: bv32) {
    forall i :: 0 <= i < n ==> Word32(i) <= top
  }

  lemma WordOne32()
    ensures Word32(0) == 0 && Word32(1) == 1
  {
    assert Word32(1) == Up32(Word32(0));
  }

  lemma Halves32(n: nat)
    ensures Word32(n) == Double32(Word32(n / 2), Word32(n % 2))
    ensures Word32(n % 2) == if n % 2 == 0 then 0 else 1
  {
    hide Plus32;
    WordOne32();
    Sum32(n / 2, n / 2);
    Sum32(n / 2 + n / 2, n % 2);
  }

  /** One more bit, set. */
  function Ones32(top: bv32): bv32 { Up32(Plus32(top, top)) }

  function Double32(x: bv32, b: bv32): bv32 { Plus32(Plus32(x, x), b) }

  lemma DoubleBelow32(x: bv32, b: bv32, top: bv32)
    requires x <= top && top < 0x8000_0000 && b <= 1
    ensures Double32(x, b) <= Ones32(top)
  {}

  predicate Small32(x: bv32) { x < 0x8000_0000 }
  function Half32(x: bv32): bv32 { x >> 1 }
  function Bit32(x: bv32): bv32 { x & 1 }
  function Neg32(x: bv32): bv32 { -x }

  lemma DoubleHalved32(x: bv32, b: bv32)
    requires Small32(x) && b <= 1
    ensures Half32(Double32(x, b)) == x
  {}

  lemma DoubleLow32(x: bv32, b: bv32)
    requires b <= 1
    ensures Bit32(Double32(x, b)) == b
  {}

  lemma Lift32(n: nat, top: bv32)
    requires UpTo32(n, top) && top < 0x8000_0000
    ensures UpTo32(2 * n, Ones32(top))
  {
    hide Ones32, Double32, Word32;
    forall i | 0 <= i < 2 * n ensures Word32(i) <= Ones32(top) {
      Halves32(i);
      DoubleBelow32(Word32(i / 2), Word32(i % 2), top);
    }
  }

  function FourOnes32(top: bv32): bv32 { Ones32(Ones32(Ones32(Ones32(top)))) }

  lemma OnesGrow32(top: bv32)
    requires top < 0x1000_0000
    ensures Ones32(top) < 0x2000_0000
    ensures Ones32(Ones32(top)) < 0x4000_0000
    ensures Ones32(Ones32(Ones32(top))) < 0x8000_0000
  {}

  lemma LiftFour32(n: nat, top: bv32, m: nat, next: bv32)
    requires UpTo32(n, top) && top < 0x1000_0000 && m == 16 * n && next == FourOnes32(top)
    ensures UpTo32(m, next)
  {
    hide UpTo32, Ones32;
    OnesGrow32(top);
    Lift32(n, top);
    Lift32(2 * n, Ones32(top));
    Lift32(4 * n, Ones32(Ones32(top)));
    Lift32(8 * n, Ones32(Ones32(Ones32(top))));
  }

  lemma UpToOne32()
    ensures UpTo32(1, 0)
  {}

  lemma HalfRange32()
    ensures UpTo32(0x8000_0000, 0x7FFF_FFFF)
  {
    hide UpTo32;
    UpToOne32();
    LiftFour32(0x1, 0x0, 0x10, 0xF);
    LiftFour32(0x10, 0xF, 0x100, 0xFF);
    LiftFour32(0x100, 0xFF, 0x1000, 0xFFF);
    LiftFour32(0x1000, 0xFFF, 0x1_0000, 0xFFFF);
    LiftFour32(0x1_0000, 0xFFFF, 0x10_0000, 0xF_FFFF);
    LiftFour32(0x10_0000, 0xF_FFFF, 0x100_0000, 0xFF_FFFF);
    LiftFour32(0x100_0000, 0xFF_FFFF, 0x1000_0000, 0xFFF_FFFF);
    Lift32(0x1000_0000, 0xFFF_FFFF);
    Lift32(0x2000_0000, 0x1FFF_FFFF);
    Lift32(0x4000_0000, 0x3FFF_FFFF);
  }

  lemma HalfBelow32(u: nat)
    requires u < 0x1_0000_0000
    ensures Small32(Word32(u / 2))
  {
    hide Word32;
    HalfRange32();
  }

  /** unzigzag32. */
  function Unzig32(x: bv32): bv32 {
    (x >> 1) ^ -(x & 1)
  }

  lemma UnzigCases32(x: bv32, h: bv32)
    requires Half32(x) == h
    ensures Bit32(x) == 0 ==> Unzig32(x) == h
    ensures Bit32(x) == 1 ==> Unzig32(x) == Down32(Neg32(h))
  {}

  /** unzigzag32: halving a word and xoring with its negated low bit is the arithmetic map. */
  lemma Unzigzag32IsShift(u: nat)
    requires u < 0x1_0000_0000
    ensures Unzig32(Word32(u)) == Word32(Unzigzag(u))
  {
    hide Word32, Unzig32, Double32, Down32, Neg32, Half32, Bit32, Small32;
    HalfBelow32(u);
    Halves32(u);
    DoubleHalved32(Word32(u / 2), Word32(u % 2));
    DoubleLow32(Word32(u / 2), Word32(u % 2));
    UnzigCases32(Word32(u), Word32(u / 2));
    Negated32(u / 2);
    Next32(-(u / 2));
  }

  // ----- 64-bit words

  /** The word of an integer: counting up and down from zero, so sums of integers are sums of words. */
  function Word64(n: int): bv64
    decreases if n < 0 then -n else n
  {
    if n == 0 then 0 else if n > 0 then Up64(Word64(n - 1)) else Down64(Word64(n + 1))
  }

  function Plus64(x: bv64, y: bv64): bv64 { x + y }
  function Up64(x: bv64): bv64 { Plus64(x, 1) }
  function Down64(x: bv64): bv64 { Plus64(x, 0xFFFF_FFFF_FFFF_FFFF) }

  lemma Reassociate64(a: bv64, b: bv64, c: bv64)
    ensures (a + b) + c == a + (b + c)
  {}

  lemma PlusAssociates64(a: bv64, b: bv64, c: bv64)
    ensures Plus64(Plus64(a, b), c) == Plus64(a, Plus64(b, c))
  {
    Reassociate64(a, b, c);
    assert Plus64(a + b, c) == a + b + c;
    assert Plus64(a, b + c) == a + (b + c);
    assert Plus64(a, b) == a + b;
    assert Plus64(b, c) == b + c;
  }

  lemma PlusZero64(x: bv64)
    ensures Plus64(x, 0) == x
  {}

  lemma OneAndOnes64()
    ensures Plus64(0xFFFF_FFFF_FFFF_FFFF, 1) == 0 && Plus64(1, 0xFFFF_FFFF_FFFF_FFFF) == 0
  {}

  lemma UpDown64(x: bv64)
    ensures Up64(Down64(x)) == x && Down64(Up64(x)) == x
  {
    hide Plus64;
    PlusAssociates64(x, 0xFFFF_FFFF_FFFF_FFFF, 1);
    PlusAssociates64(x, 1, 0xFFFF_FFFF_FFFF_FFFF);
    OneAndOnes64();
    PlusZero64(x);
  }

  lemma Next64(n: int)
    ensures Word64(n + 1) == Up64(Word64(n)) && Word64(n - 1) == Down64(Word64(n))
  {
    hide Up64, Down64;
    if n < 0 {
      UpDown64(Word64(n + 1));
    } else if n > 0 {
      UpDown64(Word64(n - 1));
    }
  }

  lemma {:induction false} Sum64(a: int, b: int)
    ensures Word64(a + b) == Plus64(Word64(a), Word64(b))
    decreases if b < 0 then -b else b
  {
    hide Plus64;
    if b == 0 {
      PlusZero64(Word64(a));
    } else if b > 0 {
      Sum64(a, b - 1);
      Next64(a + b - 1);
      PlusAssociates64(Word64(a), Word64(b - 1), 1);
    } else {
      Sum64(a, b + 1);
      Next64(a + b + 1);
      PlusAssociates64(Word64(a), Word64(b + 1), 0xFFFF_FFFF_FFFF_FFFF);
    }
  }

  /** `v >> 63` on a signed value: the floor of v / 2^63. */
  function Sign64(n: int): bv64 {
    if n < 0 then 0xFFFF_FFFF_FFFF_FFFF else 0
  }

  /** zigzag64 with its sign word. */
  function Zig64(x: bv64, sign: bv64): bv64 {
    (x << 1) ^ sign
  }

  lemma ZigPositive64(x: bv64)
    ensures Zig64(x, 0) == Plus64(x, x)
  {}

  lemma ZigNegative64(x: bv64)
    ensures Zig64(x, 0xFFFF_FFFF_FFFF_FFFF) == Down64(Plus64(Neg64(x), Neg64(x)))
  {}

  lemma Opposite64(x: bv64, y: bv64)
    requires Plus64(x, y) == 0
    ensures y == Neg64(x)
  {}

  lemma Negated64(n: int)
    ensures Word64(-n) == Neg64(Word64(n))
  {
    hide Word64, Plus64, Neg64;
    Sum64(n, -n);
    WordOne64();
    Opposite64(Word64(n), Word64(-n));
  }

  /** zigzag64: the shift and xor on words are the arithmetic map. */
  lemma Zigzag64IsShift(n: int)
    ensures Zig64(Word64(n), Sign64(n)) == Word64(Zigzag(n))
  {
    hide Zig64, Word64, Plus64, Down64, Neg64;
    if n >= 0 {
      ZigPositive64(Word64(n));
      Sum64(n, n);
    } else {
      ZigNegative64(Word64(n));
      Negated64(n);
      Sum64(-n, -n);
      Next64(-n - n);
    }
  }

  /** The words of the numbers below n are at most top. */
  ghost predicate UpTo64(n: nat, top: bv64) {
    forall i :: 0 <= i < n ==> Word64(i) <= top
  }

  lemma WordOne64()
    ensures Word64(0) == 0 && Word64(1) == 1
  {
    assert Word64(1) == Up64(Word64(0));
  }

  lemma Halves64(n: nat)
    ensures Word64(n) == Double64(Word64(n / 2), Word64(n % 2))
    ensures Word64(n % 2) == if n % 2 == 0 then 0 else 1
  {
    hide Plus64;
    WordOne64();
    Sum64(n / 2, n / 2);
    Sum64(n / 2 + n / 2, n % 2);
  }

  /** One more bit, set. */
  function Ones64(top: bv64): bv64 { Up64(Plus64(top, top)) }

  function Double64(x: bv64, b: bv64): bv64 { Plus64(Plus64(x, x), b) }

  lemma DoubleBelow64(x: bv64, b: bv64, top: bv64)
    requires x <= top && top < 0x8000_0000_0000_0000 && b <= 1
    ensures Double64(x, b) <= Ones64(top)
  {}

  predicate Small64(x: bv64) { x < 0x8000_0000_0000_0000 }
  function Half64(x: bv64): bv64 { x >> 1 }
  function Bit64(x: bv64): bv64 { x & 1 }
  function Neg64(x: bv64): bv64 { -x }

  lemma DoubleHalved64(x: bv64, b: bv64)
    requires Small64(x) && b <= 1
    ensures Half64(Double64(x, b)) == x
  {}

  lemma DoubleLow64(x: bv64, b: bv64)
    requires b <= 1
    ensures Bit64(Double64(x, b)) == b
  {}

  lemma Lift64(n: nat, top: bv64)
    requires UpTo64(n, top) && top < 0x8000_0000_0000_0000
    ensures UpTo64(2 * n, Ones64(top))
  {
    hide Ones64, Double64, Word64;
    forall i | 0 <= i < 2 * n ensures Word64(i) <= Ones64(top) {
      Halves64(i);
      DoubleBelow64(Word64(i / 2), Word64(i % 2), top);
    }
  }

  function FourOnes64(top: bv64): bv64 { Ones64(Ones64(Ones64(Ones64(top)))) }

  lemma OnesGrow64(top: bv64)
    requires top < 0x1000_0000_0000_0000
    ensures Ones64(top) < 0x2000_0000_0000_0000
    ensures Ones64(Ones64(top)) < 0x4000_0000_0000_0000
    ensures Ones64(Ones64(Ones64(top))) < 0x8000_0000_0000_0000
  {}

  lemma LiftFour64(n: nat, top: bv64, m: nat, next: bv64)
    requires UpTo64(n, top) && top < 0x1000_0000_0000_0000 && m == 16 * n && next == FourOnes64(top)
    ensures UpTo64(m, next)
  {
    hide UpTo64, Ones64;
    OnesGrow64(top);
    Lift64(n, top);
    Lift64(2 * n, Ones64(top));
    Lift64(4 * n, Ones64(Ones64(top)));
    Lift64(8 * n, Ones64(Ones64(Ones64(top))));
  }

  lemma UpToOne64()
    ensures UpTo64(1, 0)
  {}

  lemma HalfRange64()
    ensures UpTo64(0x8000_0000_0000_0000, 0x7FFF_FFFF_FFFF_FFFF)
  {
    hide UpTo64;
    UpToOne64();
    LiftFour64(0x1, 0x0, 0x10, 0xF);
    LiftFour64(0x10, 0xF, 0x100, 0xFF);
    LiftFour64(0x100, 0xFF, 0x1000, 0xFFF);
    LiftFour64(0x1000, 0xFFF, 0x1_0000, 0xFFFF);
    LiftFour64(0x1_0000, 0xFFFF, 0x10_0000, 0xF_FFFF);
    LiftFour64(0x10_0000, 0xF_FFFF, 0x100_0000, 0xFF_FFFF);
    LiftFour64(0x100_0000, 0xFF_FFFF, 0x1000_0000, 0xFFF_FFFF);
    LiftFour64(0x1000_0000, 0xFFF_FFFF, 0x1_0000_0000, 0xFFFF_FFFF);
    LiftFour64(0x1_0000_0000, 0xFFFF_FFFF, 0x10_0000_0000, 0xF_FFFF_FFFF);
    LiftFour64(0x10_0000_0000, 0xF_FFFF_FFFF, 0x100_0000_0000, 0xFF_FFFF_FFFF);
    LiftFour64(0x100_0000_0000, 0xFF_FFFF_FFFF, 0x1000_0000_0000, 0xFFF_FFFF_FFFF);
    LiftFour64(0x1000_0000_0000, 0xFFF_FFFF_FFFF, 0x1_0000_0000_0000, 0xFFFF_FFFF_FFFF);
    LiftFour64(0x1_0000_0000_0000, 0xFFFF_FFFF_FFFF, 0x10_0000_0000_0000, 0xF_FFFF_FFFF_FFFF);
    LiftFour64(0x10_0000_0000_0000, 0xF_FFFF_FFFF_FFFF, 0x100_0000_0000_0000, 0xFF_FFFF_FFFF_FFFF);
    LiftFour64(0x100_0000_0000_0000, 0xFF_FFFF_FFFF_FFFF, 0x1000_0000_0000_0000, 0xFFF_FFFF_FFFF_FFFF);
    Lift64(0x1000_0000_0000_0000, 0xFFF_FFFF_FFFF_FFFF);
    Lift64(0x2000_0000_0000_0000, 0x1FFF_FFFF_FFFF_FFFF);
    Lift64(0x4000_0000_0000_0000, 0x3FFF_FFFF_FFFF_FFFF);
  }

  lemma HalfBelow64(u: nat)
    requires u < 0x1_0000_0000_0000_0000
    ensures Small64(Word64(u / 2))
  {
    hide Word64;
    HalfRange64();
  }

  /** unzigzag64. */
  function Unzig64(x: bv64): bv64 {
    (x >> 1) ^ -(x & 1)
  }

  lemma UnzigCases64(x: bv64, h: bv64)
    requires Half64(x) == h
    ensures Bit64(x) == 0 ==> Unzig64(x) == h
    ensures Bit64(x) == 1 ==> Unzig64(x) == Down64(Neg64(h))
  {}

  /** unzigzag64: halving a word and xoring with its negated low bit is the arithmetic map. */
  lemma Unzigzag64IsShift(u: nat)
    requires u < 0x1_0000_0000_0000_0000
    ensures Unzig64(Word64(u)) == Word64(Unzigzag(u))
  {
    hide Word64, Unzig64, Double64, Down64, Neg64, Half64, Bit64, Small64;
    HalfBelow64(u);
    Halves64(u);
    DoubleHalved64(Word64(u / 2), Word64(u % 2));
    DoubleLow64(Word64(u / 2), Word64(u % 2));
    UnzigCases64(Word64(u), Word64(u / 2));
    Negated64(u / 2);
    Next64(-(u / 2));
  }
}
