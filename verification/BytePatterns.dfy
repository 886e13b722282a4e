/** Bytes as the eight-bit patterns that shifts and exclusive-or work on. */
module BytePatterns {
  /** The bit pattern of x, converted 32 values at a time. */
  function Pattern(x: int): bv8
    requires 0 <= x < 256
  {
    if x < 32 then x as bv8 else Pattern(x - 32) + 32
  }

  lemma SmallPattern(x: int)
    requires 0 <= x < 32
    ensures (x as bv8) as int == x
  {}

  lemma PatternPlus(b: bv8)
    requires b as int < 224
    ensures (b + 32) as int == b as int + 32
  {}

  /** A byte's pattern has the byte's value. */
  lemma {:induction false} PatternValue(x: int)
    requires 0 <= x < 256
    ensures Pattern(x) as int == x
  {
    if x < 32 {
      SmallPattern(x);
    } else {
      PatternValue(x - 32);
      PatternPlus(Pattern(x - 32));
    }
  }

  lemma PatternInjective(x: int, y: int)
    requires 0 <= x < 256 && 0 <= y < 256 && Pattern(x) == Pattern(y)
    ensures x == y
  {
    hide Pattern;
    PatternValue(x);
    PatternValue(y);
  }
}
