/** CRC-32 of fixed byte strings, byte by byte: two topics with one CRC, and known answers. */
module CrcExamples {
  import opened Octets
  import opened BytePatterns
  import opened CrcRegister
  import opened Crc32
  import TopicHash
  import R = Retransmits

  /** One byte. */
  lemma Fed(crc: bv32, s: seq<byte>, rest: seq<byte>, next: bv32)
    requires s != [] && s[1..] == rest && ByteStep(crc, Pattern(s[0])) == next
    ensures Register(crc, s) == Register(next, rest)
  {
    hide ByteStep, Pattern;
  }

  lemma NothingFed(crc: bv32)
    ensures Register(crc, []) == crc
  {}

  lemma {:induction false} RegisterConcat(crc: bv32, a: seq<byte>, b: seq<byte>)
    ensures Register(crc, a + b) == Register(Register(crc, a), b)
    decreases |a|
  {
    hide ByteStep;
    if a == [] {
      assert a + b == b;
    } else {
      assert (a + b)[1..] == a[1..] + b;
      RegisterConcat(ByteStep(crc, Pattern(a[0])), a[1..], b);
    }
  }

  // ----- Two topics with one CRC: five bytes are enough, and by Crc32.ByteBurstDetected four are not

  const FIRST: seq<byte> := [68, 53, 48, 48, 65]  // "D500A"
  const SECOND: seq<byte> := [88, 122, 108, 49, 85]  // "Xzl1U"

  lemma First0()
    ensures Register(0xFFFFFFFF, [68, 53, 48, 48, 65]) == 0xA9AD5C9D
  {
    hide Register;
    Fed(0xFFFFFFFF, [68, 53, 48, 48, 65], [53, 48, 48, 65], 0x5C4C95FB);
    Fed(0x5C4C95FB, [53, 48, 48, 65], [48, 48, 65], 0x7C80A322);
    Fed(0x7C80A322, [48, 48, 65], [48, 65], 0xF3C5F1EB);
    Fed(0xF3C5F1EB, [48, 65], [65], 0x11F2CEAD);
    Fed(0x11F2CEAD, [65], [], 0xA9AD5C9D);
    NothingFed(0xA9AD5C9D);
  }

  lemma Second0()
    ensures Register(0xFFFFFFFF, [88, 122, 108, 49, 85]) == 0xA9AD5C9D
  {
    hide Register;
    Fed(0xFFFFFFFF, [88, 122, 108, 49, 85], [122, 108, 49, 85], 0x484DC9B4);
    Fed(0x484DC9B4, [122, 108, 49, 85], [108, 49, 85], 0x7C94A27E);
    Fed(0x7C94A27E, [108, 49, 85], [49, 85], 0xF3C5E5EA);
    Fed(0xF3C5E5EA, [49, 85], [85], 0x11F2CEB9);
    Fed(0x11F2CEB9, [85], [], 0xA9AD5C9D);
    NothingFed(0xA9AD5C9D);
  }

  lemma TopicsCollide()
    ensures FIRST != SECOND && Checksum(FIRST) == Checksum(SECOND)
  {
    hide Register;
    First0();
    Second0();
    assert FIRST[0] != SECOND[0];
  }

  /** So on all topics the firmware's jobs and chain timers do come apart. */
  lemma SomeRunUnpaired()
    ensures exists es :: !R.Paired(R.Run(es))
  {
    hide R.Run, R.Paired, Checksum;
    TopicsCollide();
    var group: TopicHash.GroupAddr := seq(16, _ => 0);
    R.SharedCrcBreaksPairing(FIRST, SECOND, group);
  }

  // ----- Known answers

  lemma Digits0()
    ensures Register(0xFFFFFFFF, [49, 50, 51, 52, 53]) == 0x340AC5E3
  {
    hide Register;
    Fed(0xFFFFFFFF, [49, 50, 51, 52, 53], [50, 51, 52, 53], 0x7C231048);
    Fed(0x7C231048, [50, 51, 52, 53], [51, 52, 53], 0xB0ACBB32);
    Fed(0xB0ACBB32, [51, 52, 53], [52, 53], 0x77B79C2D);
    Fed(0x77B79C2D, [52, 53], [53], 0x641C1F5C);
    Fed(0x641C1F5C, [53], [], 0x340AC5E3);
    NothingFed(0x340AC5E3);
  }

  lemma Digits1()
    ensures Register(0x340AC5E3, [54, 55, 56, 57]) == 0x340BC6D9
  {
    hide Register;
    Fed(0x340AC5E3, [54, 55, 56, 57], [55, 56, 57], 0xF68D2C9E);
    Fed(0xF68D2C9E, [55, 56, 57], [56, 57], 0xAFFC9660);
    Fed(0xAFFC9660, [56, 57], [57], 0x651F2550);
    Fed(0x651F2550, [57], [], 0x340BC6D9);
    NothingFed(0x340BC6D9);
  }

  /** The check value that every description of CRC-32 gives, for the digits 1 to 9. */
  lemma CheckValue()
    ensures Checksum([49, 50, 51, 52, 53, 54, 55, 56, 57]) == 0xCBF43926
  {
    hide Register;
    Digits0();
    Digits1();
    RegisterConcat(ALL_ONES, [49, 50, 51, 52, 53], [54, 55, 56, 57]);
    assert [49, 50, 51, 52, 53] + [54, 55, 56, 57] == [49, 50, 51, 52, 53, 54, 55, 56, 57];
  }

  /** The CRC of the empty topic, in the golden vector of tests/unit/test_topic_hash.py. */
  lemma EmptyTopic()
    ensures Checksum([]) == 0
  {
    hide Register;
    NothingFed(ALL_ONES);
  }

  const HOME_X: seq<byte> := [104, 111, 109, 101, 47, 120]  // "home/x"

  lemma HomeX0()
    ensures Register(0xFFFFFFFF, [104, 111, 109, 101, 47, 120]) == 0x7A6AD481
  {
    hide Register;
    Fed(0xFFFFFFFF, [104, 111, 109, 101, 47, 120], [111, 109, 101, 47, 120], 0x6E94F918);
    Fed(0x6E94F918, [111, 109, 101, 47, 120], [109, 101, 47, 120], 0xCE0F7066);
    Fed(0xCE0F7066, [109, 101, 47, 120], [101, 47, 120], 0x971CD6F8);
    Fed(0x971CD6F8, [101, 47, 120], [47, 120], 0x8E29F32F);
    Fed(0x8E29F32F, [47, 120], [120], 0x008E29F3);
    Fed(0x008E29F3, [120], [], 0x7A6AD481);
    NothingFed(0x7A6AD481);
  }

  lemma HomeXChecksum()
    ensures Checksum(HOME_X) == 0x85952B7E
  {
    hide Register;
    HomeX0();
  }
}
