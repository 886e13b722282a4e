/** The digest of the topic of the worked example in section 2.2 of docs/PROTOCOL.md. */
module Sha256OfTopic {
  import opened Octets
  import opened BytePatterns
  import opened Fips180
  import opened Sha256Trace
  import TopicHash

  // "home/livingroom/temp"
  const TOPIC: seq<byte> := [104, 111, 109, 101, 47, 108, 105, 118, 105, 110,
                             103, 114, 111, 111, 109, 47, 116, 101, 109, 112]

  const STATE_0: State :=
    State(Registers(0x6a09e667, 0xbb67ae85, 0x3c6ef372, 0xa54ff53a,
                    0x510e527f, 0x9b05688c, 0x1f83d9ab, 0x5be0cd19),
          Window(0x686f6d65, 0x2f6c6976, 0x696e6772, 0x6f6f6d2f, 0x74656d70, 0x80000000, 0x00000000, 0x00000000,
                 0x00000000, 0x00000000, 0x00000000, 0x00000000, 0x00000000, 0x00000000, 0x00000000, 0x000000a0))

  const STATE_8: State :=
    State(Registers(0x6570aea0, 0x67cd38c6, 0xe6ef04f1, 0x79d153e0,
                    0x3011a326, 0xbe10922f, 0x1d608c87, 0x4659512f),
          Window(0x00000000, 0x00000000, 0x00000000, 0x00000000, 0x00000000, 0x00000000, 0x00000000, 0x000000a0,
                 0x5c5e4b8c, 0x9fd3f3f1, 0xde88024c, 0xac48f08b, 0x86bde405, 0xe67fb191, 0x4ea3dd90, 0x8b219ba8))

  const STATE_16: State :=
    State(Registers(0x55e0f0e5, 0x22a1055e, 0xad67878b, 0x80432f90,
                    0x2577aa17, 0x13fd92bf, 0xbabeca9b, 0x11c6038b),
          Window(0x5c5e4b8c, 0x9fd3f3f1, 0xde88024c, 0xac48f08b, 0x86bde405, 0xe67fb191, 0x4ea3dd90, 0x8b219ba8,
                 0x353d7a63, 0xdd0b9ede, 0xbeb9a3f2, 0x4341dbc8, 0xcc285874, 0x2531d74e, 0xf2519144, 0x8855783f))

  const STATE_24: State :=
    State(Registers(0x300f2fed, 0x5aa2eca6, 0x43734d29, 0xeb3ba3fc,
                    0x436e8ca4, 0x5f78ebba, 0x69cc9235, 0xf93d80e7),
          Window(0x353d7a63, 0xdd0b9ede, 0xbeb9a3f2, 0x4341dbc8, 0xcc285874, 0x2531d74e, 0xf2519144, 0x8855783f,
                 0x405a1bdd, 0xf4c6e050, 0xaf426196, 0x876c4529, 0xfc297ef2, 0x610e9ac0, 0x8e29d427, 0x07f14f7c))

  const STATE_32: State :=
    State(Registers(0x028716b7, 0x40313430, 0xe092a3b4, 0x8eb3f1d0,
                    0xa8563882, 0xcb461ed4, 0xc333d223, 0x45d3feaa),
          Window(0x405a1bdd, 0xf4c6e050, 0xaf426196, 0x876c4529, 0xfc297ef2, 0x610e9ac0, 0x8e29d427, 0x07f14f7c,
                 0x3c65eafb, 0xb4f56860, 0x7c7071fd, 0x3e7d352c, 0x5154d0e9, 0xe39760cf, 0x1cd6a056, 0x557ef2f5))

  const STATE_40: State :=
    State(Registers(0xb3efd0ba, 0xd5af2b8b, 0xe6d11604, 0xc4be4c97,
                    0xe0099a00, 0xf2828243, 0x9b0eaf1c, 0x1e63a480),
          Window(0x3c65eafb, 0xb4f56860, 0x7c7071fd, 0x3e7d352c, 0x5154d0e9, 0xe39760cf, 0x1cd6a056, 0x557ef2f5,
                 0x80dbe991, 0xb93c151a, 0xca438f42, 0x06831cf7, 0xc0906279, 0x979a8912, 0xcc1b8deb, 0x29a6f23c))

  const STATE_48: State :=
    State(Registers(0xdad31379, 0x7756cd82, 0x05633a34, 0x4b888f3a,
                    0x8a4628cb, 0x5459e995, 0xdfa8e380, 0x148a1fb4),
          Window(0x80dbe991, 0xb93c151a, 0xca438f42, 0x06831cf7, 0xc0906279, 0x979a8912, 0xcc1b8deb, 0x29a6f23c,
                 0x3b0d0463, 0x0f96a1bd, 0xb89f1bea, 0x70aac31f, 0xb31bc0d2, 0xf15a6a29, 0x3b95d294, 0xd278324b))

  const STATE_56: State :=
    State(Registers(0x7766bbee, 0xc2d992ad, 0xabfb68e2, 0xfaada855,
                    0xb0d600bb, 0x3712c53e, 0x6198e57e, 0x89374f95),
          Window(0x3b0d0463, 0x0f96a1bd, 0xb89f1bea, 0x70aac31f, 0xb31bc0d2, 0xf15a6a29, 0x3b95d294, 0xd278324b,
                 0x00000000, 0x00000000, 0x00000000, 0x00000000, 0x00000000, 0x00000000, 0x00000000, 0x00000000))

  const STATE_64: State :=
    State(Registers(0x98051994, 0x0f77e046, 0xd2883f28, 0xfe7800b1,
                    0x30ed9e4d, 0x8921027e, 0x5f023b44, 0xbe7ba5aa),
          Window(0x00000000, 0x00000000, 0x00000000, 0x00000000, 0x00000000, 0x00000000, 0x00000000, 0x00000000,
                 0x00000000, 0x00000000, 0x00000000, 0x00000000, 0x00000000, 0x00000000, 0x00000000, 0x00000000))

  lemma To8(block: Block)
    requires Running(block, 0, STATE_0)
    ensures Running(block, 8, STATE_8)
  {
    hide Running, RoundConstant;
    RoundConstants0();
    var s := STATE_0;
    s := Turn(block, 0, s, 0x428a2f98, 0x6477f5b2, 0x01375007, 0x5c5e4b8c);
    s := Turn(block, 1, s, 0x71374491, 0x383af654, 0x1ee9ebdd, 0x9fd3f3f1);
    s := Turn(block, 2, s, 0xb5c0fbcf, 0x363bd329, 0x31f15e96, 0xde88024c);
    s := Turn(block, 3, s, 0xe9b5dba5, 0x9d916f2d, 0x97d37c98, 0xac48f08b);
    s := Turn(block, 4, s, 0x3956c25b, 0x79d153e0, 0x4659512f, 0x86bde405);
    s := Turn(block, 5, s, 0x59f111f1, 0xe6ef04f1, 0x1d608c87, 0xe67fb191);
    s := Turn(block, 6, s, 0x923f82a4, 0x67cd38c6, 0xbe10922f, 0x4ea3dd90);
    s := Turn(block, 7, s, 0xab1c5ed5, 0x6570aea0, 0x3011a326, 0x8b219ba8);
  }

  lemma To16(block: Block)
    requires Running(block, 8, STATE_8)
    ensures Running(block, 16, STATE_16)
  {
    hide Running, RoundConstant;
    RoundConstants1();
    var s := STATE_8;
    s := Turn(block, 8, s, 0xd807aa98, 0x677c10a6, 0xca7ab5ee, 0x353d7a63);
    s := Turn(block, 9, s, 0x12835b01, 0xf3c9bc8d, 0x868de284, 0xdd0b9ede);
    s := Turn(block, 10, s, 0x243185be, 0xbebee14d, 0x00a396ce, 0xbeb9a3f2);
    s := Turn(block, 11, s, 0x550c7dc3, 0x9645eda1, 0x65727056, 0x4341dbc8);
    s := Turn(block, 12, s, 0x72be5d74, 0x80432f90, 0x11c6038b, 0xcc285874);
    s := Turn(block, 13, s, 0x80deb1fe, 0xad67878b, 0xbabeca9b, 0x2531d74e);
    s := Turn(block, 14, s, 0x9bdc06a7, 0x22a1055e, 0x13fd92bf, 0xf2519144);
    s := Turn(block, 15, s, 0xc19bf174, 0x55e0f0e5, 0x2577aa17, 0x8855783f);
  }

  lemma To24(block: Block)
    requires Running(block, 16, STATE_16)
    ensures Running(block, 24, STATE_24)
  {
    hide Running, RoundConstant;
    RoundConstants2();
    var s := STATE_16;
    s := Turn(block, 16, s, 0xe49b69c1, 0x0bd4837e, 0x14a526d6, 0x405a1bdd);
    s := Turn(block, 17, s, 0xefbe4786, 0xf0bb2b58, 0xcf39ab11, 0xf4c6e050);
    s := Turn(block, 18, s, 0x0fc19dc6, 0xbcb3aeae, 0x031fe3c3, 0xaf426196);
    s := Turn(block, 19, s, 0x240ca1cc, 0xd6bc41b7, 0x5f05d25a, 0x876c4529);
    s := Turn(block, 20, s, 0x2de92c6f, 0xeb3ba3fc, 0xf93d80e7, 0xfc297ef2);
    s := Turn(block, 21, s, 0x4a7484aa, 0x43734d29, 0x69cc9235, 0x610e9ac0);
    s := Turn(block, 22, s, 0x5cb0a9dc, 0x5aa2eca6, 0x5f78ebba, 0x8e29d427);
    s := Turn(block, 23, s, 0x76f988da, 0x300f2fed, 0x436e8ca4, 0x07f14f7c);
  }

  lemma To32(block: Block)
    requires Running(block, 24, STATE_24)
    ensures Running(block, 32, STATE_32)
  {
    hide Running, RoundConstant;
    RoundConstants3();
    var s := STATE_24;
    s := Turn(block, 24, s, 0x983e5152, 0x475ed9fe, 0xd0a1110b, 0x3c65eafb);
    s := Turn(block, 25, s, 0xa831c66d, 0x14845b40, 0xe0a644e7, 0xb4f56860);
    s := Turn(block, 26, s, 0xb00327c8, 0xc4d64c2e, 0x3d1e2a48, 0x7c7071fd);
    s := Turn(block, 27, s, 0xbf597fc7, 0xdbe16100, 0x3da728d5, 0x3e7d352c);
    s := Turn(block, 28, s, 0xc6e00bf3, 0x8eb3f1d0, 0x45d3feaa, 0x5154d0e9);
    s := Turn(block, 29, s, 0xd5a79147, 0xe092a3b4, 0xc333d223, 0xe39760cf);
    s := Turn(block, 30, s, 0x06ca6351, 0x40313430, 0xcb461ed4, 0x1cd6a056);
    s := Turn(block, 31, s, 0x14292967, 0x028716b7, 0xa8563882, 0x557ef2f5);
  }

  lemma To40(block: Block)
    requires Running(block, 32, STATE_32)
    ensures Running(block, 40, STATE_40)
  {
    hide Running, RoundConstant;
    RoundConstants4();
    var s := STATE_32;
    s := Turn(block, 32, s, 0x27b70a85, 0x550b5771, 0x39e904ee, 0x80dbe991);
    s := Turn(block, 33, s, 0x2e1b2138, 0xa597ab6f, 0x82918020, 0xb93c151a);
    s := Turn(block, 34, s, 0x4d2c6dfc, 0xb192bbe0, 0xff875fa9, 0xca438f42);
    s := Turn(block, 35, s, 0x53380d13, 0x0674209a, 0x99d8db45, 0x06831cf7);
    s := Turn(block, 36, s, 0x650a7354, 0xc4be4c97, 0x1e63a480, 0xc0906279);
    s := Turn(block, 37, s, 0x766a0abb, 0xe6d11604, 0x9b0eaf1c, 0x979a8912);
    s := Turn(block, 38, s, 0x81c2c92e, 0xd5af2b8b, 0xf2828243, 0xcc1b8deb);
    s := Turn(block, 39, s, 0x92722c85, 0xb3efd0ba, 0xe0099a00, 0x29a6f23c);
  }

  lemma To48(block: Block)
    requires Running(block, 40, STATE_40)
    ensures Running(block, 48, STATE_48)
  {
    hide Running, RoundConstant;
    RoundConstants5();
    var s := STATE_40;
    s := Turn(block, 40, s, 0xa2bfe8a1, 0xce3cda8c, 0x049f92fa, 0x3b0d0463);
    s := Turn(block, 41, s, 0xa81a664b, 0xcef6ef8a, 0xc994b687, 0x0f96a1bd);
    s := Turn(block, 42, s, 0xc24b8b70, 0x3ab4ffd2, 0x2d0f6965, 0xb89f1bea);
    s := Turn(block, 43, s, 0xc76c51a3, 0xa1a5a48f, 0xe31cd306, 0x70aac31f);
    s := Turn(block, 44, s, 0xd192e819, 0x4b888f3a, 0x148a1fb4, 0xb31bc0d2);
    s := Turn(block, 45, s, 0xd6990624, 0x05633a34, 0xdfa8e380, 0xf15a6a29);
    s := Turn(block, 46, s, 0xf40e3585, 0x7756cd82, 0x5459e995, 0x3b95d294);
    s := Turn(block, 47, s, 0x106aa070, 0xdad31379, 0x8a4628cb, 0xd278324b);
  }

  lemma To56(block: Block)
    requires Running(block, 48, STATE_48)
    ensures Running(block, 56, STATE_56)
  {
    hide Running, RoundConstant;
    RoundConstants6();
    var s := STATE_48;
    s := Turn(block, 48, s, 0x19a4c116, 0x11cafbdc, 0x64c87ab9, 0x00000000);
    s := Turn(block, 49, s, 0x1e376c08, 0xe3410f45, 0xa3542cba, 0x00000000);
    s := Turn(block, 50, s, 0x2748774c, 0x207cea33, 0xbd4e4e04, 0x00000000);
    s := Turn(block, 51, s, 0x34b0bcb5, 0xa7fbb31e, 0xf756e558, 0x00000000);
    s := Turn(block, 52, s, 0x391c0cb3, 0xfaada855, 0x89374f95, 0x00000000);
    s := Turn(block, 53, s, 0x4ed8aa4a, 0xabfb68e2, 0x6198e57e, 0x00000000);
    s := Turn(block, 54, s, 0x5b9cca4f, 0xc2d992ad, 0x3712c53e, 0x00000000);
    s := Turn(block, 55, s, 0x682e6ff3, 0x7766bbee, 0xb0d600bb, 0x00000000);
  }

  lemma To64(block: Block)
    requires Running(block, 56, STATE_56)
    ensures Running(block, 64, STATE_64)
  {
    hide Running, RoundConstant;
    RoundConstants7();
    var s := STATE_56;
    s := Turn(block, 56, s, 0x748f82ee, 0xf8e5427f, 0x375183d3, 0x00000000);
    s := Turn(block, 57, s, 0x78a5636f, 0x24567052, 0x649cddef, 0x00000000);
    s := Turn(block, 58, s, 0x84c87814, 0x3d895b21, 0x39b6851a, 0x00000000);
    s := Turn(block, 59, s, 0x8cc70208, 0xd5cd406c, 0x5d676b73, 0x00000000);
    s := Turn(block, 60, s, 0x90befffa, 0xfe7800b1, 0xbe7ba5aa, 0x00000000);
    s := Turn(block, 61, s, 0xa4506ceb, 0xd2883f28, 0x5f023b44, 0x00000000);
    s := Turn(block, 62, s, 0xbef9a3f7, 0x0f77e046, 0x8921027e, 0x00000000);
    s := Turn(block, 63, s, 0xc67178f2, 0x98051994, 0x30ed9e4d, 0x00000000);
  }

  function PaddedMessage(): (b: Block) {
    Pad(TOPIC, 160)
  }

  lemma PaddedBytes()
    ensures PaddedMessage()[..21] == TOPIC + [0x80]
    ensures forall i :: 21 <= i < 63 ==> PaddedMessage()[i] == 0
    ensures PaddedMessage()[63] == 160
  {
    var p := PaddedMessage();
    assert p == TOPIC + [0x80] + Zeros(35) + Length64(160);
    assert Length64(160) == [0, 0, 0, 0, 0, 0, 0, 160];
  }

  lemma Word0()
    ensures W(PaddedMessage(), 0) == 0x686f6d65
  {
    PaddedBytes();
    hide PaddedMessage;
    var p := PaddedMessage();
    assert p[0] == 104 && p[1] == 111 && p[2] == 109 && p[3] == 101;
    assert W(p, 0) == BigEndian(104, 111, 109, 101);
  }

  lemma Word1()
    ensures W(PaddedMessage(), 1) == 0x2f6c6976
  {
    PaddedBytes();
    hide PaddedMessage;
    var p := PaddedMessage();
    assert p[4] == 47 && p[5] == 108 && p[6] == 105 && p[7] == 118;
    assert W(p, 1) == BigEndian(47, 108, 105, 118);
  }

  lemma Word2()
    ensures W(PaddedMessage(), 2) == 0x696e6772
  {
    PaddedBytes();
    hide PaddedMessage;
    var p := PaddedMessage();
    assert p[8] == 105 && p[9] == 110 && p[10] == 103 && p[11] == 114;
    assert W(p, 2) == BigEndian(105, 110, 103, 114);
  }

  lemma Word3()
    ensures W(PaddedMessage(), 3) == 0x6f6f6d2f
  {
    PaddedBytes();
    hide PaddedMessage;
    var p := PaddedMessage();
    assert p[12] == 111 && p[13] == 111 && p[14] == 109 && p[15] == 47;
    assert W(p, 3) == BigEndian(111, 111, 109, 47);
  }

  lemma Word4()
    ensures W(PaddedMessage(), 4) == 0x74656d70
  {
    PaddedBytes();
    hide PaddedMessage;
    var p := PaddedMessage();
    assert p[16] == 116 && p[17] == 101 && p[18] == 109 && p[19] == 112;
    assert W(p, 4) == BigEndian(116, 101, 109, 112);
  }

  lemma Word5()
    ensures W(PaddedMessage(), 5) == 0x80000000
  {
    PaddedBytes();
    hide PaddedMessage;
    var p := PaddedMessage();
    assert p[20] == 128 && p[21] == 0 && p[22] == 0 && p[23] == 0;
    assert W(p, 5) == BigEndian(128, 0, 0, 0);
  }

  lemma Word15()
    ensures W(PaddedMessage(), 15) == 0x000000a0
  {
    PaddedBytes();
    hide PaddedMessage;
    var p := PaddedMessage();
    assert p[60] == 0 && p[61] == 0 && p[62] == 0 && p[63] == 160;
    assert W(p, 15) == BigEndian(0, 0, 0, 160);
  }

  lemma Starts()
    ensures Running(PaddedMessage(), 0, STATE_0)
  {
    var p := PaddedMessage();
    PaddedBytes();
    hide PaddedMessage, Running, W;
    Word0();
    Word1();
    Word2();
    Word3();
    Word4();
    Word5();
    Word15();
    forall i | 0 <= i < 16 ensures W(p, i) == WindowWord(STATE_0.win, i) {
      if 6 <= i <= 14 {
        ZeroWord(p, i);
      }
    }
    Start(p, STATE_0);
  }

  /** The hash value. */
  lemma HashValue()
    ensures HashBlocks(PaddedMessage()) == Registers(0x020efffb, 0xcadf8ecb, 0x0ef7329a, 0xa3c7f5eb,
                                                     0x81fbf0cc, 0x24266b0a, 0x7e8614ef, 0x1a5c72c3)
  {
    hide PaddedMessage, Running, HashBlocks, W;
    Starts();
    var p := PaddedMessage();
    To8(p);
    To16(p);
    To24(p);
    To32(p);
    To40(p);
    To48(p);
    To56(p);
    To64(p);
    OneBlock(p, STATE_64);
  }

  /** Its bytes. */
  lemma HashBytes()
    ensures TopicHash.Hash(TOPIC)
         == [2, 14, 255, 251, 202, 223, 142, 203] + [14, 247, 50, 154, 163, 199, 245, 235]
            + [129, 251, 240, 204, 36, 38, 107, 10] + [126, 134, 20, 239, 26, 92, 114, 195]
  {
    hide Bytes, HashBlocks;
    HashValue();
    BytesOfEight(HashBlocks(PaddedMessage()));
    WordIs(0x020efffb, 2, 14, 255, 251);
    WordIs(0xcadf8ecb, 202, 223, 142, 203);
    WordIs(0x0ef7329a, 14, 247, 50, 154);
    WordIs(0xa3c7f5eb, 163, 199, 245, 235);
    WordIs(0x81fbf0cc, 129, 251, 240, 204);
    WordIs(0x24266b0a, 36, 38, 107, 10);
    WordIs(0x7e8614ef, 126, 134, 20, 239);
    WordIs(0x1a5c72c3, 26, 92, 114, 195);
  }

  lemma WordIs(w: bv32, b0: byte, b1: byte, b2: byte, b3: byte)
    requires WordByte(w, 0) == b0 && WordByte(w, 1) == b1 && WordByte(w, 2) == b2 && WordByte(w, 3) == b3
    ensures WordBytes(w) == [b0, b1, b2, b3]
  {}
}
