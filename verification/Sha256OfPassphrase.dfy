/** The key of the passphrase "hunter2", which the known answer of bridges/mqtt-go/wire_test.go uses. */
module Sha256OfPassphrase {
  import opened Octets
  import opened BytePatterns
  import opened Fips180
  import opened Sha256Trace
  import TopicHash

  // "hunter2"
  const PASSPHRASE: seq<byte> := [104, 117, 110, 116, 101, 114, 50]

  const STATE_0: State :=
    State(Registers(0x6a09e667, 0xbb67ae85, 0x3c6ef372, 0xa54ff53a,
                    0x510e527f, 0x9b05688c, 0x1f83d9ab, 0x5be0cd19),
          Window(0x68756e74, 0x65723280, 0x00000000, 0x00000000, 0x00000000, 0x00000000, 0x00000000, 0x00000000,
                 0x00000000, 0x00000000, 0x00000000, 0x00000000, 0x00000000, 0x00000000, 0x00000000, 0x00000038))

  const STATE_8: State :=
    State(Registers(0x60c05c17, 0x24c9f3c8, 0x3bf861f9, 0x2ada896d,
                    0x6a4c17e7, 0xe6f7272d, 0x1a106dcb, 0xe04e36e2),
          Window(0x00000000, 0x00000000, 0x00000000, 0x00000000, 0x00000000, 0x00000000, 0x00000000, 0x00000038,
                 0xe93a29dd, 0x658d3280, 0x51ef0730, 0x3f095d3b, 0x636a590b, 0x85353a32, 0x67bc0786, 0x23b8894f))

  const STATE_16: State :=
    State(Registers(0x3291e579, 0x0a623288, 0x6ee2b780, 0xce00cf7a,
                    0xdf1193e8, 0x21bff704, 0x2a96969b, 0xc9b646e9),
          Window(0xe93a29dd, 0x658d3280, 0x51ef0730, 0x3f095d3b, 0x636a590b, 0x85353a32, 0x67bc0786, 0x23b8894f,
                 0xe8b742a8, 0xa775a2b9, 0x8844a1d8, 0xc88c9347, 0x4a2a7e34, 0x43b545f9, 0x0494b025, 0x1f8cf303))

  const STATE_24: State :=
    State(Registers(0x2f33b6e0, 0x4fb8d46a, 0x36d8b8b1, 0x174d86e6,
                    0xcb7ac773, 0x43edb9c1, 0x81d0bc7e, 0x9f39bb89),
          Window(0xe8b742a8, 0xa775a2b9, 0x8844a1d8, 0xc88c9347, 0x4a2a7e34, 0x43b545f9, 0x0494b025, 0x1f8cf303,
                 0x9fa179e0, 0x810a0df6, 0xd53945d0, 0x5d82f4df, 0x6ca749ed, 0xb0867133, 0x8d7cd573, 0x565b4ffb))

  const STATE_32: State :=
    State(Registers(0xcbd291ce, 0xd06efa1d, 0xe947e1e3, 0x04acbd91,
                    0x1e8ef1e2, 0x9e681b91, 0xab020247, 0x290be4d9),
          Window(0x9fa179e0, 0x810a0df6, 0xd53945d0, 0x5d82f4df, 0x6ca749ed, 0xb0867133, 0x8d7cd573, 0x565b4ffb,
                 0x69046f91, 0xd3347f27, 0x5239e8dd, 0xe3d3c5c7, 0x6fa20f61, 0xd229130f, 0xda45b32b, 0xc11745d0))

  const STATE_40: State :=
    State(Registers(0x0a72a0d2, 0x36abe23b, 0x81de0337, 0xe21279aa,
                    0x46b5382c, 0x5425bcf4, 0x53c266ba, 0xa6d6cd1f),
          Window(0x69046f91, 0xd3347f27, 0x5239e8dd, 0xe3d3c5c7, 0x6fa20f61, 0xd229130f, 0xda45b32b, 0xc11745d0,
                 0x60faf5f4, 0x081fa3ca, 0xe5a61a88, 0xf7fa43ab, 0xfa3993c2, 0xb853204b, 0x79d4d278, 0xdf6fe546))

  const STATE_48: State :=
    State(Registers(0x5fcead5b, 0x7fc91f91, 0x60f0db18, 0xe43ffc2e,
                    0x07ca8217, 0x3c656033, 0xc34c5160, 0xf5aa0b16),
          Window(0x60faf5f4, 0x081fa3ca, 0xe5a61a88, 0xf7fa43ab, 0xfa3993c2, 0xb853204b, 0x79d4d278, 0xdf6fe546,
                 0xae9a6e16, 0x91eb2396, 0x27e27854, 0x209e97a3, 0xdc41240c, 0x05628512, 0xd93b74c6, 0xdb7f820d))

  const STATE_56: State :=
    State(Registers(0x666471db, 0x4b14c13f, 0x6813275a, 0xf7da2bff,
                    0x0d4ca401, 0xd58be5b3, 0x7c8cce83, 0x3422336c),
          Window(0xae9a6e16, 0x91eb2396, 0x27e27854, 0x209e97a3, 0xdc41240c, 0x05628512, 0xd93b74c6, 0xdb7f820d,
                 0x00000000, 0x00000000, 0x00000000, 0x00000000, 0x00000000, 0x00000000, 0x00000000, 0x00000000))

  const STATE_64: State :=
    State(Registers(0x8b25d6cb, 0xf74c09ea, 0xbc200352, 0xeb128d4b,
                    0xa3745c96, 0x42c5c0c8, 0x0010e34a, 0xcac329ae),
          Window(0x00000000, 0x00000000, 0x00000000, 0x00000000, 0x00000000, 0x00000000, 0x00000000, 0x00000000,
                 0x00000000, 0x00000000, 0x00000000, 0x00000000, 0x00000000, 0x00000000, 0x00000000, 0x00000000))

  lemma To8(block: Block)
    requires Running(block, 0, STATE_0)
    ensures Running(block, 8, STATE_8)
  {
    hide Running, RoundConstant;
    RoundConstants0();
    var s := STATE_0;
    s := Turn(block, 0, s, 0x428a2f98, 0x647df6c1, 0x013d5116, 0xe93a29dd);
    s := Turn(block, 1, s, 0x71374491, 0xf8e365db, 0xb21516ba, 0x658d3280);
    s := Turn(block, 2, s, 0xb5c0fbcf, 0x8ed558a4, 0x8462aed8, 0x51ef0730);
    s := Turn(block, 3, s, 0xe9b5dba5, 0xe52117e7, 0xae41d6d5, 0x3f095d3b);
    s := Turn(block, 4, s, 0x3956c25b, 0x2ada896d, 0xe04e36e2, 0x636a590b);
    s := Turn(block, 5, s, 0x59f111f1, 0x3bf861f9, 0x1a106dcb, 0x85353a32);
    s := Turn(block, 6, s, 0x923f82a4, 0x24c9f3c8, 0xe6f7272d, 0x67bc0786);
    s := Turn(block, 7, s, 0xab1c5ed5, 0x60c05c17, 0x6a4c17e7, 0x23b8894f);
  }

  lemma To16(block: Block)
    requires Running(block, 8, STATE_8)
    ensures Running(block, 16, STATE_16)
  {
    hide Running, RoundConstant;
    RoundConstants1();
    var s := STATE_8;
    s := Turn(block, 8, s, 0xd807aa98, 0xccbd996c, 0x9cd4647c, 0xe8b742a8);
    s := Turn(block, 9, s, 0x12835b01, 0x21c44f55, 0xeac6277d, 0xa775a2b9);
    s := Turn(block, 10, s, 0x243185be, 0x93a4875a, 0x33c4d45d, 0x8844a1d8);
    s := Turn(block, 11, s, 0x550c7dc3, 0x18f56591, 0xebf05b90, 0xc88c9347);
    s := Turn(block, 12, s, 0x72be5d74, 0xce00cf7a, 0xc9b646e9, 0x4a2a7e34);
    s := Turn(block, 13, s, 0x80deb1fe, 0x6ee2b780, 0x2a96969b, 0x43b545f9);
    s := Turn(block, 14, s, 0x9bdc06a7, 0x0a623288, 0x21bff704, 0x0494b025);
    s := Turn(block, 15, s, 0xc19bf174, 0x3291e579, 0xdf1193e8, 0x1f8cf303);
  }

  lemma To24(block: Block)
    requires Running(block, 16, STATE_16)
    ensures Running(block, 24, STATE_24)
  {
    hide Running, RoundConstant;
    RoundConstants2();
    var s := STATE_16;
    s := Turn(block, 16, s, 0xe49b69c1, 0x5bac824f, 0xddd29126, 0x9fa179e0);
    s := Turn(block, 17, s, 0xefbe4786, 0x653dce1b, 0x42e722b9, 0x810a0df6);
    s := Turn(block, 18, s, 0x0fc19dc6, 0xf55fc880, 0x2d57fcb1, 0xd53945d0);
    s := Turn(block, 19, s, 0x240ca1cc, 0x880d8757, 0x3eef47ba, 0x5d82f4df);
    s := Turn(block, 20, s, 0x2de92c6f, 0x174d86e6, 0x9f39bb89, 0x6ca749ed);
    s := Turn(block, 21, s, 0x4a7484aa, 0x36d8b8b1, 0x81d0bc7e, 0xb0867133);
    s := Turn(block, 22, s, 0x5cb0a9dc, 0x4fb8d46a, 0x43edb9c1, 0x8d7cd573);
    s := Turn(block, 23, s, 0x76f988da, 0x2f33b6e0, 0xcb7ac773, 0x565b4ffb);
  }

  lemma To32(block: Block)
    requires Running(block, 24, STATE_24)
    ensures Running(block, 32, STATE_32)
  {
    hide Running, RoundConstant;
    RoundConstants3();
    var s := STATE_24;
    s := Turn(block, 24, s, 0x983e5152, 0xa21e0fe9, 0x179ccd56, 0x69046f91);
    s := Turn(block, 25, s, 0xa831c66d, 0xf11c1388, 0x88c4ffcf, 0xd3347f27);
    s := Turn(block, 26, s, 0xb00327c8, 0xd90f0529, 0xb55b11e5, 0x5239e8dd);
    s := Turn(block, 27, s, 0xbf597fc7, 0x3248a456, 0x0d44a537, 0xe3d3c5c7);
    s := Turn(block, 28, s, 0xc6e00bf3, 0x04acbd91, 0x290be4d9, 0x6fa20f61);
    s := Turn(block, 29, s, 0xd5a79147, 0xe947e1e3, 0xab020247, 0xd229130f);
    s := Turn(block, 30, s, 0x06ca6351, 0xd06efa1d, 0x9e681b91, 0xda45b32b);
    s := Turn(block, 31, s, 0x14292967, 0xcbd291ce, 0x1e8ef1e2, 0xc11745d0);
  }

  lemma To40(block: Block)
    requires Running(block, 32, STATE_32)
    ensures Running(block, 40, STATE_40)
  {
    hide Running, RoundConstant;
    RoundConstants4();
    var s := STATE_32;
    s := Turn(block, 32, s, 0x27b70a85, 0xe2ba4b70, 0xa75a556a, 0x60faf5f4);
    s := Turn(block, 33, s, 0x2e1b2138, 0x7033e494, 0x0c7ca697, 0x081fa3ca);
    s := Turn(block, 34, s, 0x4d2c6dfc, 0x621b4695, 0x589a5564, 0xe5a61a88);
    s := Turn(block, 35, s, 0x53380d13, 0x52d89ba0, 0xbb3851e3, 0xf7fa43ab);
    s := Turn(block, 36, s, 0x650a7354, 0xe21279aa, 0xa6d6cd1f, 0xfa3993c2);
    s := Turn(block, 37, s, 0x766a0abb, 0x81de0337, 0x53c266ba, 0xb853204b);
    s := Turn(block, 38, s, 0x81c2c92e, 0x36abe23b, 0x5425bcf4, 0x79d4d278);
    s := Turn(block, 39, s, 0x92722c85, 0x0a72a0d2, 0x46b5382c, 0xdf6fe546);
  }

  lemma To48(block: Block)
    requires Running(block, 40, STATE_40)
    ensures Running(block, 48, STATE_48)
  {
    hide Running, RoundConstant;
    RoundConstants5();
    var s := STATE_40;
    s := Turn(block, 40, s, 0xa2bfe8a1, 0x479b0e26, 0xd8233215, 0xae9a6e16);
    s := Turn(block, 41, s, 0xa81a664b, 0xab2193d3, 0x99578e89, 0x91eb2396);
    s := Turn(block, 42, s, 0xc24b8b70, 0xa12d8993, 0xda8b75a8, 0x27e27854);
    s := Turn(block, 43, s, 0xc76c51a3, 0x93fdb027, 0xe8569fda, 0x209e97a3);
    s := Turn(block, 44, s, 0xd192e819, 0xe43ffc2e, 0xf5aa0b16, 0xdc41240c);
    s := Turn(block, 45, s, 0xd6990624, 0x60f0db18, 0xc34c5160, 0x05628512);
    s := Turn(block, 46, s, 0xf40e3585, 0x7fc91f91, 0x3c656033, 0xd93b74c6);
    s := Turn(block, 47, s, 0x106aa070, 0x5fcead5b, 0x07ca8217, 0xdb7f820d);
  }

  lemma To56(block: Block)
    requires Running(block, 48, STATE_48)
    ensures Running(block, 56, STATE_56)
  {
    hide Running, RoundConstant;
    RoundConstants6();
    var s := STATE_48;
    s := Turn(block, 48, s, 0x19a4c116, 0x37b1c3e3, 0x148ce89c, 0x00000000);
    s := Turn(block, 49, s, 0x1e376c08, 0xd1f59f19, 0x9d22a8b6, 0x00000000);
    s := Turn(block, 50, s, 0x2748774c, 0x70d530dd, 0x3dd931e6, 0x00000000);
    s := Turn(block, 51, s, 0x34b0bcb5, 0x9a35eb6a, 0xf9f1458f, 0x00000000);
    s := Turn(block, 52, s, 0x391c0cb3, 0xf7da2bff, 0x3422336c, 0x00000000);
    s := Turn(block, 53, s, 0x4ed8aa4a, 0x6813275a, 0x7c8cce83, 0x00000000);
    s := Turn(block, 54, s, 0x5b9cca4f, 0x4b14c13f, 0xd58be5b3, 0x00000000);
    s := Turn(block, 55, s, 0x682e6ff3, 0x666471db, 0x0d4ca401, 0x00000000);
  }

  lemma To64(block: Block)
    requires Running(block, 56, STATE_56)
    ensures Running(block, 64, STATE_64)
  {
    hide Running, RoundConstant;
    RoundConstants7();
    var s := STATE_56;
    s := Turn(block, 56, s, 0x748f82ee, 0x1fb5529c, 0xe6f5da74, 0x00000000);
    s := Turn(block, 57, s, 0x78a5636f, 0x19d259be, 0xec695606, 0x00000000);
    s := Turn(block, 58, s, 0x84c87814, 0x7a3ae55c, 0xa278b463, 0x00000000);
    s := Turn(block, 59, s, 0x8cc70208, 0xd9f1a2dc, 0x44aba9b3, 0x00000000);
    s := Turn(block, 60, s, 0x90befffa, 0xeb128d4b, 0xcac329ae, 0x00000000);
    s := Turn(block, 61, s, 0xa4506ceb, 0xbc200352, 0x0010e34a, 0x00000000);
    s := Turn(block, 62, s, 0xbef9a3f7, 0xf74c09ea, 0x42c5c0c8, 0x00000000);
    s := Turn(block, 63, s, 0xc67178f2, 0x8b25d6cb, 0xa3745c96, 0x00000000);
  }

  function PaddedMessage(): (b: Block) {
    Pad(PASSPHRASE, 56)
  }

  lemma PaddedBytes()
    ensures PaddedMessage()[..8] == PASSPHRASE + [0x80]
    ensures forall i :: 8 <= i < 63 ==> PaddedMessage()[i] == 0
    ensures PaddedMessage()[63] == 56
  {
    var p := PaddedMessage();
    assert p == PASSPHRASE + [0x80] + Zeros(48) + Length64(56);
    assert Length64(56) == [0, 0, 0, 0, 0, 0, 0, 56];
  }

  lemma Word0()
    ensures W(PaddedMessage(), 0) == 0x68756e74
  {
    PaddedBytes();
    hide PaddedMessage;
    var p := PaddedMessage();
    assert p[0] == 104 && p[1] == 117 && p[2] == 110 && p[3] == 116;
    assert W(p, 0) == BigEndian(104, 117, 110, 116);
  }

  lemma Word1()
    ensures W(PaddedMessage(), 1) == 0x65723280
  {
    PaddedBytes();
    hide PaddedMessage;
    var p := PaddedMessage();
    assert p[4] == 101 && p[5] == 114 && p[6] == 50 && p[7] == 128;
    assert W(p, 1) == BigEndian(101, 114, 50, 128);
  }

  lemma Word15()
    ensures W(PaddedMessage(), 15) == 0x00000038
  {
    PaddedBytes();
    hide PaddedMessage;
    var p := PaddedMessage();
    assert p[60] == 0 && p[61] == 0 && p[62] == 0 && p[63] == 56;
    assert W(p, 15) == BigEndian(0, 0, 0, 56);
  }

  lemma Starts()
    ensures Running(PaddedMessage(), 0, STATE_0)
  {
    var p := PaddedMessage();
    PaddedBytes();
    hide PaddedMessage, Running, W;
    Word0();
    Word1();
    Word15();
    forall i | 0 <= i < 16 ensures W(p, i) == WindowWord(STATE_0.win, i) {
      if 2 <= i <= 14 {
        ZeroWord(p, i);
      }
    }
    Start(p, STATE_0);
  }

  /** The hash value. */
  lemma HashValue()
    ensures HashBlocks(PaddedMessage()) == Registers(0xf52fbd32, 0xb2b3b86f, 0xf88ef6c4, 0x90628285,
                                                     0xf482af15, 0xddcb2954, 0x1f94bcf5, 0x26a3f6c7)
  {
    hide PaddedMessage, Running, HashBlocks, W;
    Starts();
    var p := PaddedMessage();
    To8(p);
    To16(p);
    To24(p);
    To32(p);
    To40(p);
    To48(p);
    To56(p);
    To64(p);
    OneBlock(p, STATE_64);
  }

  /** Its bytes. */
  lemma HashBytes()
    ensures TopicHash.Hash(PASSPHRASE)
         == [245, 47, 189, 50, 178, 179, 184, 111] + [248, 142, 246, 196, 144, 98, 130, 133]
            + [244, 130, 175, 21, 221, 203, 41, 84] + [31, 148, 188, 245, 38, 163, 246, 199]
  {
    hide Bytes, HashBlocks;
    HashValue();
    BytesOfEight(HashBlocks(PaddedMessage()));
    WordIs(0xf52fbd32, 245, 47, 189, 50);
    WordIs(0xb2b3b86f, 178, 179, 184, 111);
    WordIs(0xf88ef6c4, 248, 142, 246, 196);
    WordIs(0x90628285, 144, 98, 130, 133);
    WordIs(0xf482af15, 244, 130, 175, 21);
    WordIs(0xddcb2954, 221, 203, 41, 84);
    WordIs(0x1f94bcf5, 31, 148, 188, 245);
    WordIs(0x26a3f6c7, 38, 163, 246, 199);
  }

  lemma WordIs(w: bv32, b0: byte, b1: byte, b2: byte, b3: byte)
    requires WordByte(w, 0) == b0 && WordByte(w, 1) == b1 && WordByte(w, 2) == b2 && WordByte(w, 3) == b3
    ensures WordBytes(w) == [b0, b1, b2, b3]
  {}
}
