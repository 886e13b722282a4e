/** The known answer of bridges/mqtt-go/wire_test.go, lines 109-124, which locks the bridge to the Python reference:
    one topic, payload and passphrase, and the bytes on the wire. Every constant and every operation of the hash, the
    cipher, the checksum and the layout takes part in it. */
module KnownAnswer {
  import opened Octets
  import opened Outcomes
  import opened WireFormat
  import opened Xxtea
  import Crc32
  import CrcExamples
  import Fips180
  import Sha256OfPassphrase
  import Sha256OfTopic
  import TopicHash
  import XxteaTrace

  const PAYLOAD: seq<byte> := [104, 101, 108, 108, 111]  // "hello"

  const GROUP: seq<byte> := [0x02, 0x0e, 0xff, 0xfb, 0xca, 0xdf, 0x8e, 0xcb, 0x0e, 0xf7, 0x32, 0x9a, 0xa3, 0xc7]

  const HEADER: seq<byte> := [0x4d, 0x50, 0x01, 0x00, 0x00, 0x00, 0x00, 0x00, 0x05, 0x00, 0x01, 0x00]
  const BODY: seq<byte> := [0x6f, 0x76, 0xd1, 0x73, 0x50, 0x65, 0x2a, 0x7a, 0xa6, 0x7d, 0xd0, 0x5c]

  /** DeriveKey of the passphrase. */
  ghost predicate Derived(d: seq<byte>) {
    d == TopicHash.Hash(Sha256OfPassphrase.PASSPHRASE)
  }

  /** The key of the passphrase, as words. */
  lemma TheKey(w: seq<u32>)
    requires |w| == 8 && w[0] == 0x32BD2FF5 && w[1] == 0x6FB8B3B2 && w[2] == 0xC4F68EF8 && w[3] == 0x85826290
    requires w[4] == 0x15AF82F4 && w[5] == 0x5429CBDD && w[6] == 0xF5BC941F && w[7] == 0xC7F6A326
    ensures w == XxteaTrace.KEY
  {
    EightWords(w, 0x32BD2FF5, 0x6FB8B3B2, 0xC4F68EF8, 0x85826290, 0x15AF82F4, 0x5429CBDD, 0xF5BC941F, 0xC7F6A326);
  }

  lemma EightWords(w: seq<u32>, a: u32, b: u32, c: u32, d: u32, e: u32, f: u32, g: u32, h: u32)
    requires |w| == 8 && w[0] == a && w[1] == b && w[2] == c && w[3] == d
    requires w[4] == e && w[5] == f && w[6] == g && w[7] == h
    ensures w == [a, b, c, d, e, f, g, h]
  {}

  lemma Key0(d: seq<byte>)
    requires Derived(d)
    ensures |d| == 32 && WordsLE(d)[0] == 0x32BD2FF5 && WordsLE(d)[1] == 0x6FB8B3B2
  {
    hide TopicHash.Hash, WordsLE;
    Sha256OfPassphrase.HashBytes();
    Word(d, 0, 245, 47, 189, 50, 0x32BD2FF5);
    Word(d, 1, 178, 179, 184, 111, 0x6FB8B3B2);
  }

  lemma Key1(d: seq<byte>)
    requires Derived(d)
    ensures |d| == 32 && WordsLE(d)[2] == 0xC4F68EF8 && WordsLE(d)[3] == 0x85826290
  {
    hide TopicHash.Hash, WordsLE;
    Sha256OfPassphrase.HashBytes();
    Word(d, 2, 248, 142, 246, 196, 0xC4F68EF8);
    Word(d, 3, 144, 98, 130, 133, 0x85826290);
  }

  lemma Key2(d: seq<byte>)
    requires Derived(d)
    ensures |d| == 32 && WordsLE(d)[4] == 0x15AF82F4 && WordsLE(d)[5] == 0x5429CBDD
  {
    hide TopicHash.Hash, WordsLE;
    Sha256OfPassphrase.HashBytes();
    Word(d, 4, 244, 130, 175, 21, 0x15AF82F4);
    Word(d, 5, 221, 203, 41, 84, 0x5429CBDD);
  }

  lemma Key3(d: seq<byte>)
    requires Derived(d)
    ensures |d| == 32 && WordsLE(d)[6] == 0xF5BC941F && WordsLE(d)[7] == 0xC7F6A326
  {
    hide TopicHash.Hash, WordsLE;
    Sha256OfPassphrase.HashBytes();
    Word(d, 6, 31, 148, 188, 245, 0xF5BC941F);
    Word(d, 7, 38, 163, 246, 199, 0xC7F6A326);
  }

  lemma Word(d: seq<byte>, i: nat, b0: byte, b1: byte, b2: byte, b3: byte, word: u32)
    requires |d| % 4 == 0 && 4 * i + 4 <= |d|
    requires d[4 * i] == b0 && d[4 * i + 1] == b1 && d[4 * i + 2] == b2 && d[4 * i + 3] == b3
    requires FromLe32([b0, b1, b2, b3]) == word
    ensures WordsLE(d)[i] == word
  {
    hide FromLe32;
    assert d[i * 4..i * 4 + 4] == [b0, b1, b2, b3];
  }

  lemma PlainWords()
    ensures WordsLE(PlainBlock(0x85952B7E, PAYLOAD)) == XxteaTrace.PLAIN
  {
    var d := PlainBlock(0x85952B7E, PAYLOAD);
    assert Le32(0x85952B7E) == [126, 43, 149, 133];
    assert d == [126, 43, 149, 133] + PAYLOAD + Zeros(3);
    hide FromLe32, PlainBlock;
    Word(d, 0, 126, 43, 149, 133, 0x85952B7E);
    Word(d, 1, 104, 101, 108, 108, 0x6C6C6568);
    Word(d, 2, 111, 0, 0, 0, 0x0000006F);
  }

  lemma CipherBytes()
    ensures BytesLE(XxteaTrace.CIPHER) == BODY
  {
    var c := XxteaTrace.CIPHER;
    assert Le32(0x73D1766F) == [111, 118, 209, 115];
    assert Le32(0x7A2A6550) == [80, 101, 42, 122];
    assert Le32(0x5CD07DA6) == [166, 125, 208, 92];
    hide Le32;
    BytesLESnoc([], c[0]);
    BytesLESnoc([c[0]], c[1]);
    BytesLESnoc([c[0], c[1]], c[2]);
    assert [] + [c[0]] == [c[0]] && [c[0]] + [c[1]] == [c[0], c[1]] && [c[0], c[1]] + [c[2]] == c;
  }

  lemma BytesLESnoc(w: seq<u32>, x: u32)
    ensures BytesLE(w + [x]) == BytesLE(w) + Le32(x) && BytesLE([]) == []
  {
    hide Le32;
    assert (w + [x])[..|w|] == w;
  }

  lemma HeaderBytes(crc: u32)
    ensures Header(crc, 0, 5, 1) == HEADER
  {
    assert Le32(0) == [0, 0, 0, 0] && Le16(5) == [5, 0];
  }

  /** The groups of the topic of the worked example in section 2.2 of docs/PROTOCOL.md. The digits printed there,
      e7e87b62a3d2a7c2, are not the beginning of this topic's digest. */
  lemma KnownGroup()
    ensures TopicHash.GroupOf(Sha256OfTopic.TOPIC, TopicHash.LinkLocal) == [0xff, 0x12] + GROUP
    ensures TopicHash.GroupOf(Sha256OfTopic.TOPIC, TopicHash.SiteLocal) == [0xff, 0x15] + GROUP
    ensures TopicHash.GroupOf(Sha256OfTopic.TOPIC, TopicHash.OrgLocal) == [0xff, 0x18] + GROUP
    ensures GROUP[..8] != [0xe7, 0xe8, 0x7b, 0x62, 0xa3, 0xd2, 0xa7, 0xc2]
  {
    hide TopicHash.Hash;
    Sha256OfTopic.HashBytes();
    assert TopicHash.Hash(Sha256OfTopic.TOPIC)[..14] == GROUP;
    assert GROUP[..8][0] == 2;
  }

  /** Encoding "hello" on "home/x" under the key of "hunter2" gives the locked bytes. */
  lemma KnownDatagram()
    ensures EncodePacketSpec(CrcExamples.HOME_X, PAYLOAD, 0, Some(TopicHash.Hash(Sha256OfPassphrase.PASSPHRASE)))
         == Ok(HEADER + BODY)
  {
    hide TopicHash.Hash, Crc32.Checksum, PlainBlock, Header, WordsLE, BytesLE, Encrypted;
    var key: Key := TopicHash.Hash(Sha256OfPassphrase.PASSPHRASE);
    var block := PlainBlock(0x85952B7E, PAYLOAD);
    CrcExamples.HomeXChecksum();
    Key0(key);
    Key1(key);
    Key2(key);
    Key3(key);
    TheKey(WordsLE(key));
    PlainWords();
    XxteaTrace.KnownCipher();
    CipherBytes();
    HeaderBytes(0x85952B7E);
    assert Encipher(block, key) == BytesLE(XxteaTrace.CIPHER);
    assert |PAYLOAD| % TWO16 == 5;
    assert Datagram(0x85952B7E, 0, PAYLOAD, Some(key)) == Header(0x85952B7E, 0, 5, 1) + BytesLE(XxteaTrace.CIPHER);
  }
}
