/** The datagram: a 12-byte header and a body that may be encrypted
    (components/mpubsub/wire_format.cpp, bridges/mqtt-go/wire.go). */
module WireFormat {
  import opened Octets
  import opened Outcomes
  import opened Xxtea
  import Crc32

  const MAGIC0: byte := 77
  const MAGIC1: byte := 80
  const VERSION: byte := 1
  const HEADER_LEN: nat := 12
  const MAX_DATAGRAM: nat := 1232
  const MAX_PAYLOAD: nat := MAX_DATAGRAM - HEADER_LEN
  const ENCODING_RAW: byte := 0
  const ENCODING_PROTO: byte := 1
  const ENC_MODE_NONE: byte := 0
  const ENC_MODE_XXTEA: byte := 1

  type Key = k: seq<byte> | |k| == 32 witness seq(32, _ => 0)

  datatype EncodeError = BadEncoding | PayloadTooLarge | BadEncodeKey | CiphertextTooLarge

  datatype DecodeError =
    | TooShort | BadMagic | BadVersion | UnknownEncoding | UnknownEncMode
    | LengthMismatch | CiphertextTooShort | EncryptedNoKey | BadDecodeKey

  /** The result of parsing the header: the body is still encrypted if encMode says so. */
  datatype Frame = Frame(topicCrc: u32, encoding: byte, encMode: byte, plaintextLen: u16, payload: seq<byte>)

  /** The result of a complete parse. */
  datatype Packet = Packet(topicCrc: u32, encoding: byte, encMode: byte, wasEncrypted: bool, payload: seq<byte>)

  // ----- Layout

  /** XXTEACiphertextLen: room for the CRC, rounded up to whole words, and at least two of them. */
  function CiphertextLen(plaintextLen: nat): (n: nat)
    ensures n % 4 == 0 && n >= 8 && n >= plaintextLen + 4
  {
    if plaintextLen + 4 < 8 then 8 else (plaintextLen + 4 + 3) / 4 * 4
  }

  function Header(topicCrc: u32, encoding: byte, payloadLen: u16, encMode: byte): (h: seq<byte>)
    ensures |h| == HEADER_LEN
  {
    [MAGIC0, MAGIC1, VERSION, encoding]
    + Le32(if encMode != ENC_MODE_NONE then 0 else topicCrc) + Le16(payloadLen) + [encMode, 0]
  }

  /** What is encrypted: the topic's CRC, the payload, and zeros up to whole words. */
  function PlainBlock(topicCrc: u32, payload: seq<byte>): (b: seq<byte>)
    ensures |b| == CiphertextLen(|payload|)
  {
    Le32(topicCrc) + payload + Zeros(CiphertextLen(|payload|) - 4 - |payload|)
  }

  function Encipher(block: seq<byte>, key: Key): (c: seq<byte>)
    requires |block| % 4 == 0
    ensures |c| == |block|
  {
    BytesLE(Encrypted(WordsLE(block), WordsLE(key)))
  }

  function Decipher(body: seq<byte>, key: Key): (b: seq<byte>)
    requires |body| % 4 == 0
    ensures |b| == |body|
  {
    BytesLE(Decrypted(WordsLE(body), WordsLE(key)))
  }

  lemma DecipherEncipher(block: seq<byte>, key: Key)
    requires |block| % 4 == 0
    ensures Decipher(Encipher(block, key), key) == block
  {
    hide Encrypted, Decrypted, WordsLE, BytesLE;
    WordsLEBytesLE(Encrypted(WordsLE(block), WordsLE(key)));
    DecryptedEncrypted(WordsLE(block), WordsLE(key));
    BytesLEWordsLE(block);
  }

  lemma EncipherDecipher(body: seq<byte>, key: Key)
    requires |body| % 4 == 0
    ensures Encipher(Decipher(body, key), key) == body
  {
    hide Encrypted, Decrypted, WordsLE, BytesLE;
    WordsLEBytesLE(Decrypted(WordsLE(body), WordsLE(key)));
    EncryptedDecrypted(WordsLE(body), WordsLE(key));
    BytesLEWordsLE(body);
  }

  /** The datagram for a payload; the length field is the low 16 bits of the payload's length. */
  function Datagram(topicCrc: u32, encoding: byte, payload: seq<byte>, key: Option<Key>): seq<byte> {
    match key
    case None => Header(topicCrc, encoding, |payload| % TWO16, ENC_MODE_NONE) + payload
    case Some(k) => Header(topicCrc, encoding, |payload| % TWO16, ENC_MODE_XXTEA)
                    + Encipher(PlainBlock(topicCrc, payload), k)
  }

  // ----- Encoding

  function EncodePacketSpec(topic: seq<byte>, payload: seq<byte>, encoding: byte, key: Option<seq<byte>>):
    Result<seq<byte>, EncodeError>
  {
    if encoding != ENCODING_RAW && encoding != ENCODING_PROTO then Err(BadEncoding)
    else if key.None? then
      if |payload| > MAX_PAYLOAD then Err(PayloadTooLarge)
      else Ok(Datagram(Crc32.Checksum(topic), encoding, payload, None))
    else if |key.value| != 32 then Err(BadEncodeKey)
    else if HEADER_LEN + CiphertextLen(|payload|) > MAX_DATAGRAM then Err(CiphertextTooLarge)
    else Ok(Datagram(Crc32.Checksum(topic), encoding, payload, Some(key.value)))
  }

  // ----- Decoding

  /** The number of body bytes that the header announces. */
  function BodyLen(encMode: byte, payloadLen: u16): nat {
    if encMode == ENC_MODE_XXTEA then CiphertextLen(payloadLen) else payloadLen
  }

  /** The validation rules 1 to 6 of section 4 of the protocol document. */
  predicate Acceptable(data: seq<byte>) {
    && |data| >= HEADER_LEN
    && data[0] == MAGIC0 && data[1] == MAGIC1 && data[2] == VERSION
    && (data[3] == ENCODING_RAW || data[3] == ENCODING_PROTO)
    && (data[10] == ENC_MODE_NONE || data[10] == ENC_MODE_XXTEA)
    && |data| == HEADER_LEN + BodyLen(data[10], FromLe16(data[8..10]))
  }

  /** wire_format.cpp decode. */
  function DecodeFrame(data: seq<byte>): (r: Result<Frame, DecodeError>)
    ensures r.Ok? <==> Acceptable(data)
  {
    if |data| < HEADER_LEN then Err(TooShort)
    else if data[0] != MAGIC0 || data[1] != MAGIC1 then Err(BadMagic)
    else if data[2] != VERSION then Err(BadVersion)
    else if data[3] != ENCODING_RAW && data[3] != ENCODING_PROTO then Err(UnknownEncoding)
    else if data[10] != ENC_MODE_NONE && data[10] != ENC_MODE_XXTEA then Err(UnknownEncMode)
    else
      var payloadLen := FromLe16(data[8..10]);
      if data[10] == ENC_MODE_XXTEA && |data| != HEADER_LEN + CiphertextLen(payloadLen) then Err(CiphertextTooShort)
      else if data[10] != ENC_MODE_XXTEA && HEADER_LEN + payloadLen != |data| then Err(LengthMismatch)
      else Ok(Frame(FromLe32(data[4..8]), data[3], data[10], payloadLen, data[HEADER_LEN..]))
  }

  /** Reading a frame's body: decrypt if need be, and cut the payload out. */
  function OpenFrame(f: Frame, key: Option<seq<byte>>): Result<Packet, DecodeError>
    requires |f.payload| == BodyLen(f.encMode, f.plaintextLen)
  {
    if f.encMode != ENC_MODE_XXTEA then Ok(Packet(f.topicCrc, f.encoding, f.encMode, false, f.payload))
    else if key.None? then Err(EncryptedNoKey)
    else if |key.value| != 32 then Err(BadDecodeKey)
    else
      var plain := Decipher(f.payload, key.value);
      Ok(Packet(FromLe32(plain[0..4]), f.encoding, f.encMode, true, plain[4..4 + f.plaintextLen]))
  }

  /** DecodePacket of wire.go. */
  function DecodePacketSpec(data: seq<byte>, key: Option<seq<byte>>): Result<Packet, DecodeError> {
    match DecodeFrame(data)
    case Err(e) => Err(e)
    case Ok(f) => OpenFrame(f, key)
  }

  // ----- Theorems

  /** The C++ cap on encrypted payloads accepts exactly what the Go ciphertext test accepts. */
  lemma EncryptedCapsAgree(n: nat)
    ensures n <= MAX_PAYLOAD - 4 <==> HEADER_LEN + CiphertextLen(n) <= MAX_DATAGRAM
  {}

  lemma HeaderFields(topicCrc: u32, encoding: byte, payloadLen: u16, encMode: byte, body: seq<byte>)
    ensures var d := Header(topicCrc, encoding, payloadLen, encMode) + body;
            && d[0] == MAGIC0 && d[1] == MAGIC1 && d[2] == VERSION && d[3] == encoding
            && FromLe32(d[4..8]) == (if encMode != ENC_MODE_NONE then 0 else topicCrc)
            && FromLe16(d[8..10]) == payloadLen && d[10] == encMode && d[11] == 0 && d[12..] == body
  {
    hide Le32, Le16, FromLe32, FromLe16;
    var d := Header(topicCrc, encoding, payloadLen, encMode) + body;
    var crc := if encMode != ENC_MODE_NONE then 0 else topicCrc;
    assert d[4..8] == Le32(crc);
    assert d[8..10] == Le16(payloadLen);
    FromLe32OfLe32(crc);
    FromLe16OfLe16(payloadLen);
  }

  /** The ciphertext is the shortest that holds the CRC and the payload in whole words, two at least. */
  lemma CiphertextIsLeast(n: nat, m: nat)
    requires m % 4 == 0 && m >= 8 && m >= n + 4
    ensures CiphertextLen(n) <= m
  {}

  /** The header in numbers, as section 3 of the protocol document draws it. */
  lemma HeaderInNumbers(crc: u32, encoding: byte, n: u16, mode: byte)
    ensures Header(crc, encoding, n, mode)
         == [0x4D, 0x50, 0x01, encoding]
            + (if mode == 0 then [crc % 256, crc / 256 % 256, crc / 65536 % 256, crc / 16777216] else [0, 0, 0, 0])
            + [n % 256, n / 256, mode, 0]
  {
    assert Le32(0) == [0, 0, 0, 0];
  }

  /** A datagram: the header, and the payload or the enciphered block of CRC, payload and zeros. */
  lemma DatagramInNumbers(crc: u32, encoding: byte, payload: seq<byte>, key: Option<Key>)
    requires |payload| < 0x1_0000
    ensures var d := Datagram(crc, encoding, payload, key);
            && (key.None? ==> d == Header(crc, encoding, |payload|, 0) + payload)
            && (key.Some? ==>
                  var n := CiphertextLen(|payload|);
                  var block := [crc % 256, crc / 256 % 256, crc / 65536 % 256, crc / 16777216] + payload
                               + Zeros(n - 4 - |payload|);
                  d == Header(crc, encoding, |payload|, 1) + Encipher(block, key.value))
  {
    hide Encipher, Header;
  }

  /** What decode accepts, in numbers, and what it then reads. */
  lemma AcceptedInNumbers(data: seq<byte>)
    ensures DecodeFrame(data).Ok? <==>
              && |data| >= 12 && data[0] == 0x4D && data[1] == 0x50 && data[2] == 1 && data[3] <= 1 && data[10] <= 1
              && (var n := data[8] as int + 256 * data[9] as int;
                  |data| == 12 + if data[10] == 0 then n else CiphertextLen(n))
    ensures DecodeFrame(data).Ok? ==>
              DecodeFrame(data).value
              == Frame(data[4] as int + 256 * data[5] as int + 65536 * data[6] as int + 16777216 * data[7] as int,
                       data[3], data[10], data[8] as int + 256 * data[9] as int, data[12..])
  {}

  /** What decode rejects, and why: the first rule of section 4 of the protocol document that fails. */
  lemma RejectedInNumbers(data: seq<byte>)
    ensures |data| < 12 ==> DecodeFrame(data) == Err(TooShort)
    ensures |data| >= 12 && (data[0] != 0x4D || data[1] != 0x50) ==> DecodeFrame(data) == Err(BadMagic)
    ensures |data| >= 12 && data[0] == 0x4D && data[1] == 0x50 ==>
              && (data[2] != 1 ==> DecodeFrame(data) == Err(BadVersion))
              && (data[2] == 1 && data[3] > 1 ==> DecodeFrame(data) == Err(UnknownEncoding))
              && (data[2] == 1 && data[3] <= 1 && data[10] > 1 ==> DecodeFrame(data) == Err(UnknownEncMode))
              && (data[2] == 1 && data[3] <= 1 && data[10] <= 1 && DecodeFrame(data).Err? ==>
                    DecodeFrame(data) == Err(if data[10] == 1 then CiphertextTooShort else LengthMismatch))
  {}

  /** Without a key, or with one that is not 32 bytes, an accepted encrypted datagram is rejected; a plaintext one does
      not need it. */
  lemma KeyRules(data: seq<byte>, key: Option<seq<byte>>)
    requires DecodeFrame(data).Ok?
    ensures data[10] == 1 && key.None? ==> DecodePacketSpec(data, key) == Err(EncryptedNoKey)
    ensures data[10] == 1 && key.Some? && |key.value| != 32 ==> DecodePacketSpec(data, key) == Err(BadDecodeKey)
    ensures data[10] == 0 || (key.Some? && |key.value| == 32) ==> DecodePacketSpec(data, key).Ok?
  {
    hide Decipher, FromLe32, FromLe16;
  }

  /** A datagram whose payload length fits the length field decodes to what it was built from. */
  lemma DatagramDecodes(topicCrc: u32, encoding: byte, payload: seq<byte>, key: Option<Key>)
    requires encoding == ENCODING_RAW || encoding == ENCODING_PROTO
    requires |payload| < TWO16
    ensures DecodePacketSpec(Datagram(topicCrc, encoding, payload, key), key)
         == Ok(Packet(topicCrc, encoding, if key.Some? then ENC_MODE_XXTEA else ENC_MODE_NONE, key.Some?, payload))
  {
    hide Header, Le32, Le16, FromLe32, FromLe16, Encipher, Decipher;
    match key
    case None =>
      HeaderFields(topicCrc, encoding, |payload|, ENC_MODE_NONE, payload);
    case Some(k) =>
      var block := PlainBlock(topicCrc, payload);
      HeaderFields(topicCrc, encoding, |payload|, ENC_MODE_XXTEA, Encipher(block, k));
      DecipherEncipher(block, k);
      assert block[0..4] == Le32(topicCrc);
      assert block[4..4 + |payload|] == payload;
      FromLe32OfLe32(topicCrc);
  }

  /** Whatever EncodePacket accepts is one deliverable datagram that the same key reads back. */
  lemma EncodeThenDecode(topic: seq<byte>, payload: seq<byte>, encoding: byte, key: Option<seq<byte>>)
    requires EncodePacketSpec(topic, payload, encoding, key).Ok?
    ensures var d := EncodePacketSpec(topic, payload, encoding, key).value;
            && |d| <= MAX_DATAGRAM
            && DecodePacketSpec(d, key)
               == Ok(Packet(Crc32.Checksum(topic), encoding, if key.Some? then ENC_MODE_XXTEA else ENC_MODE_NONE,
                            key.Some?, payload))
  {
    DatagramDecodes(Crc32.Checksum(topic), encoding, payload, key);
  }

  /** The bytes that decryption finds after the payload. */
  function Padding(data: seq<byte>, key: Key): seq<byte>
    requires Acceptable(data) && data[10] == ENC_MODE_XXTEA
  {
    Decipher(data[HEADER_LEN..], key)[4 + FromLe16(data[8..10])..]
  }

  /** The parts of an accepted datagram that its decoded form does not record are all zero. */
  predicate Canonical(data: seq<byte>, key: Option<Key>)
    requires Acceptable(data) && (data[10] == ENC_MODE_XXTEA ==> key.Some?)
  {
    && data[11] == 0
    && (data[10] == ENC_MODE_XXTEA ==>
        data[4..8] == Zeros(4) && Padding(data, key.value) == Zeros(|Padding(data, key.value)|))
  }

  /** Build a decoded packet's datagram again. */
  function Reencode(p: Packet, key: Option<Key>): seq<byte> {
    Datagram(p.topicCrc, p.encoding, p.payload, if p.wasEncrypted then key else None)
  }

  lemma HeaderIffCanonical(data: seq<byte>, topicCrc: u32)
    requires Acceptable(data) && (data[10] == ENC_MODE_NONE ==> topicCrc == FromLe32(data[4..8]))
    ensures Header(topicCrc, data[3], FromLe16(data[8..10]), data[10]) == data[..HEADER_LEN]
            <==> data[11] == 0 && (data[10] == ENC_MODE_XXTEA ==> data[4..8] == Zeros(4))
  {
    hide Le32, Le16, FromLe32, FromLe16;
    var front := [MAGIC0, MAGIC1, VERSION, data[3]];
    var crc := Le32(if data[10] != ENC_MODE_NONE then 0 else topicCrc);
    Le16OfFromLe16(data[8..10]);
    Le32OfFromLe32(data[4..8]);
    Le32OfZero();
    assert data[..4] == front;
    var h := data[..HEADER_LEN];
    FourParts(h, front, crc, data[8..10], [data[10], 0]);
    assert h[..4] == data[..4] && h[4..8] == data[4..8] && h[8..10] == data[8..10];
    assert h[10..12] == [data[10], data[11]];
  }

  /** A header compared with four consecutive parts. */
  lemma FourParts(h: seq<byte>, a: seq<byte>, b: seq<byte>, c: seq<byte>, d: seq<byte>)
    requires |h| == 12 && |a| == 4 && |b| == 4 && |c| == 2 && |d| == 2
    ensures a + b + c + d == h <==> a == h[..4] && b == h[4..8] && c == h[8..10] && d == h[10..12]
  {
    var p := a + b + c + d;
    assert p[..4] == a && p[4..8] == b && p[8..10] == c && p[10..12] == d;
    assert h == h[..4] + h[4..8] + h[8..10] + h[10..12];
  }

  lemma Le32OfZero()
    ensures Le32(0) == Zeros(4)
  {}

  lemma BodyIffPaddingZero(data: seq<byte>, key: Key)
    requires Acceptable(data) && data[10] == ENC_MODE_XXTEA
    ensures var plain := Decipher(data[HEADER_LEN..], key);
            var n := FromLe16(data[8..10]);
            Encipher(PlainBlock(FromLe32(plain[0..4]), plain[4..4 + n]), key) == data[HEADER_LEN..]
            <==> Padding(data, key) == Zeros(|Padding(data, key)|)
  {
    hide Le32, FromLe32, FromLe16, Encipher, Decipher;
    var body := data[HEADER_LEN..];
    var plain, n := Decipher(body, key), FromLe16(data[8..10]);
    var block := PlainBlock(FromLe32(plain[0..4]), plain[4..4 + n]);
    Le32OfFromLe32(plain[0..4]);
    EncipherDecipher(body, key);
    DecipherEncipher(block, key);
    assert plain == plain[0..4] + plain[4..4 + n] + plain[4 + n..];
    assert block == plain[0..4] + plain[4..4 + n] + Zeros(|plain| - 4 - n);
    assert Encipher(block, key) == body <==> block == plain;
    if block == plain {
      assert plain[4 + n..] == block[4 + n..] == Zeros(|plain| - 4 - n);
    }
  }

  /** An accepted datagram is rebuilt byte for byte exactly when what decoding ignores is zero. */
  lemma ReencodeIffCanonical(data: seq<byte>, key: Option<Key>)
    requires DecodePacketSpec(data, key).Ok?
    ensures Reencode(DecodePacketSpec(data, key).value, key) == data <==> Canonical(data, key)
  {
    hide Header, Encipher, Decipher, PlainBlock, FromLe32, FromLe16, Le32, Le16;
    var p := DecodePacketSpec(data, key).value;
    var r := Reencode(p, key);
    HeaderIffCanonical(data, p.topicCrc);
    assert |p.payload| == FromLe16(data[8..10]);
    assert data == data[..HEADER_LEN] + data[HEADER_LEN..];
    assert r[..HEADER_LEN] == Header(p.topicCrc, data[3], FromLe16(data[8..10]), data[10]);
    if p.wasEncrypted {
      BodyIffPaddingZero(data, key.value);
      assert r[HEADER_LEN..] == Encipher(PlainBlock(p.topicCrc, p.payload), key.value);
    } else {
      assert r[HEADER_LEN..] == data[HEADER_LEN..];
    }
    assert r == data <==> r[..HEADER_LEN] == data[..HEADER_LEN] && r[HEADER_LEN..] == data[HEADER_LEN..] by {
      assert r == r[..HEADER_LEN] + r[HEADER_LEN..];
    }
  }

  /** An accepted plaintext datagram that is not rebuilt: only its reserved byte is lost. */
  lemma ReservedByteIsLost()
    ensures var data := [77, 80, 1, 0, 0, 0, 0, 0, 0, 0, 0, 7];
            DecodePacketSpec(data, None).Ok? && Reencode(DecodePacketSpec(data, None).value, None) != data
  {
    var data: seq<byte> := [77, 80, 1, 0, 0, 0, 0, 0, 0, 0, 0, 7];
    assert data[8..10] == [0, 0];
    ReencodeIffCanonical(data, None);
  }
}
