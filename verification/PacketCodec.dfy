/** The buffer-filling code around the wire format: encode_header and decode of wire_format.cpp,
    EncodePacket and DecodePacket of wire.go, each proved against WireFormat. */
module PacketCodec {
  import opened Octets
  import opened Outcomes
  import opened WireFormat
  import Crc32
  import Xxtea

  /** Writes the 12 header bytes and nothing else. */
  method EncodeHeader(topicCrc: u32, encoding: byte, payloadLen: u16, out: array<byte>, encMode: byte)
    requires out.Length >= HEADER_LEN
    modifies out
    ensures out[..] == Header(topicCrc, encoding, payloadLen, encMode) + old(out[HEADER_LEN..])
  {
    hide Le32, Le16;
    ghost var rest := out[HEADER_LEN..];
    out[0] := MAGIC0;
    out[1] := MAGIC1;
    out[2] := VERSION;
    out[3] := encoding;
    assert out[..4] == [MAGIC0, MAGIC1, VERSION, encoding];
    var crc := topicCrc;
    if encMode != ENC_MODE_NONE {
      crc := 0;
    }
    PutBytes(out, 4, Le32(crc));
    PutBytes(out, 8, Le16(payloadLen));
    PutBytes(out, 10, [encMode]);
    PutBytes(out, 11, [0]);
    HeaderLayout(topicCrc, encoding, payloadLen, encMode);
    assert out[HEADER_LEN..] == rest;
    assert out[..] == out[..HEADER_LEN] + out[HEADER_LEN..];
  }

  /** Copies bytes into a buffer at an offset. */
  method PutBytes(buf: array<byte>, at: nat, bytes: seq<byte>)
    requires at + |bytes| <= buf.Length
    modifies buf
    ensures buf[..] == old(buf[..at]) + bytes + old(buf[at + |bytes|..])
    ensures buf[..at + |bytes|] == old(buf[..at]) + bytes
    ensures forall i :: at + |bytes| <= i < buf.Length ==> buf[i] == old(buf[i])
  {
    forall i | 0 <= i < |bytes| {
      buf[at + i] := bytes[i];
    }
  }

  /** bytesToWordsLE; null stands for Go's nil. */
  method BytesToWordsLE(b: seq<byte>) returns (out: array?<u32>)
    ensures out == null <==> |b| % 4 != 0
    ensures out != null ==> fresh(out) && out[..] == WordsLE(b)
  {
    if |b| % 4 != 0 {
      return null;
    }
    var words := new u32[|b| / 4];
    for i := 0 to words.Length
      invariant words[..i] == WordsLE(b)[..i]
    {
      words[i] := FromLe32(b[i * 4..i * 4 + 4]);
    }
    out := words;
  }

  /** wordsToBytesLE. */
  method WordsToBytesLE(words: array<u32>) returns (out: array<byte>)
    ensures fresh(out) && out[..] == BytesLE(words[..])
  {
    hide Le32;
    out := new byte[words.Length * 4];
    for i := 0 to words.Length
      invariant out[..i * 4] == BytesLE(words[..i])
    {
      PutBytes(out, i * 4, Le32(words[i]));
      assert words[..i + 1][..i] == words[..i];
    }
    assert words[..words.Length] == words[..];
  }

  /** EncodePacket of wire.go; a missing key stands for Go's nil. */
  method EncodePacket(topic: seq<byte>, payload: seq<byte>, encoding: byte, key: Option<seq<byte>>)
    returns (r: Result<seq<byte>, EncodeError>)
    ensures r == EncodePacketSpec(topic, payload, encoding, key)
  {
    hide Le32, Le16, Crc32.Crc, Xxtea.Encrypted, BytesLE, WordsLE, Header;
    if encoding != ENCODING_RAW && encoding != ENCODING_PROTO {
      return Err(BadEncoding);
    }
    var crc := Crc32.Checksum(topic);
    var body: seq<byte>;
    var encMode, hdrCrc;
    if key.None? {
      if |payload| > MAX_PAYLOAD {
        return Err(PayloadTooLarge);
      }
      body, encMode, hdrCrc := payload, ENC_MODE_NONE, crc;
    } else {
      if |key.value| != 32 {
        return Err(BadEncodeKey);
      }
      var clen := CiphertextLen(|payload|);
      if HEADER_LEN + clen > MAX_DATAGRAM {
        return Err(CiphertextTooLarge);
      }
      body := Seal(crc, payload, clen, key.value);
      encMode, hdrCrc := ENC_MODE_XXTEA, 0;
    }
    var buf := new byte[HEADER_LEN + |body|](_ => 0);
    ghost var front := [MAGIC0, MAGIC1, VERSION, encoding] + Le32(hdrCrc) + Le16(|payload| % TWO16) + [encMode];
    assert buf[..] == Zeros(HEADER_LEN + |body|);
    PutBytes(buf, 0, [MAGIC0, MAGIC1, VERSION, encoding] + Le32(hdrCrc) + Le16(|payload| % TWO16) + [encMode]);
    assert buf[..] == front + Zeros(1 + |body|);
    PutBytes(buf, HEADER_LEN, body);
    assert buf[..] == front + [0] + body;
    HeaderLayout(crc, encoding, |payload| % TWO16, encMode);
    r := Ok(buf[..]);
  }

  lemma HeaderLayout(topicCrc: u32, encoding: byte, payloadLen: u16, encMode: byte)
    ensures Header(topicCrc, encoding, payloadLen, encMode)
         == [MAGIC0, MAGIC1, VERSION, encoding] + Le32(if encMode != ENC_MODE_NONE then 0 else topicCrc)
            + Le16(payloadLen) + [encMode] + [0]
  {
    hide Le32, Le16;
  }

  /** The encrypting half of EncodePacket: lay the plain block out in a zeroed buffer and encrypt it in place. */
  method Seal(crc: u32, payload: seq<byte>, clen: nat, key: Key) returns (body: seq<byte>)
    requires clen == CiphertextLen(|payload|)
    ensures body == Encipher(PlainBlock(crc, payload), key)
  {
    hide Le32, Xxtea.Encrypted, BytesLE, WordsLE;
    var plain := new byte[clen](_ => 0);
    assert plain[..] == Zeros(clen);
    PutBytes(plain, 0, Le32(crc));
    assert plain[..] == Le32(crc) + Zeros(clen - 4);
    PutBytes(plain, 4, payload);
    assert plain[..] == PlainBlock(crc, payload);
    var words := BytesToWordsLE(plain[..]);
    var keyWords := BytesToWordsLE(key);
    Xxtea.Encrypt(words, keyWords[..]);
    var bytes := WordsToBytesLE(words);
    body := bytes[..];
  }

  /** DecodePacket of wire.go. */
  method DecodePacket(data: seq<byte>, key: Option<seq<byte>>) returns (r: Result<Packet, DecodeError>)
    ensures r == DecodePacketSpec(data, key)
  {
    hide FromLe32, FromLe16, Xxtea.Decrypted, BytesLE, WordsLE;
    if |data| < HEADER_LEN {
      return Err(TooShort);
    }
    if data[0] != MAGIC0 || data[1] != MAGIC1 {
      return Err(BadMagic);
    }
    if data[2] != VERSION {
      return Err(BadVersion);
    }
    var enc := data[3];
    if enc != ENCODING_RAW && enc != ENCODING_PROTO {
      return Err(UnknownEncoding);
    }
    var encMode := data[10];
    if encMode != ENC_MODE_NONE && encMode != ENC_MODE_XXTEA {
      return Err(UnknownEncMode);
    }
    var hdrCrc := FromLe32(data[4..8]);
    var payloadLen := FromLe16(data[8..10]);
    if encMode == ENC_MODE_XXTEA {
      var expected := HEADER_LEN + CiphertextLen(payloadLen);
      if |data| != expected {
        return Err(CiphertextTooShort);
      }
      if key.None? {
        return Err(EncryptedNoKey);
      }
      if |key.value| != 32 {
        return Err(BadDecodeKey);
      }
      var words := BytesToWordsLE(data[HEADER_LEN..]);
      var keyWords := BytesToWordsLE(key.value);
      Xxtea.Decrypt(words, keyWords[..]);
      var plain := WordsToBytesLE(words);
      return Ok(Packet(FromLe32(plain[0..4]), enc, encMode, true, plain[4..4 + payloadLen]));
    }
    if payloadLen + HEADER_LEN != |data| {
      return Err(LengthMismatch);
    }
    r := Ok(Packet(hdrCrc, enc, encMode, false, data[HEADER_LEN..]));
  }

  /** decode of wire_format.cpp, which checks the frame and leaves decryption to the caller. */
  method Decode(data: seq<byte>) returns (r: Result<Frame, DecodeError>)
    ensures r == DecodeFrame(data)
  {
    if |data| < HEADER_LEN {
      return Err(TooShort);
    }
    if data[0] != MAGIC0 || data[1] != MAGIC1 {
      return Err(BadMagic);
    }
    if data[2] != VERSION {
      return Err(BadVersion);
    }
    var enc := data[3];
    if enc != ENCODING_RAW && enc != ENCODING_PROTO {
      return Err(UnknownEncoding);
    }
    var enm := data[10];
    if enm != ENC_MODE_NONE && enm != ENC_MODE_XXTEA {
      return Err(UnknownEncMode);
    }
    var payloadLen := FromLe16(data[8..10]);
    if enm == ENC_MODE_XXTEA {
      if |data| != HEADER_LEN + CiphertextLen(payloadLen) {
        return Err(CiphertextTooShort);
      }
    } else if HEADER_LEN + payloadLen != |data| {
      return Err(LengthMismatch);
    }
    r := Ok(Frame(FromLe32(data[4..8]), enc, enm, payloadLen, data[HEADER_LEN..]));
  }
}
