/** The Python reference of the wire format (tests/unit/reference.py), and the agreement of the three
    implementations: reference, bridge and firmware. */
module ReferenceWire {
  import opened Octets
  import opened Outcomes
  import opened WireFormat
  import Crc32
  import Node

  datatype ValueError = TooLarge | NotAnEncoding | KeyLength | EncryptedTooLarge

  /** encode: the payload cap comes first, with and without a key. */
  method Encode(topic: seq<byte>, payload: seq<byte>, encoding: nat, key: Option<seq<byte>>)
    returns (r: Result<seq<byte>, ValueError>)
    ensures r.Ok? <==> |payload| <= MAX_PAYLOAD && encoding <= 1
                       && (key.Some? ==> |key.value| == 32 && HEADER_LEN + CiphertextLen(|payload|) <= MAX_DATAGRAM)
    ensures r.Ok? ==> Ok(r.value) == EncodePacketSpec(topic, payload, encoding, key)
  {
    hide Le32, Le16, Encipher, Crc32.Crc;
    if |payload| > MAX_PAYLOAD {
      return Err(TooLarge);
    }
    if encoding != ENCODING_RAW && encoding != ENCODING_PROTO {
      return Err(NotAnEncoding);
    }
    var crc := Crc32.Checksum(topic);
    var encMode, headerCrc, body := ENC_MODE_NONE, crc, payload;
    if key.Some? {
      if |key.value| != 32 {
        return Err(KeyLength);
      }
      var clen := CiphertextLen(|payload|);
      if HEADER_LEN + clen > MAX_DATAGRAM {
        return Err(EncryptedTooLarge);
      }
      body := Encipher(Le32(crc) + payload + Zeros(clen - 4 - |payload|), key.value);
      encMode, headerCrc := ENC_MODE_XXTEA, 0;
    }
    var header := [MAGIC0, MAGIC1] + [VERSION, encoding] + (Le32(headerCrc) + Le16(|payload|)) + [encMode, 0];
    HeaderParts(encoding, headerCrc, |payload|, encMode);
    r := Ok(header + body);
  }

  lemma HeaderParts(encoding: byte, crc: u32, length: u16, encMode: byte)
    ensures [MAGIC0, MAGIC1] + [VERSION, encoding] + (Le32(crc) + Le16(length)) + [encMode, 0]
         == [MAGIC0, MAGIC1, VERSION, encoding] + Le32(crc) + Le16(length) + [encMode, 0]
  {
    hide Le32, Le16;
    assert [MAGIC0, MAGIC1] + [VERSION, encoding] == [MAGIC0, MAGIC1, VERSION, encoding];
  }

  /** The reference's conditions are the bridge's, and on every accepted input all three give the same bytes. */
  lemma EncodersAgree(topic: seq<byte>, payload: seq<byte>, encoding: Node.Encoding, config: Node.Config)
    ensures EncodePacketSpec(topic, payload, encoding, config.key).Ok?
            <==> |payload| <= MAX_PAYLOAD
                 && (config.key.Some? ==> HEADER_LEN + CiphertextLen(|payload|) <= MAX_DATAGRAM)
    ensures EncodePacketSpec(topic, payload, encoding, config.key).Ok? <==> |payload| <= Node.Cap(config)
    ensures |payload| <= Node.Cap(config) ==>
              EncodePacketSpec(topic, payload, encoding, config.key)
                  == Ok(Node.DatagramFor(config, topic, payload, encoding))
  {
    hide Datagram, Crc32.Checksum;
    EncryptedCapsAgree(|payload|);
  }
}
