/** The golden encodings of tests/unit/test_protobuf_reference.py. */
module ProtoExamples {
  import opened Octets
  import opened Outcomes
  import opened ProtoWire
  import opened ProtoValues
  import opened Schemas
  import V = Varint

  lemma Varints()
    ensures V.Encoded(0) == [0x00] && V.Encoded(1) == [0x01] && V.Encoded(127) == [0x7f]
    ensures V.Encoded(128) == [0x80, 0x01] && V.Encoded(300) == [0xac, 0x02]
    ensures V.Encoded(16384) == [0x80, 0x80, 0x01]
  {
    assert V.Encoded(2) == [2] && V.Encoded(1) == [1];
    assert V.Encoded(128) == [0x80] + V.Encoded(1) && V.Encoded(16384) == [0x80] + V.Encoded(128);
  }

  lemma Keys()
    ensures V.Encoded(8) == [0x08] && V.Encoded(18) == [0x12] && V.Encoded(29) == [0x1d]
    ensures V.Encoded(32) == [0x20] && V.Encoded(42) == [0x2a]
    ensures V.Encoded(3) == [3] && V.Encoded(4) == [4]
  {}

  /** The bytes that a value of a type is written as under a tag. */
  function Written(tag: u32, t: FieldType, v: Scalar): seq<byte> {
    match ToPayload(t, v)
    case Ok(p) => EncodedField(RawField(tag, p))
    case Err(_) => []
  }

  lemma Numbers()
    ensures Written(1, Uint32Type, Uint(300)) == [0x08, 0xac, 0x02]
    ensures Written(4, BoolType, Bool(true)) == [0x20, 0x01] && Written(4, BoolType, Bool(false)) == [0x20, 0x00]
    ensures Written(1, Sint32Type, Int(-1)) == [0x08, 0x01] && Written(1, Sint32Type, Int(-2)) == [0x08, 0x03]
  {
    Varints();
    Keys();
    hide V.Encoded;
  }

  /** 1.0 as a float is 0x3F800000. */
  lemma Others()
    ensures Written(3, FloatType, Float(0x3F80_0000)) == [0x1d, 0x00, 0x00, 0x80, 0x3f]
    ensures Written(2, StringType, Str([97, 98, 99])) == [0x12, 0x03, 97, 98, 99]
    ensures Written(5, BytesType, Bin([0xde, 0xad, 0xbe, 0xef])) == [0x2a, 0x04, 0xde, 0xad, 0xbe, 0xef]
  {
    Keys();
    assert Le32(0x3F80_0000) == [0x00, 0x00, 0x80, 0x3f];
    hide V.Encoded, Le32;
  }

  lemma AllOnes()
    ensures V.Encoded(0xFFFF_FFFF_FFFF_FFFF) == [0xff, 0xff, 0xff, 0xff, 0xff, 0xff, 0xff, 0xff, 0xff, 0x01]
  {
    assert V.Encoded(1) == [0x01];
    assert V.Encoded(0xff) == [0xff] + V.Encoded(1);
    assert V.Encoded(0x7fff) == [0xff] + V.Encoded(0xff);
    assert V.Encoded(0x3f_ffff) == [0xff] + V.Encoded(0x7fff);
    assert V.Encoded(0x1fff_ffff) == [0xff] + V.Encoded(0x3f_ffff);
    assert V.Encoded(0xf_ffff_ffff) == [0xff] + V.Encoded(0x1fff_ffff);
    assert V.Encoded(0x7ff_ffff_ffff) == [0xff] + V.Encoded(0xf_ffff_ffff);
    assert V.Encoded(0x3_ffff_ffff_ffff) == [0xff] + V.Encoded(0x7ff_ffff_ffff);
    assert V.Encoded(0x1ff_ffff_ffff_ffff) == [0xff] + V.Encoded(0x3_ffff_ffff_ffff);
    assert V.Encoded(0xffff_ffff_ffff_ffff) == [0xff] + V.Encoded(0x1ff_ffff_ffff_ffff);
  }

  lemma MinusOne()
    ensures Written(1, Int32Type, Int(-1))
         == [0x08, 0xff, 0xff, 0xff, 0xff, 0xff, 0xff, 0xff, 0xff, 0xff, 0x01]
  {
    AllOnes();
    Keys();
    hide V.Encoded;
    assert -1 % TWO64 == 0xFFFF_FFFF_FFFF_FFFF;
  }
}
