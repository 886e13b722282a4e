/** Protobuf fields on the wire: tag, wire type and payload, without a schema
    (bridges/mqtt-go/proto.go skipField, components/mpubsub/dynamic_message.cpp DynamicReader::next). */
module ProtoWire {
  import opened Octets
  import opened Outcomes
  import V = Varint

  const WIRE_VARINT: nat := 0
  const WIRE_LEN: nat := 2
  const WIRE_FIXED32: nat := 5

  datatype ProtoError =
    | TruncatedTag | TruncatedValue | LengthOverflow | UnsupportedWireType | WireTypeMismatch
    | NoWireType | ValueMismatch | NotAList

  /** A byte slice or string: its length is a signed 64-bit integer. */
  type Blob = s: seq<byte> | |s| <= MAX_LEN

  const MAX_LEN: nat := 0x7FFF_FFFF_FFFF_FFFF

  /** What follows a tag. */
  datatype Payload = Number(value: u64) | Fixed(bits: u32) | Delimited(data: Blob)
  {
    function WireType(): nat {
      match this
      case Number(_) => WIRE_VARINT
      case Fixed(_) => WIRE_FIXED32
      case Delimited(_) => WIRE_LEN
    }
  }

  datatype RawField = RawField(tag: u32, payload: Payload)

  function EncodedPayload(p: Payload): seq<byte> {
    match p
    case Number(v) => V.Encoded(v)
    case Fixed(bits) => Le32(bits)
    case Delimited(data) => V.Encoded(|data|) + data
  }

  /** appendTag followed by the payload. */
  function EncodedField(f: RawField): seq<byte> {
    V.Encoded(f.tag * 8 + f.payload.WireType()) + EncodedPayload(f.payload)
  }

  function EncodedFields(fs: seq<RawField>): seq<byte> {
    if fs == [] then [] else EncodedField(fs[0]) + EncodedFields(fs[1..])
  }

  /** A payload of the given wire type at the front of data, and the number of bytes it takes. */
  function ReadPayload(data: Blob, wireType: nat): (r: Result<(Payload, nat), ProtoError>)
    ensures r.Ok? ==> r.value.1 <= |data| && r.value.0.WireType() == wireType
  {
    if wireType == WIRE_VARINT then
      match V.Read(data)
      case Malformed => Err(TruncatedValue)
      case Parsed(v, n) => Ok((Number(v), n))
    else if wireType == WIRE_FIXED32 then
      if |data| < 4 then Err(TruncatedValue) else Ok((Fixed(FromLe32(data[..4])), 4))
    else if wireType == WIRE_LEN then
      match V.Read(data)
      case Malformed => Err(TruncatedValue)
      case Parsed(l, n) => if l > |data| - n then Err(LengthOverflow) else Ok((Delimited(data[n..n + l]), n + l))
    else Err(UnsupportedWireType)
  }

  /** One field at the front of data; the tag keeps only its low 32 bits. */
  function ReadField(data: Blob): (r: Result<(RawField, nat), ProtoError>)
    ensures r.Ok? ==> 1 <= r.value.1 <= |data|
  {
    match V.Read(data)
    case Malformed => Err(TruncatedTag)
    case Parsed(key, n) =>
      match ReadPayload(data[n..], key % 8)
      case Err(e) => Err(e)
      case Ok((p, m)) => Ok((RawField(key / 8 % TWO32, p), n + m))
  }

  /** All fields of a body, or the first error. */
  function ReadFields(body: Blob): Result<seq<RawField>, ProtoError> {
    if body == [] then Ok([])
    else match ReadField(body)
      case Err(e) => Err(e)
      case Ok((f, n)) =>
        match ReadFields(body[n..])
        case Err(e) => Err(e)
        case Ok(fs) => Ok([f] + fs)
  }

  lemma ReadPayloadEncoded(p: Payload, rest: seq<byte>)
    requires |EncodedPayload(p) + rest| <= MAX_LEN
    ensures ReadPayload(EncodedPayload(p) + rest, p.WireType()) == Ok((p, |EncodedPayload(p)|))
  {
    hide V.Read, V.Encoded, Le32, FromLe32;
    match p
    case Number(v) => V.ReadEncoded(v, rest);
    case Fixed(bits) =>
      assert (Le32(bits) + rest)[..4] == Le32(bits);
      FromLe32OfLe32(bits);
    case Delimited(data) =>
      var e := V.Encoded(|data|);
      V.ReadEncoded(|data|, data + rest);
      assert e + data + rest == e + (data + rest);
      assert (e + data + rest)[|e|..|e| + |data|] == data;
  }

  lemma ReadFieldEncoded(f: RawField, rest: seq<byte>)
    requires |EncodedField(f) + rest| <= MAX_LEN
    ensures ReadField(EncodedField(f) + rest) == Ok((f, |EncodedField(f)|))
  {
    hide V.Read, V.Encoded, ReadPayload, EncodedPayload;
    var key := f.tag * 8 + f.payload.WireType();
    var p := EncodedPayload(f.payload);
    V.ReadEncoded(key, p + rest);
    ReadPayloadEncoded(f.payload, rest);
    assert EncodedField(f) + rest == V.Encoded(key) + (p + rest);
    assert (V.Encoded(key) + (p + rest))[|V.Encoded(key)|..] == p + rest;
  }

  /** Reading back a sequence of written fields gives the sequence. */
  lemma {:induction false} ReadFieldsEncoded(fs: seq<RawField>)
    requires |EncodedFields(fs)| <= MAX_LEN
    ensures ReadFields(EncodedFields(fs)) == Ok(fs)
    decreases |fs|
  {
    hide ReadField, EncodedField;
    if fs != [] {
      var rest := EncodedFields(fs[1..]);
      ReadFieldEncoded(fs[0], rest);
      ReadFieldsEncoded(fs[1..]);
      assert (EncodedField(fs[0]) + rest)[|EncodedField(fs[0])|..] == rest;
      assert EncodedFields(fs) == EncodedField(fs[0]) + rest && [fs[0]] + fs[1..] == fs;
    }
  }

  lemma ReadPayloadStable(a: Blob, b: Blob, wireType: nat)
    requires ReadPayload(a, wireType).Ok? && |a| + |b| <= MAX_LEN
    ensures ReadPayload(a + b, wireType) == ReadPayload(a, wireType)
  {
    hide V.Read, FromLe32;
    if wireType == WIRE_FIXED32 {
      assert (a + b)[..4] == a[..4];
    } else {
      V.ReadStable(a, b);
      if wireType == WIRE_LEN {
        var r := V.Read(a);
        assert (a + b)[r.consumed..r.consumed + r.value] == a[r.consumed..r.consumed + r.value];
      }
    }
  }

  lemma ReadFieldStable(a: Blob, b: Blob)
    requires ReadField(a).Ok? && |a| + |b| <= MAX_LEN
    ensures ReadField(a + b) == ReadField(a)
  {
    hide V.Read, ReadPayload;
    V.ReadStable(a, b);
    var r := V.Read(a);
    assert (a + b)[r.consumed..] == a[r.consumed..] + b;
    ReadPayloadStable(a[r.consumed..], b, r.value % 8);
  }

  /** After a well-formed body the fields of what follows are read as if it stood alone. */
  lemma {:induction false} ReadFieldsConcat(a: Blob, b: Blob)
    requires ReadFields(a).Ok? && |a| + |b| <= MAX_LEN
    ensures ReadFields(a + b) == match ReadFields(b) case Ok(fs) => Ok(ReadFields(a).value + fs) case Err(e) => Err(e)
    decreases |a|
  {
    hide ReadField;
    if a == [] {
      assert a + b == b;
      assert ReadFields(b).Ok? ==> [] + ReadFields(b).value == ReadFields(b).value;
    } else {
      ReadFieldStable(a, b);
      var (f, n) := ReadField(a).value;
      assert (a + b)[n..] == a[n..] + b;
      ReadFieldsConcat(a[n..], b);
      if ReadFields(b).Ok? {
        assert [f] + (ReadFields(a[n..]).value + ReadFields(b).value)
            == [f] + ReadFields(a[n..]).value + ReadFields(b).value;
      }
    }
  }

  lemma {:induction false} EncodedFieldsConcat(fs: seq<RawField>, gs: seq<RawField>)
    ensures EncodedFields(fs + gs) == EncodedFields(fs) + EncodedFields(gs)
    decreases |fs|
  {
    hide EncodedField;
    if fs == [] {
      assert [] + gs == gs;
    } else {
      assert (fs + gs)[1..] == fs[1..] + gs;
      EncodedFieldsConcat(fs[1..], gs);
    }
  }
}
