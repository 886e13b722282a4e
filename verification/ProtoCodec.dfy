/** EncodeProto and DecodeProto of bridges/mqtt-go/proto.go over runtime schemas. */
module ProtoCodec {
  import opened Octets
  import opened Outcomes
  import opened ProtoWire
  import opened ProtoValues
  import opened Schemas
  import V = Varint

  /** A Go map value: a scalar, or the list of a repeated field. */
  datatype Value = Single(v: Scalar) | List(elems: seq<Scalar>)

  type Values = map<Text, Value>

  // ----- Decoding

  /** `cur, _ := out[name].([]any)`. */
  function Elements(out: Values, name: Text): seq<Scalar> {
    if name in out && out[name].List? then out[name].elems else []
  }

  function Store(f: SchemaField, v: Scalar, out: Values): Values {
    if f.repeated then out[f.name := List(Elements(out, f.name) + [v])] else out[f.name := Single(v)]
  }

  /** The decoding loop from a position in the body, with the values decoded so far. */
  ghost function DecodeFrom(s: Schema, body: Blob, out: Values): Result<Values, ProtoError>
    requires ValidSchema(s)
    decreases |body|
  {
    if body == [] then Ok(out)
    else match V.Read(body)
      case Malformed => Err(TruncatedTag)
      case Parsed(key, n) =>
        var rest, wt := body[n..], key % 8;
        match FieldFor(s, key / 8 % TWO32)
        case None =>
          (match SkipField(rest, wt)
           case Err(e) => Err(e)
           case Ok(m) => SkipIsRead(rest, wt); DecodeFrom(s, rest[m..], out))
        case Some(f) =>
          (match DecodeValue(rest, f.typ, wt)
           case Err(e) => Err(e)
           case Ok((v, m)) => DecodeIsRead(rest, f.typ, wt); DecodeFrom(s, rest[m..], Store(f, v, out)))
  }

  ghost function Decoded(s: Schema, body: Blob): Result<Values, ProtoError>
    requires ValidSchema(s)
  {
    DecodeFrom(s, body, map[])
  }

  /** One turn of the decoding loop from position i. */
  lemma DecodeTurn(s: Schema, body: Blob, i: nat, out: Values)
    requires ValidSchema(s) && i < |body|
    ensures match V.Read(body[i..])
            case Malformed => DecodeFrom(s, body[i..], out) == Err(TruncatedTag)
            case Parsed(key, n) =>
              var j, wt := i + n, key % 8;
              match FieldFor(s, key / 8 % TWO32)
              case None =>
                (match SkipField(body[j..], wt)
                 case Err(e) => DecodeFrom(s, body[i..], out) == Err(e)
                 case Ok(m) => j + m <= |body| && DecodeFrom(s, body[i..], out) == DecodeFrom(s, body[j + m..], out))
              case Some(f) =>
                (match DecodeValue(body[j..], f.typ, wt)
                 case Err(e) => DecodeFrom(s, body[i..], out) == Err(e)
                 case Ok((v, m)) =>
                   j + m <= |body| && DecodeFrom(s, body[i..], out) == DecodeFrom(s, body[j + m..], Store(f, v, out)))
  {
    hide V.Read, DecodeValue, SkipField, ReadPayload, Store;
    if V.Read(body[i..]).Parsed? {
      var key, n := V.Read(body[i..]).value, V.Read(body[i..]).consumed;
      var j, wt := i + n, key % 8;
      assert body[i..][n..] == body[j..];
      SkipIsRead(body[j..], wt);
      var f := FieldFor(s, key / 8 % TWO32);
      if f.Some? {
        DecodeIsRead(body[j..], f.value.typ, wt);
      }
      if ReadPayload(body[j..], wt).Ok? {
        var m := ReadPayload(body[j..], wt).value.1;
        assert body[j..][m..] == body[j + m..];
      }
    }
  }

  method DecodeProto(s: Schema, body: Blob) returns (r: Result<Values, ProtoError>)
    requires ValidSchema(s)
    ensures r == Decoded(s, body)
  {
    hide V.Read, DecodeValue, SkipField, DecodeFrom;
    var out: Values := map[];
    var i := 0;
    assert body[0..] == body;
    while i < |body|
      invariant 0 <= i <= |body|
      invariant DecodeFrom(s, body[i..], out) == Decoded(s, body)
      decreases |body| - i
    {
      DecodeTurn(s, body, i, out);
      var key, n, ok := V.ReadVarint(body[i..]);
      if !ok {
        return Err(TruncatedTag);
      }
      i := i + n;
      var field, wt := key / 8 % TWO32, key % 8;
      if field !in s.byTag {
        var skip := SkipField(body[i..], wt);
        if skip.Err? {
          return Err(skip.error);
        }
        i := i + skip.value;
        continue;
      }
      var f := s.fields[s.byTag[field]];
      var val := DecodeValue(body[i..], f.typ, wt);
      if val.Err? {
        return Err(val.error);
      }
      i := i + val.value.1;
      if f.repeated {
        out := out[f.name := List(Elements(out, f.name) + [val.value.0])];
      } else {
        out := out[f.name := Single(val.value.0)];
      }
    }
    DecodeNothing(s, body[i..], out);
    r := Ok(out);
  }

  lemma DecodeNothing(s: Schema, body: Blob, out: Values)
    requires ValidSchema(s) && |body| == 0
    ensures DecodeFrom(s, body, out) == Ok(out)
  {}
}
