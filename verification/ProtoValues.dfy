/** Scalar values of the ten schema types and their payloads (bridges/mqtt-go/proto.go appendValue, decodeValue). */
module ProtoValues {
  import opened Octets
  import opened Outcomes
  import opened ProtoWire
  import opened Schemas
  import V = Varint

  type i64 = x: int | -0x8000_0000_0000_0000 <= x < 0x8000_0000_0000_0000

  /** What a Go `any` holds: float64 values that come from a float32 are kept as its bit pattern. */
  datatype Scalar =
    | Bool(b: bool) | Int(i: i64) | Uint(u: u64) | Float(bits: u32) | Str(s: Blob) | Bin(data: Blob)

  /** `int32(x)` and `int64(x)`: the low bits, read as two's complement. */
  function Signed32(x: int): int {
    if x % TWO32 < 0x8000_0000 then x % TWO32 else x % TWO32 - TWO32
  }

  function Signed64(x: int): i64 {
    if x % TWO64 < 0x8000_0000_0000_0000 then x % TWO64 else x % TWO64 - TWO64
  }

  /** zigzag32 and zigzag64. */
  function Zigzag(n: int): nat {
    if n >= 0 then 2 * n else -2 * n - 1
  }

  function Unzigzag(u: nat): int {
    if u % 2 == 0 then u / 2 else -(u / 2) - 1
  }

  lemma ZigzagInverse(n: int, u: nat)
    ensures Unzigzag(Zigzag(n)) == n && Zigzag(Unzigzag(u)) == u
    ensures Zigzag(n) < TWO32 <==> Signed32(n) == n
    ensures Zigzag(n) < TWO64 <==> Signed64(n) == n
  {
    hide Signed32, Signed64;
    ZigzagWidth32(n);
    ZigzagWidth64(n);
  }

  lemma ZigzagWidth32(n: int)
    ensures Zigzag(n) < TWO32 <==> Signed32(n) == n
  {
    assert Zigzag(n) < TWO32 <==> -0x8000_0000 <= n < 0x8000_0000;
  }

  lemma ZigzagWidth64(n: int)
    ensures Zigzag(n) < TWO64 <==> Signed64(n) == n
  {
    assert Zigzag(n) < TWO64 <==> -0x8000_0000_0000_0000 <= n < 0x8000_0000_0000_0000;
  }

  /** wireTypeFor. */
  function WireTypeFor(t: FieldType): Result<nat, ProtoError> {
    match t
    case BoolType | Int32Type | Int64Type | Uint32Type | Uint64Type | Sint32Type | Sint64Type => Ok(WIRE_VARINT)
    case FloatType => Ok(WIRE_FIXED32)
    case StringType | BytesType => Ok(WIRE_LEN)
    case OtherType(_) => Err(NoWireType)
  }

  /** toInt64 on the two integer kinds. */
  function ToInt64(v: Scalar): Result<i64, ProtoError> {
    match v
    case Int(i) => Ok(i)
    case Uint(u) => Ok(Signed64(u))
    case _ => Err(ValueMismatch)
  }

  /** toUint64 on the two integer kinds. */
  function ToUint64(v: Scalar): Result<u64, ProtoError> {
    match v
    case Int(i) => if i < 0 then Err(ValueMismatch) else Ok(i)
    case Uint(u) => Ok(u)
    case _ => Err(ValueMismatch)
  }

  /** The payload that appendValue writes for a value of a type. */
  function ToPayload(t: FieldType, v: Scalar): (r: Result<Payload, ProtoError>)
    ensures r.Ok? ==> WireTypeFor(t) == Ok(r.value.WireType())
  {
    match t
    case BoolType => if v.Bool? then Ok(Number(if v.b then 1 else 0)) else Err(ValueMismatch)
    case Int32Type | Int64Type =>
      (match ToInt64(v) case Ok(n) => Ok(Number(n % TWO64)) case Err(e) => Err(e))
    case Uint32Type | Uint64Type =>
      (match ToUint64(v) case Ok(n) => Ok(Number(n)) case Err(e) => Err(e))
    case Sint32Type =>
      (match ToInt64(v)
       case Ok(n) => ZigzagInverse(Signed32(n), 0); Ok(Number(Zigzag(Signed32(n))))
       case Err(e) => Err(e))
    case Sint64Type =>
      (match ToInt64(v) case Ok(n) => ZigzagInverse(n, 0); Ok(Number(Zigzag(n))) case Err(e) => Err(e))
    case FloatType => if v.Float? then Ok(Fixed(v.bits)) else Err(ValueMismatch)
    case StringType => if v.Str? then Ok(Delimited(v.s)) else Err(ValueMismatch)
    case BytesType => if v.Bin? then Ok(Delimited(v.data)) else Err(ValueMismatch)
    case OtherType(_) => Err(NoWireType)
  }

  /** How decodeValue reads a payload of the type's wire type. */
  function FromPayload(t: FieldType, p: Payload): Scalar
    requires WireTypeFor(t) == Ok(p.WireType())
  {
    match t
    case BoolType => Bool(p.value != 0)
    case Int32Type => Int(Signed32(p.value))
    case Int64Type => Int(Signed64(p.value))
    case Uint32Type => Uint(p.value % TWO32)
    case Uint64Type => Uint(p.value)
    case Sint32Type => ZigzagInverse(0, p.value % TWO32); Int(Unzigzag(p.value % TWO32))
    case Sint64Type => ZigzagInverse(0, p.value); Int(Unzigzag(p.value))
    case FloatType => Float(p.bits)
    case StringType => Str(p.data)
    case BytesType => Bin(p.data)
  }

  /** appendValue. */
  method AppendValue(buf: seq<byte>, t: FieldType, v: Scalar) returns (r: Result<seq<byte>, ProtoError>)
    ensures r == match ToPayload(t, v) case Ok(p) => Ok(buf + EncodedPayload(p)) case Err(e) => Err(e)
  {
    hide V.Encoded, Le32;
    match t
    case BoolType =>
      if !v.Bool? { return Err(ValueMismatch); }
      var out := V.AppendVarint(buf, if v.b then 1 else 0);
      return Ok(out);
    case Int32Type | Int64Type =>
      var n := ToInt64(v);
      if n.Err? { return Err(n.error); }
      var out := V.AppendVarint(buf, n.value % TWO64);
      return Ok(out);
    case Uint32Type | Uint64Type =>
      var n := ToUint64(v);
      if n.Err? { return Err(n.error); }
      var out := V.AppendVarint(buf, n.value);
      return Ok(out);
    case Sint32Type =>
      var n := ToInt64(v);
      if n.Err? { return Err(n.error); }
      ZigzagInverse(Signed32(n.value), 0);
      var out := V.AppendVarint(buf, Zigzag(Signed32(n.value)));
      return Ok(out);
    case Sint64Type =>
      var n := ToInt64(v);
      if n.Err? { return Err(n.error); }
      ZigzagInverse(n.value, 0);
      var out := V.AppendVarint(buf, Zigzag(n.value));
      return Ok(out);
    case FloatType =>
      if !v.Float? { return Err(ValueMismatch); }
      return Ok(buf + Le32(v.bits));
    case StringType =>
      if !v.Str? { return Err(ValueMismatch); }
      var out := V.AppendVarint(buf, |v.s|);
      assert out + v.s == buf + EncodedPayload(Delimited(v.s));
      return Ok(out + v.s);
    case BytesType =>
      if !v.Bin? { return Err(ValueMismatch); }
      var out := V.AppendVarint(buf, |v.data|);
      assert out + v.data == buf + EncodedPayload(Delimited(v.data));
      return Ok(out + v.data);
    case OtherType(_) =>
      return Err(NoWireType);
  }

  /** decodeValue, as the code computes it: check the wire type, then read by type. */
  function DecodeValue(data: Blob, t: FieldType, wt: nat): Result<(Scalar, nat), ProtoError>
  {
    match WireTypeFor(t)
    case Err(e) => Err(e)
    case Ok(expected) =>
      if wt != expected then Err(WireTypeMismatch)
      else match t
        case FloatType =>
          if |data| < 4 then Err(TruncatedValue) else Ok((Float(FromLe32(data[..4])), 4))
        case StringType =>
          (match V.Read(data)
           case Malformed => Err(TruncatedValue)
           case Parsed(l, n) => if l > |data| - n then Err(LengthOverflow) else Ok((Str(data[n..n + l]), n + l)))
        case BytesType =>
          (match V.Read(data)
           case Malformed => Err(TruncatedValue)
           case Parsed(l, n) => if l > |data| - n then Err(LengthOverflow) else Ok((Bin(data[n..n + l]), n + l)))
        case _ =>
          (match V.Read(data)
           case Malformed => Err(TruncatedValue)
           case Parsed(v, n) => Ok((FromPayload(t, Number(v)), n)))
  }

  /** skipField. */
  function SkipField(data: Blob, wt: nat): Result<nat, ProtoError> {
    if wt == WIRE_VARINT then
      match V.Read(data)
      case Malformed => Err(TruncatedValue)
      case Parsed(_, n) => Ok(n)
    else if wt == WIRE_FIXED32 then
      if |data| < 4 then Err(TruncatedValue) else Ok(4)
    else if wt == WIRE_LEN then
      match V.Read(data)
      case Malformed => Err(TruncatedValue)
      case Parsed(l, n) => if l > |data| - n then Err(LengthOverflow) else Ok(n + l)
    else Err(UnsupportedWireType)
  }

  /** Skipping an unknown field consumes exactly what reading it would. */
  lemma SkipIsRead(data: Blob, wt: nat)
    ensures SkipField(data, wt) == match ReadPayload(data, wt) case Ok((_, n)) => Ok(n) case Err(e) => Err(e)
  {}

  /** Decoding a value is reading its payload, refused when the wire type is not the type's own. */
  lemma DecodeIsRead(data: Blob, t: FieldType, wt: nat)
    ensures DecodeValue(data, t, wt)
         == match WireTypeFor(t)
            case Err(e) => Err(e)
            case Ok(expected) =>
              if wt != expected then Err(WireTypeMismatch)
              else match ReadPayload(data, wt)
                case Ok((p, n)) => Ok((FromPayload(t, p), n))
                case Err(e) => Err(e)
  {
    hide V.Read, FromLe32;
  }

  /** What decoding gives back for an encodable value. */
  function Normal(t: FieldType, v: Scalar): Scalar
    requires ToPayload(t, v).Ok?
  {
    match t
    case Int32Type | Sint32Type => Int(Signed32(ToInt64(v).value))
    case Int64Type | Sint64Type => Int(ToInt64(v).value)
    case Uint32Type => Uint(ToUint64(v).value % TWO32)
    case Uint64Type => Uint(ToUint64(v).value)
    case _ => v
  }

  /** The values of a type: the right kind, within the type's range. */
  predicate InRange(t: FieldType, v: Scalar) {
    match t
    case BoolType => v.Bool?
    case Int32Type | Sint32Type => v.Int? && -0x8000_0000 <= v.i < 0x8000_0000
    case Int64Type | Sint64Type => v.Int?
    case Uint32Type => v.Uint? && v.u < TWO32
    case Uint64Type => v.Uint?
    case FloatType => v.Float?
    case StringType => v.Str?
    case BytesType => v.Bin?
    case OtherType(_) => false
  }

  lemma SignedOfWide(n: i64)
    ensures Signed32(n % TWO64) == Signed32(n) && Signed64(n % TWO64) == n
  {
    hide Signed32, Signed64;
    assert n % TWO64 == if n < 0 then n + TWO64 else n;
    Signed32Periodic(n);
    Signed64OfWord(n);
  }

  lemma Signed32Periodic(n: int)
    ensures Signed32(n + TWO64) == Signed32(n)
  {
    assert (n + TWO32 * 0x1_0000_0000) % TWO32 == n % TWO32;
  }

  lemma Signed64OfWord(n: i64)
    ensures Signed64(if n < 0 then n + TWO64 else n) == n
  {}

  /** Decoding an encoded value normalises it. */
  lemma PayloadRoundTrip(t: FieldType, v: Scalar)
    requires ToPayload(t, v).Ok?
    ensures FromPayload(t, ToPayload(t, v).value) == Normal(t, v)
  {
    if ToInt64(v).Ok? {
      var n := ToInt64(v).value;
      SignedOfWide(n);
      ZigzagInverse(n, 0);
      ZigzagInverse(Signed32(n), 0);
      SignedIdempotent(n);
    }
  }

  lemma SignedIdempotent(n: int)
    ensures Signed32(Signed32(n)) == Signed32(n)
  {}

  /** An encodable value survives exactly when it is in its type's range. */
  lemma NormalIffInRange(t: FieldType, v: Scalar)
    requires ToPayload(t, v).Ok?
    ensures Normal(t, v) == v <==> InRange(t, v)
  {}

  /** Every value of a type is encodable. */
  lemma InRangeEncodes(t: FieldType, v: Scalar)
    requires InRange(t, v)
    ensures ToPayload(t, v).Ok?
  {}

  // ----- What the payloads mean to others

  /** Types that read each other's values: an int32 is sign-extended to 64 bits, so a reader that declares int64 gets
      the same number, and so on. */
  predicate Widens(narrow: FieldType, wide: FieldType) {
    || (narrow.Int32Type? && wide.Int64Type?) || (narrow.Uint32Type? && wide.Uint64Type?)
    || (narrow.Sint32Type? && wide.Sint64Type?)
  }

  lemma WiderTypeReads(narrow: FieldType, wide: FieldType, v: Scalar)
    requires Widens(narrow, wide) && InRange(narrow, v)
    ensures ToPayload(narrow, v).Ok? && WireTypeFor(wide) == Ok(WIRE_VARINT)
    ensures FromPayload(wide, ToPayload(narrow, v).value) == v
    ensures ToPayload(narrow, v) == ToPayload(wide, v)
  {
    if v.Int? {
      SignedOfWide(v.i);
      ZigzagInverse(v.i, 0);
    }
  }

  /** A negative int32 or int64 takes ten bytes. */
  lemma NegativeTakesTenBytes(t: FieldType, n: i64)
    requires (t.Int32Type? || t.Int64Type?) && InRange(t, Int(n)) && n < 0
    ensures ToPayload(t, Int(n)).Ok? && |EncodedPayload(ToPayload(t, Int(n)).value)| == 10
  {
    hide V.Encoded, V.Power128;
    V.PowersOf128();
    assert n % TWO64 == n + TWO64;
    V.EncodedLength(n + TWO64, 10);
    V.EncodedLength(n + TWO64, 9);
    NinePowers();
  }

  lemma NinePowers()
    ensures V.Power128(9) == 0x8000_0000_0000_0000
  {
    assert V.Power128(3) == 0x20_0000;
    assert V.Power128(6) == 0x400_0000_0000;
  }

  /** With a tag below 16 a field starts with the byte 8 * tag plus 0, 5 or 2. */
  lemma FirstByte(tag: u32, t: FieldType, v: Scalar)
    requires tag < 16 && InRange(t, v)
    ensures ToPayload(t, v).Ok?
    ensures EncodedField(RawField(tag, ToPayload(t, v).value))[0]
         == 8 * tag + match t case FloatType => 5 case StringType => 2 case BytesType => 2 case _ => 0
  {
    InRangeEncodes(t, v);
    var p := ToPayload(t, v).value;
    var key := tag * 8 + p.WireType();
    assert V.Encoded(key) == [key];
    hide V.Encoded, EncodedPayload;
  }

  /** What a reader of each varint type makes of the number on the wire: a bool is true unless it is zero, the others
      take the low bits, as two's complement or as a zigzag code. */
  lemma NumberMeans(n: u64)
    ensures FromPayload(BoolType, Number(n)) == Bool(n > 0)
    ensures var i := FromPayload(Int32Type, Number(n)).i;
            -0x8000_0000 <= i < 0x8000_0000 && (i - n) % 0x1_0000_0000 == 0
    ensures (FromPayload(Int64Type, Number(n)).i - n) % 0x1_0000_0000_0000_0000 == 0
    ensures FromPayload(Uint32Type, Number(n)).u < 0x1_0000_0000
            && (FromPayload(Uint32Type, Number(n)).u - n) % 0x1_0000_0000 == 0
    ensures FromPayload(Uint64Type, Number(n)).u == n
    ensures var i := FromPayload(Sint32Type, Number(n)).i;
            (if i >= 0 then 2 * i else -2 * i - 1) == n % 0x1_0000_0000
    ensures var i := FromPayload(Sint64Type, Number(n)).i; (if i >= 0 then 2 * i else -2 * i - 1) == n
  {
    ZigzagInverse(0, n);
    ZigzagInverse(0, n % TWO32);
    Congruent(n, TWO32);
    Congruent(n, TWO64);
  }

  lemma Congruent(n: int, m: nat)
    requires m == TWO32 || m == TWO64
    ensures (n % m - n) % m == 0 && (n % m - m - n) % m == 0
  {}
}
