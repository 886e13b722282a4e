/** Messages built and read without a schema (components/mpubsub/dynamic_message.cpp): a growing buffer of fields,
    a single-pass reader, and the proof that the reader gives back what was added, at every depth of nesting. */
module DynamicMessages {
  import opened Octets
  import opened Outcomes
  import opened ProtoWire
  import opened ProtoValues
  import opened Schemas
  import V = Varint

  const TAG_MAX: nat := 5
  const VARINT_MAX: nat := 10
  const LENGTH_PREFIX_MAX: nat := 5
  const LENGTH_LIMIT: nat := 0x8_0000_0000

  // ----- What a message means

  /** What one add call adds: a value of a scalar type, or a nested message. */
  datatype Item = Leaf(tag: u32, typ: FieldType, value: Scalar) | Nested(tag: u32, items: seq<Item>)

  predicate Sound(item: Item)
    decreases item, 0
  {
    match item
    case Leaf(_, t, v) => InRange(t, v)
    case Nested(_, items) => AllSound(items) && |Encode(items)| <= MAX_LEN
  }

  predicate AllSound(items: seq<Item>)
    decreases items, 0
  {
    forall i :: 0 <= i < |items| ==> Sound(items[i])
  }

  function Raw(item: Item): (f: RawField)
    requires Sound(item)
    ensures f.tag == item.tag
    decreases item, 1
  {
    match item
    case Leaf(tag, t, v) => InRangeEncodes(t, v); RawField(tag, ToPayload(t, v).value)
    case Nested(tag, items) => RawField(tag, Delimited(Encode(items)))
  }

  function Encode(items: seq<Item>): seq<byte>
    requires AllSound(items)
    decreases items, 1
  {
    if items == [] then [] else EncodedField(Raw(items[0])) + Encode(items[1..])
  }

  function Raws(items: seq<Item>): (fs: seq<RawField>)
    requires AllSound(items)
    ensures |fs| == |items| && forall i :: 0 <= i < |fs| ==> fs[i] == Raw(items[i])
  {
    seq(|items|, i requires 0 <= i < |items| => Raw(items[i]))
  }

  /** The accessors as_bool to as_bytes: the value of a field read as a type, if the wire type is the type's own. */
  function As(t: FieldType, p: Payload): Option<Scalar> {
    if WireTypeFor(t) == Ok(p.WireType()) then Some(FromPayload(t, p)) else None
  }

  /** Reading data to its end, and nested messages to theirs, gives exactly these items in order. */
  ghost predicate ReadsBack(data: Blob, items: seq<Item>)
    decreases items
  {
    match ReadFields(data)
    case Err(_) => false
    case Ok(fs) => |fs| == |items| && forall i :: 0 <= i < |fs| ==> Shows(fs[i], items[i])
  }

  ghost predicate Shows(f: RawField, item: Item)
    decreases item
  {
    f.tag == item.tag &&
    match item
    case Leaf(_, t, v) => As(t, f.payload) == Some(v)
    case Nested(_, items) => f.payload.Delimited? && ReadsBack(f.payload.data, items)
  }

  lemma {:induction false} EncodeIsFields(items: seq<Item>)
    requires AllSound(items)
    ensures Encode(items) == EncodedFields(Raws(items))
    decreases |items|
  {
    hide Raw, EncodedField;
    if items != [] {
      EncodeIsFields(items[1..]);
      assert Raws(items)[1..] == Raws(items[1..]);
    }
  }

  /** Any sequence of items, nested to any depth, is read back exactly and without error. */
  lemma {:induction false} EncodedReadsBack(items: seq<Item>)
    requires AllSound(items) && |Encode(items)| <= MAX_LEN
    ensures ReadsBack(Encode(items), items)
    decreases items
  {
    hide Raw, EncodedField;
    EncodeIsFields(items);
    ReadFieldsEncoded(Raws(items));
    forall i | 0 <= i < |items| ensures Shows(Raws(items)[i], items[i]) {
      RawShows(items[i]);
    }
  }

  lemma {:induction false} RawShows(item: Item)
    requires Sound(item)
    ensures Shows(Raw(item), item)
    decreases item
  {
    match item
    case Leaf(_, t, v) =>
      InRangeEncodes(t, v);
      PayloadRoundTrip(t, v);
      NormalIffInRange(t, v);
    case Nested(_, items) =>
      EncodedReadsBack(items);
  }

  lemma {:induction false} EncodeAppend(items: seq<Item>, item: Item)
    requires AllSound(items) && Sound(item)
    ensures AllSound(items + [item]) && Encode(items + [item]) == Encode(items) + EncodedField(Raw(item))
    decreases |items|
  {
    hide Sound, Raw, EncodedField;
    if items == [] {
      assert [] + [item] == [item] && [item][1..] == [];
    } else {
      assert (items + [item])[1..] == items[1..] + [item];
      EncodeAppend(items[1..], item);
    }
  }

  // ----- Worst cases

  lemma TagFits(tag: u32, wireType: nat)
    requires wireType < 8
    ensures |V.Encoded(tag * 8 + wireType)| <= TAG_MAX
  {
    hide V.Encoded;
    V.PowersOf128();
    V.EncodedLength(tag * 8 + wireType, TAG_MAX);
  }

  /** A length prefix fits its reservation exactly below 2^35. */
  lemma LengthFits(n: nat)
    ensures |V.Encoded(n)| <= LENGTH_PREFIX_MAX <==> n < LENGTH_LIMIT
  {
    hide V.Encoded;
    V.PowersOf128();
    V.EncodedLength(n, LENGTH_PREFIX_MAX);
  }

  /** The bytes an add call reserves for a payload. */
  function Reserve(p: Payload): nat {
    match p
    case Number(_) => TAG_MAX + VARINT_MAX
    case Fixed(_) => TAG_MAX + 4
    case Delimited(data) => TAG_MAX + LENGTH_PREFIX_MAX + |data|
  }

  /** No field is longer than what is reserved for it. */
  lemma ReserveSuffices(f: RawField)
    requires f.payload.Delimited? ==> |f.payload.data| < LENGTH_LIMIT
    ensures |EncodedField(f)| <= Reserve(f.payload)
    ensures f.payload.Number? && f.payload.value <= 1 ==> |EncodedField(f)| <= TAG_MAX + 1
  {
    hide Le32;
    TagFits(f.tag, f.payload.WireType());
    match f.payload
    case Number(v) => V.EncodedU64Length(v);
    case Fixed(_) =>
    case Delimited(data) => LengthFits(|data|);
  }

  /** The reservations for tags and numbers are no larger than needed. */
  lemma ReservesAreTight()
    ensures |V.Encoded(8 * 0xFFFF_FFFF + WIRE_LEN)| == TAG_MAX == 5
    ensures |V.Encoded(0xFFFF_FFFF_FFFF_FFFF)| == VARINT_MAX == 10
    ensures |V.Encoded(LENGTH_LIMIT - 1)| == LENGTH_PREFIX_MAX == 5
  {
    hide V.Encoded, V.Power128;
    V.PowersOf128();
    V.EncodedLength(8 * 0xFFFF_FFFF + WIRE_LEN, 4);
    V.EncodedLength(8 * 0xFFFF_FFFF + WIRE_LEN, 5);
    V.EncodedLength(0xFFFF_FFFF_FFFF_FFFF, 9);
    V.EncodedLength(0xFFFF_FFFF_FFFF_FFFF, 10);
    V.EncodedLength(LENGTH_LIMIT - 1, 4);
    V.EncodedLength(LENGTH_LIMIT - 1, 5);
  }

  // ----- The builder

  class DynamicMessage {
    var buf: seq<byte>
    /** Everything added so far. */
    ghost var items: seq<Item>

    ghost predicate Valid()
      reads this
    {
      AllSound(items) && buf == Encode(items)
    }

    constructor ()
      ensures Valid() && items == []
    {
      buf, items := [], [];
    }

    method Clear()
      modifies this
      ensures Valid() && items == []
    {
      buf, items := [], [];
    }

    /** A write primitive: bytes go to pos, which must lie inside the buffer with them. */
    method Put(pos: nat, bytes: seq<byte>) returns (next: nat)
      requires pos + |bytes| <= |buf|
      modifies this`buf
      ensures next == pos + |bytes| && |buf| == old(|buf|) && buf[..next] == old(buf[..pos]) + bytes
    {
      buf := buf[..pos] + bytes + buf[pos + |bytes|..];
      next := pos + |bytes|;
    }

    /** encode_into: reserve the worst case at the end, write there, and cut off what was not used. */
    method EncodeInto(reserve: nat, ghost item: Item, field: RawField)
      requires Valid() && Sound(item) && field == Raw(item) && |EncodedField(field)| <= reserve
      modifies this
      ensures Valid() && items == old(items) + [item]
    {
      hide Sound, Raw, V.Encoded, EncodedPayload;
      var base := |buf|;
      buf := buf + Zeros(reserve);
      assert buf[..base] == old(buf);
      var key := V.Encoded(field.tag * 8 + field.payload.WireType());
      var pos := Put(base, key);
      pos := Put(pos, EncodedPayload(field.payload));
      buf := buf[..pos];
      EncodeAppend(items, item);
      assert buf == old(buf) + EncodedField(field);
      items := items + [item];
    }

    method AddScalar(reserve: nat, tag: u32, t: FieldType, v: Scalar)
      requires Valid() && InRange(t, v)
      requires ToPayload(t, v).Ok? && |EncodedField(RawField(tag, ToPayload(t, v).value))| <= reserve
      modifies this
      ensures Valid() && items == old(items) + [Leaf(tag, t, v)]
    {
      hide ToPayload, Encode, EncodedField, InRange;
      EncodeInto(reserve, Leaf(tag, t, v), RawField(tag, ToPayload(t, v).value));
    }

    method AddBool(tag: u32, value: bool)
      requires Valid()
      modifies this
      ensures Valid() && items == old(items) + [Leaf(tag, BoolType, Bool(value))]
    {
      hide EncodedField, Encode, AllSound;
      ReserveSuffices(RawField(tag, ToPayload(BoolType, Bool(value)).value));
      AddScalar(TAG_MAX + 1, tag, BoolType, Bool(value));
    }

    method AddInt32(tag: u32, value: int)
      requires Valid() && -0x8000_0000 <= value < 0x8000_0000
      modifies this
      ensures Valid() && items == old(items) + [Leaf(tag, Int32Type, Int(value))]
    {
      hide EncodedField, Encode, AllSound;
      ReserveSuffices(RawField(tag, ToPayload(Int32Type, Int(value)).value));
      AddScalar(TAG_MAX + VARINT_MAX, tag, Int32Type, Int(value));
    }

    method AddInt64(tag: u32, value: i64)
      requires Valid()
      modifies this
      ensures Valid() && items == old(items) + [Leaf(tag, Int64Type, Int(value))]
    {
      hide EncodedField, Encode, AllSound;
      ReserveSuffices(RawField(tag, ToPayload(Int64Type, Int(value)).value));
      AddScalar(TAG_MAX + VARINT_MAX, tag, Int64Type, Int(value));
    }

    method AddUint32(tag: u32, value: u32)
      requires Valid()
      modifies this
      ensures Valid() && items == old(items) + [Leaf(tag, Uint32Type, Uint(value))]
    {
      hide EncodedField, Encode, AllSound;
      ReserveSuffices(RawField(tag, ToPayload(Uint32Type, Uint(value)).value));
      AddScalar(TAG_MAX + VARINT_MAX, tag, Uint32Type, Uint(value));
    }

    method AddUint64(tag: u32, value: u64)
      requires Valid()
      modifies this
      ensures Valid() && items == old(items) + [Leaf(tag, Uint64Type, Uint(value))]
    {
      hide EncodedField, Encode, AllSound;
      ReserveSuffices(RawField(tag, ToPayload(Uint64Type, Uint(value)).value));
      AddScalar(TAG_MAX + VARINT_MAX, tag, Uint64Type, Uint(value));
    }

    method AddSint32(tag: u32, value: int)
      requires Valid() && -0x8000_0000 <= value < 0x8000_0000
      modifies this
      ensures Valid() && items == old(items) + [Leaf(tag, Sint32Type, Int(value))]
    {
      hide EncodedField, Encode, AllSound;
      ReserveSuffices(RawField(tag, ToPayload(Sint32Type, Int(value)).value));
      AddScalar(TAG_MAX + VARINT_MAX, tag, Sint32Type, Int(value));
    }

    method AddSint64(tag: u32, value: i64)
      requires Valid()
      modifies this
      ensures Valid() && items == old(items) + [Leaf(tag, Sint64Type, Int(value))]
    {
      hide EncodedField, Encode, AllSound;
      ReserveSuffices(RawField(tag, ToPayload(Sint64Type, Int(value)).value));
      AddScalar(TAG_MAX + VARINT_MAX, tag, Sint64Type, Int(value));
    }

    method AddFloat(tag: u32, bits: u32)
      requires Valid()
      modifies this
      ensures Valid() && items == old(items) + [Leaf(tag, FloatType, Float(bits))]
    {
      hide EncodedField, Encode, AllSound;
      ReserveSuffices(RawField(tag, ToPayload(FloatType, Float(bits)).value));
      AddScalar(TAG_MAX + 4, tag, FloatType, Float(bits));
    }

    method AddString(tag: u32, value: Blob)
      requires Valid() && |value| < LENGTH_LIMIT
      modifies this
      ensures Valid() && items == old(items) + [Leaf(tag, StringType, Str(value))]
    {
      hide EncodedField, Encode, AllSound;
      ReserveSuffices(RawField(tag, ToPayload(StringType, Str(value)).value));
      AddScalar(TAG_MAX + LENGTH_PREFIX_MAX + |value|, tag, StringType, Str(value));
    }

    method AddBytes(tag: u32, value: Blob)
      requires Valid() && |value| < LENGTH_LIMIT
      modifies this
      ensures Valid() && items == old(items) + [Leaf(tag, BytesType, Bin(value))]
    {
      hide EncodedField, Encode, AllSound;
      ReserveSuffices(RawField(tag, ToPayload(BytesType, Bin(value)).value));
      AddScalar(TAG_MAX + LENGTH_PREFIX_MAX + |value|, tag, BytesType, Bin(value));
    }

    /** The nested message's bytes are copied while this buffer grows, so it must be another message. */
    method AddMessage(tag: u32, nested: DynamicMessage)
      requires Valid()
      requires nested != this && nested.Valid() && |nested.buf| < LENGTH_LIMIT
      modifies this
      ensures Valid() && items == old(items) + [Nested(tag, nested.items)]
    {
      hide EncodedField, Encode, AllSound;
      var field := RawField(tag, Delimited(nested.buf));
      ReserveSuffices(field);
      EncodeInto(TAG_MAX + LENGTH_PREFIX_MAX + |nested.buf|, Nested(tag, nested.items), field);
    }
  }

  // ----- The reader

  /** ProtoVarInt::parse with the remaining size cast to 32 bits. */
  function NarrowRead(s: seq<byte>): V.Parsed {
    V.Read(s[..|s| % TWO32])
  }

  /** The cast only rejects: exactly those varints that do not end within the remaining size modulo 2^32. */
  lemma NarrowReadIsRead(s: seq<byte>)
    ensures NarrowRead(s).Parsed? <==> V.Read(s).Parsed? && V.Read(s).consumed <= |s| % TWO32
    ensures NarrowRead(s).Parsed? ==> NarrowRead(s) == V.Read(s)
    ensures |s| < TWO32 ==> NarrowRead(s) == V.Read(s)
  {
    V.ScanPrefix(s, |s| % TWO32, 10);
    if |s| < TWO32 {
      assert s[..|s| % TWO32] == s;
    }
  }

  predicate Overhangs(s: seq<byte>) {
    V.Read(s).Parsed? && V.Read(s).consumed > |s| % TWO32
  }

  /** The tag, or the varint behind it, is cut off by the cast; only possible with 4 GiB or more. */
  predicate CutOff(s: seq<byte>) {
    V.Read(s).Parsed? &&
    (Overhangs(s)
     || ((V.Read(s).value % 8 == WIRE_VARINT || V.Read(s).value % 8 == WIRE_LEN) && Overhangs(s[V.Read(s).consumed..])))
  }

  lemma ShortIsNotCutOff(s: seq<byte>)
    requires |s| < TWO32
    ensures !CutOff(s)
  {}

  class DynamicReader {
    const data: Blob
    var cur: nat
    var error: bool

    constructor (data: Blob)
      ensures this.data == data && cur == 0 && !error
    {
      this.data := data;
      cur, error := 0, false;
    }

    /** The next field, which is the one at cur; none at the end, after an error, or, with the error flag set, if
        the bytes at cur are malformed or a varint there is cut off by the 32-bit size. */
    method Next() returns (f: Option<RawField>)
      requires cur <= |data|
      modifies this
      ensures old(cur) <= cur <= |data|
      ensures old(error) || old(cur) == |data| ==> f.None? && cur == old(cur) && error == old(error)
      ensures f.Some? ==> !error && ReadField(data[old(cur)..]) == Ok((f.value, cur - old(cur)))
      ensures f.None? && old(cur) < |data| ==> error
      ensures !old(error) && old(cur) < |data| ==>
                (f.Some? <==> ReadField(data[old(cur)..]).Ok? && !CutOff(data[old(cur)..]))
    {
      hide V.Read, FromLe32, NarrowRead;
      if error || cur >= |data| {
        return None;
      }
      ghost var rest := data[cur..];
      NarrowReadIsRead(data[cur..]);
      var key := NarrowRead(data[cur..]);
      if key.Malformed? {
        error := true;
        return None;
      }
      cur := cur + key.consumed;
      assert data[cur..] == rest[key.consumed..];
      var wire, tag := key.value % 8, key.value / 8 % TWO32;
      NarrowReadIsRead(data[cur..]);
      if wire == WIRE_VARINT {
        var v := NarrowRead(data[cur..]);
        if v.Malformed? {
          error := true;
          return None;
        }
        cur := cur + v.consumed;
        return Some(RawField(tag, Number(v.value)));
      } else if wire == WIRE_LEN {
        var len := NarrowRead(data[cur..]);
        if len.Malformed? {
          error := true;
          return None;
        }
        ghost var at := data[cur..];
        cur := cur + len.consumed;
        if len.value > |data| - cur {
          error := true;
          return None;
        }
        assert data[cur..cur + len.value] == at[len.consumed..len.consumed + len.value];
        f := Some(RawField(tag, Delimited(data[cur..cur + len.value])));
        cur := cur + len.value;
      } else if wire == WIRE_FIXED32 {
        if |data| - cur < 4 {
          error := true;
          return None;
        }
        assert data[cur..cur + 4] == data[cur..][..4];
        f := Some(RawField(tag, Fixed(FromLe32(data[cur..cur + 4]))));
        cur := cur + 4;
      } else {
        error := true;
        return None;
      }
    }

    /** The documented way to read: next() until there is none, then error(). */
    method ReadToEnd() returns (fields: seq<RawField>)
      requires cur == 0 && !error
      modifies this
      ensures !error ==> ReadFields(data) == Ok(fields) && cur == |data|
      ensures error ==> |data| >= TWO32 || ReadFields(data).Err?
    {
      hide ReadField, CutOff;
      fields := [];
      assert data[0..] == data;
      assert ReadFields(data).Ok? ==> [] + ReadFields(data).value == ReadFields(data).value;
      while true
        invariant cur <= |data| && !error
        invariant ReadFields(data) == Prepend(fields, ReadFields(data[cur..]))
        decreases |data| - cur
      {
        ghost var rest := data[cur..];
        ReadOn(fields, rest);
        if |data| < TWO32 {
          ShortIsNotCutOff(rest);
        }
        ghost var was := cur;
        var f := Next();
        if f.None? {
          break;
        }
        fields := fields + [f.value];
        assert rest[cur - was..] == data[cur..];
      }
    }
  }

  ghost function Prepend(front: seq<RawField>, r: Result<seq<RawField>, ProtoError>):
    Result<seq<RawField>, ProtoError>
  {
    match r
    case Ok(fs) => Ok(front + fs)
    case Err(e) => Err(e)
  }

  /** One more field read in front of the rest. */
  lemma ReadOn(front: seq<RawField>, rest: Blob)
    ensures rest == [] ==> Prepend(front, ReadFields(rest)) == Ok(front)
    ensures rest != [] && ReadField(rest).Err? ==> ReadFields(rest).Err?
    ensures rest != [] && ReadField(rest).Ok? ==>
              var (f, n) := ReadField(rest).value;
              Prepend(front, ReadFields(rest)) == Prepend(front + [f], ReadFields(rest[n..]))
  {
    hide ReadField;
    assert front + [] == front;
    if rest != [] && ReadField(rest).Ok? {
      var (f, n) := ReadField(rest).value;
      if ReadFields(rest[n..]).Ok? {
        assert front + ([f] + ReadFields(rest[n..]).value) == front + [f] + ReadFields(rest[n..]).value;
      }
    }
  }

  /** as_message: a reader over a length-delimited field's bytes; null stands for false. */
  method AsMessage(f: RawField) returns (r: DynamicReader?)
    ensures r == null <==> !f.payload.Delimited?
    ensures r != null ==> fresh(r) && r.data == f.payload.data && r.cur == 0 && !r.error
  {
    match f.payload
    case Delimited(data) => r := new DynamicReader(data);
    case _ => r := null;
  }
}
