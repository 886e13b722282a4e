/** The bridge's protobuf codec and the firmware's schema-less messages put the same bytes on the wire: each reads what
    the other writes. */
module WireAgreement {
  import opened Octets
  import opened Outcomes
  import opened ProtoWire
  import opened ProtoValues
  import opened ProtoCodec
  import opened ProtoTheorems
  import opened ProtoRoundTrip
  import opened Schemas
  import opened DynamicMessages

  // ----- The bridge reads a DynamicMessage

  /** The scalar that an item is to a schema; a nested message is its bytes. */
  function ScalarOf(item: Item): Scalar
    requires Sound(item)
  {
    match item
    case Leaf(_, _, v) => v
    case Nested(_, items) => Bin(Encode(items))
  }

  /** An item for a known field was added with the field's type, a nested message for a bytes field. */
  ghost predicate Declared(s: Schema, item: Item)
    requires ValidSchema(s)
  {
    match FieldFor(s, item.tag)
    case None => true
    case Some(f) => f.typ == if item.Leaf? then item.typ else BytesType
  }

  ghost function Stored(s: Schema, item: Item, out: Values): Values
    requires ValidSchema(s) && Sound(item)
  {
    match FieldFor(s, item.tag)
    case None => out
    case Some(f) => Store(f, ScalarOf(item), out)
  }

  /** The values of the known fields among items: the last one for a singular field, all in order for a repeated one. */
  ghost function StoredAll(s: Schema, items: seq<Item>, out: Values): Values
    requires ValidSchema(s) && AllSound(items)
    decreases |items|
  {
    if items == [] then out else StoredAll(s, items[1..], Stored(s, items[0], out))
  }

  lemma ItemApplies(s: Schema, item: Item, out: Values)
    requires ValidSchema(s) && Sound(item) && Declared(s, item)
    ensures Fits(s, Raw(item)) && Apply(s, Raw(item), out) == Stored(s, item, out)
  {
    hide ValidSchema, Store, Encode, AllSound;
    match item
    case Leaf(_, t, v) =>
      InRangeEncodes(t, v);
      PayloadRoundTrip(t, v);
      NormalIffInRange(t, v);
      hide ToPayload, FromPayload, InRange, Normal;
    case Nested(_, _) =>
  }

  lemma {:induction false} ItemsApply(s: Schema, items: seq<Item>, out: Values)
    requires ValidSchema(s) && AllSound(items) && forall i :: 0 <= i < |items| ==> Declared(s, items[i])
    ensures AllFit(s, Raws(items)) && ApplyAll(s, Raws(items), out) == StoredAll(s, items, out)
    decreases |items|
  {
    hide ValidSchema, Fits, Apply, Stored, Sound, Raw, Declared;
    if items != [] {
      ItemApplies(s, items[0], out);
      assert Raws(items)[1..] == Raws(items[1..]);
      ItemsApply(s, items[1..], Stored(s, items[0], out));
      assert forall i :: 1 <= i < |items| ==> Raws(items)[i] == Raws(items[1..])[i - 1];
    }
  }

  /** DecodeProto accepts every message whose items for known fields have the declared types, and returns their
      values. */
  lemma DynamicMessageDecodes(s: Schema, items: seq<Item>)
    requires ValidSchema(s) && AllSound(items) && |Encode(items)| <= MAX_LEN
    requires forall i :: 0 <= i < |items| ==> Declared(s, items[i])
    ensures Decoded(s, Encode(items)) == Ok(StoredAll(s, items, map[]))
  {
    hide ValidSchema, AllFit, ApplyAll, StoredAll, Declared, ReadFields, AllSound;
    EncodeIsFields(items);
    ReadFieldsEncoded(Raws(items));
    ItemsApply(s, items, map[]);
    DecodeFactors(s, Encode(items), map[]);
  }

  /** A field that is there twice: the last value of a singular one, both of a repeated one. */
  lemma LastOneWins(s: Schema, f: SchemaField, a: Scalar, b: Scalar)
    requires ValidSchema(s) && f in s.fields && InRange(f.typ, a) && InRange(f.typ, b)
    requires |Encode([Leaf(f.tag, f.typ, a), Leaf(f.tag, f.typ, b)])| <= MAX_LEN
    ensures Decoded(s, Encode([Leaf(f.tag, f.typ, a), Leaf(f.tag, f.typ, b)]))
         == Ok(map[f.name := if f.repeated then List([a, b]) else Single(b)])
  {
    var x, y := Leaf(f.tag, f.typ, a), Leaf(f.tag, f.typ, b);
    LeafKnown(s, f, a);
    LeafKnown(s, f, b);
    hide ValidSchema, FieldFor, InRange, Encode, Stored, Declared, Sound, Decoded, Store, StoredAll;
    StoredTwo(s, x, y);
    DynamicMessageDecodes(s, [x, y]);
    StoredLeaf(s, f, a, map[]);
    StoredLeaf(s, f, b, Store(f, a, map[]));
    StoreTwice(f, a, b);
  }

  lemma StoreTwice(f: SchemaField, a: Scalar, b: Scalar)
    ensures Store(f, b, Store(f, a, map[])) == map[f.name := if f.repeated then List([a, b]) else Single(b)]
  {
    assert [] + [a] == [a] && [a] + [b] == [a, b];
  }

  lemma LeafKnown(s: Schema, f: SchemaField, v: Scalar)
    requires ValidSchema(s) && f in s.fields && InRange(f.typ, v)
    ensures FieldFor(s, f.tag) == Some(f) && Sound(Leaf(f.tag, f.typ, v)) && Declared(s, Leaf(f.tag, f.typ, v))
  {
    FieldForMember(s, f);
    hide ValidSchema, FieldFor, InRange;
  }

  lemma StoredLeaf(s: Schema, f: SchemaField, v: Scalar, out: Values)
    requires ValidSchema(s) && FieldFor(s, f.tag) == Some(f) && Sound(Leaf(f.tag, f.typ, v))
    ensures Stored(s, Leaf(f.tag, f.typ, v), out) == Store(f, v, out)
  {
    hide ValidSchema, FieldFor, Sound, Store;
  }

  lemma StoredTwo(s: Schema, x: Item, y: Item)
    requires ValidSchema(s) && Sound(x) && Sound(y)
    ensures AllSound([x, y]) && StoredAll(s, [x, y], map[]) == Stored(s, y, Stored(s, x, map[]))
  {
    hide ValidSchema, Sound, Stored;
    assert [x, y][1..] == [y] && [y][1..] == [];
    assert StoredAll(s, [], Stored(s, y, Stored(s, x, map[]))) == Stored(s, y, Stored(s, x, map[]));
    assert StoredAll(s, [y], Stored(s, x, map[])) == Stored(s, y, Stored(s, x, map[]));
  }

  // ----- The firmware reads what EncodeProto writes

  function ListItems(f: SchemaField, elems: seq<Scalar>): (items: seq<Item>)
    ensures |items| == |elems| && forall i :: 0 <= i < |elems| ==> items[i] == Leaf(f.tag, f.typ, elems[i])
  {
    seq(|elems|, i requires 0 <= i < |elems| => Leaf(f.tag, f.typ, elems[i]))
  }

  function FieldItems(f: SchemaField, values: Values): seq<Item> {
    if f.name !in values then []
    else match values[f.name]
      case Single(v) => [Leaf(f.tag, f.typ, v)]
      case List(elems) => ListItems(f, elems)
  }

  /** The add calls that a value map amounts to, in schema order. */
  function AllItems(fields: seq<SchemaField>, values: Values): seq<Item> {
    if fields == [] then []
    else AllItems(fields[..|fields| - 1], values) + FieldItems(fields[|fields| - 1], values)
  }

  lemma RawsConcat(a: seq<Item>, b: seq<Item>)
    requires AllSound(a) && AllSound(b)
    ensures AllSound(a + b) && Raws(a + b) == Raws(a) + Raws(b)
  {
    hide Sound, Raw;
  }

  lemma LeafWritten(tag: u32, t: FieldType, v: Scalar)
    requires InRange(t, v)
    ensures !t.OtherType? && ToPayload(t, v).Ok? && AllSound([Leaf(tag, t, v)])
    ensures Raws([Leaf(tag, t, v)]) == [RawField(tag, ToPayload(t, v).value)]
  {
    InRangeEncodes(t, v);
    hide ToPayload;
  }

  lemma {:induction false} ListItemsWritten(f: SchemaField, elems: seq<Scalar>)
    requires forall i :: 0 <= i < |elems| ==> InRange(f.typ, elems[i])
    ensures AllSound(ListItems(f, elems)) && ListRaws(f, elems) == Ok(Raws(ListItems(f, elems)))
    decreases |elems|
  {
    hide InRange, ToPayload, Raws, AllSound;
    if elems == [] {
      NothingWritten();
    } else {
      var front, v := elems[..|elems| - 1], elems[|elems| - 1];
      ListItemsWritten(f, front);
      LeafWritten(f.tag, f.typ, v);
      assert ListItems(f, elems) == ListItems(f, front) + [Leaf(f.tag, f.typ, v)];
      RawsConcat(ListItems(f, front), [Leaf(f.tag, f.typ, v)]);
    }
  }

  lemma FieldItemsWritten(f: SchemaField, values: Values)
    requires f.name in values ==> TypedValue(f, values[f.name])
    ensures AllSound(FieldItems(f, values)) && FieldRaws(f, values) == Ok(Raws(FieldItems(f, values)))
  {
    hide InRange, ToPayload, Raws, AllSound;
    NothingWritten();
    if f.name in values {
      match values[f.name]
      case Single(v) => LeafWritten(f.tag, f.typ, v);
      case List(elems) => ListItemsWritten(f, elems); LeafWritten(f.tag, f.typ, elems[0]);
    }
  }

  lemma NothingWritten()
    ensures AllSound([]) && Raws([]) == []
  {}

  lemma {:induction false} AllItemsWritten(s: Schema, k: nat, values: Values)
    requires ValidSchema(s) && Typed(s, values) && k <= |s.fields|
    ensures AllSound(AllItems(s.fields[..k], values))
    ensures AllRaws(s.fields[..k], values) == Ok(Raws(AllItems(s.fields[..k], values)))
    decreases k
  {
    hide FieldItems, FieldRaws, TypedValue, Sound, Raw;
    if k > 0 {
      var f := s.fields[k - 1];
      assert s.fields[..k][..k - 1] == s.fields[..k - 1];
      AllItemsWritten(s, k - 1, values);
      FieldForMember(s, f);
      FieldItemsWritten(f, values);
      RawsConcat(AllItems(s.fields[..k - 1], values), FieldItems(f, values));
    }
  }

  /** EncodeProto's body for a value map is byte for byte the DynamicMessage with the same values added, and a reader
      finds exactly those, in order and without error. */
  lemma EncodedProtoReadsBack(s: Schema, values: Values)
    requires ValidSchema(s) && Typed(s, values)
    ensures AllRaws(s.fields, values).Ok? && AllSound(AllItems(s.fields, values))
    ensures EncodedFields(AllRaws(s.fields, values).value) == Encode(AllItems(s.fields, values))
    ensures |Encode(AllItems(s.fields, values))| <= MAX_LEN ==>
              ReadsBack(Encode(AllItems(s.fields, values)), AllItems(s.fields, values))
  {
    hide ValidSchema, Typed, AllRaws, AllItems, AllSound, ReadsBack;
    assert s.fields[..|s.fields|] == s.fields;
    AllItemsWritten(s, |s.fields|, values);
    EncodeIsFields(AllItems(s.fields, values));
    if |Encode(AllItems(s.fields, values))| <= MAX_LEN {
      EncodedReadsBack(AllItems(s.fields, values));
    }
  }
}
