/** EncodeProto of bridges/mqtt-go/proto.go, and decoding what it wrote. */
module ProtoRoundTrip {
  import opened Octets
  import opened Outcomes
  import opened ProtoWire
  import opened ProtoValues
  import opened ProtoCodec
  import opened ProtoTheorems
  import opened Schemas
  import V = Varint

  type Written = Result<seq<RawField>, ProtoError>

  /** The fields written for the elements of a repeated field. */
  function ListRaws(f: SchemaField, elems: seq<Scalar>): Written {
    if elems == [] then Ok([])
    else match ListRaws(f, elems[..|elems| - 1])
      case Err(e) => Err(e)
      case Ok(fs) =>
        match ToPayload(f.typ, elems[|elems| - 1])
        case Err(e) => Err(e)
        case Ok(p) => Ok(fs + [RawField(f.tag, p)])
  }

  function SingleRaws(f: SchemaField, v: Scalar): Written {
    match ToPayload(f.typ, v)
    case Err(e) => Err(e)
    case Ok(p) => Ok([RawField(f.tag, p)])
  }

  lemma SingleIsList(f: SchemaField, v: Scalar)
    ensures ListRaws(f, [v]) == SingleRaws(f, v)
  {
    assert [v][..0] == [] && ListRaws(f, []) == Ok([]);
    if ToPayload(f.typ, v).Ok? {
      assert [] + [RawField(f.tag, ToPayload(f.typ, v).value)] == [RawField(f.tag, ToPayload(f.typ, v).value)];
    }
  }

  /** The fields written for one schema field: none if the values do not have it. */
  function FieldRaws(f: SchemaField, values: Values): Written {
    if f.name !in values then Ok([])
    else if f.typ.OtherType? then Err(NoWireType)
    else match values[f.name]
      case List(elems) => if f.repeated then ListRaws(f, elems) else Err(ValueMismatch)
      case Single(v) => if f.repeated then Err(NotAList) else SingleRaws(f, v)
  }

  /** The fields written for a list of schema fields, in its order. */
  function AllRaws(fields: seq<SchemaField>, values: Values): Written {
    if fields == [] then Ok([])
    else match AllRaws(fields[..|fields| - 1], values)
      case Err(e) => Err(e)
      case Ok(fs) =>
        match FieldRaws(fields[|fields| - 1], values)
        case Err(e) => Err(e)
        case Ok(gs) => Ok(fs + gs)
  }

  /** Fields are written in schema order. */
  lemma {:induction false} WrittenInOrder(a: seq<SchemaField>, b: seq<SchemaField>, values: Values)
    requires AllRaws(a + b, values).Ok?
    ensures AllRaws(a, values).Ok? && AllRaws(b, values).Ok?
    ensures AllRaws(a + b, values).value == AllRaws(a, values).value + AllRaws(b, values).value
    decreases |b|
  {
    hide FieldRaws;
    if b == [] {
      assert a + b == a;
    } else {
      assert (a + b)[..|a + b| - 1] == a + b[..|b| - 1];
      WrittenInOrder(a, b[..|b| - 1], values);
    }
  }

  /** EncodeProto. */
  method EncodeProto(s: Schema, values: Values) returns (r: Result<seq<byte>, ProtoError>)
    ensures r == match AllRaws(s.fields, values) case Ok(fs) => Ok(EncodedFields(fs)) case Err(e) => Err(e)
  {
    hide EncodedFields, ListRaws, ToPayload;
    NothingEncoded();
    var buf: seq<byte> := [];
    ghost var fs: seq<RawField> := [];
    for i := 0 to |s.fields|
      invariant AllRaws(s.fields[..i], values) == Ok(fs) && buf == EncodedFields(fs)
      invariant AllRaws(s.fields, values).Err? || AllRaws(s.fields[..i], values).Ok?
    {
      var f := s.fields[i];
      assert s.fields[..i + 1][..i] == s.fields[..i];
      ErrorStays(s.fields, values, i + 1);
      if f.name !in values {
        assert fs + [] == fs;
        continue;
      }
      var wt := WireTypeFor(f.typ);
      if wt.Err? {
        return Err(wt.error);
      }
      var v := values[f.name];
      if f.repeated {
        if !v.List? {
          return Err(NotAList);
        }
        var out := AppendAll(buf, f, v.elems);
        if out.Err? {
          return Err(out.error);
        }
        buf := out.value;
        EncodedFieldsConcat(fs, ListRaws(f, v.elems).value);
        fs := fs + ListRaws(f, v.elems).value;
        continue;
      }
      if !v.Single? {
        return Err(ValueMismatch);
      }
      SingleIsList(f, v.v);
      var out := AppendAll(buf, f, [v.v]);
      if out.Err? {
        return Err(out.error);
      }
      buf := out.value;
      EncodedFieldsConcat(fs, ListRaws(f, [v.v]).value);
      fs := fs + ListRaws(f, [v.v]).value;
    }
    assert s.fields[..|s.fields|] == s.fields;
    r := Ok(buf);
  }

  /** An error at a prefix is the error of the whole. */
  lemma {:induction false} ErrorStays(fields: seq<SchemaField>, values: Values, k: nat)
    requires k <= |fields|
    ensures AllRaws(fields[..k], values).Err? ==> AllRaws(fields, values) == AllRaws(fields[..k], values)
    decreases |fields|
  {
    if k < |fields| {
      assert fields[..|fields| - 1][..k] == fields[..k];
      ErrorStays(fields[..|fields| - 1], values, k);
    } else {
      assert fields[..k] == fields;
    }
  }

  lemma NothingEncoded()
    ensures EncodedFields([]) == []
  {}

  lemma EncodedFieldsSnoc(fs: seq<RawField>, g: RawField)
    ensures EncodedFields(fs + [g]) == EncodedFields(fs) + EncodedField(g)
  {
    hide EncodedField;
    EncodedFieldsConcat(fs, [g]);
    assert EncodedFields([g]) == EncodedField(g) + EncodedFields([]);
  }

  /** The tag and value of each element, appended in turn. */
  method AppendAll(buf: seq<byte>, f: SchemaField, elems: seq<Scalar>) returns (r: Result<seq<byte>, ProtoError>)
    requires WireTypeFor(f.typ).Ok?
    ensures r == match ListRaws(f, elems) case Ok(fs) => Ok(buf + EncodedFields(fs)) case Err(e) => Err(e)
  {
    hide V.Encoded, EncodedPayload, EncodedFields, ToPayload;
    assert EncodedFields([]) == [] by { NothingEncoded(); }
    var out := buf;
    ghost var fs: seq<RawField> := [];
    for i := 0 to |elems|
      invariant ListRaws(f, elems[..i]) == Ok(fs) && out == buf + EncodedFields(fs)
    {
      assert elems[..i + 1][..i] == elems[..i];
      ListErrorStays(f, elems, i + 1);
      out := V.AppendVarint(out, f.tag * 8 + WireTypeFor(f.typ).value);
      var next := AppendValue(out, f.typ, elems[i]);
      if next.Err? {
        return Err(next.error);
      }
      out := next.value;
      ghost var g := RawField(f.tag, ToPayload(f.typ, elems[i]).value);
      EncodedFieldsSnoc(fs, g);
      fs := fs + [g];
    }
    assert elems[..|elems|] == elems;
    r := Ok(out);
  }

  lemma {:induction false} ListErrorStays(f: SchemaField, elems: seq<Scalar>, k: nat)
    requires k <= |elems|
    ensures ListRaws(f, elems[..k]).Err? ==> ListRaws(f, elems) == ListRaws(f, elems[..k])
    decreases |elems|
  {
    if k < |elems| {
      assert elems[..|elems| - 1][..k] == elems[..k];
      ListErrorStays(f, elems[..|elems| - 1], k);
    } else {
      assert elems[..k] == elems;
    }
  }

  // ----- Decoding what was encoded

  /** What decoding gives back for a list of encodable elements. */
  function Normals(t: FieldType, elems: seq<Scalar>): (r: seq<Scalar>)
    requires forall i :: 0 <= i < |elems| ==> ToPayload(t, elems[i]).Ok?
    ensures |r| == |elems|
  {
    seq(|elems|, i requires 0 <= i < |elems| => Normal(t, elems[i]))
  }

  lemma {:induction false} ListEncodable(f: SchemaField, elems: seq<Scalar>)
    ensures ListRaws(f, elems).Ok? <==> forall i :: 0 <= i < |elems| ==> ToPayload(f.typ, elems[i]).Ok?
    ensures ListRaws(f, elems).Ok? ==>
              |ListRaws(f, elems).value| == |elems| && forall g :: g in ListRaws(f, elems).value ==> g.tag == f.tag
    decreases |elems|
  {
    hide ToPayload;
    if elems != [] {
      ListEncodable(f, elems[..|elems| - 1]);
      assert forall i :: 0 <= i < |elems| - 1 ==> elems[..|elems| - 1][i] == elems[i];
    }
  }

  lemma FieldForMember(s: Schema, f: SchemaField)
    requires ValidSchema(s) && f in s.fields
    ensures FieldFor(s, f.tag) == Some(f) && f.name in s.byName && s.fields[s.byName[f.name]] == f && ValidField(f)
  {
    var i :| 0 <= i < |s.fields| && s.fields[i] == f;
    assert s.byTag[s.fields[i].tag] == i && s.byName[s.fields[i].name] == i;
  }

  /** Storing one written element is storing its normal form. */
  lemma ApplyWritten(s: Schema, f: SchemaField, v: Scalar, out: Values)
    requires ValidSchema(s) && f in s.fields && ToPayload(f.typ, v).Ok?
    ensures Fits(s, RawField(f.tag, ToPayload(f.typ, v).value))
    ensures Apply(s, RawField(f.tag, ToPayload(f.typ, v).value), out) == Store(f, Normal(f.typ, v), out)
  {
    hide ValidSchema, ToPayload, FromPayload, Normal;
    FieldForMember(s, f);
    PayloadRoundTrip(f.typ, v);
  }

  /** Storing the written elements of a repeated field appends their normal forms. */
  lemma {:induction false} ApplyWrittenList(s: Schema, f: SchemaField, elems: seq<Scalar>, out: Values)
    requires ValidSchema(s) && f in s.fields && f.repeated && f.name !in out && ListRaws(f, elems).Ok?
    ensures AllFit(s, ListRaws(f, elems).value)
    ensures forall i :: 0 <= i < |elems| ==> ToPayload(f.typ, elems[i]).Ok?
    ensures ApplyAll(s, ListRaws(f, elems).value, out)
         == if elems == [] then out else out[f.name := List(Normals(f.typ, elems))]
    decreases |elems|
  {
    hide ValidSchema, ToPayload, Normal, Fits, Apply;
    if elems != [] {
      var n := |elems| - 1;
      var fs, g := ListRaws(f, elems[..n]).value, RawField(f.tag, ToPayload(f.typ, elems[n]).value);
      ListEncodable(f, elems);
      ListEncodable(f, elems[..n]);
      ApplyWrittenList(s, f, elems[..n], out);
      var m := ApplyAll(s, fs, out);
      ApplyWritten(s, f, elems[n], m);
      ApplyAllConcat(s, fs, [g], out);
      assert ApplyAll(s, [g], m) == Apply(s, g, m) by { assert [g][1..] == []; }
      assert Normals(f.typ, elems) == Normals(f.typ, elems[..n]) + [Normal(f.typ, elems[n])];
      assert Elements(m, f.name) == Normals(f.typ, elems[..n]);
    }
  }

  /** The value a field has after a round trip, if it has one. */
  function NormalValue(f: SchemaField, values: Values): Option<Value>
    requires FieldRaws(f, values).Ok?
  {
    if f.name !in values then None
    else match values[f.name]
      case Single(v) => Some(Single(Normal(f.typ, v)))
      case List(elems) => ListEncodable(f, elems); if elems == [] then None else Some(List(Normals(f.typ, elems)))
  }

  function With(out: Values, name: Text, v: Option<Value>): Values {
    match v
    case None => out
    case Some(x) => out[name := x]
  }

  lemma ApplyWrittenField(s: Schema, f: SchemaField, values: Values, out: Values)
    requires ValidSchema(s) && f in s.fields && f.name !in out && FieldRaws(f, values).Ok?
    ensures AllFit(s, FieldRaws(f, values).value)
    ensures ApplyAll(s, FieldRaws(f, values).value, out) == With(out, f.name, NormalValue(f, values))
  {
    hide ValidSchema, ToPayload, Normal, Fits, Apply, ApplyAll;
    if f.name in values {
      match values[f.name]
      case List(elems) =>
        ApplyWrittenList(s, f, elems, out);
      case Single(v) =>
        ApplyWritten(s, f, v, out);
        ApplyOne(s, RawField(f.tag, ToPayload(f.typ, v).value), out);
    } else {
      ApplyNone(s, out);
    }
  }

  lemma ApplyOne(s: Schema, g: RawField, out: Values)
    requires ValidSchema(s) && Fits(s, g)
    ensures AllFit(s, [g]) && ApplyAll(s, [g], out) == Apply(s, g, out)
  {
    assert [g][1..] == [];
  }

  lemma ApplyNone(s: Schema, out: Values)
    requires ValidSchema(s)
    ensures AllFit(s, []) && ApplyAll(s, [], out) == out
  {}

  /** What a round trip gives: unknown names and empty lists dropped, values brought into their types' ranges. */
  function Normalised(fields: seq<SchemaField>, values: Values): (m: Values)
    requires AllRaws(fields, values).Ok?
    ensures forall n :: n in m ==> exists i :: 0 <= i < |fields| && fields[i].name == n
  {
    if fields == [] then map[]
    else
      var k := |fields| - 1;
      var m := Normalised(fields[..k], values);
      assert forall i :: 0 <= i < k ==> fields[..k][i] == fields[i];
      With(m, fields[k].name, NormalValue(fields[k], values))
  }

  lemma {:induction false} ApplyWrittenFields(s: Schema, k: nat, values: Values)
    requires ValidSchema(s) && k <= |s.fields| && AllRaws(s.fields[..k], values).Ok?
    ensures AllFit(s, AllRaws(s.fields[..k], values).value)
    ensures ApplyAll(s, AllRaws(s.fields[..k], values).value, map[]) == Normalised(s.fields[..k], values)
    decreases k
  {
    hide ValidSchema, FieldRaws, NormalValue, Fits, Apply, ApplyAll;
    if k == 0 {
      ApplyNone(s, map[]);
    } else {
      var f := s.fields[k - 1];
      assert s.fields[..k][..k - 1] == s.fields[..k - 1] && s.fields[..k][k - 1] == f;
      ApplyWrittenFields(s, k - 1, values);
      var m := Normalised(s.fields[..k - 1], values);
      NewName(s, k - 1, m);
      ApplyWrittenField(s, f, values, m);
      ApplyAllConcat(s, AllRaws(s.fields[..k - 1], values).value, FieldRaws(f, values).value, map[]);
    }
  }

  lemma NewName(s: Schema, k: nat, m: Values)
    requires ValidSchema(s) && k < |s.fields|
    requires forall n :: n in m ==> exists i :: 0 <= i < k && s.fields[..k][i].name == n
    ensures s.fields[k].name !in m
  {
    assert Distinct(s.fields);
  }

  /** Decoding an encoding gives the normalised values, whatever values were encoded. */
  lemma DecodeOfEncode(s: Schema, values: Values)
    requires ValidSchema(s) && AllRaws(s.fields, values).Ok?
    requires |EncodedFields(AllRaws(s.fields, values).value)| <= MAX_LEN
    ensures Decoded(s, EncodedFields(AllRaws(s.fields, values).value)) == Ok(Normalised(s.fields, values))
  {
    hide ValidSchema, Normalised, Fits, Apply, ApplyAll;
    var fs := AllRaws(s.fields, values).value;
    assert s.fields[..|s.fields|] == s.fields;
    ReadFieldsEncoded(fs);
    ApplyWrittenFields(s, |s.fields|, values);
    DecodeFactors(s, EncodedFields(fs), map[]);
  }

  // ----- When a round trip is the identity

  /** A value map of the schema: known names only, right kinds in range, and no empty list. */
  ghost predicate Typed(s: Schema, values: Values)
    requires ValidSchema(s)
  {
    forall n :: n in values ==> n in s.byName && TypedValue(s.fields[s.byName[n]], values[n])
  }

  predicate TypedValue(f: SchemaField, v: Value) {
    match v
    case Single(x) => !f.repeated && InRange(f.typ, x)
    case List(elems) => f.repeated && elems != [] && forall i :: 0 <= i < |elems| ==> InRange(f.typ, elems[i])
  }

  lemma NormalValueIffTyped(f: SchemaField, values: Values)
    requires f.name in values && FieldRaws(f, values).Ok?
    ensures NormalValue(f, values) == Some(values[f.name]) <==> TypedValue(f, values[f.name])
  {
    hide ToPayload, Normal, InRange;
    match values[f.name]
    case Single(v) =>
      NormalIffInRange(f.typ, v);
    case List(elems) =>
      ListEncodable(f, elems);
      var r := Normals(f.typ, elems);
      forall i | 0 <= i < |elems| ensures r[i] == elems[i] <==> InRange(f.typ, elems[i]) {
        NormalIffInRange(f.typ, elems[i]);
      }
      assert r == elems <==> forall i :: 0 <= i < |elems| ==> r[i] == elems[i];
  }

  /** A field's entry in the normalised values. */
  lemma {:induction false} NormalisedAt(s: Schema, k: nat, i: nat, values: Values)
    requires ValidSchema(s) && i < k <= |s.fields| && AllRaws(s.fields[..k], values).Ok?
    ensures FieldRaws(s.fields[i], values).Ok?
    ensures var n := s.fields[i].name;
            var m := Normalised(s.fields[..k], values);
            NormalValue(s.fields[i], values) == if n in m then Some(m[n]) else None
    decreases k
  {
    hide ValidSchema, FieldRaws, NormalValue;
    assert s.fields[..k][..k - 1] == s.fields[..k - 1];
    if i < k - 1 {
      NormalisedAt(s, k - 1, i, values);
      DifferentNames(s, i, k - 1);
    } else {
      NewName(s, k - 1, Normalised(s.fields[..k - 1], values));
    }
  }

  lemma DifferentNames(s: Schema, i: nat, j: nat)
    requires ValidSchema(s) && i < j < |s.fields|
    ensures s.fields[i].name != s.fields[j].name
  {
    assert Distinct(s.fields);
  }

  lemma EntrySurvivesIffTyped(s: Schema, values: Values, n: Text)
    requires ValidSchema(s) && AllRaws(s.fields, values).Ok? && n in values && n in s.byName
    ensures var m := Normalised(s.fields, values);
            (n in m && m[n] == values[n]) <==> TypedValue(s.fields[s.byName[n]], values[n])
  {
    hide FieldRaws, NormalValue, TypedValue;
    assert s.fields[..|s.fields|] == s.fields;
    NormalisedAt(s, |s.fields|, s.byName[n], values);
    NormalValueIffTyped(s.fields[s.byName[n]], values);
  }

  lemma NormalisedNames(s: Schema, values: Values, n: Text)
    requires ValidSchema(s) && AllRaws(s.fields, values).Ok? && n in Normalised(s.fields, values)
    ensures n in s.byName && n in values
  {
    hide FieldRaws, NormalValue;
    var i :| 0 <= i < |s.fields| && s.fields[i].name == n;
    assert s.fields[..|s.fields|] == s.fields;
    NormalisedAt(s, |s.fields|, i, values);
    if n !in values {
      NoValueNoEntry(s.fields[i], values);
    }
  }

  lemma NormalisedIffTyped(s: Schema, values: Values)
    requires ValidSchema(s) && AllRaws(s.fields, values).Ok?
    ensures Normalised(s.fields, values) == values <==> Typed(s, values)
  {
    hide AllRaws, Normalised, TypedValue;
    var m := Normalised(s.fields, values);
    if m == values {
      forall n | n in values ensures n in s.byName && TypedValue(s.fields[s.byName[n]], values[n]) {
        NormalisedNames(s, values, n);
        EntrySurvivesIffTyped(s, values, n);
      }
    }
    if Typed(s, values) {
      forall n | n in values ensures n in m && m[n] == values[n] {
        EntrySurvivesIffTyped(s, values, n);
      }
      forall n | n in m ensures n in values {
        NormalisedNames(s, values, n);
      }
      assert m.Keys == values.Keys;
    }
  }

  /** A round trip returns the values exactly when they are a value map of the schema. */
  lemma RoundTripIffTyped(s: Schema, values: Values)
    requires ValidSchema(s) && AllRaws(s.fields, values).Ok?
    requires |EncodedFields(AllRaws(s.fields, values).value)| <= MAX_LEN
    ensures Decoded(s, EncodedFields(AllRaws(s.fields, values).value)) == Ok(values) <==> Typed(s, values)
  {
    hide AllRaws, Normalised, ValidSchema, Typed, Decoded;
    DecodeOfEncode(s, values);
    NormalisedIffTyped(s, values);
  }

  lemma NoValueNoEntry(f: SchemaField, values: Values)
    requires f.name !in values
    ensures FieldRaws(f, values).Ok? && NormalValue(f, values) == None
  {}

  lemma {:induction false} TypedFieldsEncode(s: Schema, k: nat, values: Values)
    requires ValidSchema(s) && Typed(s, values) && k <= |s.fields|
    ensures AllRaws(s.fields[..k], values).Ok?
    decreases k
  {
    hide ToPayload, InRange;
    if k > 0 {
      var f := s.fields[k - 1];
      assert s.fields[..k][..k - 1] == s.fields[..k - 1];
      TypedFieldsEncode(s, k - 1, values);
      if f.name in values {
        FieldForMember(s, f);
        assert TypedValue(f, values[f.name]);
        match values[f.name]
        case Single(v) => InRangeEncodes(f.typ, v);
        case List(elems) =>
          forall i | 0 <= i < |elems| ensures ToPayload(f.typ, elems[i]).Ok? { InRangeEncodes(f.typ, elems[i]); }
          ListEncodable(f, elems);
      }
    }
  }

  /** Every value map of the schema is encodable. */
  lemma TypedEncodes(s: Schema, values: Values)
    requires ValidSchema(s) && Typed(s, values)
    ensures AllRaws(s.fields, values).Ok?
  {
    assert s.fields[..|s.fields|] == s.fields;
    TypedFieldsEncode(s, |s.fields|, values);
  }
}
