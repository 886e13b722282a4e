/** What decoding means: reading the fields without a schema, then storing those the schema knows. From this
    follow forward compatibility and the merge law of the Protocol Buffers encoding guide ("Last One Wins"). */
module ProtoTheorems {
  import opened Octets
  import opened Outcomes
  import opened ProtoWire
  import opened ProtoValues
  import opened ProtoCodec
  import opened Schemas
  import V = Varint

  /** Fields the schema knows must have the wire type of their declared type. */
  ghost predicate Fits(s: Schema, raw: RawField)
    requires ValidSchema(s)
  {
    match FieldFor(s, raw.tag)
    case None => true
    case Some(f) => WireTypeFor(f.typ) == Ok(raw.payload.WireType())
  }

  ghost function Apply(s: Schema, raw: RawField, out: Values): Values
    requires ValidSchema(s) && Fits(s, raw)
  {
    match FieldFor(s, raw.tag)
    case None => out
    case Some(f) => Store(f, FromPayload(f.typ, raw.payload), out)
  }

  ghost predicate AllFit(s: Schema, fs: seq<RawField>)
    requires ValidSchema(s)
  {
    forall i :: 0 <= i < |fs| ==> Fits(s, fs[i])
  }

  /** Store the known fields of fs into out, first to last. */
  ghost function ApplyAll(s: Schema, fs: seq<RawField>, out: Values): Values
    requires ValidSchema(s) && AllFit(s, fs)
    decreases |fs|
  {
    if fs == [] then out else ApplyAll(s, fs[1..], Apply(s, fs[0], out))
  }

  lemma DecodeFromStep(s: Schema, body: Blob, out: Values)
    requires ValidSchema(s) && body != []
    ensures ReadField(body).Err? ==> DecodeFrom(s, body, out).Err?
    ensures ReadField(body).Ok? ==>
              var (raw, n) := ReadField(body).value;
              if Fits(s, raw) then DecodeFrom(s, body, out) == DecodeFrom(s, body[n..], Apply(s, raw, out))
              else DecodeFrom(s, body, out).Err?
  {
    hide V.Read, DecodeValue, SkipField, ReadPayload, Store, FromPayload;
    match V.Read(body)
    case Malformed =>
    case Parsed(key, n) =>
      var rest, wt := body[n..], key % 8;
      SkipIsRead(rest, wt);
      if ReadPayload(rest, wt).Ok? {
        var m := ReadPayload(rest, wt).value.1;
        assert rest[m..] == body[n + m..];
      }
      var f := FieldFor(s, key / 8 % TWO32);
      if f.Some? {
        DecodeIsRead(rest, f.value.typ, wt);
      }
  }

  /** Decoding factors through the schema-less fields: it succeeds exactly when the body reads as fields that
      fit the schema, and its result is those fields stored in order. */
  lemma {:induction false} DecodeFactors(s: Schema, body: Blob, out: Values)
    requires ValidSchema(s)
    ensures DecodeFrom(s, body, out).Ok? <==> ReadFields(body).Ok? && AllFit(s, ReadFields(body).value)
    ensures DecodeFrom(s, body, out).Ok? ==> DecodeFrom(s, body, out).value == ApplyAll(s, ReadFields(body).value, out)
    decreases |body|
  {
    hide ReadField, ValidSchema, Fits, Apply;
    if body != [] {
      DecodeFromStep(s, body, out);
      if ReadField(body).Ok? {
        var (raw, n) := ReadField(body).value;
        if Fits(s, raw) {
          DecodeFactors(s, body[n..], Apply(s, raw, out));
        }
        if ReadFields(body).Ok? {
          var fs := ReadFields(body).value;
          assert fs[0] == raw && fs[1..] == ReadFields(body[n..]).value;
          assert AllFit(s, fs) <==> Fits(s, raw) && AllFit(s, fs[1..]) by {
            assert forall i :: 1 <= i < |fs| ==> fs[i] == fs[1..][i - 1];
          }
        }
      }
    }
  }

  // ----- Forward compatibility

  /** Every field of t is a field of s. */
  ghost predicate SubSchema(t: Schema, s: Schema) {
    ValidSchema(t) && ValidSchema(s) && forall i :: 0 <= i < |t.fields| ==> t.fields[i] in s.fields
  }

  function Restrict(m: Values, t: Schema): Values {
    map n | n in m && n in t.byName :: m[n]
  }

  lemma FieldForSub(t: Schema, s: Schema, tag: u32)
    requires SubSchema(t, s)
    ensures FieldFor(t, tag).Some? ==> FieldFor(s, tag) == FieldFor(t, tag)
    ensures FieldFor(t, tag).Some? ==> FieldFor(t, tag).value.name in t.byName
    ensures FieldFor(t, tag).None? && FieldFor(s, tag).Some? ==> FieldFor(s, tag).value.name !in t.byName
  {
    hide ValidFields;
    if tag in t.byTag {
      MemberIndexed(t.fields[t.byTag[tag]], s);
    } else if tag in s.byTag && s.fields[s.byTag[tag]].name in t.byName {
      var g := t.fields[t.byName[s.fields[s.byTag[tag]].name]];
      MemberIndexed(g, s);
      assert false;
    }
  }

  lemma MemberIndexed(f: SchemaField, s: Schema)
    requires ValidSchema(s) && f in s.fields
    ensures f.tag in s.byTag && s.fields[s.byTag[f.tag]] == f
    ensures f.name in s.byName && s.byName[f.name] == s.byTag[f.tag]
  {
    var j :| 0 <= j < |s.fields| && s.fields[j] == f;
    assert s.byTag[s.fields[j].tag] == j;
  }

  lemma ApplyRestricted(t: Schema, s: Schema, raw: RawField, out: Values)
    requires SubSchema(t, s) && Fits(s, raw)
    ensures Fits(t, raw) && Restrict(Apply(s, raw, out), t) == Apply(t, raw, Restrict(out, t))
  {
    hide ValidSchema, FromPayload, WireTypeFor;
    FieldForSub(t, s, raw.tag);
  }

  lemma {:induction false} ApplyAllRestricted(t: Schema, s: Schema, fs: seq<RawField>, out: Values)
    requires SubSchema(t, s) && AllFit(s, fs)
    ensures AllFit(t, fs) && Restrict(ApplyAll(s, fs, out), t) == ApplyAll(t, fs, Restrict(out, t))
    decreases |fs|
  {
    hide ValidSchema, Fits, Apply;
    if fs != [] {
      ApplyRestricted(t, s, fs[0], out);
      ApplyAllRestricted(t, s, fs[1..], Apply(s, fs[0], out));
      assert forall i :: 1 <= i < |fs| ==> fs[i] == fs[1..][i - 1];
    }
  }

  /** Any body that decodes under a schema decodes under every sub-schema, to exactly the fields that schema knows. */
  lemma DecodeUnderSubSchema(t: Schema, s: Schema, body: Blob)
    requires SubSchema(t, s) && Decoded(s, body).Ok?
    ensures Decoded(t, body) == Ok(Restrict(Decoded(s, body).value, t))
  {
    hide ValidSchema, Fits, Apply;
    DecodeFactors(s, body, map[]);
    DecodeFactors(t, body, map[]);
    ApplyAllRestricted(t, s, ReadFields(body).value, map[]);
    assert Restrict(map[], t) == map[];
  }

  // ----- Concatenation is merge

  /** Singular values of b win; the lists of repeated fields append. */
  function Merge(a: Values, b: Values): Values {
    map n | n in a.Keys + b.Keys ::
      if n in a && n in b && a[n].List? && b[n].List? then List(a[n].elems + b[n].elems)
      else if n in b then b[n] else a[n]
  }

  /** Lists for repeated fields, single values for the others. */
  ghost predicate Shaped(s: Schema, m: Values) {
    forall i :: 0 <= i < |s.fields| && s.fields[i].name in m ==> m[s.fields[i].name].List? == s.fields[i].repeated
  }

  lemma StoreShaped(s: Schema, f: SchemaField, v: Scalar, m: Values)
    requires ValidSchema(s) && f in s.fields && Shaped(s, m)
    ensures Shaped(s, Store(f, v, m))
  {
    forall i | 0 <= i < |s.fields| && s.fields[i].name in Store(f, v, m)
      ensures Store(f, v, m)[s.fields[i].name].List? == s.fields[i].repeated
    {
      if s.fields[i].name == f.name {
        var j :| 0 <= j < |s.fields| && s.fields[j] == f;
        assert i == j by { assert ValidFields(s.fields); }
      }
    }
  }

  lemma StoreMerged(s: Schema, f: SchemaField, v: Scalar, a: Values, b: Values)
    requires f in s.fields && Shaped(s, a) && Shaped(s, b)
    ensures Merge(a, Store(f, v, b)) == Store(f, v, Merge(a, b))
  {
    var j :| 0 <= j < |s.fields| && s.fields[j] == f;
    StoreMergedAt(f, v, a, b);
  }

  lemma StoreMergedAt(f: SchemaField, v: Scalar, a: Values, b: Values)
    requires f.name in a ==> a[f.name].List? == f.repeated
    requires f.name in b ==> b[f.name].List? == f.repeated
    ensures Merge(a, Store(f, v, b)) == Store(f, v, Merge(a, b))
  {
    var l, r := Merge(a, Store(f, v, b)), Store(f, v, Merge(a, b));
    if f.repeated {
      assert Elements(Merge(a, b), f.name) + [v] == Elements(a, f.name) + (Elements(b, f.name) + [v]);
      assert l[f.name] == List(Elements(a, f.name) + (Elements(b, f.name) + [v]));
    }
    assert l[f.name] == r[f.name];
    assert l.Keys == r.Keys;
  }

  lemma {:induction false} ApplyAllMerged(s: Schema, fs: seq<RawField>, a: Values, b: Values)
    requires ValidSchema(s) && AllFit(s, fs) && Shaped(s, a) && Shaped(s, b)
    ensures ApplyAll(s, fs, Merge(a, b)) == Merge(a, ApplyAll(s, fs, b))
    ensures Shaped(s, ApplyAll(s, fs, b))
    decreases |fs|
  {
    hide Merge, Shaped, FromPayload, WireTypeFor, Store;
    if fs != [] {
      var f := FieldFor(s, fs[0].tag);
      if f.Some? {
        var v := FromPayload(f.value.typ, fs[0].payload);
        StoreMerged(s, f.value, v, a, b);
        StoreShaped(s, f.value, v, b);
      }
      assert forall i :: 1 <= i < |fs| ==> fs[i] == fs[1..][i - 1];
      ApplyAllMerged(s, fs[1..], a, Apply(s, fs[0], b));
    }
  }

  lemma {:induction false} ApplyAllConcat(s: Schema, fs: seq<RawField>, gs: seq<RawField>, out: Values)
    requires ValidSchema(s) && AllFit(s, fs) && AllFit(s, gs)
    ensures AllFit(s, fs + gs) && ApplyAll(s, fs + gs, out) == ApplyAll(s, gs, ApplyAll(s, fs, out))
    decreases |fs|
  {
    hide ValidSchema, Fits, Apply;
    if fs == [] {
      assert [] + gs == gs;
    } else {
      assert (fs + gs)[1..] == fs[1..] + gs;
      assert forall i :: 1 <= i < |fs| ==> fs[i] == fs[1..][i - 1];
      ApplyAllConcat(s, fs[1..], gs, Apply(s, fs[0], out));
    }
  }

  /** After a body that decodes, appending another decodes exactly when the other does, to the merge of the two. */
  lemma DecodeConcatMerges(s: Schema, a: Blob, b: Blob)
    requires ValidSchema(s) && |a| + |b| <= MAX_LEN && Decoded(s, a).Ok?
    ensures Decoded(s, a + b).Ok? <==> Decoded(s, b).Ok?
    ensures Decoded(s, b).Ok? ==> Decoded(s, a + b) == Ok(Merge(Decoded(s, a).value, Decoded(s, b).value))
  {
    hide ValidSchema, AllFit, ApplyAll, ReadFields, DecodeFrom, Merge;
    DecodeFactors(s, a, map[]);
    DecodeFactors(s, b, map[]);
    DecodeFactors(s, a + b, map[]);
    ReadFieldsConcat(a, b);
    if ReadFields(b).Ok? {
      if AllFit(s, ReadFields(a).value + ReadFields(b).value) {
        AllFitSuffix(s, ReadFields(a).value, ReadFields(b).value);
      }
      if AllFit(s, ReadFields(b).value) {
        ApplyAllMerges(s, ReadFields(a).value, ReadFields(b).value);
      }
    }
  }

  lemma AllFitSuffix(s: Schema, fa: seq<RawField>, fb: seq<RawField>)
    requires ValidSchema(s) && AllFit(s, fa + fb)
    ensures AllFit(s, fb)
  {
    hide ValidSchema, Fits;
    assert forall i :: 0 <= i < |fb| ==> fb[i] == (fa + fb)[|fa| + i];
  }

  lemma ApplyAllMerges(s: Schema, fa: seq<RawField>, fb: seq<RawField>)
    requires ValidSchema(s) && AllFit(s, fa) && AllFit(s, fb)
    ensures AllFit(s, fa + fb)
    ensures ApplyAll(s, fa + fb, map[]) == Merge(ApplyAll(s, fa, map[]), ApplyAll(s, fb, map[]))
  {
    hide ValidSchema, Fits, Apply, AllFit, ApplyAll;
    ApplyAllConcat(s, fa, fb, map[]);
    var ma := ApplyAll(s, fa, map[]);
    assert Merge(ma, map[]) == ma && Merge(map[], map[]) == map[];
    ApplyAllMerged(s, fa, map[], map[]);
    ApplyAllMerged(s, fb, ma, map[]);
  }
}
