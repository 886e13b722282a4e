/** Message schemas and their validation (bridges/mqtt-go/schema.go, components/mpubsub/proto_emitter.py). */
module Schemas {
  import opened Octets
  import opened Outcomes

  /** A string as its UTF-8 bytes, one character a byte. */
  type Text = t: string | forall i :: 0 <= i < |t| ==> t[i] < 256 as char

  datatype FieldType =
    | BoolType | Int32Type | Int64Type | Uint32Type | Uint64Type | Sint32Type | Sint64Type
    | FloatType | StringType | BytesType
    | OtherType(spelling: Text)

  function TypeName(t: FieldType): Text {
    match t
    case BoolType => "bool"
    case Int32Type => "int32"
    case Int64Type => "int64"
    case Uint32Type => "uint32"
    case Uint64Type => "uint64"
    case Sint32Type => "sint32"
    case Sint64Type => "sint64"
    case FloatType => "float"
    case StringType => "string"
    case BytesType => "bytes"
    case OtherType(s) => s
  }

  datatype SchemaField = SchemaField(name: Text, typ: FieldType, tag: u32, repeated: bool)

  /** A schema with what NewSchema computes: indices by tag and by name, and the SCHEMA_ID. */
  datatype Schema = Schema(
    id: Text, fields: seq<SchemaField>, byTag: map<u32, nat>, byName: map<Text, nat>, sid: u16)

  datatype SchemaError =
    | EmptyId | NoFields | TagOutOfRange | TagReserved | DuplicateTag | DuplicateName | UnknownType

  predicate ValidTag(tag: u32) {
    1 <= tag <= 536870911 && !(19000 <= tag <= 19999)
  }

  predicate ValidField(f: SchemaField) {
    ValidTag(f.tag) && !f.typ.OtherType?
  }

  predicate Distinct(fields: seq<SchemaField>) {
    forall i, j :: 0 <= i < j < |fields| ==> fields[i].tag != fields[j].tag && fields[i].name != fields[j].name
  }

  /** The field lists that become schemas. */
  predicate ValidFields(fields: seq<SchemaField>) {
    (forall i :: 0 <= i < |fields| ==> ValidField(fields[i])) && Distinct(fields)
  }

  /** The tags are those whose key, with any wire type, fits 32 bits, but for the thousand that proto3 reserves. */
  lemma TagLimits(tag: u32)
    ensures ValidTag(tag) <==> tag != 0 && 8 * tag + 7 < 0x1_0000_0000 && tag / 1000 != 19
  {}

  ghost predicate TagsIndexed(fields: seq<SchemaField>, byTag: map<u32, nat>) {
    && (forall i :: 0 <= i < |fields| ==> fields[i].tag in byTag && byTag[fields[i].tag] == i)
    && (forall t :: t in byTag ==> byTag[t] < |fields| && fields[byTag[t]].tag == t)
  }

  ghost predicate NamesIndexed(fields: seq<SchemaField>, byName: map<Text, nat>) {
    && (forall i :: 0 <= i < |fields| ==> fields[i].name in byName && byName[fields[i].name] == i)
    && (forall n :: n in byName ==> byName[n] < |fields| && fields[byName[n]].name == n)
  }

  /** The tables agree with the fields. */
  ghost predicate Indexed(s: Schema) {
    TagsIndexed(s.fields, s.byTag) && NamesIndexed(s.fields, s.byName)
  }

  ghost predicate ValidSchema(s: Schema) {
    s.id != "" && s.fields != [] && ValidFields(s.fields) && Indexed(s)
  }

  lemma IndexedExtends(id: Text, fields: seq<SchemaField>, i: nat, byTag: map<u32, nat>, byName: map<Text, nat>)
    requires i < |fields| && ValidFields(fields[..i]) && ValidField(fields[i])
    requires Indexed(Schema(id, fields[..i], byTag, byName, 0)) && fields[i].tag !in byTag && fields[i].name !in byName
    ensures ValidFields(fields[..i + 1])
    ensures Indexed(Schema(id, fields[..i + 1], byTag[fields[i].tag := i], byName[fields[i].name := i], 0))
  {
    hide ValidField, TagsIndexed, NamesIndexed;
    assert fields[..i + 1] == fields[..i] + [fields[i]];
    TagsExtend(fields[..i], byTag, fields[i]);
    NamesExtend(fields[..i], byName, fields[i]);
  }

  lemma TagsExtend(fields: seq<SchemaField>, byTag: map<u32, nat>, f: SchemaField)
    requires TagsIndexed(fields, byTag) && f.tag !in byTag
    ensures TagsIndexed(fields + [f], byTag[f.tag := |fields|])
    ensures forall i :: 0 <= i < |fields| ==> fields[i].tag != f.tag
  {}

  lemma NamesExtend(fields: seq<SchemaField>, byName: map<Text, nat>, f: SchemaField)
    requires NamesIndexed(fields, byName) && f.name !in byName
    ensures NamesIndexed(fields + [f], byName[f.name := |fields|])
    ensures forall i :: 0 <= i < |fields| ==> fields[i].name != f.name
  {}

  lemma NothingIndexed(id: Text, fields: seq<SchemaField>)
    requires fields == []
    ensures ValidFields(fields) && Indexed(Schema(id, fields, map[], map[], 0))
  {}

  /** A field already indexed makes the list not distinct. */
  lemma DuplicateFound(id: Text, fields: seq<SchemaField>, i: nat, byTag: map<u32, nat>, byName: map<Text, nat>)
    requires i < |fields| && Indexed(Schema(id, fields[..i], byTag, byName, 0))
    requires fields[i].tag in byTag || fields[i].name in byName
    ensures !Distinct(fields)
  {
    var j := if fields[i].tag in byTag then byTag[fields[i].tag] else byName[fields[i].name];
    assert fields[..i][j] == fields[j];
  }

  /** A field as proto_emitter.py has it: the tag is any integer. */
  datatype EmitterField = EmitterField(name: Text, typ: FieldType, tag: int, repeated: bool)

  /** The same field for NewSchema, whose tags have 32 bits. */
  function Narrowed(fields: seq<EmitterField>): (r: seq<SchemaField>)
    requires forall i :: 0 <= i < |fields| ==> 0 <= fields[i].tag < TWO32
    ensures |r| == |fields|
    ensures forall i :: 0 <= i < |fields| ==>
      r[i] == SchemaField(fields[i].name, fields[i].typ, fields[i].tag, fields[i].repeated)
  {
    seq(|fields|, i requires 0 <= i < |fields| =>
      SchemaField(fields[i].name, fields[i].typ, fields[i].tag, fields[i].repeated))
  }

  /** validate of proto_emitter.py: no exception exactly for 32-bit tags and fields that NewSchema accepts. */
  method Validate(id: Text, fields: seq<EmitterField>) returns (ok: bool)
    ensures ok <==> id != "" && fields != [] && (forall i :: 0 <= i < |fields| ==> 0 <= fields[i].tag < TWO32)
                    && ValidFields(Narrowed(fields))
  {
    if id == "" || |fields| == 0 {
      return false;
    }
    var seenTags: set<int>, seenNames: set<Text> := {}, {};
    for i := 0 to |fields|
      invariant forall j :: 0 <= j < i ==> 0 <= fields[j].tag < TWO32
      invariant ValidFields(Narrowed(fields[..i]))
      invariant forall t :: t in seenTags <==> exists j :: 0 <= j < i && fields[j].tag == t
      invariant forall n :: n in seenNames <==> exists j :: 0 <= j < i && fields[j].name == n
    {
      var f := fields[i];
      if !(1 <= f.tag <= 536870911) {
        TagTooFar(fields, i);
        return false;
      }
      if 19000 <= f.tag <= 19999 {
        return false;
      }
      if f.tag in seenTags {
        return false;
      }
      seenTags := seenTags + {f.tag};
      if f.name in seenNames {
        return false;
      }
      seenNames := seenNames + {f.name};
      if f.typ.OtherType? {
        return false;
      }
      NarrowedMore(fields, i);
    }
    assert fields[..|fields|] == fields;
    ok := true;
  }

  lemma TagTooFar(fields: seq<EmitterField>, i: nat)
    requires i < |fields| && !(1 <= fields[i].tag <= 536870911)
    ensures (forall j :: 0 <= j < |fields| ==> 0 <= fields[j].tag < TWO32) ==> !ValidFields(Narrowed(fields))
  {
    if forall j :: 0 <= j < |fields| ==> 0 <= fields[j].tag < TWO32 {
      assert !ValidField(Narrowed(fields)[i]);
    }
  }

  lemma NarrowedMore(fields: seq<EmitterField>, i: nat)
    requires i < |fields| && forall j :: 0 <= j <= i ==> 0 <= fields[j].tag < TWO32
    ensures Narrowed(fields[..i + 1])
         == Narrowed(fields[..i]) + [SchemaField(fields[i].name, fields[i].typ, fields[i].tag, fields[i].repeated)]
  {}

  /** The field that byTag finds. */
  function FieldFor(s: Schema, tag: u32): (r: Option<SchemaField>)
    requires tag in s.byTag ==> s.byTag[tag] < |s.fields|
  {
    if tag in s.byTag then Some(s.fields[s.byTag[tag]]) else None
  }
}
