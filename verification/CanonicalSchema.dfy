/** The canonical schema string and the SCHEMA_ID (bridges/mqtt-go/schema.go, components/mpubsub/proto_emitter.py). */
module CanonicalSchema {
  import opened Octets
  import opened Outcomes
  import opened Schemas
  import Crc32

  // ----- Rendering

  function Digit(d: nat): (c: char)
    requires d < 10
    ensures '0' <= c <= '9'
  {
    '0' + d as char
  }

  /** `%d` of a tag. */
  function Decimal(n: nat): (t: Text)
    ensures t != "" && forall i :: 0 <= i < |t| ==> '0' <= t[i] <= '9'
  {
    if n < 10 then [Digit(n)] else Decimal(n / 10) + [Digit(n % 10)]
  }

  function TypeText(f: SchemaField): Text {
    if f.repeated then "repeated " + TypeName(f.typ) else TypeName(f.typ)
  }

  /** `<tag>:[repeated ]<type>:<name>`. */
  function Line(f: SchemaField): Text {
    Decimal(f.tag) + ":" + TypeText(f) + ":" + f.name
  }

  function Lines(fields: seq<SchemaField>): (ls: seq<Text>)
    ensures |ls| == |fields| && forall i :: 0 <= i < |fields| ==> ls[i] == Line(fields[i])
  {
    seq(|fields|, i requires 0 <= i < |fields| => Line(fields[i]))
  }

  // ----- Lexicographic order and sorting

  predicate Before(a: Text, b: Text) {
    a == "" || (b != "" && (a[0] < b[0] || (a[0] == b[0] && Before(a[1..], b[1..]))))
  }

  predicate Sorted(ls: seq<Text>) {
    forall i, j :: 0 <= i < j < |ls| ==> Before(ls[i], ls[j])
  }

  function Insert(l: Text, ls: seq<Text>): (r: seq<Text>)
    ensures multiset(r) == multiset(ls) + multiset{l}
  {
    if ls == [] then [l]
    else if Before(l, ls[0]) then [l] + ls
    else assert ls == [ls[0]] + ls[1..]; [ls[0]] + Insert(l, ls[1..])
  }

  /** sort.Strings. */
  function Sort(ls: seq<Text>): (r: seq<Text>)
    ensures multiset(r) == multiset(ls)
  {
    if ls == [] then [] else assert ls == [ls[0]] + ls[1..]; Insert(ls[0], Sort(ls[1..]))
  }

  /** strings.Join with newlines. */
  function Join(ls: seq<Text>): Text {
    if ls == [] then "" else if |ls| == 1 then ls[0] else ls[0] + "\n" + Join(ls[1..])
  }

  /** canonicalSchemaString. */
  function Canonical(fields: seq<SchemaField>): Text {
    Join(Sort(Lines(fields)))
  }

  /** canonicalSchemaString: fill a slice with the lines, sort it, join it. */
  method CanonicalSchemaString(fields: seq<SchemaField>) returns (r: Text)
    ensures r == Canonical(fields)
  {
    hide Decimal;
    var lines := new Text[|fields|](_ => "");
    for i := 0 to |fields|
      invariant lines[..i] == Lines(fields)[..i]
    {
      var f := fields[i];
      var typ := TypeName(f.typ);
      if f.repeated {
        typ := "repeated " + TypeName(f.typ);
      }
      lines[i] := Decimal(f.tag) + ":" + typ + ":" + f.name;
    }
    assert lines[..] == Lines(fields);
    r := Join(Sort(lines[..]));
  }

  function TextBytes(t: Text): seq<byte> {
    seq(|t|, i requires 0 <= i < |t| => t[i] as int)
  }

  /** computeSchemaID: the low 16 bits of the canonical string's CRC. */
  function SchemaId(fields: seq<SchemaField>): u16 {
    Crc32.Checksum(TextBytes(Canonical(fields))) % TWO16
  }

  /** computeSchemaID. */
  method ComputeSchemaId(fields: seq<SchemaField>) returns (sid: u16)
    ensures sid == SchemaId(fields)
  {
    hide Canonical;
    var text := CanonicalSchemaString(fields);
    var crc := Crc32.TopicCrc32(TextBytes(text));
    sid := (crc as int) % TWO16;
  }

  /** NewSchema: a schema exactly for a non-empty id and valid fields. */
  method NewSchema(id: Text, fields: seq<SchemaField>) returns (r: Result<Schema, SchemaError>)
    ensures r.Ok? <==> id != "" && fields != [] && ValidFields(fields)
    ensures r.Ok? ==> ValidSchema(r.value) && r.value.id == id && r.value.fields == fields
    ensures r.Ok? ==> r.value.sid == SchemaId(fields)
  {
    hide Indexed, Distinct, SchemaId;
    if id == "" {
      return Err(EmptyId);
    }
    if |fields| == 0 {
      return Err(NoFields);
    }
    var byTag: map<u32, nat>, byName: map<Text, nat> := map[], map[];
    NothingIndexed(id, fields[..0]);
    for i := 0 to |fields|
      invariant ValidFields(fields[..i])
      invariant Indexed(Schema(id, fields[..i], byTag, byName, 0))
    {
      var f := fields[i];
      if f.tag < 1 || f.tag > 536870911 {
        return Err(TagOutOfRange);
      }
      if f.tag >= 19000 && f.tag <= 19999 {
        return Err(TagReserved);
      }
      if f.tag in byTag {
        DuplicateFound(id, fields, i, byTag, byName);
        return Err(DuplicateTag);
      }
      if f.name in byName {
        DuplicateFound(id, fields, i, byTag, byName);
        return Err(DuplicateName);
      }
      if f.typ.OtherType? {
        return Err(UnknownType);
      }
      IndexedExtends(id, fields, i, byTag, byName);
      byTag, byName := byTag[f.tag := i], byName[f.name := i];
    }
    assert fields[..|fields|] == fields;
    var sid := ComputeSchemaId(fields);
    SidIsFree(id, fields, byTag, byName, sid);
    r := Ok(Schema(id, fields, byTag, byName, sid));
  }

  lemma SidIsFree(id: Text, fields: seq<SchemaField>, byTag: map<u32, nat>, byName: map<Text, nat>, sid: u16)
    requires Indexed(Schema(id, fields, byTag, byName, 0))
    ensures Indexed(Schema(id, fields, byTag, byName, sid))
  {}

  // ----- Sorting is canonical

  lemma {:induction false} BeforeTotal(a: Text, b: Text)
    ensures Before(a, b) || Before(b, a)
    ensures Before(a, b) && Before(b, a) ==> a == b
    decreases |a|
  {
    if a != "" && b != "" && a[0] == b[0] {
      BeforeTotal(a[1..], b[1..]);
      assert a == [a[0]] + a[1..] && b == [b[0]] + b[1..];
    }
  }

  lemma {:induction false} BeforeTransitive(a: Text, b: Text, c: Text)
    requires Before(a, b) && Before(b, c)
    ensures Before(a, c)
    decreases |a|
  {
    if a != "" && a[0] == b[0] && b[0] == c[0] {
      BeforeTransitive(a[1..], b[1..], c[1..]);
    }
  }

  lemma {:induction false} InsertSorted(l: Text, ls: seq<Text>)
    requires Sorted(ls)
    ensures Sorted(Insert(l, ls))
    decreases |ls|
  {
    if ls != [] {
      BeforeTotal(l, ls[0]);
      if Before(l, ls[0]) {
        forall j | 0 <= j < |ls| ensures Before(l, ls[j]) {
          if j > 0 { BeforeTransitive(l, ls[0], ls[j]); }
        }
      } else {
        InsertSorted(l, ls[1..]);
        var r := Insert(l, ls[1..]);
        forall j | 0 <= j < |r| ensures Before(ls[0], r[j]) {
          assert r[j] in multiset(r);
          if r[j] != l {
            assert r[j] in multiset(ls[1..]);
          }
        }
      }
    }
  }

  lemma {:induction false} SortSorted(ls: seq<Text>)
    ensures Sorted(Sort(ls))
    decreases |ls|
  {
    if ls != [] {
      SortSorted(ls[1..]);
      InsertSorted(ls[0], Sort(ls[1..]));
    }
  }

  lemma HeadAndTail<T>(s: seq<T>)
    requires s != []
    ensures multiset(s) == multiset{s[0]} + multiset(s[1..])
    ensures multiset(s[1..]) == multiset(s) - multiset{s[0]}
  {
    assert s == [s[0]] + s[1..];
  }

  lemma RemoveAt<T>(s: seq<T>, i: nat)
    requires i < |s|
    ensures multiset(s) == multiset{s[i]} + multiset(s[..i] + s[i + 1..])
    ensures multiset(s[..i] + s[i + 1..]) == multiset(s) - multiset{s[i]}
  {
    assert s == s[..i] + [s[i]] + s[i + 1..];
  }

  lemma SameLength<T>(a: seq<T>, b: seq<T>)
    requires multiset(a) == multiset(b)
    ensures |a| == |b|
  {
    assert |multiset(a)| == |a| && |multiset(b)| == |b|;
  }

  lemma InMultiset<T>(a: seq<T>, b: seq<T>)
    requires multiset(a) == multiset(b)
    ensures |a| == |b| && forall x :: x in a <==> x in b
  {
    assert |multiset(a)| == |a| && |multiset(b)| == |b|;
    assert forall x :: x in a <==> x in multiset(a);
    assert forall x :: x in b <==> x in multiset(b);
  }

  /** A sorted arrangement of given lines is unique. */
  lemma {:induction false} SortedUnique(a: seq<Text>, b: seq<Text>)
    requires Sorted(a) && Sorted(b) && multiset(a) == multiset(b)
    ensures a == b
    decreases |a|
  {
    hide Before;
    InMultiset(a, b);
    if a != [] {
      assert a[0] in b && b[0] in a;
      LeastFirst(a, b[0]);
      LeastFirst(b, a[0]);
      BeforeTotal(a[0], b[0]);
      HeadAndTail(a);
      HeadAndTail(b);
      SortedUnique(a[1..], b[1..]);
    }
  }

  lemma LeastFirst(a: seq<Text>, x: Text)
    requires Sorted(a) && x in a
    ensures Before(a[0], x)
  {
    var i :| 0 <= i < |a| && a[i] == x;
    if i == 0 {
      BeforeTotal(x, x);
    }
  }

  /** Where the head of f sits in a permutation of f. */
  lemma FindHead<T>(f: seq<T>, g: seq<T>) returns (i: nat)
    requires f != [] && multiset(f) == multiset(g)
    ensures i < |g| && g[i] == f[0] && multiset(f[1..]) == multiset(g[..i] + g[i + 1..])
  {
    InMultiset(f, g);
    assert f[0] in g;
    i :| 0 <= i < |g| && g[i] == f[0];
    HeadAndTail(f);
    RemoveAt(g, i);
  }

  lemma {:induction false} LinesMultiset(f: seq<SchemaField>, g: seq<SchemaField>)
    requires multiset(f) == multiset(g)
    ensures multiset(Lines(f)) == multiset(Lines(g))
    decreases |f|
  {
    hide Lines, Line;
    SameLength(f, g);
    if f != [] {
      var i := FindHead(f, g);
      var rest := g[..i] + g[i + 1..];
      LinesMultiset(f[1..], rest);
      LinesExtend(f, g, i, rest);
    }
  }

  lemma LinesExtend(f: seq<SchemaField>, g: seq<SchemaField>, i: nat, rest: seq<SchemaField>)
    requires f != [] && i < |g| && g[i] == f[0] && rest == g[..i] + g[i + 1..]
    requires multiset(Lines(f[1..])) == multiset(Lines(rest))
    ensures multiset(Lines(f)) == multiset(Lines(g))
  {
    hide Lines, Line;
    LinesSplit(f, 0);
    LinesSplit(g, i);
    assert f[..0] + f[0 + 1..] == f[1..];
  }

  lemma LinesSplit(f: seq<SchemaField>, i: nat)
    requires i < |f|
    ensures multiset(Lines(f)) == multiset{Line(f[i])} + multiset(Lines(f[..i] + f[i + 1..]))
  {
    hide Line;
    RemoveAt(Lines(f), i);
    assert Lines(f)[..i] + Lines(f)[i + 1..] == Lines(f[..i] + f[i + 1..]);
  }

  /** Declaration order does not matter: every permutation of the fields has the same canonical string. */
  lemma CanonicalOfPermutation(f: seq<SchemaField>, g: seq<SchemaField>)
    requires multiset(f) == multiset(g)
    ensures Canonical(f) == Canonical(g)
  {
    LinesMultiset(f, g);
    SortSorted(Lines(f));
    SortSorted(Lines(g));
    SortedUnique(Sort(Lines(f)), Sort(Lines(g)));
  }

  // ----- The canonical string determines the fields

  /** Two texts that agree around their first separator agree on both sides of it. */
  lemma {:induction false} SplitUnique(a: Text, b: Text, c: Text, d: Text, sep: char)
    requires sep !in a && sep !in c && a + [sep] + b == c + [sep] + d
    ensures a == c && b == d
    decreases |a|
  {
    var l, r := a + [sep] + b, c + [sep] + d;
    if a == "" || c == "" {
      assert l[0] == r[0];
      assert a == c;
      assert l[1..] == b && r[1..] == d;
    } else {
      assert a[0] == l[0] == r[0] == c[0];
      assert l[1..] == a[1..] + [sep] + b && r[1..] == c[1..] + [sep] + d;
      SplitUnique(a[1..], b, c[1..], d, sep);
    }
  }

  lemma DigitInjective(d: nat, e: nat)
    requires d < 10 && e < 10 && Digit(d) == Digit(e)
    ensures d == e
  {
    assert Digit(d) as int == 48 + d && Digit(e) as int == 48 + e;
  }

  lemma {:induction false} DecimalInjective(m: nat, n: nat)
    requires Decimal(m) == Decimal(n)
    ensures m == n
    decreases m
  {
    var s, t := Decimal(m), Decimal(n);
    assert s[|s| - 1] == Digit(m % 10) && t[|t| - 1] == Digit(n % 10);
    DigitInjective(m % 10, n % 10);
    assert s[..|s| - 1] == if m < 10 then "" else Decimal(m / 10);
    assert t[..|t| - 1] == if n < 10 then "" else Decimal(n / 10);
    if m >= 10 && n >= 10 {
      DecimalInjective(m / 10, n / 10);
    }
  }

  lemma TypeNamesDiffer(t: FieldType, u: FieldType)
    requires !t.OtherType? && !u.OtherType? && TypeName(t) == TypeName(u)
    ensures t == u
  {
    var a, b := TypeName(t), TypeName(u);
    assert |a| == |b| && a[0] == b[0] && a[3] == b[3];
    assert |a| >= 5 ==> a[4] == b[4];
  }

  lemma TypeNameShort(t: FieldType)
    requires !t.OtherType?
    ensures 4 <= |TypeName(t)| <= 6
  {}

  lemma TypeTextsDiffer(f: SchemaField, g: SchemaField)
    requires !f.typ.OtherType? && !g.typ.OtherType? && TypeText(f) == TypeText(g)
    ensures f.typ == g.typ && f.repeated == g.repeated
  {
    hide TypeName;
    TypeNameShort(f.typ);
    TypeNameShort(g.typ);
    if f.repeated {
      assert TypeText(f)[9..] == TypeName(f.typ) && TypeText(g)[9..] == TypeName(g.typ);
    }
    TypeNamesDiffer(f.typ, g.typ);
  }

  lemma TypeTextIsPlain(f: SchemaField)
    requires !f.typ.OtherType?
    ensures ':' !in TypeText(f) && '\n' !in TypeText(f)
  {}

  lemma DecimalIsPlain(n: nat)
    ensures ':' !in Decimal(n) && '\n' !in Decimal(n)
  {}

  /** A line names its field. */
  lemma LineInjective(f: SchemaField, g: SchemaField)
    requires !f.typ.OtherType? && !g.typ.OtherType? && Line(f) == Line(g)
    ensures f == g
  {
    hide Decimal, TypeText;
    DecimalIsPlain(f.tag);
    DecimalIsPlain(g.tag);
    TypeTextIsPlain(f);
    TypeTextIsPlain(g);
    assert Line(f) == Decimal(f.tag) + [':'] + (TypeText(f) + [':'] + f.name);
    assert Line(g) == Decimal(g.tag) + [':'] + (TypeText(g) + [':'] + g.name);
    SplitUnique(Decimal(f.tag), TypeText(f) + [':'] + f.name, Decimal(g.tag), TypeText(g) + [':'] + g.name, ':');
    SplitUnique(TypeText(f), f.name, TypeText(g), g.name, ':');
    DecimalInjective(f.tag, g.tag);
    TypeTextsDiffer(f, g);
  }

  lemma {:induction false} JoinInjective(a: seq<Text>, b: seq<Text>)
    requires a != [] && b != [] && Join(a) == Join(b)
    requires (forall l :: l in a ==> '\n' !in l) && (forall l :: l in b ==> '\n' !in l)
    ensures a == b
    decreases |a|
  {
    if |a| == 1 || |b| == 1 {
      JoinOneLine(a);
      JoinOneLine(b);
    } else {
      assert Join(a) == a[0] + ['\n'] + Join(a[1..]);
      assert Join(b) == b[0] + ['\n'] + Join(b[1..]);
      SplitUnique(a[0], Join(a[1..]), b[0], Join(b[1..]), '\n');
      JoinInjective(a[1..], b[1..]);
      assert a == [a[0]] + a[1..] && b == [b[0]] + b[1..];
    }
  }

  lemma JoinOneLine(a: seq<Text>)
    requires a != []
    ensures |a| == 1 ==> Join(a) == a[0]
    ensures |a| > 1 ==> '\n' in Join(a)
  {
    if |a| > 1 {
      assert Join(a)[|a[0]|] == '\n';
    }
  }

  predicate PlainNames(fields: seq<SchemaField>) {
    forall i :: 0 <= i < |fields| ==> '\n' !in fields[i].name
  }

  lemma LinesArePlain(fields: seq<SchemaField>)
    requires ValidFields(fields) && PlainNames(fields)
    ensures forall l :: l in Sort(Lines(fields)) ==> '\n' !in l
  {
    hide Decimal, TypeText;
    InMultiset(Sort(Lines(fields)), Lines(fields));
    forall i | 0 <= i < |fields| ensures '\n' !in Lines(fields)[i] {
      DecimalIsPlain(fields[i].tag);
      TypeTextIsPlain(fields[i]);
    }
  }

  /** For valid fields whose names have no newline, equal canonical strings mean equal sets of fields. */
  lemma CanonicalDeterminesFields(f: seq<SchemaField>, g: seq<SchemaField>)
    requires f != [] && g != [] && ValidFields(f) && ValidFields(g) && PlainNames(f) && PlainNames(g)
    requires Canonical(f) == Canonical(g)
    ensures forall x :: x in f <==> x in g
  {
    hide Line;
    LinesArePlain(f);
    LinesArePlain(g);
    InMultiset(Sort(Lines(f)), Lines(f));
    InMultiset(Sort(Lines(g)), Lines(g));
    JoinInjective(Sort(Lines(f)), Sort(Lines(g)));
    LinesInclude(f, g);
    LinesInclude(g, f);
  }

  lemma LinesInclude(f: seq<SchemaField>, g: seq<SchemaField>)
    requires ValidFields(f) && ValidFields(g) && forall l :: l in Lines(f) ==> l in Lines(g)
    ensures forall x :: x in f ==> x in g
  {
    hide Line;
    forall x | x in f ensures x in g {
      var i :| 0 <= i < |f| && f[i] == x;
      assert Lines(f)[i] in Lines(g);
      var j :| 0 <= j < |g| && Lines(g)[j] == Line(x);
      LineInjective(x, g[j]);
    }
  }

  lemma {:induction false} SameSetSameMultiset(f: seq<SchemaField>, g: seq<SchemaField>)
    requires Distinct(f) && Distinct(g) && forall x :: x in f <==> x in g
    ensures multiset(f) == multiset(g)
    decreases |f|
  {
    hide Distinct;
    if f == [] {
      HeadIsIn(g);
    } else {
      assert f[0] in g;
      var i :| 0 <= i < |g| && g[i] == f[0];
      var h := g[..i] + g[i + 1..];
      RemoveAt(g, i);
      NotTwice(f, 0);
      assert f[..0] + f[0 + 1..] == f[1..];
      NotTwice(g, i);
      assert forall x :: x in f[1..] <==> x in f && x != f[0];
      HeadAndTail(f);
      SameSetSameMultiset(f[1..], h);
    }
  }

  lemma HeadIsIn<T>(g: seq<T>)
    ensures g == [] || g[0] in g
  {}

  lemma NotTwice(g: seq<SchemaField>, i: nat)
    requires Distinct(g) && i < |g|
    ensures forall x :: x in g[..i] + g[i + 1..] <==> x in g && x != g[i]
    ensures Distinct(g[..i] + g[i + 1..])
  {
    var h := g[..i] + g[i + 1..];
    assert forall j :: 0 <= j < |h| ==> h[j] == g[if j < i then j else j + 1];
    forall x | x in g && x != g[i] ensures x in h {
      var j :| 0 <= j < |g| && g[j] == x;
      assert h[if j < i then j else j - 1] == x;
    }
  }

  /** For such fields the canonical string is the same exactly for permutations of one another. */
  lemma CanonicalIffPermutation(f: seq<SchemaField>, g: seq<SchemaField>)
    requires f != [] && g != [] && ValidFields(f) && ValidFields(g) && PlainNames(f) && PlainNames(g)
    ensures Canonical(f) == Canonical(g) <==> multiset(f) == multiset(g)
  {
    hide Canonical;
    if Canonical(f) == Canonical(g) {
      CanonicalDeterminesFields(f, g);
      SameSetSameMultiset(f, g);
    }
    if multiset(f) == multiset(g) {
      CanonicalOfPermutation(f, g);
    }
  }

  // ----- Names with newlines

  lemma LineOfLongerName(x: SchemaField, t: Text)
    ensures Line(x.(name := x.name + t)) == Line(x) + t
  {
    hide Decimal, TypeName;
    var front := Decimal(x.tag) + ":" + TypeText(x) + ":";
    assert TypeText(x.(name := x.name + t)) == TypeText(x);
    assert front + (x.name + t) == (front + x.name) + t;
  }

  lemma SortOne(a: Text)
    ensures Join(Sort([a])) == a
  {
    assert [a][1..] == [];
  }

  /** Validation allows a newline in a name, so every valid schema of two or more fields shares its string with a valid
      schema of one field, whose name swallows all lines but the first. */
  lemma OneFieldSwallowsAll(f: seq<SchemaField>) returns (z: SchemaField)
    requires ValidFields(f) && |f| >= 2
    ensures ValidFields([z]) && Canonical([z]) == Canonical(f)
  {
    hide Line, Sort;
    var ls := Sort(Lines(f));
    InMultiset(ls, Lines(f));
    assert ls[0] in Lines(f);
    var i :| 0 <= i < |f| && Lines(f)[i] == ls[0];
    z := f[i].(name := f[i].name + ("\n" + Join(ls[1..])));
    LineOfLongerName(f[i], "\n" + Join(ls[1..]));
    assert Lines([z]) == [Line(z)];
    SortOne(Line(z));
    assert Line(z) == ls[0] + "\n" + Join(ls[1..]);
  }

  /** A single field without a newline in its name is the only valid schema with its string. */
  lemma OneFieldIsAlone(f: seq<SchemaField>, g: seq<SchemaField>)
    requires |f| == 1 && ValidFields(f) && PlainNames(f)
    requires g != [] && ValidFields(g) && Canonical(g) == Canonical(f)
    ensures g == f
  {
    hide Line, Sort, Join;
    LinesArePlain(f);
    SameLength(Sort(Lines(f)), Lines(f));
    SameLength(Sort(Lines(g)), Lines(g));
    InMultiset(Sort(Lines(f)), Lines(f));
    JoinOneLine(Sort(Lines(f)));
    JoinOneLine(Sort(Lines(g)));
    assert Lines(f) == [Line(f[0])];
    SortOne(Line(f[0]));
    if |g| == 1 {
      assert Lines(g) == [Line(g[0])];
      SortOne(Line(g[0]));
      LineInjective(f[0], g[0]);
    }
  }

  /** The string of a valid schema without newlines in its names determines its fields among all valid schemas exactly
      if it has one field. */
  lemma DeterminesFieldsIffSingle(f: seq<SchemaField>)
    requires f != [] && ValidFields(f) && PlainNames(f)
    ensures (forall g :: g != [] && ValidFields(g) && Canonical(g) == Canonical(f) ==> multiset(g) == multiset(f))
            <==> |f| == 1
  {
    hide Canonical, ValidFields, PlainNames;
    if |f| == 1 {
      forall g | g != [] && ValidFields(g) && Canonical(g) == Canonical(f) ensures multiset(g) == multiset(f) {
        OneFieldIsAlone(f, g);
      }
    } else {
      var z := OneFieldSwallowsAll(f);
      if multiset([z]) == multiset(f) {
        SameLength([z], f);
      }
    }
  }

  // ----- SCHEMA_ID

  /** The SCHEMA_ID does not depend on the order of declaration. */
  lemma SchemaIdOfPermutation(f: seq<SchemaField>, g: seq<SchemaField>)
    requires multiset(f) == multiset(g)
    ensures SchemaId(f) == SchemaId(g)
  {
    hide Canonical;
    CanonicalOfPermutation(f, g);
  }

  /** Two valid schemas with plain names and one SCHEMA_ID have the same fields, or canonical strings that differ but
      agree in the low 16 bits of their CRCs: nothing but the truncated CRC merges them. */
  lemma OnlyTheCrcMerges(f: seq<SchemaField>, g: seq<SchemaField>)
    requires f != [] && g != [] && ValidFields(f) && ValidFields(g) && PlainNames(f) && PlainNames(g)
    ensures SchemaId(f) == SchemaId(g) <==>
              multiset(f) == multiset(g)
              || (Canonical(f) != Canonical(g)
                  && Crc32.Checksum(TextBytes(Canonical(f))) % TWO16 == Crc32.Checksum(TextBytes(Canonical(g))) % TWO16)
  {
    hide Canonical, Crc32.Checksum;
    CanonicalIffPermutation(f, g);
  }
}
