/** The Python cross-check of the protobuf codec (tests/unit/protobuf.py), on unbounded integers, and where it agrees
    with the bridge and the firmware. */
module ReferenceProtobuf {
  import opened Octets
  import opened Outcomes
  import opened Varint
  import P = ProtoWire

  datatype ValueError = Truncated | TooLong | Overflow | Unsupported

  /** encode_varint: negative values as 64-bit two's complement, all others without a bound. */
  method EncodeVarint(value: int) returns (out: seq<byte>)
    ensures out == Encoded(if value < 0 then value % TWO64 else value)
  {
    var rest: nat := if value < 0 then value % TWO64 else value;
    ghost var all := Encoded(rest);
    out := [];
    while rest >= 128
      invariant out + Encoded(rest) == all
      decreases rest
    {
      out := out + [rest % 128 + 128];
      rest := rest / 128;
    }
    out := out + [rest];
  }

  /** parse_varint: at most eleven bytes, and no bits fall off. */
  method ParseVarint(buf: seq<byte>, start: nat) returns (r: Result<(nat, nat), ValueError>)
    requires start <= |buf|
    ensures r.Ok? <==> Scan(buf[start..], 11).Scanned?
    ensures r.Ok? ==> start < r.value.1 <= |buf| && Scan(buf[start..], 11) == Scanned(r.value.0, r.value.1 - start)
  {
    hide Place, Scan, Power128, Continues;
    var value: nat, shift: nat, pos: nat := 0, 0, start;
    ghost var total := Scan(buf[start..], 11);
    Starts(total);
    while pos < |buf|
      invariant start <= pos <= |buf| && pos - start <= 10 && shift == 7 * (pos - start)
      invariant Continues(total, Scan(buf[pos..], 11 - (pos - start)), value, pos - start)
    {
      var b := buf[pos];
      Turn(total, buf[pos..], 11 - (pos - start), value, pos - start);
      assert buf[pos..][1..] == buf[pos + 1..];
      value := value + Place(b % 128, pos - start);
      pos := pos + 1;
      if b < 128 {
        return Ok((value, pos));
      }
      shift := shift + 7;
      if shift > 70 {
        Ends(total, buf[pos..], 0, value, pos - start);
        return Err(TooLong);
      }
    }
    Ends(total, buf[pos..], 11 - (pos - start), value, pos - start);
    return Err(Truncated);
  }

  lemma Starts(total: Scanned)
    ensures Continues(total, total, 0, 0)
  {
    if total.Scanned? {
      PlaceZero(total.number);
    }
  }

  lemma Turn(total: Scanned, data: seq<byte>, budget: nat, value: nat, i: nat)
    requires data != [] && budget > 0 && Continues(total, Scan(data, budget), value, i)
    ensures data[0] < 128 ==> total == Scanned(value + Place(data[0] % 128, i), i + 1)
    ensures data[0] >= 128 ==> Continues(total, Scan(data[1..], budget - 1), value + Place(data[0] % 128, i), i + 1)
  {
    hide Place, Power128;
    var rest := Scan(data[1..], budget - 1);
    if data[0] >= 128 && rest.Scanned? {
      GroupMoves(data[0] % 128, rest.number, i);
    }
  }

  lemma Ends(total: Scanned, data: seq<byte>, budget: nat, value: nat, i: nat)
    requires (data == [] || budget == 0) && Continues(total, Scan(data, budget), value, i)
    ensures total.NoEnd?
  {}

  /** One more byte of budget only lets longer varints in. */
  lemma {:induction false} MoreBudget(data: seq<byte>, budget: nat)
    ensures Scan(data, budget).Scanned? ==> Scan(data, budget + 1) == Scan(data, budget)
    ensures Scan(data, budget + 1).Scanned? && Scan(data, budget + 1).length <= budget ==>
        Scan(data, budget) == Scan(data, budget + 1)
    decreases budget
  {
    if data != [] && budget > 0 && data[0] >= 128 {
      MoreBudget(data[1..], budget - 1);
    }
  }

  // ----- The two parsers compared, byte by byte

  /** Byte i is the first one below 128, and among the eleven that the reference looks at. */
  predicate EndsAt(data: seq<byte>, i: nat) {
    i < |data| && i < 11 && data[i] < 128 && forall j :: 0 <= j < i ==> data[j] >= 128
  }

  /** If the varint ends, it has at most ten bytes and 64 bits. */
  predicate Fits64(data: seq<byte>) {
    forall i: nat :: i < 11 && EndsAt(data, i) ==> i < 9 || (i == 9 && data[9] <= 1)
  }

  /** If the varint ends, it has at most ten bytes and 35 bits: a wire type and a tag of 32 bits. */
  predicate Fits35(data: seq<byte>) {
    forall i: nat :: i < 11 && EndsAt(data, i) ==> i <= 9 && forall j :: 5 <= j <= i ==> data[j] % 128 == 0
  }

  lemma {:induction false} ScanEnds(data: seq<byte>, budget: nat)
    ensures Scan(data, budget).Scanned? ==>
              var i := Scan(data, budget).length - 1;
              data[i] < 128 && forall j :: 0 <= j < i ==> data[j] >= 128
    ensures Scan(data, budget).NoEnd? ==> forall j :: 0 <= j < |data| && j < budget ==> data[j] >= 128
    decreases budget
  {
    if data != [] && budget > 0 && data[0] >= 128 {
      ScanEnds(data[1..], budget - 1);
      assert forall j :: 1 <= j < |data| ==> data[j] == data[1..][j - 1];
    }
  }

  /** A varint is found exactly if it ends, and its length says where. */
  lemma ScanEndsAt(data: seq<byte>)
    ensures Scan(data, 11).Scanned? ==> EndsAt(data, Scan(data, 11).length - 1)
    ensures forall i: nat :: EndsAt(data, i) ==> Scan(data, 11).Scanned? && Scan(data, 11).length == i + 1
  {
    hide Scan;
    ScanEnds(data, 11);
  }

  /** The bits of a varint below k groups and part of the next one, read off its bytes. */
  predicate GroupsBelow(data: seq<byte>, n: nat, k: nat, c: nat)
    requires n <= |data|
  {
    forall j :: k <= j < n ==> if j == k then data[j] % 128 < c else data[j] % 128 == 0
  }

  function Bound(k: nat, c: nat): nat {
    c * Power128(k)
  }

  lemma BoundSteps(k: nat, c: nat)
    ensures Bound(0, c) == c
    ensures k > 0 ==> Bound(k, c) == 128 * Bound(k - 1, c)
    ensures k > 0 && c >= 1 ==> Bound(k, c) >= 128
  {
    if k > 0 {
      var p := Power128(k - 1);
      Regroup(c, p);
      if c >= 1 { AtLeast(c, p); }
    }
  }

  lemma Regroup(c: nat, p: nat)
    ensures c * (128 * p) == 128 * (c * p)
  {}

  lemma AtLeast(c: nat, q: nat)
    requires c >= 1
    ensures c * q >= q
  {}

  lemma {:induction false} ScanBelow(data: seq<byte>, budget: nat, k: nat, c: nat)
    requires Scan(data, budget).Scanned? && 1 <= c <= 128
    ensures Scan(data, budget).number < Bound(k, c) <==> GroupsBelow(data, Scan(data, budget).length, k, c)
    decreases |data|
  {
    hide Bound, GroupsBelow;
    var r := Scan(data, budget);
    BoundSteps(k, c);
    BoundSteps(0, 1);
    if data[0] < 128 {
      OneGroup(data, k, c);
    } else if k > 0 {
      ScanBelow(data[1..], budget - 1, k - 1, c);
      GroupsShift(data, r.length, k, c);
    } else {
      ScanBelow(data[1..], budget - 1, 0, 1);
      GroupsFirst(data, r.length, c);
    }
  }

  lemma OneGroup(data: seq<byte>, k: nat, c: nat)
    requires data != [] && data[0] < 128
    ensures GroupsBelow(data, 1, k, c) <==> k > 0 || data[0] < c
  {}

  lemma GroupsShift(data: seq<byte>, n: nat, k: nat, c: nat)
    requires 1 <= n <= |data| && k > 0
    ensures GroupsBelow(data, n, k, c) <==> GroupsBelow(data[1..], n - 1, k - 1, c)
  {
    assert forall j :: 1 <= j < n ==> data[j] == data[1..][j - 1];
    if GroupsBelow(data, n, k, c) {
      forall j | k - 1 <= j < n - 1
        ensures if j == k - 1 then data[1..][j] % 128 < c else data[1..][j] % 128 == 0
      {
        assert data[1..][j] == data[j + 1];
      }
    }
  }

  lemma GroupsFirst(data: seq<byte>, n: nat, c: nat)
    requires 1 <= n <= |data|
    ensures GroupsBelow(data, n, 0, c) <==> data[0] % 128 < c && GroupsBelow(data[1..], n - 1, 0, 1)
  {
    assert forall j :: 1 <= j < n ==> data[j] == data[1..][j - 1];
    if GroupsBelow(data, n, 0, c) {
      forall j | 0 <= j < n - 1 ensures data[1..][j] % 128 == 0 {
        assert data[1..][j] == data[j + 1];
      }
    }
  }

  /** What the byte conditions say of the number. */
  lemma FitsMeans(data: seq<byte>)
    ensures Fits64(data) <==> (Scan(data, 11).Scanned? ==> Scan(data, 11).length <= 10 && Scan(data, 11).number < TWO64)
    ensures Fits35(data) <==>
              (Scan(data, 11).Scanned? ==> Scan(data, 11).length <= 10 && Scan(data, 11).number < 8 * TWO32)
  {
    hide Scan, Bound;
    ScanEndsAt(data);
    if Scan(data, 11).Scanned? {
      assert TWO64 == Bound(9, 2) && 8 * TWO32 == Bound(5, 1) by { Powers(); }
      ScanBelow(data, 11, 9, 2);
      ScanBelow(data, 11, 5, 1);
    }
  }

  lemma Powers()
    ensures TWO64 == Bound(9, 2) && 8 * TWO32 == Bound(5, 1)
  {
    assert Power128(3) == 2097152;
    assert Power128(5) == 34359738368;
    assert Power128(7) == 562949953421312;
  }

  /** The reference and readVarint give the same result exactly if the varint, when it ends within eleven bytes, has at
      most ten of them, and the tenth is at most 1. */
  lemma ParsersAgreeIff(data: seq<byte>)
    ensures (match Scan(data, 11)
             case NoEnd => Read(data).Malformed?
             case Scanned(v, n) => Read(data) == Parsed(v % TWO64, n) && v < TWO64)
            <==> Fits64(data)
  {
    hide Scan, Fits64, Fits35;
    MoreBudget(data, 10);
    FitsMeans(data);
  }

  /** An eleven-byte varint that the reference reads and readVarint rejects. */
  lemma ElevenBytes()
    ensures var data := [128, 128, 128, 128, 128, 128, 128, 128, 128, 128, 0];
            Scan(data, 11) == Scanned(0, 11) && Read(data).Malformed?
  {
    Padded(10, 11);
    Padded(10, 10);
    assert Continued(10) + [0] == [128, 128, 128, 128, 128, 128, 128, 128, 128, 128, 0];
  }

  function Continued(n: nat): (s: seq<byte>)
    ensures |s| == n && forall i :: 0 <= i < n ==> s[i] == 128
  {
    seq(n, _ => 128)
  }

  lemma {:induction false} Padded(n: nat, budget: nat)
    ensures Scan(Continued(n) + [0], budget) == if budget > n then Scanned(0, n + 1) else NoEnd
    decreases n
  {
    var data := Continued(n) + [0];
    if n > 0 && budget > 0 {
      assert data[1..] == Continued(n - 1) + [0];
      Padded(n - 1, budget - 1);
    }
  }

  /** A field of the reference's decode: the tag and the numbers have no width. */
  datatype Raw = Varint(value: nat) | Length(data: seq<byte>) | Fixed32(bits: u32)
  datatype Field = Field(tag: nat, raw: Raw)

  function Seen(f: P.RawField): Field {
    Field(f.tag, match f.payload case Number(v) => Varint(v) case Delimited(d) => Length(d) case Fixed(b) => Fixed32(b))
  }

  function SeenAll(fs: seq<P.RawField>): (r: seq<Field>)
    ensures |r| == |fs| && forall i :: 0 <= i < |fs| ==> r[i] == Seen(fs[i])
  {
    seq(|fs|, i requires 0 <= i < |fs| => Seen(fs[i]))
  }

  /** One turn of decode, at the front of data. */
  function ReadOne(data: seq<byte>): (r: Option<(Field, nat)>)
    ensures r.Some? ==> 1 <= r.value.1 <= |data|
  {
    match Scan(data, 11)
    case NoEnd => None
    case Scanned(key, n) =>
      var tag, rest := key / 8, data[n..];
      if key % 8 == P.WIRE_FIXED32 then
        if |rest| < 4 then None else Some((Field(tag, Fixed32(FromLe32(rest[..4]))), n + 4))
      else if key % 8 == P.WIRE_VARINT || key % 8 == P.WIRE_LEN then
        match Scan(rest, 11)
        case NoEnd => None
        case Scanned(v, m) =>
          if key % 8 == P.WIRE_VARINT then Some((Field(tag, Varint(v)), n + m))
          else if v > |rest| - m then None else Some((Field(tag, Length(rest[m..m + v])), n + m + v))
      else None
  }

  function ReadAll(data: seq<byte>): Option<seq<Field>> {
    if data == [] then Some([])
    else match ReadOne(data)
      case None => None
      case Some((f, n)) =>
        match ReadAll(data[n..])
        case None => None
        case Some(fs) => Some([f] + fs)
  }

  function Prepend(front: seq<Field>, r: Option<seq<Field>>): Option<seq<Field>> {
    match r case None => None case Some(fs) => Some(front + fs)
  }

  lemma ReadOn(front: seq<Field>, data: seq<byte>)
    ensures data == [] ==> Prepend(front, ReadAll(data)) == Some(front)
    ensures data != [] && ReadOne(data).None? ==> ReadAll(data).None?
    ensures data != [] && ReadOne(data).Some? ==>
              var (f, n) := ReadOne(data).value;
              Prepend(front, ReadAll(data)) == Prepend(front + [f], ReadAll(data[n..]))
  {
    hide ReadOne;
    assert front + [] == front;
    if data != [] && ReadOne(data).Some? {
      var (f, n) := ReadOne(data).value;
      if ReadAll(data[n..]).Some? {
        assert front + ([f] + ReadAll(data[n..]).value) == front + [f] + ReadAll(data[n..]).value;
      }
    }
  }

  /** decode: all fields in order, or an exception. */
  method Decode(buf: seq<byte>) returns (r: Result<seq<Field>, ValueError>)
    ensures r.Ok? <==> ReadAll(buf).Some?
    ensures r.Ok? ==> ReadAll(buf) == Some(r.value)
  {
    hide ReadOne, ReadAll;
    var out: seq<Field>, pos := [], 0;
    assert buf[0..] == buf;
    assert ReadAll(buf) == Prepend([], ReadAll(buf)) by {
      if ReadAll(buf).Some? { assert [] + ReadAll(buf).value == ReadAll(buf).value; }
    }
    while pos < |buf|
      invariant pos <= |buf| && ReadAll(buf) == Prepend(out, ReadAll(buf[pos..]))
    {
      ReadOn(out, buf[pos..]);
      ghost var one := ReadOne(buf[pos..]);
      var f, next := DecodeOne(buf, pos);
      if f.Err? {
        return Err(f.error);
      }
      assert buf[pos..][next - pos..] == buf[next..];
      out := out + [f.value];
      pos := next;
    }
    ReadOn(out, buf[pos..]);
    r := Ok(out);
  }

  /** The body of decode's loop. */
  method DecodeOne(buf: seq<byte>, start: nat) returns (f: Result<Field, ValueError>, pos: nat)
    requires start < |buf|
    ensures f.Ok? <==> ReadOne(buf[start..]).Some?
    ensures f.Ok? ==> start < pos <= |buf| && ReadOne(buf[start..]) == Some((f.value, pos - start))
  {
    hide Scan, FromLe32;
    pos := start;
    var key := ParseVarint(buf, pos);
    if key.Err? {
      return Err(key.error), pos;
    }
    ghost var rest := buf[start..][key.value.1 - start..];
    pos := key.value.1;
    assert rest == buf[pos..];
    var wire, tag := key.value.0 % 8, key.value.0 / 8;
    if wire == P.WIRE_VARINT {
      var v := ParseVarint(buf, pos);
      if v.Err? {
        return Err(v.error), pos;
      }
      return Ok(Field(tag, Varint(v.value.0))), v.value.1;
    } else if wire == P.WIRE_LEN {
      var length := ParseVarint(buf, pos);
      if length.Err? {
        return Err(length.error), pos;
      }
      var from := length.value.1;
      if from + length.value.0 > |buf| {
        return Err(Overflow), pos;
      }
      SliceOfRest(buf, pos, from, length.value.0);
      return Ok(Field(tag, Length(buf[from..from + length.value.0]))), from + length.value.0;
    } else if wire == P.WIRE_FIXED32 {
      if pos + 4 > |buf| {
        return Err(Overflow), pos;
      }
      assert rest[..4] == buf[pos..pos + 4];
      return Ok(Field(tag, Fixed32(FromLe32(buf[pos..pos + 4])))), pos + 4;
    }
    return Err(Unsupported), pos;
  }

  lemma SliceOfRest(buf: seq<byte>, pos: nat, from: nat, length: nat)
    requires pos <= from && from + length <= |buf|
    ensures buf[pos..][from - pos..from - pos + length] == buf[from..from + length]
  {}

  // ----- The two decoders compared

  /** The varints of the field at the front of data fit: its tag, and what follows a tag of wire type 0 or 2. */
  predicate StandardField(data: seq<byte>) {
    Fits35(data) &&
    (Read(data).Parsed? && (Read(data).value % 8 == P.WIRE_VARINT || Read(data).value % 8 == P.WIRE_LEN) ==>
       Fits64(data[Read(data).consumed..]))
  }

  /** All varints from field to field fit. */
  predicate AllStandard(data: P.Blob) {
    data == [] || (StandardField(data) && (P.ReadField(data).Ok? ==> AllStandard(data[P.ReadField(data).value.1..])))
  }

  lemma StandardReads(data: seq<byte>)
    ensures Fits64(data) ==>
              match Scan(data, 11)
              case NoEnd => Read(data).Malformed?
              case Scanned(v, n) => Read(data) == Parsed(v % TWO64, n) && v < TWO64
    ensures Fits35(data) ==> Fits64(data)
    ensures Fits35(data) && Scan(data, 11).Scanned? ==> Scan(data, 11).number < 8 * TWO32
    ensures Read(data).Parsed? ==>
              Scan(data, 11).Scanned? && Scan(data, 11).length == Read(data).consumed
              && Read(data).value == Scan(data, 11).number % TWO64
              && (Fits64(data) <==> Scan(data, 11).number < TWO64)
              && (Fits35(data) <==> Scan(data, 11).number < 8 * TWO32)
  {
    hide Scan, Fits64, Fits35;
    MoreBudget(data, 10);
    FitsMeans(data);
  }

  lemma OneAgrees(data: P.Blob)
    requires StandardField(data)
    ensures ReadOne(data) == match P.ReadField(data) case Err(_) => None case Ok((f, n)) => Some((Seen(f), n))
  {
    hide Scan, Read, FromLe32, Fits64, Fits35;
    StandardReads(data);
    if Read(data).Parsed? {
      StandardReads(data[Read(data).consumed..]);
    }
  }

  /** On a field that the bridge reads, the reference reads the same one exactly if its varints fit. */
  lemma OneAgreesIff(data: P.Blob)
    requires P.ReadField(data).Ok?
    ensures ReadOne(data).Some? && ReadOne(data).value.0 == Seen(P.ReadField(data).value.0) <==> StandardField(data)
  {
    hide Scan, Read, FromLe32, Fits64, Fits35;
    StandardReads(data);
    var rest := data[Read(data).consumed..];
    StandardReads(rest);
    if StandardField(data) {
      OneAgrees(data);
    }
  }

  ghost predicate Agree(data: P.Blob) {
    ReadAll(data) == match P.ReadFields(data) case Err(_) => None case Ok(fs) => Some(SeenAll(fs))
  }

  lemma SeenAllSplits(f: P.RawField, fs: seq<P.RawField>)
    ensures SeenAll([f] + fs) == [Seen(f)] + SeenAll(fs)
  {}

  /** On every body whose varints fit, well-formed or not, the reference reads the fields that the bridge and the
      firmware read, or rejects as they do. */
  lemma {:induction false} DecodersAgree(data: P.Blob)
    requires AllStandard(data)
    ensures Agree(data)
    decreases |data|
  {
    hide ReadOne, P.ReadField, StandardField;
    if data != [] {
      OneAgrees(data);
      if P.ReadField(data).Ok? {
        var (f, n) := P.ReadField(data).value;
        DecodersAgree(data[n..]);
        if P.ReadFields(data[n..]).Ok? {
          SeenAllSplits(f, P.ReadFields(data[n..]).value);
        }
      }
    }
  }

  lemma {:induction false} AgreedIsStandard(data: P.Blob)
    requires P.ReadFields(data).Ok? && Agree(data)
    ensures AllStandard(data)
    decreases |data|
  {
    hide ReadOne, P.ReadField, StandardField;
    if data != [] {
      var (f, n) := P.ReadField(data).value;
      var fs := P.ReadFields(data[n..]).value;
      SeenAllSplits(f, fs);
      var (g, m) := ReadOne(data).value;
      assert ReadAll(data).value[0] == g && ([Seen(f)] + SeenAll(fs))[0] == Seen(f);
      OneAgreesIff(data);
      OneAgrees(data);
      assert ReadAll(data).value[1..] == ReadAll(data[n..]).value && ([Seen(f)] + SeenAll(fs))[1..] == SeenAll(fs);
      AgreedIsStandard(data[n..]);
    }
  }

  /** On a body that the bridge accepts the two agree exactly if all its varints fit; on one that it rejects, exactly if
      the reference rejects it too. */
  lemma DecodersAgreeIff(data: P.Blob)
    ensures Agree(data) <==> if P.ReadFields(data).Ok? then AllStandard(data) else ReadAll(data).None?
  {
    hide ReadAll, AllStandard, P.ReadFields;
    if P.ReadFields(data).Ok? {
      if AllStandard(data) {
        DecodersAgree(data);
      }
      if Agree(data) {
        AgreedIsStandard(data);
      }
    }
  }
}
