/** Base-128 varints (bridges/mqtt-go/proto.go appendVarint and readVarint). Shifts by 7 are divisions and
    multiplications by 128; BitIdentities shows that the code's `|` on disjoint bits is addition. */
module Varint {
  import opened Octets

  /** appendVarint, onto an empty buffer. */
  function Encoded(v: nat): (s: seq<byte>)
    ensures s != []
  {
    if v < 128 then [v] else [v % 128 + 128] + Encoded(v / 128)
  }

  method AppendVarint(buf: seq<byte>, v: u64) returns (out: seq<byte>)
    ensures out == buf + Encoded(v)
  {
    out := buf;
    var rest: nat := v;
    while rest >= 128
      invariant out + Encoded(rest) == buf + Encoded(v)
    {
      out := out + [rest % 128 + 128];
      rest := rest / 128;
    }
    out := out + [rest];
  }

  datatype Parsed = Malformed | Parsed(value: u64, consumed: nat)

  datatype Scanned = NoEnd | Scanned(number: nat, length: nat)

  /** The groups up to the first byte without a continuation bit, which must come within budget bytes. */
  function Scan(data: seq<byte>, budget: nat): (r: Scanned)
    ensures r.Scanned? ==> 1 <= r.length <= budget && r.length <= |data|
  {
    if data == [] || budget == 0 then NoEnd
    else if data[0] < 128 then Scanned(data[0], 1)
    else match Scan(data[1..], budget - 1)
      case NoEnd => NoEnd
      case Scanned(v, n) => Scanned(data[0] % 128 + 128 * v, n + 1)
  }

  /** readVarint: at most ten bytes, and the bits above 64 fall off. */
  function Read(data: seq<byte>): (r: Parsed)
    ensures r.Parsed? ==> 1 <= r.consumed <= 10 && r.consumed <= |data|
  {
    match Scan(data, 10)
    case NoEnd => Malformed
    case Scanned(v, n) => Parsed(v % TWO64, n)
  }

  function Power128(k: nat): (p: nat)
    ensures p >= 1
  {
    if k == 0 then 1 else 128 * Power128(k - 1)
  }

  /** A varint has at most k bytes exactly when its value has at most 7k bits. */
  lemma {:induction false} EncodedLength(v: nat, k: nat)
    requires k >= 1
    ensures |Encoded(v)| <= k <==> v < Power128(k)
    decreases k
  {
    if v >= 128 && k > 1 {
      EncodedLength(v / 128, k - 1);
      assert v < 128 * Power128(k - 1) <==> v / 128 < Power128(k - 1);
    }
  }

  lemma PowersOf128()
    ensures Power128(0) == 1 && Power128(4) == 0x1000_0000 && Power128(5) == 0x8_0000_0000
    ensures Power128(9) < TWO64 < Power128(10)
  {
    assert Power128(2) == 16384;
    assert Power128(4) == 268435456;
    assert Power128(6) == 4398046511104;
    assert Power128(8) == 72057594037927936;
  }

  lemma EncodedU64Length(v: u64)
    ensures |Encoded(v)| <= 10
  {
    PowersOf128();
    EncodedLength(v, 10);
  }

  lemma {:induction false} ScanEncoded(v: nat, rest: seq<byte>, budget: nat)
    requires |Encoded(v)| <= budget
    ensures Scan(Encoded(v) + rest, budget) == Scanned(v, |Encoded(v)|)
    decreases v
  {
    var data := Encoded(v) + rest;
    if v >= 128 {
      assert data[1..] == Encoded(v / 128) + rest;
      ScanEncoded(v / 128, rest, budget - 1);
    }
  }

  /** Reading a written 64-bit value gives it back and stops at its end. */
  lemma ReadEncoded(v: u64, rest: seq<byte>)
    ensures Read(Encoded(v) + rest) == Parsed(v, |Encoded(v)|)
  {
    EncodedU64Length(v);
    ScanEncoded(v, rest, 10);
  }

  lemma {:induction false} ScanStable(a: seq<byte>, b: seq<byte>, budget: nat)
    requires Scan(a, budget).Scanned?
    ensures Scan(a + b, budget) == Scan(a, budget)
    decreases |a|
  {
    if a[0] >= 128 {
      assert (a + b)[1..] == a[1..] + b;
      ScanStable(a[1..], b, budget - 1);
    }
  }

  /** A varint that was read is not changed by bytes after it. */
  lemma ReadStable(a: seq<byte>, b: seq<byte>)
    requires Read(a).Parsed?
    ensures Read(a + b) == Read(a)
  {
    ScanStable(a, b, 10);
  }

  /** A varint needs only its own bytes. */
  lemma {:induction false} ScanPrefix(data: seq<byte>, m: nat, budget: nat)
    requires m <= |data|
    ensures Scan(data[..m], budget).Scanned? <==> Scan(data, budget).Scanned? && Scan(data, budget).length <= m
    ensures Scan(data[..m], budget).Scanned? ==> Scan(data[..m], budget) == Scan(data, budget)
    decreases budget
  {
    if m > 0 && budget > 0 && data[0] >= 128 {
      assert data[..m][1..] == data[1..][..m - 1];
      ScanPrefix(data[1..], m - 1, budget - 1);
    }
  }

  /** readVarint of proto.go; the third result is its ok flag. */
  method ReadVarint(data: seq<byte>) returns (val: u64, n: nat, ok: bool)
    ensures ok <==> Read(data).Parsed?
    ensures ok ==> Read(data) == Parsed(val, n)
    ensures !ok ==> val == 0 && n == 0
  {
    hide Place, Power128, Scan, Continues;
    val := 0;
    ghost var total := Scan(data, 10);
    ScanStarts(data);
    for i := 0 to |data|
      invariant i <= 10
      invariant i < 10 ==> val < Power128(i)
      invariant Continues(total, Scan(data[i..], 10 - i), val, i)
    {
      ScanStep(total, data, i, val);
      if i >= 10 {
        return 0, 0, false;
      }
      val := (val + Place(data[i] % 128, i)) % TWO64;
      if data[i] < 128 {
        return val, i + 1, true;
      }
    }
    ScanEnds(total, data, val);
    return 0, 0, false;
  }

  lemma ScanStarts(data: seq<byte>)
    ensures 0 < Power128(0) && Continues(Scan(data, 10), Scan(data[0..], 10), 0, 0)
  {
    assert data[0..] == data;
    if Scan(data, 10).Scanned? {
      PlaceZero(Scan(data, 10).number);
    }
  }

  lemma ScanEnds(total: Scanned, data: seq<byte>, val: nat)
    requires |data| <= 10 && Continues(total, Scan(data[|data|..], 10 - |data|), val, |data|)
    ensures total.NoEnd?
  {}

  /** One turn of the loop: the byte at i extends the value by one group. */
  lemma ScanStep(total: Scanned, data: seq<byte>, i: nat, val: nat)
    requires i < |data| && i <= 10 && (i < 10 ==> val < Power128(i))
    requires Continues(total, Scan(data[i..], 10 - i), val, i)
    ensures i == 10 ==> total.NoEnd?
    ensures i < 10 && data[i] < 128 ==> total == Scanned(val + Place(data[i] % 128, i), i + 1)
    ensures i < 9 ==> val + Place(data[i] % 128, i) < Power128(i + 1) < TWO64
    ensures i < 9 && data[i] >= 128 ==>
        Continues(total, Scan(data[i + 1..], 9 - i), val + Place(data[i] % 128, i), i + 1)
    ensures i == 9 && data[i] >= 128 ==> total.NoEnd?
    ensures i == 9 ==> forall v :: total.NoEnd? ==> Continues(total, Scan(data[10..], 0), v, 10)
  {
    hide Place, Power128;
    if i < 10 {
      assert data[i..][1..] == data[i + 1..];
      var rest := Scan(data[i + 1..], 9 - i);
      if i < 9 {
        GroupFits(val, data[i] % 128, i);
      }
      if rest.Scanned? {
        GroupMoves(data[i] % 128, rest.number, i);
      }
    }
  }

  /** With i groups worth val behind it, the scan of what follows completes the scan of the whole. */
  ghost predicate Continues(total: Scanned, rest: Scanned, val: nat, i: nat) {
    match rest
    case NoEnd => total.NoEnd?
    case Scanned(v, n) => total == Scanned(val + Place(v, i), n + i)
  }

  /** `uint64(group) << (7 * i)` before truncation. */
  function Place(group: nat, i: nat): nat {
    group * Power128(i)
  }

  lemma PlaceZero(group: nat)
    ensures Place(group, 0) == group
  {}

  /** A group read at place i leaves room for the next, without overflow before the tenth. */
  lemma GroupFits(val: nat, group: nat, i: nat)
    requires i < 9 && val < Power128(i) && group < 128
    ensures val + Place(group, i) < Power128(i + 1) < TWO64
  {
    PowersGrow(i + 1, 9);
    PowersOf128();
    Below(val, group, Power128(i));
  }

  lemma Below(val: nat, group: nat, p: nat)
    requires val < p && group < 128
    ensures val + group * p < 128 * p
  {
    assert group * p <= 127 * p;
  }

  /** What follows a group sits 128 times higher. */
  lemma GroupMoves(group: nat, rest: nat, i: nat)
    ensures Place(group + 128 * rest, i) == Place(group, i) + Place(rest, i + 1)
  {
    Distribute(group, rest, Power128(i));
  }

  lemma Distribute(group: nat, rest: nat, p: nat)
    ensures (group + 128 * rest) * p == group * p + rest * (128 * p)
  {}

  lemma {:induction false} PowersGrow(i: nat, j: nat)
    requires i <= j
    ensures Power128(i) <= Power128(j)
    decreases j
  {
    if i < j {
      PowersGrow(i, j - 1);
    }
  }
}
