/** Bytes, unsigned words and the little-endian layouts that every part of the wire protocol shares. */
module Octets {
  type byte = b: int | 0 <= b < 256
  type u16 = x: int | 0 <= x < TWO16
  type u32 = x: int | 0 <= x < TWO32
  type u64 = x: int | 0 <= x < TWO64

  const TWO16: int := 0x1_0000
  const TWO32: int := 0x1_0000_0000
  const TWO64: int := 0x1_0000_0000_0000_0000

  /** Four bytes, least significant first. */
  function Le32(w: u32): (s: seq<byte>)
    ensures |s| == 4
  {
    [w % 0x100, w / 0x100 % 0x100, w / 0x1_0000 % 0x100, w / 0x100_0000]
  }

  function FromLe32(s: seq<byte>): u32
    requires |s| == 4
  {
    (s[0] as int) + 0x100 * (s[1] as int) + 0x1_0000 * (s[2] as int) + 0x100_0000 * (s[3] as int)
  }

  function Le16(v: u16): (s: seq<byte>)
    ensures |s| == 2
  {
    [v % 0x100, v / 0x100]
  }

  function FromLe16(s: seq<byte>): u16
    requires |s| == 2
  {
    (s[0] as int) + 0x100 * (s[1] as int)
  }

  function Zeros(n: nat): (s: seq<byte>)
    ensures |s| == n
    ensures forall i :: 0 <= i < n ==> s[i] == 0
  {
    seq(n, _ => 0)
  }

  lemma FromLe32OfLe32(w: u32)
    ensures FromLe32(Le32(w)) == w
  {
    assert w / 0x100 / 0x100 == w / 0x1_0000 && w / 0x1_0000 / 0x100 == w / 0x100_0000;
  }

  /** The base-256 digits of a word, by repeated division. */
  lemma Digits(a: byte, b: byte, c: byte, d: byte)
    ensures var w := (a as int) + 0x100 * (b as int) + 0x1_0000 * (c as int) + 0x100_0000 * (d as int);
            w % 0x100 == a && w / 0x100 % 0x100 == b && w / 0x1_0000 % 0x100 == c && w / 0x100_0000 == d
  {
    var w := (a as int) + 0x100 * (b as int) + 0x1_0000 * (c as int) + 0x100_0000 * (d as int);
    assert w / 0x100 == b + 0x100 * c + 0x1_0000 * d;
    assert w / 0x1_0000 == c + 0x100 * d;
  }

  lemma Le32OfFromLe32(s: seq<byte>)
    requires |s| == 4
    ensures Le32(FromLe32(s)) == s
  {
    Digits(s[0], s[1], s[2], s[3]);
  }

  lemma FromLe16OfLe16(v: u16)
    ensures FromLe16(Le16(v)) == v
  {}

  lemma Le16OfFromLe16(s: seq<byte>)
    requires |s| == 2
    ensures Le16(FromLe16(s)) == s
  {}

  /** bytesToWordsLE. */
  function WordsLE(b: seq<byte>): (w: seq<u32>)
    requires |b| % 4 == 0
    ensures |w| == |b| / 4
  {
    seq(|b| / 4, i requires 0 <= i < |b| / 4 => FromLe32(b[i * 4..i * 4 + 4]))
  }

  /** wordsToBytesLE. */
  function BytesLE(w: seq<u32>): (b: seq<byte>)
    ensures |b| == 4 * |w|
  {
    if w == [] then [] else BytesLE(w[..|w| - 1]) + Le32(w[|w| - 1])
  }

  /** Dropping the last four bytes drops the last word. */
  lemma WordsLEFront(b: seq<byte>, m: nat)
    requires |b| % 4 == 0 && |b| == m + 4
    ensures WordsLE(b) == WordsLE(b[..m]) + [FromLe32(b[m..])]
  {
    hide FromLe32;
    forall i | 0 <= i < m / 4 ensures WordsLE(b)[i] == WordsLE(b[..m])[i] {
      assert b[i * 4..i * 4 + 4] == b[..m][i * 4..i * 4 + 4];
    }
    assert b[m / 4 * 4..m / 4 * 4 + 4] == b[m..];
  }

  lemma {:induction false} BytesLEWordsLE(b: seq<byte>)
    requires |b| % 4 == 0
    ensures BytesLE(WordsLE(b)) == b
  {
    hide FromLe32, Le32, WordsLE;
    if b != [] {
      var m := |b| - 4;
      WordsLEFront(b, m);
      BytesLEWordsLE(b[..m]);
      Le32OfFromLe32(b[m..]);
      assert WordsLE(b)[..|b| / 4 - 1] == WordsLE(b[..m]);
      assert b == b[..m] + b[m..];
    }
  }

  lemma {:induction false} BytesLEAt(w: seq<u32>, i: nat)
    requires i < |w|
    ensures BytesLE(w)[i * 4..i * 4 + 4] == Le32(w[i])
  {
    if i < |w| - 1 {
      BytesLEAt(w[..|w| - 1], i);
    }
  }

  lemma WordsLEBytesLE(w: seq<u32>)
    ensures WordsLE(BytesLE(w)) == w
  {
    forall i | 0 <= i < |w| ensures WordsLE(BytesLE(w))[i] == w[i] {
      BytesLEAt(w, i);
      FromLe32OfLe32(w[i]);
    }
  }
}
