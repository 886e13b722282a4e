/** XXTEA over 32-bit words, updated in place (bridges/mqtt-go/wire.go). */
module Xxtea {
  import opened Octets

  const DELTA: u32 := 0x9E3779B9

  /** The value of `sum` in round r: r additions of DELTA from zero, or `uint32(r) * delta`. */
  function Sum(r: nat): u32 {
    r * DELTA % TWO32
  }

  /** `6 + 52/n`. */
  function RoundCount(n: nat): nat
    requires n >= 2
  {
    6 + 52 / n
  }

  /** `(sum >> 2) & 3`. */
  function Phase(sum: u32): bv2 {
    (sum / 4 % 4) as bv2
  }

  /** `(p & 3) ^ e`: both operands have two bits, so the index stays below four. */
  function KeyIndex(p: nat, e: bv2): nat {
    ((p % 4) as bv2 ^ e) as nat
  }

  /** The expression of xxteaMX, on 32-bit patterns. */
  function MixBits(z: bv32, y: bv32, sum: bv32, k: bv32): bv32 {
    (((z >> 5) ^ (y << 2)) + ((y >> 3) ^ (z << 4))) ^ ((sum ^ y) + (k ^ z))
  }

  /** xxteaMX with its key word. */
  function Mixed(z: u32, y: u32, sum: u32, k: u32): u32 {
    MixBits(z as bv32, y as bv32, sum as bv32, k as bv32) as int
  }

  /** xxteaMX. */
  function Mx(z: u32, y: u32, sum: u32, p: nat, e: bv2, key: seq<u32>): u32
    requires |key| == 8
  {
    Mixed(z, y, sum, key[KeyIndex(p, e)])
  }

  /** `a += m` and `a -= m` on a uint32. */
  function Plus(a: u32, m: u32): u32 { (a + m) % TWO32 }
  function Minus(a: u32, m: u32): u32 { (a - m) % TWO32 }

  function Prev(n: nat, p: nat): nat
    requires p < n
  {
    if p == 0 then n - 1 else p - 1
  }

  function Next(n: nat, p: nat): nat
    requires p < n
  {
    if p == n - 1 then 0 else p + 1
  }

  /** What position p mixes in: its two neighbours on the ring of words. */
  function Neighbours(w: seq<u32>, p: nat, sum: u32, key: seq<u32>): u32
    requires p < |w| && |key| == 8
  {
    Mx(w[Prev(|w|, p)], w[Next(|w|, p)], sum, p, Phase(sum), key)
  }

  function Step(w: seq<u32>, p: nat, sum: u32, key: seq<u32>): (r: seq<u32>)
    requires p < |w| && |key| == 8
    ensures |r| == |w|
  {
    w[p := Plus(w[p], Neighbours(w, p, sum, key))]
  }

  function Unstep(w: seq<u32>, p: nat, sum: u32, key: seq<u32>): (r: seq<u32>)
    requires p < |w| && |key| == 8
    ensures |r| == |w|
  {
    w[p := Minus(w[p], Neighbours(w, p, sum, key))]
  }

  /** Steps at positions 0, 1, ..., m-1, in that order. */
  function Forward(w: seq<u32>, m: nat, sum: u32, key: seq<u32>): (r: seq<u32>)
    requires m <= |w| && |key| == 8
    ensures |r| == |w|
  {
    if m == 0 then w else Step(Forward(w, m - 1, sum, key), m - 1, sum, key)
  }

  /** Unsteps at positions |w|-1, ..., m, in that order. */
  function Backward(w: seq<u32>, m: nat, sum: u32, key: seq<u32>): (r: seq<u32>)
    requires m <= |w| && |key| == 8
    ensures |r| == |w|
    decreases |w| - m
  {
    if m == |w| then w else Unstep(Backward(w, m + 1, sum, key), m, sum, key)
  }

  /** Rounds 1..r of encryption. */
  function Rounds(w: seq<u32>, r: nat, key: seq<u32>): (c: seq<u32>)
    requires |key| == 8
    ensures |c| == |w|
  {
    if r == 0 then w else var v := Rounds(w, r - 1, key); Forward(v, |v|, Sum(r), key)
  }

  /** Decryption rounds for sums r, r-1, ..., s+1. */
  function Unrounds(c: seq<u32>, r: nat, s: nat, key: seq<u32>): (w: seq<u32>)
    requires |key| == 8 && s <= r
    ensures |w| == |c|
    decreases r - s
  {
    if s == r then c else Backward(Unrounds(c, r, s + 1, key), 0, Sum(s + 1), key)
  }

  function Encrypted(w: seq<u32>, key: seq<u32>): (c: seq<u32>)
    requires |key| == 8
    ensures |c| == |w|
  {
    if |w| < 2 then w else Rounds(w, RoundCount(|w|), key)
  }

  function Decrypted(c: seq<u32>, key: seq<u32>): (w: seq<u32>)
    requires |key| == 8
    ensures |w| == |c|
  {
    if |c| < 2 then c else Unrounds(c, RoundCount(|c|), 0, key)
  }

  /** With two or more words, a position's neighbours are other positions, so a step can be undone. */
  lemma UnstepStep(w: seq<u32>, p: nat, sum: u32, key: seq<u32>)
    requires |w| >= 2 && p < |w| && |key| == 8
    ensures Unstep(Step(w, p, sum, key), p, sum, key) == w
    ensures Step(Unstep(w, p, sum, key), p, sum, key) == w
  {
    hide Mx, Plus, Minus;
    AddSub(w[p], Neighbours(w, p, sum, key));
  }

  /** Undoing positions m-1 down to k after doing 0..m-1 leaves positions 0..k-1 done. */
  lemma {:induction false} BackwardForward(w: seq<u32>, m: nat, sum: u32, key: seq<u32>)
    requires |w| >= 2 && m <= |w| && |key| == 8
    ensures Backward(Forward(w, |w|, sum, key), m, sum, key) == Forward(w, m, sum, key)
    decreases |w| - m
  {
    hide Step, Unstep;
    if m < |w| {
      BackwardForward(w, m + 1, sum, key);
      UnstepStep(Forward(w, m, sum, key), m, sum, key);
    }
  }

  lemma {:induction false} ForwardBackward(w: seq<u32>, m: nat, sum: u32, key: seq<u32>)
    requires |w| >= 2 && m <= |w| && |key| == 8
    ensures Forward(Backward(w, 0, sum, key), m, sum, key) == Backward(w, m, sum, key)
  {
    hide Step, Unstep;
    if m > 0 {
      ForwardBackward(w, m - 1, sum, key);
      UnstepStep(Backward(w, m, sum, key), m - 1, sum, key);
    }
  }

  lemma {:induction false} UnroundsRounds(w: seq<u32>, r: nat, s: nat, key: seq<u32>)
    requires |w| >= 2 && |key| == 8 && s <= r
    ensures Unrounds(Rounds(w, r, key), r, s, key) == Rounds(w, s, key)
    decreases r - s
  {
    if s < r {
      UnroundsRounds(w, r, s + 1, key);
      BackwardForward(Rounds(w, s, key), 0, Sum(s + 1), key);
    }
  }

  lemma {:induction false} RoundsUnrounds(c: seq<u32>, r: nat, s: nat, key: seq<u32>)
    requires |c| >= 2 && |key| == 8 && s <= r
    ensures Rounds(Unrounds(c, r, 0, key), s, key) == Unrounds(c, r, s, key)
  {
    if s > 0 {
      RoundsUnrounds(c, r, s - 1, key);
      ForwardBackward(Unrounds(c, r, s, key), |c|, Sum(s), key);
    }
  }

  /** Decryption undoes encryption. */
  lemma DecryptedEncrypted(w: seq<u32>, key: seq<u32>)
    requires |key| == 8
    ensures Decrypted(Encrypted(w, key), key) == w
  {
    if |w| >= 2 {
      UnroundsRounds(w, RoundCount(|w|), 0, key);
    }
  }

  /** Encryption undoes decryption. */
  lemma EncryptedDecrypted(c: seq<u32>, key: seq<u32>)
    requires |key| == 8
    ensures Encrypted(Decrypted(c, key), key) == c
  {
    if |c| >= 2 {
      RoundsUnrounds(c, RoundCount(|c|), RoundCount(|c|), key);
    }
  }

  /** Under one key encryption is a bijection on the u32 sequences of each length. */
  lemma EncryptionIsBijection(n: nat, key: seq<u32>)
    requires |key| == 8
    ensures forall v, w :: |v| == n && |w| == n && Encrypted(v, key) == Encrypted(w, key) ==> v == w
    ensures forall c: seq<u32> :: |c| == n ==> exists w :: |w| == n && Encrypted(w, key) == c
  {
    forall v, w | |v| == n && |w| == n && Encrypted(v, key) == Encrypted(w, key) ensures v == w {
      DecryptedEncrypted(v, key);
      DecryptedEncrypted(w, key);
    }
    forall c: seq<u32> | |c| == n ensures exists w :: |w| == n && Encrypted(w, key) == c {
      EncryptedDecrypted(c, key);
    }
  }

  /** Adding DELTA takes round r's sum to the next round's, and subtracting it goes back. */
  lemma SumSteps(r: nat)
    ensures Sum(0) == 0
    ensures Plus(Sum(r), DELTA) == Sum(r + 1)
    ensures Minus(Sum(r + 1), DELTA) == Sum(r)
  {
    Wrap(r * DELTA, DELTA);
    assert (r + 1) * DELTA == r * DELTA + DELTA;
    AddSub(Sum(r), DELTA);
  }

  /** Reducing before adding does not change the reduced sum. */
  lemma Wrap(x: nat, d: nat)
    ensures (x % TWO32 + d) % TWO32 == (x + d) % TWO32
  {
    assert x + d == (x % TWO32 + d) + x / TWO32 * TWO32;
  }

  lemma AddSub(a: u32, m: u32)
    ensures Minus(Plus(a, m), m) == a && Plus(Minus(a, m), m) == a
  {
    assert Plus(a, m) == if a + m < TWO32 then a + m else a + m - TWO32;
    assert Minus(a, m) == if a < m then a - m + TWO32 else a - m;
  }

  // ----- The constants and the mixing

  /** DELTA is the integer part of (sqrt 5 - 1) times 2^31. */
  lemma DeltaIsGolden()
    ensures var d: int := DELTA + 0x8000_0000;
            d * d <= 5 * 0x4000_0000_0000_0000 < (d + 1) * (d + 1)
  {}

  /** The rounds beyond six are the integer part of 52 / n. */
  lemma RoundCountIs(n: nat)
    requires n >= 2
    ensures var extra := RoundCount(n) - 6; extra >= 0 && n * extra <= 52 < n * (extra + 1)
  {
    var q := 52 / n;
    assert 52 == n * q + 52 % n;
    assert n * (q + 1) == n * q + n;
  }

  /** `(p & 3) ^ ((sum >> 2) & 3)`, bit by bit. */
  function KeyBits(p: nat, sum: u32): (i: nat)
    ensures i < 4
  {
    var low, high := (p % 2 + sum / 4 % 2) % 2, (p / 2 % 2 + sum / 8 % 2) % 2;
    2 * high + low
  }

  lemma KeyIndexIsXor(p: nat, sum: u32)
    ensures KeyIndex(p, Phase(sum)) == KeyBits(p, sum)
  {
    hide Phase;
    var a, b := p % 4, sum / 4 % 4;
    LowBits(p);
    LowBits(sum / 4);
    assert sum / 4 / 2 == sum / 8;
    assert Phase(sum) == b as bv2 by { PhaseBits(sum); }
    XorOfTwoBits(a, b);
  }

  lemma PhaseBits(sum: u32)
    ensures Phase(sum) == (sum / 4 % 4) as bv2
  {}

  lemma LowBits(p: nat)
    ensures p / 2 % 2 == p % 4 / 2 && p % 2 == p % 4 % 2
  {}

  lemma XorOfTwoBits(a: nat, b: nat)
    requires a < 4 && b < 4
    ensures (a as bv2 ^ b as bv2) as nat == 2 * ((a / 2 + b / 2) % 2) + (a % 2 + b % 2) % 2
  {}

  /** _xxtea_mx of reference.py works on unbounded integers and cuts the result to 32 bits at the end; 40 bits hold
      everything in between. */
  function WideMx(z: bv32, y: bv32, sum: bv32, k: bv32): bv32 {
    var zw, yw := z as bv40, y as bv40;
    var wide := (((zw >> 5) ^ (yw << 2)) + ((yw >> 3) ^ (zw << 4))) ^ ((sum as bv40 ^ yw) + (k as bv40 ^ zw));
    (wide & 0xFFFF_FFFF) as bv32
  }

  lemma WideMxIsMix(z: bv32, y: bv32, sum: bv32, k: bv32)
    ensures WideMx(z, y, sum, k) == MixBits(z, y, sum, k)
  {}

  /** The mixing is the reference's, with that key word. */
  lemma MxIsReference(z: u32, y: u32, sum: u32, p: nat, key: seq<u32>)
    requires |key| == 8
    ensures Mx(z, y, sum, p, Phase(sum), key)
         == WideMx(z as bv32, y as bv32, sum as bv32, key[KeyBits(p, sum)] as bv32) as int
  {
    hide KeyIndex, KeyBits, WideMx, MixBits;
    KeyIndexIsXor(p, sum);
    WideMxIsMix(z as bv32, y as bv32, sum as bv32, key[KeyBits(p, sum)] as bv32);
  }

  method Encrypt(words: array<u32>, key: seq<u32>)
    requires |key| == 8
    modifies words
    ensures words[..] == Encrypted(old(words[..]), key)
  {
    hide Mx, Plus, Minus, Sum;
    var n := words.Length;
    if n < 2 {
      return;
    }
    var rounds := 6 + 52 / n;
    var sum: u32 := 0;
    SumSteps(0);
    var z := words[n - 1];
    for r := 0 to rounds
      invariant sum == Sum(r)
      invariant words[..] == Rounds(old(words[..]), r, key)
      invariant z == words[n - 1]
    {
      ghost var before := words[..];
      SumSteps(r);
      sum := Plus(sum, DELTA);
      var e := Phase(sum);
      var y;
      for p := 0 to n - 1
        invariant words[..] == Forward(before, p, sum, key)
        invariant z == words[Prev(n, p)]
      {
        y := words[p + 1];
        words[p] := Plus(words[p], Mx(z, y, sum, p, e, key));
        z := words[p];
      }
      y := words[0];
      words[n - 1] := Plus(words[n - 1], Mx(z, y, sum, n - 1, e, key));
      z := words[n - 1];
    }
  }

  method Decrypt(words: array<u32>, key: seq<u32>)
    requires |key| == 8
    modifies words
    ensures words[..] == Decrypted(old(words[..]), key)
  {
    hide Mx, Plus, Minus, Sum;
    var n := words.Length;
    if n < 2 {
      return;
    }
    var rounds := 6 + 52 / n;
    var sum := Sum(rounds);
    var y := words[0];
    for r := 0 to rounds
      invariant sum == Sum(rounds - r)
      invariant words[..] == Unrounds(old(words[..]), rounds, rounds - r, key)
      invariant y == words[0]
    {
      ghost var before := words[..];
      var e := Phase(sum);
      var z;
      for p := n downto 1
        invariant words[..] == Backward(before, p, sum, key)
        invariant y == words[if p == n then 0 else p]
      {
        z := words[p - 1];
        words[p] := Minus(words[p], Mx(z, y, sum, p, e, key));
        y := words[p];
      }
      z := words[n - 1];
      words[0] := Minus(words[0], Mx(z, y, sum, 0, e, key));
      y := words[0];
      SumSteps(rounds - r - 1);
      sum := Minus(sum, DELTA);
    }
  }
}
