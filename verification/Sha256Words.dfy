/** The word operations of sha256.cpp, and their agreement with those of FIPS 180-4. */
module Sha256Words {
  import opened Fips = Fips180Words

  // The expressions of the two loops of process_block_.

  function ScheduleS0(x: bv32): bv32 { ROTR(x, 7) ^ ROTR(x, 18) ^ (x >> 3) }
  function ScheduleS1(x: bv32): bv32 { ROTR(x, 17) ^ ROTR(x, 19) ^ (x >> 10) }
  function RoundS1(e: bv32): bv32 { ROTR(e, 6) ^ ROTR(e, 11) ^ ROTR(e, 25) }
  function RoundS0(a: bv32): bv32 { ROTR(a, 2) ^ ROTR(a, 13) ^ ROTR(a, 22) }
  function Choose(e: bv32, f: bv32, g: bv32): bv32 { (e & f) ^ (!e & g) }
  function Majority(a: bv32, b: bv32, c: bv32): bv32 { (a & b) ^ (a & c) ^ (b & c) }

  function Scheduled(w16: bv32, w15: bv32, w7: bv32, w2: bv32): bv32 {
    Plus(Plus(Plus(w16, ScheduleS0(w15)), w7), ScheduleS1(w2))
  }

  function Temp1(e: bv32, f: bv32, g: bv32, h: bv32, k: bv32, w: bv32): bv32 {
    Plus(Plus(Plus(Plus(h, RoundS1(e)), Choose(e, f, g)), k), w)
  }

  function Temp2(a: bv32, b: bv32, c: bv32): bv32 {
    Plus(RoundS0(a), Majority(a, b, c))
  }

  // The expressions are the functions of the standard.

  lemma ScheduleS0IsSigma(x: bv32)
    ensures ScheduleS0(x) == Fips.SmallSigma0(x)
  {
    hide ROTR;
  }

  lemma ScheduleS1IsSigma(x: bv32)
    ensures ScheduleS1(x) == Fips.SmallSigma1(x)
  {
    hide ROTR;
  }

  lemma RoundS0IsSigma(x: bv32)
    ensures RoundS0(x) == Fips.BigSigma0(x)
  {
    hide ROTR;
  }

  lemma RoundS1IsSigma(x: bv32)
    ensures RoundS1(x) == Fips.BigSigma1(x)
  {
    hide ROTR;
  }

  lemma PlusCommutes(a: bv32, b: bv32)
    ensures Plus(a, b) == Plus(b, a)
  {}

  lemma PlusAssociates(a: bv32, b: bv32, c: bv32)
    ensures Plus(Plus(a, b), c) == Plus(a, Plus(b, c))
  {
    assert Plus(a + b, c) == a + b + c by {}
    assert Plus(a, b + c) == a + (b + c) by {}
    Reassociate(a, b, c);
    assert Plus(a, b) == a + b;
    assert Plus(b, c) == b + c;
  }

  lemma Reassociate(a: bv32, b: bv32, c: bv32)
    ensures (a + b) + c == a + (b + c)
  {}

  lemma Reversed(a: bv32, b: bv32, c: bv32, d: bv32)
    ensures Plus(Plus(Plus(a, b), c), d) == Plus(Plus(Plus(d, c), b), a)
  {
    hide Plus;
    PlusCommutes(Plus(Plus(a, b), c), d);
    PlusCommutes(Plus(a, b), c);
    PlusCommutes(a, b);
    PlusAssociates(d, c, Plus(b, a));
    PlusAssociates(Plus(d, c), b, a);
  }

  lemma ScheduledIsNext(w16: bv32, w15: bv32, w7: bv32, w2: bv32)
    ensures Scheduled(w16, w15, w7, w2) == Fips.Next(w2, w7, w15, w16)
  {
    hide Plus, ScheduleS0, ScheduleS1, Fips.SmallSigma0, Fips.SmallSigma1;
    ScheduleS0IsSigma(w15);
    ScheduleS1IsSigma(w2);
    Reversed(w16, ScheduleS0(w15), w7, ScheduleS1(w2));
  }

  lemma Temp1IsT1(e: bv32, f: bv32, g: bv32, h: bv32, k: bv32, w: bv32)
    ensures Temp1(e, f, g, h, k, w) == Fips.T1(e, f, g, h, k, w)
  {
    hide Plus, RoundS1, Choose, Fips.BigSigma1, Fips.Ch;
    RoundS1IsSigma(e);
    ChooseIsCh(e, f, g);
  }

  lemma ChooseIsCh(e: bv32, f: bv32, g: bv32)
    ensures Choose(e, f, g) == Fips.Ch(e, f, g)
  {}

  lemma MajorityIsMaj(a: bv32, b: bv32, c: bv32)
    ensures Majority(a, b, c) == Fips.Maj(a, b, c)
  {}

  lemma Temp2IsT2(a: bv32, b: bv32, c: bv32)
    ensures Temp2(a, b, c) == Fips.T2(a, b, c)
  {
    hide Plus, RoundS0, Majority, Fips.BigSigma0, Fips.Maj;
    RoundS0IsSigma(a);
    MajorityIsMaj(a, b, c);
  }
}
