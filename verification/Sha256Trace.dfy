/** SHA-256 followed round by round: the working variables and a sliding window of the message schedule. */
module Sha256Trace {
  import opened Octets
  import opened Fips180
  import opened Fips180Words
  import opened Sha256Words

  /** Sixteen consecutive words of the message schedule. */
  datatype Window = Window(w0: bv32, w1: bv32, w2: bv32, w3: bv32, w4: bv32, w5: bv32, w6: bv32, w7: bv32,
                           w8: bv32, w9: bv32, w10: bv32, w11: bv32, w12: bv32, w13: bv32, w14: bv32, w15: bv32)

  datatype State = State(v: Registers, win: Window)

  function Shifted(x: Window, w: bv32): Window {
    Window(x.w1, x.w2, x.w3, x.w4, x.w5, x.w6, x.w7, x.w8, x.w9, x.w10, x.w11, x.w12, x.w13, x.w14, x.w15, w)
  }

  /** The window starts at word t, as far as there are words. */
  predicate Windowed(block: Block, t: nat, x: Window)
    requires t < 64
  {
    && W(block, t) == x.w0
    && (t + 1 < 64 ==> W(block, t + 1) == x.w1)
    && (t + 2 < 64 ==> W(block, t + 2) == x.w2)
    && (t + 3 < 64 ==> W(block, t + 3) == x.w3)
    && (t + 4 < 64 ==> W(block, t + 4) == x.w4)
    && (t + 5 < 64 ==> W(block, t + 5) == x.w5)
    && (t + 6 < 64 ==> W(block, t + 6) == x.w6)
    && (t + 7 < 64 ==> W(block, t + 7) == x.w7)
    && (t + 8 < 64 ==> W(block, t + 8) == x.w8)
    && (t + 9 < 64 ==> W(block, t + 9) == x.w9)
    && (t + 10 < 64 ==> W(block, t + 10) == x.w10)
    && (t + 11 < 64 ==> W(block, t + 11) == x.w11)
    && (t + 12 < 64 ==> W(block, t + 12) == x.w12)
    && (t + 13 < 64 ==> W(block, t + 13) == x.w13)
    && (t + 14 < 64 ==> W(block, t + 14) == x.w14)
    && (t + 15 < 64 ==> W(block, t + 15) == x.w15)
  }

  /** After t rounds from the initial hash value: the working variables, and the words that come next. */
  ghost predicate Running(block: Block, t: nat, s: State) {
    t <= 64 && Rounds(H0, block, t) == s.v && (t < 64 ==> Windowed(block, t, s.win))
  }

  /** One round with given results: the new a and e, and the schedule word sixteen rounds on. */
  predicate Turned(s: State, k: bv32, a: bv32, e: bv32, w: bv32) {
    var t1 := Temp1(s.v.e, s.v.f, s.v.g, s.v.h, k, s.win.w0);
    && Plus(t1, Temp2(s.v.a, s.v.b, s.v.c)) == a && Plus(s.v.d, t1) == e
  }

  lemma Turn(block: Block, t: nat, s: State, k: bv32, a: bv32, e: bv32, w: bv32) returns (next: State)
    requires t < 64 && Running(block, t, s) && RoundConstant(t) == k
    requires Turned(s, k, a, e, w)
    requires t < 48 ==> Scheduled(s.win.w0, s.win.w1, s.win.w9, s.win.w14) == w
    ensures next == State(Registers(a, s.v.a, s.v.b, s.v.c, e, s.v.e, s.v.f, s.v.g), Shifted(s.win, w))
    ensures Running(block, t + 1, next)
  {
    hide Plus, Temp1, Temp2, T1, T2, Scheduled, W, RoundConstant, Windowed;
    next := State(Registers(a, s.v.a, s.v.b, s.v.c, e, s.v.e, s.v.f, s.v.g), Shifted(s.win, w));
    FirstWord(block, t, s.win);
    Temp1IsT1(s.v.e, s.v.f, s.v.g, s.v.h, k, s.win.w0);
    Temp2IsT2(s.v.a, s.v.b, s.v.c);
    if t < 63 {
      Slide(block, t, s.win, w);
    }
  }

  lemma FirstWord(block: Block, t: nat, x: Window)
    requires t < 64 && Windowed(block, t, x)
    ensures W(block, t) == x.w0
  {}

  lemma Slide(block: Block, t: nat, x: Window, w: bv32)
    requires t < 63 && Windowed(block, t, x)
    requires t < 48 ==> Scheduled(x.w0, x.w1, x.w9, x.w14) == w
    ensures Windowed(block, t + 1, Shifted(x, w))
  {
    hide W, Scheduled;
    if t < 48 {
      NextWord(block, t);
      ScheduledIsNext(x.w0, x.w1, x.w9, x.w14);
    }
  }

  lemma RoundConstants0()
    ensures RoundConstant(0) == 0x428a2f98 && RoundConstant(1) == 0x71374491
    ensures RoundConstant(2) == 0xb5c0fbcf && RoundConstant(3) == 0xe9b5dba5
    ensures RoundConstant(4) == 0x3956c25b && RoundConstant(5) == 0x59f111f1
    ensures RoundConstant(6) == 0x923f82a4 && RoundConstant(7) == 0xab1c5ed5
  {}

  lemma RoundConstants1()
    ensures RoundConstant(8) == 0xd807aa98 && RoundConstant(9) == 0x12835b01
    ensures RoundConstant(10) == 0x243185be && RoundConstant(11) == 0x550c7dc3
    ensures RoundConstant(12) == 0x72be5d74 && RoundConstant(13) == 0x80deb1fe
    ensures RoundConstant(14) == 0x9bdc06a7 && RoundConstant(15) == 0xc19bf174
  {}

  lemma RoundConstants2()
    ensures RoundConstant(16) == 0xe49b69c1 && RoundConstant(17) == 0xefbe4786
    ensures RoundConstant(18) == 0x0fc19dc6 && RoundConstant(19) == 0x240ca1cc
    ensures RoundConstant(20) == 0x2de92c6f && RoundConstant(21) == 0x4a7484aa
    ensures RoundConstant(22) == 0x5cb0a9dc && RoundConstant(23) == 0x76f988da
  {}

  lemma RoundConstants3()
    ensures RoundConstant(24) == 0x983e5152 && RoundConstant(25) == 0xa831c66d
    ensures RoundConstant(26) == 0xb00327c8 && RoundConstant(27) == 0xbf597fc7
    ensures RoundConstant(28) == 0xc6e00bf3 && RoundConstant(29) == 0xd5a79147
    ensures RoundConstant(30) == 0x06ca6351 && RoundConstant(31) == 0x14292967
  {}

  lemma RoundConstants4()
    ensures RoundConstant(32) == 0x27b70a85 && RoundConstant(33) == 0x2e1b2138
    ensures RoundConstant(34) == 0x4d2c6dfc && RoundConstant(35) == 0x53380d13
    ensures RoundConstant(36) == 0x650a7354 && RoundConstant(37) == 0x766a0abb
    ensures RoundConstant(38) == 0x81c2c92e && RoundConstant(39) == 0x92722c85
  {}

  lemma RoundConstants5()
    ensures RoundConstant(40) == 0xa2bfe8a1 && RoundConstant(41) == 0xa81a664b
    ensures RoundConstant(42) == 0xc24b8b70 && RoundConstant(43) == 0xc76c51a3
    ensures RoundConstant(44) == 0xd192e819 && RoundConstant(45) == 0xd6990624
    ensures RoundConstant(46) == 0xf40e3585 && RoundConstant(47) == 0x106aa070
  {}

  lemma RoundConstants6()
    ensures RoundConstant(48) == 0x19a4c116 && RoundConstant(49) == 0x1e376c08
    ensures RoundConstant(50) == 0x2748774c && RoundConstant(51) == 0x34b0bcb5
    ensures RoundConstant(52) == 0x391c0cb3 && RoundConstant(53) == 0x4ed8aa4a
    ensures RoundConstant(54) == 0x5b9cca4f && RoundConstant(55) == 0x682e6ff3
  {}

  lemma RoundConstants7()
    ensures RoundConstant(56) == 0x748f82ee && RoundConstant(57) == 0x78a5636f
    ensures RoundConstant(58) == 0x84c87814 && RoundConstant(59) == 0x8cc70208
    ensures RoundConstant(60) == 0x90befffa && RoundConstant(61) == 0xa4506ceb
    ensures RoundConstant(62) == 0xbef9a3f7 && RoundConstant(63) == 0xc67178f2
  {}

  lemma NextWord(block: Block, t: nat)
    requires t < 48
    ensures W(block, t + 16) == Next(W(block, t + 14), W(block, t + 9), W(block, t + 1), W(block, t))
  {}

  /** Where a one-block message starts: its sixteen words, by their bytes. */
  lemma Start(block: Block, s: State)
    requires s.v == H0
    requires forall i :: 0 <= i < 16 ==> W(block, i) == WindowWord(s.win, i)
    ensures Running(block, 0, s)
  {
    hide W, Rounds;
    assert Rounds(H0, block, 0) == H0 by { NoRounds(block); }
    assert W(block, 0) == WindowWord(s.win, 0) && W(block, 1) == WindowWord(s.win, 1);
    assert W(block, 2) == WindowWord(s.win, 2) && W(block, 3) == WindowWord(s.win, 3);
    assert W(block, 4) == WindowWord(s.win, 4) && W(block, 5) == WindowWord(s.win, 5);
    assert W(block, 6) == WindowWord(s.win, 6) && W(block, 7) == WindowWord(s.win, 7);
    assert W(block, 8) == WindowWord(s.win, 8) && W(block, 9) == WindowWord(s.win, 9);
    assert W(block, 10) == WindowWord(s.win, 10) && W(block, 11) == WindowWord(s.win, 11);
    assert W(block, 12) == WindowWord(s.win, 12) && W(block, 13) == WindowWord(s.win, 13);
    assert W(block, 14) == WindowWord(s.win, 14) && W(block, 15) == WindowWord(s.win, 15);
  }

  lemma NoRounds(block: Block)
    ensures Rounds(H0, block, 0) == H0
  {}

  function WindowWord(x: Window, i: nat): bv32
    requires i < 16
  {
    match i
    case 0 => x.w0 case 1 => x.w1 case 2 => x.w2 case 3 => x.w3 case 4 => x.w4 case 5 => x.w5 case 6 => x.w6
    case 7 => x.w7 case 8 => x.w8 case 9 => x.w9 case 10 => x.w10 case 11 => x.w11 case 12 => x.w12
    case 13 => x.w13 case 14 => x.w14 case _ => x.w15
  }

  lemma ZeroWord(block: Block, i: nat)
    requires i < 16 && block[4 * i] == 0 && block[4 * i + 1] == 0 && block[4 * i + 2] == 0 && block[4 * i + 3] == 0
    ensures W(block, i) == 0
  {}

  /** The hash value of one block. */
  lemma OneBlock(block: Block, s: State)
    requires Running(block, 64, s)
    ensures HashBlocks(block) == AddRegisters(H0, s.v)
  {
    hide Rounds;
    assert block[..0] == [] && block[0..] == block;
  }

  lemma BytesOfEight(v: Registers)
    ensures Bytes(Words(v)) == WordBytes(v.a) + WordBytes(v.b) + WordBytes(v.c) + WordBytes(v.d)
                               + WordBytes(v.e) + WordBytes(v.f) + WordBytes(v.g) + WordBytes(v.h)
  {
    hide WordBytes;
    var s1 := [] + [v.a];
    var s2 := s1 + [v.b];
    var s3 := s2 + [v.c];
    var s4 := s3 + [v.d];
    var s5 := s4 + [v.e];
    var s6 := s5 + [v.f];
    var s7 := s6 + [v.g];
    assert Bytes([]) == [] && s7 + [v.h] == Words(v);
    BytesSnoc([], v.a);
    BytesSnoc(s1, v.b);
    BytesSnoc(s2, v.c);
    BytesSnoc(s3, v.d);
    BytesSnoc(s4, v.e);
    BytesSnoc(s5, v.f);
    BytesSnoc(s6, v.g);
    BytesSnoc(s7, v.h);
    assert [] + WordBytes(v.a) == WordBytes(v.a);
  }

  lemma BytesSnoc(w: seq<bv32>, x: bv32)
    ensures Bytes(w + [x]) == Bytes(w) + WordBytes(x)
  {
    hide WordBytes;
    assert (w + [x])[..|w|] == w;
  }
}
