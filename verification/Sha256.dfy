/** The streaming SHA-256 of components/mpubsub/sha256.cpp, proved to compute the digest of FIPS 180-4
    however the message is split into update calls. */
module Sha256Stream {
  import opened Octets
  import opened Fips180Words
  import opened Fips180
  import opened Sha256Words

  function AsRegisters(w: seq<bv32>): Registers
    requires |w| == 8
  {
    Registers(w[0], w[1], w[2], w[3], w[4], w[5], w[6], w[7])
  }

  lemma WordLoaded(block: Block, t: nat)
    requires t < 16
    ensures W(block, t) == BigEndian(block[4 * t], block[4 * t + 1], block[4 * t + 2], block[4 * t + 3])
  {}

  lemma WordScheduled(block: Block, t: nat)
    requires 16 <= t < 64
    ensures W(block, t) == Next(W(block, t - 2), W(block, t - 7), W(block, t - 15), W(block, t - 16))
  {}

  lemma RoundsSteps(v: Registers, block: Block, t: nat)
    requires t < 64
    ensures Rounds(v, block, 0) == v
    ensures Rounds(v, block, t + 1) == Round(Rounds(v, block, t), RoundConstant(t), W(block, t))
  {}

  /** The words st and the bytes tail stand for m: whole blocks are folded into st, tail is the rest. */
  ghost predicate Folded(st: seq<bv32>, tail: seq<byte>, m: seq<byte>) {
    && |st| == 8 && |tail| <= |m| && (|m| - |tail|) % 64 == 0
    && tail == m[|m| - |tail|..]
    && AsRegisters(st) == HashBlocks(m[..|m| - |tail|])
  }

  lemma FoldedPush(st: seq<bv32>, tail: seq<byte>, m: seq<byte>, chunk: seq<byte>)
    requires Folded(st, tail, m)
    ensures Folded(st, tail + chunk, m + chunk)
  {
    hide HashBlocks, AsRegisters;
    var whole := |m| - |tail|;
    assert (m + chunk)[..whole] == m[..whole];
    assert (m + chunk)[whole..] == m[whole..] + chunk;
  }

  lemma FoldedFlush(st: seq<bv32>, st': seq<bv32>, block: Block, m: seq<byte>)
    requires Folded(st, block, m) && |st'| == 8
    requires AsRegisters(st') == Compress(AsRegisters(st), block)
    ensures Folded(st', [], m)
  {
    hide Compress, AsRegisters;
    assert m[..|m|] == m;
  }

  class Sha256 {
    const state: array<bv32>
    const buffer: array<byte>
    var bitLen: u64
    var bufferLen: nat
    /** Every byte passed to Update so far. */
    ghost var message: seq<byte>

    ghost predicate Holds(m: seq<byte>)
      reads this`bufferLen, state, buffer
    {
      && state.Length == 8 && buffer.Length == 64 && state as object != buffer && bufferLen <= 64
      && Folded(state[..], buffer[..bufferLen], m)
    }

    ghost predicate Valid()
      reads this, state, buffer
    {
      Holds(message) && bufferLen < 64 && bitLen == 8 * |message| % TWO64
    }

    constructor ()
      ensures Valid() && message == []
      ensures fresh(state) && fresh(buffer)
    {
      state := new bv32[8] [0x6a09e667, 0xbb67ae85, 0x3c6ef372, 0xa54ff53a,
                            0x510e527f, 0x9b05688c, 0x1f83d9ab, 0x5be0cd19];
      buffer := new byte[64](_ => 0);
      bitLen, bufferLen := 0, 0;
      message := [];
      new;
      hide Compress;
      assert state[..] == Words(H0);
    }

    /** The first two loops of process_block_: the message schedule. */
    method Schedule() returns (w: array<bv32>)
      requires buffer.Length == 64
      ensures fresh(w) && w.Length == 64
      ensures forall t :: 0 <= t < 64 ==> w[t] == W(buffer[..], t)
    {
      hide Plus, Scheduled, Next, BigEndian, W;
      w := new bv32[64];
      ghost var block: Block := buffer[..];
      for i := 0 to 16
        invariant forall j :: 0 <= j < i ==> w[j] == W(block, j)
      {
        WordLoaded(block, i);
        w[i] := BigEndian(buffer[i * 4], buffer[i * 4 + 1], buffer[i * 4 + 2], buffer[i * 4 + 3]);
      }
      for i := 16 to 64
        invariant forall j :: 0 <= j < i ==> w[j] == W(block, j)
      {
        WordScheduled(block, i);
        w[i] := Scheduled(w[i - 16], w[i - 15], w[i - 7], w[i - 2]);
        ScheduledIsNext(w[i - 16], w[i - 15], w[i - 7], w[i - 2]);
      }
    }

    /** The third loop of process_block_: the working variables after 64 rounds. */
    method Mix(w: array<bv32>, ghost block: Block) returns (r: Registers)
      requires state.Length == 8 && w.Length == 64
      requires forall t :: 0 <= t < 64 ==> w[t] == W(block, t)
      ensures r == Rounds(AsRegisters(state[..]), block, 64)
    {
      hide Plus, Temp1, Temp2, T1, T2, W, RoundConstant, Rounds;
      ghost var start := AsRegisters(state[..]);
      RoundsSteps(start, block, 0);
      var a, b, c, d := state[0], state[1], state[2], state[3];
      var e, f, g, h := state[4], state[5], state[6], state[7];
      for i := 0 to 64
        invariant Registers(a, b, c, d, e, f, g, h) == Rounds(start, block, i)
      {
        RoundsSteps(start, block, i);
        var t1 := Temp1(e, f, g, h, RoundConstant(i), w[i]);
        var t2 := Temp2(a, b, c);
        Temp1IsT1(e, f, g, h, RoundConstant(i), w[i]);
        Temp2IsT2(a, b, c);
        h := g;
        g := f;
        f := e;
        e := Plus(d, t1);
        d := c;
        c := b;
        b := a;
        a := Plus(t1, t2);
      }
      r := Registers(a, b, c, d, e, f, g, h);
    }

    /** The eight additions that end process_block_. */
    method AddToState(r: Registers)
      requires state.Length == 8
      modifies state
      ensures AsRegisters(state[..]) == AddRegisters(old(AsRegisters(state[..])), r)
    {
      hide Plus;
      state[0] := Plus(state[0], r.a);
      state[1] := Plus(state[1], r.b);
      state[2] := Plus(state[2], r.c);
      state[3] := Plus(state[3], r.d);
      state[4] := Plus(state[4], r.e);
      state[5] := Plus(state[5], r.f);
      state[6] := Plus(state[6], r.g);
      state[7] := Plus(state[7], r.h);
    }

    /** process_block_. */
    method ProcessBlock()
      requires state.Length == 8 && buffer.Length == 64 && state as object != buffer
      modifies state
      ensures AsRegisters(state[..]) == Compress(old(AsRegisters(state[..])), buffer[..])
    {
      hide Plus, W, Rounds, AddRegisters;
      var w := Schedule();
      ghost var block: Block := buffer[..];
      assert forall t :: 0 <= t < 64 ==> w[t] == W(block, t);
      var r := Mix(w, block);
      AddToState(r);
      assert buffer[..] == block;
    }

    /** Copy bytes to the end of the buffer. */
    method Push(chunk: seq<byte>, ghost m: seq<byte>)
      requires Holds(m) && bufferLen + |chunk| <= 64
      modifies this`bufferLen, buffer
      ensures Holds(m + chunk) && bufferLen == old(bufferLen) + |chunk|
    {
      hide Folded;
      forall k | 0 <= k < |chunk| {
        buffer[bufferLen + k] := chunk[k];
      }
      bufferLen := bufferLen + |chunk|;
      assert buffer[..bufferLen] == old(buffer[..bufferLen]) + chunk;
      assert state[..] == old(state[..]);
      FoldedPush(state[..], old(buffer[..bufferLen]), m, chunk);
    }

    /** Fold a full buffer into the state. */
    method Flush(ghost m: seq<byte>)
      requires Holds(m) && bufferLen == 64
      modifies this`bufferLen, state
      ensures Holds(m) && bufferLen == 0
    {
      hide Compress, AsRegisters, Folded;
      assert buffer[..64] == buffer[..];
      ProcessBlock();
      bufferLen := 0;
      FoldedFlush(old(state[..]), state[..], buffer[..], m);
      assert buffer[..0] == [];
    }

    method Update(data: seq<byte>)
      requires Valid()
      modifies this, state, buffer
      ensures Valid() && message == old(message) + data
    {
      hide Holds;
      bitLen := (bitLen + 8 * |data|) % TWO64;
      message := message + data;
      var i := 0;
      assert old(message) + data[..0] == old(message);
      while i < |data|
        invariant 0 <= i <= |data| && bufferLen < 64
        invariant message == old(message) + data && bitLen == 8 * |message| % TWO64
        invariant Holds(old(message) + data[..i])
      {
        var take := 64 - bufferLen;
        if take > |data| - i {
          take := |data| - i;
        }
        Push(data[i..i + take], old(message) + data[..i]);
        assert data[..i] + data[i..i + take] == data[..i + take];
        assert old(message) + data[..i] + data[i..i + take] == old(message) + data[..i + take];
        i := i + take;
        if bufferLen == 64 {
          Flush(old(message) + data[..i]);
        }
      }
      assert data[..i] == data;
    }

    /** The zero-filling loops of finalize. */
    method FillZeros(limit: nat, ghost m: seq<byte>)
      requires Holds(m) && bufferLen <= limit <= 64
      modifies this`bufferLen, buffer
      ensures Holds(m + Zeros(limit - old(bufferLen))) && bufferLen == limit
    {
      hide Holds;
      ghost var start := bufferLen;
      assert m + Zeros(0) == m;
      while bufferLen < limit
        invariant start <= bufferLen <= limit && Holds(m + Zeros(bufferLen - start))
      {
        ghost var n := bufferLen - start;
        Push([0], m + Zeros(n));
        assert m + Zeros(n) + [0] == m + Zeros(n + 1);
      }
    }

    /** Zeros up to the place of the length field, through a block of their own if it does not fit. */
    method PadZeros(ghost m: seq<byte>) returns (ghost z: nat)
      requires Holds(m) && bufferLen > 0
      modifies this`bufferLen, state, buffer
      ensures Holds(m + Zeros(z)) && bufferLen == 56
      ensures z < 64 && (|m| + z - 56) % 64 == 0
    {
      hide Folded;
      z := 0;
      assert m + Zeros(0) == m;
      if bufferLen > 56 {
        z := 64 - bufferLen;
        FillZeros(64, m);
        Flush(m + Zeros(z));
      }
      ghost var n := 56 - bufferLen;
      FillZeros(56, m + Zeros(z));
      assert m + Zeros(z) + Zeros(n) == m + Zeros(z + n);
      z := z + n;
      FoldedLength(state[..], buffer[..56], m + Zeros(z));
    }

    /** Pads, folds what is left and returns the state's bytes. */
    method Finalize() returns (out: seq<byte>)
      requires Valid()
      modifies this`bufferLen, state, buffer
      ensures out == Bytes(Words(HashBlocks(Pad(message, 8 * |message| % TWO64))))
      ensures 8 * |message| < TWO64 ==> out == Digest(message)
    {
      hide HashBlocks, Folded, Bytes, Length64;
      var totalBits := bitLen;
      Push([0x80], message);
      ghost var z := PadZeros(message + [0x80]);
      PaddingIsMinimal(|message|, z);
      ghost var m := message + [0x80] + Zeros(z);
      Push(Length64(totalBits), m);
      m := m + Length64(totalBits);
      Flush(m);
      assert buffer[..0] == [];
      FoldedAll(state[..], m);
      out := Bytes(state[..]);
    }
  }

  lemma FoldedAll(st: seq<bv32>, m: seq<byte>)
    requires Folded(st, [], m)
    ensures |m| % 64 == 0 && Words(HashBlocks(m)) == st
  {
    hide HashBlocks;
    assert m[..|m|] == m;
  }

  lemma FoldedLength(st: seq<bv32>, tail: seq<byte>, m: seq<byte>)
    requires Folded(st, tail, m)
    ensures |tail| <= |m| && (|m| - |tail|) % 64 == 0
  {}

  /** Fewer than 64 zeros that end at byte 56 of a block are the zeros of the standard. */
  lemma PaddingIsMinimal(length: nat, n: nat)
    requires (length + 1 + n - 56) % 64 == 0 && n < 64
    ensures n == ZeroCount(length)
  {}
}
