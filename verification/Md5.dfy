/**
 The buffering of firmware/src/core/Md5.cpp: whatever pieces a message comes in,
 the compression function sees the blocks of the padded message of sections 3.1
 and 3.2 of RFC 1321. The compression function is any function on states.
 */
module Md5 {
  import opened Basics
  import B = Bits

  const BLOCK: nat := 64
  const TWO_TO_64: nat := 0x1_0000_0000_0000_0000

  /** The state after whole blocks, one after the other. */
  function Compressed<S>(mix: (S, seq<byte>) -> S, state: S, data: seq<byte>): S
    requires |data| % BLOCK == 0
    decreases |data|
  {
    if data == [] then state else Compressed(mix, mix(state, data[..BLOCK]), data[BLOCK..])
  }

  lemma {:induction false} CompressedConcat<S>(mix: (S, seq<byte>) -> S, state: S, a: seq<byte>, b: seq<byte>)
    requires |a| % BLOCK == 0 && |b| % BLOCK == 0
    ensures Compressed(mix, state, a + b) == Compressed(mix, Compressed(mix, state, a), b)
    decreases |a|
  {
    if a == [] {
      assert a + b == b;
    } else {
      CompressedConcat(mix, mix(state, a[..BLOCK]), a[BLOCK..], b);
      assert (a + b)[..BLOCK] == a[..BLOCK] && (a + b)[BLOCK..] == a[BLOCK..] + b;
    }
  }

  lemma CompressedOne<S>(mix: (S, seq<byte>) -> S, state: S, block: seq<byte>)
    requires |block| == BLOCK
    ensures Compressed(mix, state, block) == mix(state, block)
  {
    assert block[..BLOCK] == block && block[BLOCK..] == [];
  }

  /** The whole blocks of a message, and what is left over. */
  function Whole(data: seq<byte>): seq<byte> {
    data[..|data| - |data| % BLOCK]
  }

  function Rest(data: seq<byte>): seq<byte> {
    data[|data| - |data| % BLOCK..]
  }

  // --- padding --------------------------------------------------------------------------------

  function LittleEndian(n: nat, bytes: nat): seq<byte> {
    if bytes == 0 then [] else [n % 256] + LittleEndian(n / 256, bytes - 1)
  }

  function ZeroBytes(n: nat): (z: seq<byte>)
    ensures |z| == n
  {
    seq(n, _ => 0)
  }

  /** How many zeros bring a message of n bytes and the byte after it to eight
      bytes short of a block. */
  function ZerosDue(n: nat): (k: nat)
    ensures k < BLOCK && (n + 1 + k) % BLOCK == 56
  {
    (119 - n % BLOCK) % BLOCK
  }

  /** No smaller number does. */
  lemma ZerosDueLeast(n: nat, k: nat)
    requires (n + 1 + k) % BLOCK == 56
    ensures k >= ZerosDue(n)
  {
  }

  function Padding(n: nat): seq<byte> {
    [0x80] + ZeroBytes(ZerosDue(n)) + LittleEndian(8 * n % TWO_TO_64, 8)
  }

  lemma {:induction false} LittleEndianLength(n: nat, bytes: nat)
    ensures |LittleEndian(n, bytes)| == bytes
  {
    if bytes > 0 {
      LittleEndianLength(n / 256, bytes - 1);
    }
  }

  /** A padded message is whole blocks. */
  lemma PaddedWhole(data: seq<byte>)
    ensures |data + Padding(|data|)| % BLOCK == 0
  {
    hide LittleEndian, ZerosDue, ZeroBytes;
    LittleEndianLength(8 * |data| % TWO_TO_64, 8);
    BlockEnds(|data| + 1 + ZerosDue(|data|));
  }

  lemma BlockEnds(n: nat)
    requires n % BLOCK == 56
    ensures (n + 8) % BLOCK == 0
  {
  }

  function Digest<S>(mix: (S, seq<byte>) -> S, state: S, message: seq<byte>): S {
    PaddedWhole(message);
    Compressed(mix, state, message + Padding(|message|))
  }

  // --- what is held between pieces -----------------------------------------------------------------

  /** The state has seen the whole blocks of what was fed, and the rest is held. */
  ghost predicate Holds<S>(mix: (S, seq<byte>) -> S, start: S, fed: seq<byte>, state: S, held: seq<byte>) {
    held == Rest(fed) && |Whole(fed)| % BLOCK == 0 && state == Compressed(mix, start, Whole(fed))
  }

  lemma HoldsNothing<S>(mix: (S, seq<byte>) -> S, start: S)
    ensures Holds(mix, start, [], start, [])
  {
  }

  lemma Parted(whole: seq<byte>, tail: seq<byte>)
    requires |whole| % BLOCK == 0 && |tail| < BLOCK
    ensures Whole(whole + tail) == whole && Rest(whole + tail) == tail
  {
  }

  lemma Parts(data: seq<byte>)
    ensures data == Whole(data) + Rest(data) && |Whole(data)| % BLOCK == 0 && |Rest(data)| == |data| % BLOCK < BLOCK
  {
  }

  /** Bytes that do not fill the block are held. */
  lemma HoldsMore<S>(mix: (S, seq<byte>) -> S, start: S, fed: seq<byte>, state: S, held: seq<byte>, more: seq<byte>)
    requires Holds(mix, start, fed, state, held) && |held| + |more| < BLOCK
    ensures Holds(mix, start, fed + more, state, held + more)
  {
    hide Whole, Rest, Compressed;
    Parts(fed);
    Parted(Whole(fed), held + more);
    assert fed + more == Whole(fed) + (held + more);
  }

  /** Bytes that fill the block are compressed with what was held. */
  lemma HoldsBlock<S>(mix: (S, seq<byte>) -> S, start: S, fed: seq<byte>, state: S, held: seq<byte>, more: seq<byte>)
    requires Holds(mix, start, fed, state, held) && |held| + |more| == BLOCK
    ensures Holds(mix, start, fed + more, mix(state, held + more), [])
  {
    hide Whole, Rest, Compressed;
    var block := held + more;
    Parts(fed);
    CompressedConcat(mix, start, Whole(fed), block);
    CompressedOne(mix, state, block);
    WholeAndBlock(Whole(fed), block);
    Parted(Whole(fed) + block, []);
    assert fed + more == Whole(fed) + block == Whole(fed) + block + [];
  }

  lemma WholeAndBlock(whole: seq<byte>, block: seq<byte>)
    requires |whole| % BLOCK == 0 && |block| == BLOCK
    ensures |whole + block| % BLOCK == 0
  {
  }

  /** The digest is the state once the padded message is fed. */
  lemma HoldsDigest<S>(mix: (S, seq<byte>) -> S, start: S, message: seq<byte>, state: S, held: seq<byte>)
    requires Holds(mix, start, message + Padding(|message|), state, held)
    ensures state == Digest(mix, start, message)
  {
    hide Compressed, Padding;
    PaddedWhole(message);
    var fed := message + Padding(|message|);
    assert Whole(fed) == fed;
  }

  lemma BitsAdd(n: nat, k: nat)
    ensures (8 * n % TWO_TO_64 + k * 8) % TWO_TO_64 == 8 * (n + k) % TWO_TO_64
  {
    assert 8 * (n + k) == 8 * n + k * 8;
  }

  /** While zeros are due the buffer is not at its mark, and then it is. */
  lemma ZerosNeeded(n: nat, k: nat)
    requires k <= ZerosDue(n)
    ensures (n + 1 + k) % BLOCK == 56 <==> k == ZerosDue(n)
  {
    if (n + 1 + k) % BLOCK == 56 {
      ZerosDueLeast(n, k);
    }
  }

  // --- the object --------------------------------------------------------------------------------

  class Md5<S> {
    const mix: (S, seq<byte>) -> S
    const start: S
    const buffer: array<byte>
    var state: S
    var bits: nat
    var buffered: nat
    var finished: bool
    /** All bytes taken in since the last reset. */
    ghost var fed: seq<byte>

    constructor (mix: (S, seq<byte>) -> S, start: S)
      ensures this.mix == mix && this.start == start && fresh(buffer)
      ensures Valid() && fed == [] && !finished
    {
      hide Holds;
      HoldsNothing(mix, start);
      this.mix, this.start := mix, start;
      buffer := new byte[BLOCK](_ => 0);
      state, bits, buffered, finished, fed := start, 0, 0, false, [];
      new;
      assert buffer[..0] == [];
    }

    ghost predicate Valid()
      reads this, buffer
    {
      && buffer.Length == BLOCK && buffered < BLOCK && bits == 8 * |fed| % TWO_TO_64
      && Holds(mix, start, fed, state, buffer[..buffered])
    }

    method Reset()
      requires buffer.Length == BLOCK
      modifies this
      ensures Valid() && fed == [] && !finished
    {
      hide Holds;
      HoldsNothing(mix, start);
      state, bits, buffered, finished, fed := start, 0, 0, false, [];
      assert buffer[..0] == [];
    }

    /** What holds after is a function of all bytes so far, however they were cut. */
    method Update(data: seq<byte>)
      requires Valid()
      modifies this, buffer
      ensures Valid() && finished == old(finished)
      ensures fed == if finished then old(fed) else old(fed) + data
    {
      hide Holds;
      if finished {
        return;
      }
      ghost var before := fed;
      BitsAdd(|before|, |data|);
      bits := (bits + |data| * 8) % TWO_TO_64;
      var at := 0;
      fed := before + data;
      assert before + data[..0] == before && data[..|data|] == data;
      if buffered > 0 {
        at := TopUp(data, before);
        if buffered > 0 {
          return;
        }
      } else {
        assert buffer[..buffered] == [];
      }
      at := TakeBlocks(data, at, before);
      var left := |data| - at;
      HoldsMore(mix, start, before + data[..at], state, [], data[at..]);
      Copy(data, at, left);
      buffered := left;
      Rejoin(before, data, at);
    }

    /** Fills a partial block first; it stays partial when data is too short. */
    method TopUp(data: seq<byte>, ghost before: seq<byte>) returns (at: nat)
      requires buffer.Length == BLOCK && 0 < buffered < BLOCK
      requires Holds(mix, start, before, state, buffer[..buffered])
      modifies this`state, this`buffered, buffer
      ensures at <= |data| && buffered < BLOCK && (buffered > 0 ==> at == |data|)
      ensures Holds(mix, start, before + data[..at], state, buffer[..buffered])
      ensures buffered == 0 ==> buffer[..buffered] == []
    {
      hide Holds;
      ghost var held := buffer[..buffered];
      var want := BLOCK - buffered;
      at := if |data| < want then |data| else want;
      Copy(data, 0, at);
      assert data[0..at] == data[..at];
      buffered := buffered + at;
      if buffered < BLOCK {
        HoldsMore(mix, start, before, state, held, data[..at]);
        return;
      }
      assert buffer[..BLOCK] == buffer[..];
      HoldsBlock(mix, start, before, state, held, data[..at]);
      state := mix(state, buffer[..]);
      buffered := 0;
      assert buffer[..0] == [];
    }

    /** Takes whole blocks straight from data. */
    method TakeBlocks(data: seq<byte>, from: nat, ghost before: seq<byte>) returns (at: nat)
      requires from <= |data| && Holds(mix, start, before + data[..from], state, [])
      modifies this`state
      ensures from <= at <= |data| && |data| - at < BLOCK
      ensures Holds(mix, start, before + data[..at], state, [])
    {
      hide Holds;
      at := from;
      while |data| - at >= BLOCK
        invariant from <= at <= |data| && Holds(mix, start, before + data[..at], state, [])
      {
        var block := data[at..at + BLOCK];
        HoldsBlock(mix, start, before + data[..at], state, [], block);
        assert [] + block == block && before + data[..at + BLOCK] == before + data[..at] + block;
        state := mix(state, block);
        at := at + BLOCK;
      }
    }

    /** Bytes of data from at on go into the buffer behind what it holds. */
    method Copy(data: seq<byte>, at: nat, n: nat)
      requires buffer.Length == BLOCK && at + n <= |data| && buffered + n <= BLOCK
      modifies buffer
      ensures buffer[..buffered + n] == old(buffer[..buffered]) + data[at..at + n]
    {
      for i := 0 to n
        invariant buffer[..buffered + i] == old(buffer[..buffered]) + data[at..at + i]
      {
        buffer[buffered + i] := data[at + i];
        assert data[at..at + i + 1] == data[at..at + i] + [data[at + i]];
      }
    }

    lemma HeldCount()
      requires Valid()
      ensures buffered == |fed| % BLOCK
    {
      Parts(fed);
    }

    lemma ZerosLeft(message: seq<byte>, zeros: nat)
      requires Valid() && fed == message + [0x80] + ZeroBytes(zeros) && zeros <= ZerosDue(|message|)
      ensures buffered == 56 <==> zeros == ZerosDue(|message|)
    {
      hide Holds, ZerosDue, ZeroBytes;
      HeldCount();
      assert |fed| == |message| + 1 + zeros;
      ZerosNeeded(|message|, zeros);
    }

    /** Zero bytes until the length's eight would end a block. */
    method AddZeros(ghost message: seq<byte>)
      requires Valid() && !finished && fed == message + [0x80]
      modifies this, buffer
      ensures Valid() && !finished && fed == message + [0x80] + ZeroBytes(ZerosDue(|message|))
    {
      hide Holds, ZerosDue, ZeroBytes;
      ghost var zeros: nat := 0;
      NoZeros(fed);
      while buffered != 56
        invariant Valid() && !finished && zeros <= ZerosDue(|message|)
        invariant fed == message + [0x80] + ZeroBytes(zeros)
        decreases ZerosDue(|message|) - zeros
      {
        ZerosLeft(message, zeros);
        Update([0]);
        OneZeroMore(message + [0x80], zeros);
        zeros := zeros + 1;
      }
      ZerosLeft(message, zeros);
    }

    /** Pads the message and takes in its length, once. */
    method Finish() returns (digest: S)
      requires Valid()
      modifies this, buffer
      ensures Valid() && finished && digest == state
      ensures !old(finished) ==> fed == old(fed) + Padding(|old(fed)|) && digest == Digest(mix, start, old(fed))
      ensures old(finished) ==> fed == old(fed) && digest == old(state)
    {
      hide Holds, ZerosDue, LittleEndian, ZeroBytes, Padding, Digest;
      if !finished {
        ghost var message := fed;
        var length := bits;
        Update([0x80]);
        AddZeros(message);
        Update(LittleEndian(length, 8));
        finished := true;
        Padded(message);
        HoldsDigest(mix, start, message, state, buffer[..buffered]);
      }
      digest := state;
    }
  }

  lemma Rejoin(before: seq<byte>, data: seq<byte>, at: nat)
    requires at <= |data|
    ensures before + data[..at] + data[at..] == before + data
    ensures [] + data[at..] == data[at..at + (|data| - at)]
  {
  }

  lemma NoZeros(data: seq<byte>)
    ensures data + ZeroBytes(0) == data
  {
  }

  lemma OneZeroMore(data: seq<byte>, k: nat)
    ensures data + ZeroBytes(k) + [0] == data + ZeroBytes(k + 1)
  {
  }

  lemma Padded(message: seq<byte>)
    ensures message + Padding(|message|)
         == message + [0x80] + ZeroBytes(ZerosDue(|message|)) + LittleEndian(8 * |message| % TWO_TO_64, 8)
  {
    hide ZerosDue, LittleEndian, ZeroBytes;
    var zeros, length := ZeroBytes(ZerosDue(|message|)), LittleEndian(8 * |message| % TWO_TO_64, 8);
    B.Assoc(message, [0x80] + zeros, length);
    B.Assoc(message, [0x80], zeros);
  }

  /** Cutting a message in two changes nothing. */
  method SplitsAgree<S>(mix: (S, seq<byte>) -> S, start: S, a: seq<byte>, b: seq<byte>) returns (whole: S, parts: S)
    ensures whole == parts == Digest(mix, start, a + b)
  {
    hide Digest;
    whole := InOne(mix, start, a + b);
    parts := InTwo(mix, start, a, b);
  }

  method InOne<S>(mix: (S, seq<byte>) -> S, start: S, message: seq<byte>) returns (digest: S)
    ensures digest == Digest(mix, start, message)
  {
    hide Holds, Digest, Padding;
    var md5 := new Md5(mix, start);
    md5.Update(message);
    assert [] + message == message;
    digest := md5.Finish();
  }

  method InTwo<S>(mix: (S, seq<byte>) -> S, start: S, a: seq<byte>, b: seq<byte>) returns (digest: S)
    ensures digest == Digest(mix, start, a + b)
  {
    hide Holds, Digest, Padding;
    var md5 := new Md5(mix, start);
    md5.Update(a);
    md5.Update(b);
    assert [] + a + b == a + b;
    digest := md5.Finish();
  }
}
