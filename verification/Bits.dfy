/**
 Bit streams, least significant bit first, and the packer that both GIF
 writers use: codes of varying width go in, whole bytes come out.
 */
module Bits {
  import opened Basics

  function Pow2(n: nat): (p: nat)
    ensures p > 0
  {
    if n == 0 then 1 else 2 * Pow2(n - 1)
  }

  /** The low w bits of x, least significant first. */
  function BitsOf(x: nat, w: nat): (s: seq<bool>)
    ensures |s| == w
  {
    if w == 0 then [] else [x % 2 == 1] + BitsOf(x / 2, w - 1)
  }

  /** The number a bit string denotes, least significant bit first. */
  function ValueOf(s: seq<bool>): nat {
    if s == [] then 0 else (if s[0] then 1 else 0) + 2 * ValueOf(s[1..])
  }

  function BitsOfBytes(data: seq<byte>): seq<bool> {
    if data == [] then [] else BitsOf(data[0], 8) + BitsOfBytes(data[1..])
  }

  function Zeros(n: nat): (s: seq<bool>)
    ensures |s| == n
  {
    seq(n, _ => false)
  }

  lemma {:induction false} Pow2Mono(a: nat, b: nat)
    requires a <= b
    ensures Pow2(a) <= Pow2(b)
    decreases b
  {
    if a < b {
      Pow2Mono(a, b - 1);
    }
  }

  lemma {:induction false} Pow2Add(a: nat, b: nat)
    ensures Pow2(a + b) == Pow2(a) * Pow2(b)
  {
    if a > 0 {
      Pow2Add(a - 1, b);
      assert Pow2(a + b) == 2 * Pow2(a + b - 1);
      assert a - 1 + b == a + b - 1;
    }
  }

  /** Reading back w bits of a number that fits in w bits gives the number. */
  lemma {:induction false} ValueOfBitsOf(x: nat, w: nat)
    requires x < Pow2(w)
    ensures ValueOf(BitsOf(x, w)) == x
  {
    if w > 0 {
      ValueOfBitsOf(x / 2, w - 1);
      assert BitsOf(x, w)[1..] == BitsOf(x / 2, w - 1);
    }
  }

  /** Zero bits above the top change nothing. */
  lemma {:induction false} ValueOfPadded(s: seq<bool>, n: nat)
    ensures ValueOf(s + Zeros(n)) == ValueOf(s)
    decreases |s| + n
  {
    if s != [] {
      ValueOfPadded(s[1..], n);
      assert (s + Zeros(n))[1..] == s[1..] + Zeros(n);
    } else if n > 0 {
      ValueOfPadded(s, n - 1);
      assert (s + Zeros(n))[1..] == s + Zeros(n - 1);
    }
  }

  lemma MulDouble(x: nat, p: nat)
    ensures x * (2 * p) == 2 * (x * p)
  {
  }

  lemma HalfOfSplit(lo: nat, above: nat)
    ensures (lo + 2 * above) % 2 == lo % 2 && (lo + 2 * above) / 2 == lo / 2 + above
  {
  }

  /** Laying hi above the low a bits is concatenation. */
  lemma {:induction false} BitsOfSplit(lo: nat, hi: nat, a: nat, b: nat)
    requires lo < Pow2(a)
    ensures BitsOf(lo + hi * Pow2(a), a + b) == BitsOf(lo, a) + BitsOf(hi, b)
  {
    if a > 0 {
      var above := hi * Pow2(a - 1);
      MulDouble(hi, Pow2(a - 1));
      HalfOfSplit(lo, above);
      var x := lo + 2 * above;
      assert x == lo + hi * Pow2(a);
      BitsOfSplit(lo / 2, hi, a - 1, b);
      assert BitsOf(x, a + b) == [x % 2 == 1] + BitsOf(x / 2, a - 1 + b);
    } else {
      assert hi * Pow2(0) == hi;
    }
  }

  lemma {:induction false} BitsOfBytesAppend(a: seq<byte>, b: seq<byte>)
    ensures BitsOfBytes(a + b) == BitsOfBytes(a) + BitsOfBytes(b)
  {
    if a == [] {
      assert a + b == b;
    } else {
      BitsOfBytesAppend(a[1..], b);
      assert (a + b)[1..] == a[1..] + b;
    }
  }

  lemma BitsOfBytesSnoc(a: seq<byte>, x: byte)
    ensures BitsOfBytes(a + [x]) == BitsOfBytes(a) + BitsOf(x, 8)
  {
    BitsOfBytesAppend(a, [x]);
    assert BitsOfBytes([x]) == BitsOf(x, 8) + BitsOfBytes([]);
  }

  /** Both coders' `emit` closure with the variables it captures. */
  class BitPacker {
    var out: seq<byte>
    var bits: nat
    var nbits: nat

    ghost predicate Valid()
      reads this
    {
      nbits < 8 && bits < Pow2(nbits)
    }

    /** Everything emitted so far: the whole bytes, then the bits still held. */
    ghost function Stream(): seq<bool>
      reads this
    {
      BitsOfBytes(out) + BitsOf(bits, nbits)
    }

    constructor ()
      ensures Valid() && Stream() == []
    {
      out, bits, nbits := [], 0, 0;
    }

    /** The new code lands above the held bits, so the or-assignment of the
        original is an addition: the operands share no bit. */
    method Emit(code: nat, width: nat)
      requires Valid() && code < Pow2(width)
      modifies this
      ensures Valid() && Stream() == old(Stream()) + BitsOf(code, width)
    {
      hide Pow2, BitsOf, BitsOfBytes;
      BitsOfSplit(bits, code, nbits, width);
      AboveFits(bits, code, nbits, width);
      bits := bits + code * Pow2(nbits);
      nbits := nbits + width;
      assert Stream() == old(Stream()) + BitsOf(code, width);
      while nbits >= 8
        invariant bits < Pow2(nbits)
        invariant Stream() == old(Stream()) + BitsOf(code, width)
      {
        TakeByte(out, bits, nbits);
        out := out + [bits % 256];
        bits := bits / 256;
        nbits := nbits - 8;
      }
    }

    /** The last, partly filled byte; the high bits are zero. */
    method Flush() returns (data: seq<byte>)
      requires Valid()
      ensures exists k: nat :: k < 8 && BitsOfBytes(data) == Stream() + Zeros(k)
    {
      data := out;
      if nbits > 0 {
        LastByte(out, bits, nbits);
        data := out + [bits % 256];
        assert BitsOfBytes(data) == Stream() + Zeros(8 - nbits);
      } else {
        assert BitsOfBytes(data) == Stream() + Zeros(0);
      }
    }
  }

  lemma {:induction false} MulMono(a: nat, b: nat, p: nat)
    requires a <= b
    ensures a * p <= b * p
    decreases b
  {
    if a < b {
      MulMono(a, b - 1, p);
      assert b * p == (b - 1) * p + p;
    }
  }

  lemma MulBound(lo: nat, hi: nat, p: nat, q: nat)
    requires lo < p && hi < q
    ensures lo + hi * p < p * q
  {
    MulMono(hi + 1, q, p);
    assert (hi + 1) * p == hi * p + p;
  }

  lemma AboveFits(lo: nat, hi: nat, a: nat, b: nat)
    requires lo < Pow2(a) && hi < Pow2(b)
    ensures lo + hi * Pow2(a) < Pow2(a + b)
  {
    Pow2Add(a, b);
    MulBound(lo, hi, Pow2(a), Pow2(b));
  }

  lemma Pow2Eight()
    ensures Pow2(8) == 256
  {
    assert Pow2(4) == 16;
  }

  lemma Assoc<T>(a: seq<T>, b: seq<T>, c: seq<T>)
    ensures (a + b) + c == a + (b + c)
  {
  }

  /** Moving the low eight held bits to the output keeps the stream. */
  lemma TakeByte(out: seq<byte>, bits: nat, n: nat)
    requires n >= 8 && bits < Pow2(n)
    ensures bits / 256 < Pow2(n - 8)
    ensures BitsOfBytes(out + [bits % 256]) + BitsOf(bits / 256, n - 8)
         == BitsOfBytes(out) + BitsOf(bits, n)
  {
    var low, high, eight := bits % 256, bits / 256, 8;
    Pow2Eight();
    assert low + high * Pow2(eight) == bits;
    BitsOfSplit(low, high, eight, n - eight);
    Pow2Add(eight, n - eight);
    BitsOfBytesSnoc(out, low);
    Assoc(BitsOfBytes(out), BitsOf(low, eight), BitsOf(high, n - eight));
  }

  lemma BitsOfWider(x: nat, a: nat, b: nat)
    requires x < Pow2(a)
    ensures BitsOf(x, a + b) == BitsOf(x, a) + Zeros(b)
  {
    BitsOfSplit(x, 0, a, b);
    BitsOfZero(b);
    assert 0 * Pow2(a) == 0;
  }

  lemma LastByte(out: seq<byte>, bits: nat, n: nat)
    requires 0 < n < 8 && bits < Pow2(n)
    ensures BitsOfBytes(out + [bits % 256]) == BitsOfBytes(out) + BitsOf(bits, n) + Zeros(8 - n)
  {
    var total := 8;
    Pow2Eight();
    Pow2Mono(n, total);
    assert bits % 256 == bits;
    BitsOfWider(bits, n, total - n);
    BitsOfBytesSnoc(out, bits);
  }

  lemma {:induction false} BitsOfZero(n: nat)
    ensures BitsOf(0, n) == Zeros(n)
  {
    if n > 0 {
      BitsOfZero(n - 1);
    }
  }
}
