/**
 CRC-32 of firmware/src/core/Checksum.cpp: the table-driven loop against the
 shift register of section 8 of RFC 1952, taken one bit at a time. A register is
 its 32 bits, least significant first, so that shifting right drops the first.
 */
module Checksum {
  import opened Basics
  import opened Bits

  type Word = w: seq<bool> | |w| == 32
    witness [false, false, false, false, false, false, false, false, false, false, false, false, false, false, false, false,
             false, false, false, false, false, false, false, false, false, false, false, false, false, false, false, false]

  const POLYNOMIAL: Word := BitsOf(0xEDB88320, 32)
  const ONES: Word := BitsOf(0xFFFFFFFF, 32)

  function Xor(a: seq<bool>, b: seq<bool>): (c: seq<bool>)
    requires |a| == |b|
    ensures |c| == |a| && forall i :: 0 <= i < |a| ==> c[i] == (a[i] != b[i])
  {
    seq(|a|, i requires 0 <= i < |a| => a[i] != b[i])
  }

  /** One shift of the register. */
  function Shift(value: Word): Word {
    var down := value[1..] + [false];
    if value[0] then Xor(POLYNOMIAL, down) else down
  }

  function Shifts(value: Word, n: nat): Word
    decreases n
  {
    if n == 0 then value else Shifts(Shift(value), n - 1)
  }

  /** A byte enters the register, then its eight bits are shifted out. */
  function Enter(crc: Word, octet: byte): Word {
    Shifts(Xor(crc, BitsOf(octet, 32)), 8)
  }

  function Register(crc: Word, data: seq<byte>): Word
    decreases |data|
  {
    if data == [] then crc else Register(Enter(crc, data[0]), data[1..])
  }

  /** The checksum of a message, bit by bit. */
  function Crc(data: seq<byte>): Word {
    Xor(Register(ONES, data), ONES)
  }

  // --- shifting is linear -------------------------------------------------------------------

  lemma ShiftLinear(a: Word, b: Word)
    ensures Shift(Xor(a, b)) == Xor(Shift(a), Shift(b))
  {
  }

  lemma {:induction false} ShiftsLinear(a: Word, b: Word, n: nat)
    ensures Shifts(Xor(a, b), n) == Xor(Shifts(a, n), Shifts(b, n))
    decreases n
  {
    hide Shift, Xor;
    if n > 0 {
      ShiftLinear(a, b);
      ShiftsLinear(Shift(a), Shift(b), n - 1);
    }
  }

  /** Bits with only zeros below them just move down. */
  lemma {:induction false} HighShifts(k: nat, t: seq<bool>)
    requires k + |t| == 32
    ensures Shifts(Zeros(k) + t, k) == t + Zeros(k)
    decreases k
  {
    hide Xor;
    if k == 0 {
      assert Zeros(0) + t == t + Zeros(0) == t;
    } else {
      var w: Word := Zeros(k) + t;
      assert w[1..] + [false] == Zeros(k - 1) + (t + [false]);
      HighShifts(k - 1, t + [false]);
      assert t + [false] + Zeros(k - 1) == t + Zeros(k);
    }
  }

  // --- the table -------------------------------------------------------------------------------

  lemma {:induction false} ZeroBits(w: nat)
    ensures BitsOf(0, w) == Zeros(w)
  {
    if w > 0 {
      ZeroBits(w - 1);
      assert [false] + Zeros(w - 1) == Zeros(w);
    }
  }

  lemma {:induction false} BitsOfValueOf(s: seq<bool>, k: nat)
    ensures BitsOf(ValueOf(s), |s| + k) == s + Zeros(k)
    decreases |s|
  {
    if s == [] {
      ZeroBits(k);
      assert s + Zeros(k) == Zeros(k);
    } else {
      BitsOfValueOf(s[1..], k);
      var v := ValueOf(s);
      assert v / 2 == ValueOf(s[1..]) && (v % 2 == 1) == s[0];
      assert |s| + k - 1 == |s[1..]| + k;
      assert [s[0]] + (s[1..] + Zeros(k)) == s + Zeros(k);
    }
  }

  lemma ByteBits(octet: byte)
    ensures BitsOf(octet, 32) == BitsOf(octet, 8) + Zeros(24)
  {
    assert Pow2(8) == 256 by {
      assert Pow2(4) == 16;
    }
    BitsOfSplit(octet, 0, 8, 24);
    ZeroBits(24);
  }

  /** The low byte of the register can be looked up on its own. */
  lemma LowByteAlone(x: Word)
    ensures Shifts(x, 8) == Xor(Shifts(x[..8] + Zeros(24), 8), x[8..] + Zeros(8))
  {
    hide Shifts;
    var low: Word, high: Word := x[..8] + Zeros(24), Zeros(8) + x[8..];
    assert x == Xor(low, high);
    ShiftsLinear(low, high, 8);
    HighShifts(8, x[8..]);
  }

  lemma {:induction false} ValueBelow(s: seq<bool>)
    ensures ValueOf(s) < Pow2(|s|)
  {
    if s != [] {
      ValueBelow(s[1..]);
    }
  }

  /** What a table of eight shifts gives for the byte that leaves the register. */
  lemma LookUp(crc: Word, octet: byte)
    ensures var x := Xor(crc, BitsOf(octet, 32)); var index := ValueOf(x[..8]);
      index < 256 && Enter(crc, octet) == Xor(Shifts(BitsOf(index, 32), 8), crc[8..] + Zeros(8))
  {
    hide Shifts;
    var x := Xor(crc, BitsOf(octet, 32));
    assert Pow2(8) == 256 by {
      assert Pow2(4) == 16;
    }
    ValueBelow(x[..8]);
    BitsOfValueOf(x[..8], 24);
    LowByteAlone(x);
    ByteBits(octet);
    assert x[8..] == crc[8..];
  }

  ghost predicate IsTable(entries: seq<Word>) {
    |entries| == 256 && forall n: nat :: n < 256 ==> entries[n] == Shifts(BitsOf(n, 32), 8)
  }

  /** The inner loop of table. */
  method Entry(n: nat) returns (value: Word)
    ensures value == Shifts(BitsOf(n, 32), 8)
  {
    hide Xor, BitsOf;
    value := BitsOf(n, 32);
    for bit := 0 to 8
      invariant Shifts(value, 8 - bit) == Shifts(BitsOf(n, 32), 8)
    {
      var down := value[1..] + [false];
      value := if value[0] then Xor(POLYNOMIAL, down) else down;
    }
  }

  method Table() returns (entries: array<Word>)
    ensures fresh(entries) && IsTable(entries[..])
  {
    hide Shifts, BitsOf;
    entries := new Word[256](_ => Zeros(32));
    for n := 0 to 256
      invariant forall m: nat :: m < n ==> entries[m] == Shifts(BitsOf(m, 32), 8)
    {
      var value := Entry(n);
      entries[n] := value;
    }
  }

  /** The fast form computes the checksum that the bits define. */
  method Crc32(data: seq<byte>) returns (sum: Word)
    ensures sum == Crc(data)
  {
    hide Xor, Enter, Shifts;
    var lookup := Table();
    var crc: Word := ONES;
    assert data[0..] == data;
    for i := 0 to |data|
      invariant IsTable(lookup[..])
      invariant Register(crc, data[i..]) == Register(ONES, data)
    {
      LookUp(crc, data[i]);
      assert data[i..][1..] == data[i + 1..];
      var index := ValueOf(Xor(crc, BitsOf(data[i], 32))[..8]);
      assert lookup[..][index] == lookup[index];
      crc := Xor(lookup[index], crc[8..] + Zeros(8));
    }
    assert data[|data|..] == [];
    sum := Xor(crc, ONES);
  }

  // --- what it detects ----------------------------------------------------------------------------

  lemma PolynomialEndsInOne()
    ensures POLYNOMIAL[31]
  {
    hide BitsOf;
    Pow2ThirtyOne();
    var low, high, top := 0x6DB88320, 1, 31;
    BitsOfSplit(low, high, top, 1);
    assert low + high * Pow2(top) == 0xEDB88320;
    OneBit();
  }

  lemma OneBit()
    ensures BitsOf(1, 1) == [true]
  {
    assert BitsOf(1, 1) == [true] + BitsOf(0, 0);
  }

  lemma Pow2ThirtyOne()
    ensures Pow2(31) == 0x8000_0000
  {
    var seven, eight, sixteen := 7, 8, 16;
    Pow2Eight();
    Pow2Add(seven, 1);
    Pow2Add(eight, seven);
    Pow2Add(sixteen, eight + seven);
    Pow2Add(eight, eight);
    assert Pow2(1) == 2;
  }

  /** The last bit after a shift tells the first bit before it. */
  lemma ShiftInjective(a: Word, b: Word)
    requires Shift(a) == Shift(b)
    ensures a == b
  {
    PolynomialEndsInOne();
    assert Shift(a)[31] == a[0] && Shift(b)[31] == b[0];
    forall i | 1 <= i < 32 ensures a[i] == b[i] {
      assert Shift(a)[i - 1] == Shift(b)[i - 1];
    }
  }

  lemma {:induction false} ShiftsInjective(a: Word, b: Word, n: nat)
    requires Shifts(a, n) == Shifts(b, n)
    ensures a == b
    decreases n
  {
    hide Shift;
    if n > 0 {
      ShiftsInjective(Shift(a), Shift(b), n - 1);
      ShiftInjective(a, b);
    }
  }

  lemma XorCancels(a: seq<bool>, b: seq<bool>, c: seq<bool>)
    requires |a| == |b| == |c|
    ensures Xor(a, c) == Xor(b, c) ==> a == b
    ensures Xor(c, a) == Xor(c, b) ==> a == b
  {
    forall i | 0 <= i < |a| && a[i] != b[i] ensures Xor(a, c)[i] != Xor(b, c)[i] && Xor(c, a)[i] != Xor(c, b)[i] {
    }
  }

  lemma {:induction false} RegisterInjective(a: Word, b: Word, data: seq<byte>)
    requires Register(a, data) == Register(b, data)
    ensures a == b
    decreases |data|
  {
    hide Shifts, Xor;
    if data != [] {
      RegisterInjective(Enter(a, data[0]), Enter(b, data[0]), data[1..]);
      ShiftsInjective(Xor(a, BitsOf(data[0], 32)), Xor(b, BitsOf(data[0], 32)), 8);
      XorCancels(a, b, BitsOf(data[0], 32));
    }
  }

  lemma {:induction false} RegisterConcat(crc: Word, a: seq<byte>, b: seq<byte>)
    ensures Register(crc, a + b) == Register(Register(crc, a), b)
    decreases |a|
  {
    hide Enter;
    if a == [] {
      assert a + b == b;
    } else {
      RegisterConcat(Enter(crc, a[0]), a[1..], b);
      assert (a + b)[1..] == a[1..] + b;
    }
  }

  lemma {:induction false} ShiftsAdd(w: Word, m: nat, n: nat)
    ensures Shifts(w, m + n) == Shifts(Shifts(w, m), n)
    decreases m
  {
    hide Shift;
    if m > 0 {
      ShiftsAdd(Shift(w), m - 1, n);
    }
  }

  /** Up to four bytes enter the register as one word would. */
  lemma {:induction false} FewEnterAtOnce(crc: Word, data: seq<byte>)
    requires |data| <= 4
    ensures |BitsOfBytes(data)| == 8 * |data|
    ensures Register(crc, data) == Shifts(Xor(crc, BitsOfBytes(data) + Zeros(32 - 8 * |data|)), 8 * |data|)
    decreases |data|
  {
    hide Enter, Shifts, Xor, BitsOf;
    if data == [] {
      NothingEnters(crc);
    } else {
      var k := |data| - 1;
      var front, last := data[..k], data[k];
      assert data == front + [last];
      FewEnterAtOnce(crc, front);
      BitsOfBytesSnoc(front, last);
      RegisterConcat(crc, front, [last]);
      RegisterOne(Register(crc, front), last);
      OneMoreEnters(crc, BitsOfBytes(front), last, k);
    }
  }

  lemma NothingEnters(crc: Word)
    ensures BitsOfBytes([]) == [] && Register(crc, []) == crc == Shifts(Xor(crc, [] + Zeros(32)), 0)
  {
    assert Xor(crc, [] + Zeros(32)) == crc;
  }

  lemma RegisterOne(crc: Word, octet: byte)
    ensures Register(crc, [octet]) == Enter(crc, octet)
  {
    assert Register(crc, [octet]) == Register(Enter(crc, octet), []);
  }

  lemma OneMoreEnters(crc: Word, bits: seq<bool>, octet: byte, k: nat)
    requires k < 4 && |bits| == 8 * k
    ensures Enter(Shifts(Xor(crc, bits + Zeros(32 - 8 * k)), 8 * k), octet)
         == Shifts(Xor(crc, bits + BitsOf(octet, 8) + Zeros(24 - 8 * k)), 8 * k + 8)
  {
    hide Shifts, Xor, BitsOf;
    var before: Word := Xor(crc, bits + Zeros(32 - 8 * k));
    var shifted: Word := Zeros(8 * k) + (BitsOf(octet, 8) + Zeros(24 - 8 * k));
    HighShifts(8 * k, BitsOf(octet, 8) + Zeros(24 - 8 * k));
    ByteBits(octet);
    assert BitsOf(octet, 8) + Zeros(24 - 8 * k) + Zeros(8 * k) == BitsOf(octet, 32);
    ShiftsLinear(before, shifted, 8 * k);
    ShiftsAdd(Xor(before, shifted), 8 * k, 8);
    XorTogether(crc, bits, BitsOf(octet, 8), 8 * k);
  }

  lemma XorTogether(crc: Word, bits: seq<bool>, more: seq<bool>, n: nat)
    requires |bits| == n && |more| == 8 && n + 8 <= 32
    ensures Xor(Xor(crc, bits + Zeros(32 - n)), Zeros(n) + (more + Zeros(24 - n))) == Xor(crc, bits + more + Zeros(24 - n))
  {
  }

  /** A change confined to four bytes in a row never goes unnoticed. */
  lemma BurstDetected(pre: seq<byte>, a: seq<byte>, b: seq<byte>, post: seq<byte>)
    requires |a| == |b| <= 4 && a != b
    ensures Crc(pre + a + post) != Crc(pre + b + post)
  {
    hide Shifts, Xor, BitsOf, Register;
    var crc := Register(ONES, pre);
    RegisterConcat(ONES, pre + a, post);
    RegisterConcat(ONES, pre, a);
    RegisterConcat(ONES, pre + b, post);
    RegisterConcat(ONES, pre, b);
    if Crc(pre + a + post) == Crc(pre + b + post) {
      XorCancels(Register(ONES, pre + a + post), Register(ONES, pre + b + post), ONES);
      RegisterInjective(Register(crc, a), Register(crc, b), post);
      FewEnterAtOnce(crc, a);
      FewEnterAtOnce(crc, b);
      var x, y := BitsOfBytes(a) + Zeros(32 - 8 * |a|), BitsOfBytes(b) + Zeros(32 - 8 * |a|);
      ShiftsInjective(Xor(crc, x), Xor(crc, y), 8 * |a|);
      XorCancels(x, y, crc);
      assert x[..8 * |a|] == BitsOfBytes(a) && y[..8 * |a|] == BitsOfBytes(b);
      BytesFromBits(a, b);
    }
  }

  lemma {:induction false} BytesFromBits(a: seq<byte>, b: seq<byte>)
    requires |a| == |b| && BitsOfBytes(a) == BitsOfBytes(b)
    ensures a == b
    decreases |a|
  {
    hide BitsOf;
    if a != [] {
      var u, v := BitsOfBytes(a), BitsOfBytes(b);
      assert u[..8] == BitsOf(a[0], 8) && v[..8] == BitsOf(b[0], 8);
      assert u[8..] == BitsOfBytes(a[1..]) && v[8..] == BitsOfBytes(b[1..]);
      BytesFromBits(a[1..], b[1..]);
      ByteFromBits(a[0], b[0]);
      assert a == [a[0]] + a[1..] && b == [b[0]] + b[1..];
    }
  }

  lemma ByteFromBits(a: byte, b: byte)
    requires BitsOf(a, 8) == BitsOf(b, 8)
    ensures a == b
  {
    assert Pow2(8) == 256 by {
      assert Pow2(4) == 16;
    }
    ValueOfBitsOf(a, 8);
    ValueOfBitsOf(b, 8);
  }
}
