/**
 GIF's variable-width LZW: the preview generator's coder (string-keyed table,
 tooling/site/build-previews.py), the web page's coder (prefix-code-keyed
 table, firmware/web/app.js) and the decoder of Appendix F of the GIF89a
 specification.
 */
module GifLzw {
  import opened Basics
  import opened Bits

  /** One emitted code together with the width it was emitted at. */
  datatype Sym = Sym(code: nat, width: nat)

  function Clear(m: nat): nat { Pow2(m) }
  function End(m: nat): nat { Pow2(m) + 1 }

  predicate Drawable(pixels: seq<byte>, m: nat) {
    forall i :: 0 <= i < |pixels| ==> pixels[i] < Clear(m)
  }

  // --- the Python coder as a step function -----------------------------------

  datatype Coder = Coder(table: map<seq<byte>, nat>, next: nat, width: nat, run: seq<byte>)

  function FreshTable(m: nat): map<seq<byte>, nat>
    requires m <= 8
  {
    map s: seq<byte> | s in Singletons(m) :: s[0]
  }

  function Singletons(m: nat): (r: set<seq<byte>>)
    requires m <= 8
    ensures forall s :: s in r ==> |s| == 1 && s[0] < Clear(m)
    ensures forall v: byte :: v < Clear(m) ==> [v] in r
  {
    set v: byte | v < Clear(m) :: [v]
  }

  function Start(m: nat, first: byte): Coder
    requires m <= 8
  {
    Coder(FreshTable(m), End(m) + 1, m + 1, [first])
  }

  function Step(m: nat, c: Coder, v: byte): (Coder, seq<Sym>)
    requires m <= 8 && c.run in c.table
  {
    var candidate := c.run + [v];
    if candidate in c.table then
      (c.(run := candidate), [])
    else
      var hit := Sym(c.table[c.run], c.width);
      if c.next < 4096 then
        var next := c.next + 1;
        var width := if next > Pow2(c.width) && c.width < 12 then c.width + 1 else c.width;
        (Coder(c.table[candidate := c.next], next, width, [v]), [hit])
      else
        (Start(m, v), [hit, Sym(Clear(m), c.width)])
  }

  /** Every table holds the alphabet, so the current run is always in it. */
  predicate Primed(m: nat, c: Coder)
    requires m <= 8
  {
    c.run in c.table && Singletons(m) <= c.table.Keys
  }

  lemma StepPrimed(m: nat, c: Coder, v: byte)
    requires m <= 8 && Primed(m, c) && v < Clear(m)
    ensures Primed(m, Step(m, c, v).0)
  {
    assert [v] in Singletons(m);
  }

  /** The codes for the rest of the picture, ending with the end code. */
  function Tail(m: nat, c: Coder, rest: seq<byte>): seq<Sym>
    requires m <= 8 && Primed(m, c) && Drawable(rest, m)
    decreases |rest|
  {
    if rest == [] then
      [Sym(c.table[c.run], c.width), Sym(End(m), c.width)]
    else
      var (c', out) := Step(m, c, rest[0]);
      StepPrimed(m, c, rest[0]);
      out + Tail(m, c', rest[1..])
  }

  /** Everything after the leading clear. */
  function Body(pixels: seq<byte>, m: nat): seq<Sym>
    requires m <= 8 && Drawable(pixels, m)
  {
    if pixels == [] then [Sym(End(m), m + 1)] else Tail(m, Start(m, pixels[0]), pixels[1..])
  }

  function Codes(pixels: seq<byte>, m: nat): seq<Sym>
    requires m <= 8 && Drawable(pixels, m)
  {
    [Sym(Clear(m), m + 1)] + Body(pixels, m)
  }

  function SymBits(syms: seq<Sym>): seq<bool> {
    if syms == [] then [] else BitsOf(syms[0].code, syms[0].width) + SymBits(syms[1..])
  }

  lemma {:induction false} SymBitsAppend(a: seq<Sym>, b: seq<Sym>)
    ensures SymBits(a + b) == SymBits(a) + SymBits(b)
  {
    hide BitsOf;
    if a == [] {
      assert a + b == b;
    } else {
      var first, later := a[0], a[1..];
      SymBitsAppend(later, b);
      assert (a + b)[0] == first && (a + b)[1..] == later + b;
      Assoc(BitsOf(first.code, first.width), SymBits(later), SymBits(b));
    }
  }

  // --- the decoder of Appendix F ----------------------------------------------

  /** entries[c] is the string of code c; the clear and end codes hold a
      placeholder. prev is the code before this one, None just after a clear. */
  datatype Decoder = Decoder(entries: seq<seq<byte>>, width: nat, prev: Option<nat>)

  function FreshEntries(m: nat): seq<seq<byte>>
    requires m <= 8
  {
    seq(Clear(m) + 2, i requires 0 <= i < Clear(m) + 2 =>
      if i < Clear(m) then (Pow2Mono(m, 8); Pow2Eight(); [i as byte]) else [])
  }

  function FreshDecoder(m: nat): Decoder
    requires m <= 8
  {
    Decoder(FreshEntries(m), m + 1, None)
  }

  predicate IsString(m: nat, entries: seq<seq<byte>>, code: nat) {
    code < |entries| && code != Clear(m) && code != End(m) && entries[code] != []
  }

  /** What one data code means: its string and the decoder afterwards. A code
      one past the table is the string of the previous code followed by that
      string's first value. None for a code that means nothing. */
  function Interpret(m: nat, d: Decoder, code: nat): Option<(seq<byte>, Decoder)>
  {
    match d.prev
    case None =>
      if IsString(m, d.entries, code) then Some((d.entries[code], d.(prev := Some(code)))) else None
    case Some(p) =>
      if !IsString(m, d.entries, p) then None else
      var before := d.entries[p];
      if !IsString(m, d.entries, code) && (code != |d.entries| || |d.entries| >= 4096) then None else
      var text := if code < |d.entries| then d.entries[code] else before + [before[0]];
      if |d.entries| >= 4096 then Some((text, d.(prev := Some(code)))) else
      var entries := d.entries + [before + [text[0]]];
      var width := if |entries| == Pow2(d.width) && d.width < 12 then d.width + 1 else d.width;
      Some((text, Decoder(entries, width, Some(code))))
  }

  /** Stops at the end code or when too few bits remain for another code. */
  function Decode(m: nat, d: Decoder, bits: seq<bool>): Option<seq<byte>>
    requires m <= 8
    decreases |bits|
  {
    if d.width == 0 || |bits| < d.width then Some([]) else
    var code := ValueOf(bits[..d.width]);
    var rest := bits[d.width..];
    if code == Clear(m) then Decode(m, FreshDecoder(m), rest)
    else if code == End(m) then Some([])
    else match Interpret(m, d, code)
      case None => None
      case Some((text, d')) =>
        match Decode(m, d', rest)
        case None => None
        case Some(tail) => Some(text + tail)
  }

  // --- the round trip ----------------------------------------------------------

  /** strings lists the coder's table by code: the two are inverse maps. */
  ghost predicate Lists(m: nat, table: map<seq<byte>, nat>, strings: seq<seq<byte>>) {
    && |strings| >= Clear(m) + 2
    && (forall s :: s in table ==> IsString(m, strings, table[s]) && strings[table[s]] == s)
    && (forall k {:trigger strings[k]} :: 0 <= k < |strings| && k != Clear(m) && k != End(m) ==>
          strings[k] in table && table[strings[k]] == k)
  }

  /** The decoder runs one entry behind the coder. The entry it lacks is the
      one its next code will complete: the previous string and the first value
      of the coder's current run. */
  ghost predicate Behind(m: nat, c: Coder, d: Decoder, strings: seq<seq<byte>>) {
    && Lists(m, c.table, strings)
    && |strings| == c.next <= 4096
    && c.run != []
    && c.width == d.width <= 12
    && (match d.prev
        case None =>
          c.next == Clear(m) + 2 && d.entries == strings && c.width == m + 1
        case Some(p) =>
          && c.next > Clear(m) + 2
          && d.entries == strings[..c.next - 1]
          && IsString(m, d.entries, p)
          && strings[c.next - 1] == d.entries[p] + [c.run[0]]
          && c.next <= Pow2(c.width)
          && m < c.width)
  }

  lemma FreshLists(m: nat)
    requires m <= 8
    ensures Lists(m, FreshTable(m), FreshEntries(m))
  {
    var strings := FreshEntries(m);
    forall k | 0 <= k < |strings| && k != Clear(m) && k != End(m)
      ensures strings[k] in FreshTable(m) && FreshTable(m)[strings[k]] == k
    {
      assert k < Clear(m);
      Pow2Mono(m, 8);
      Pow2Eight();
      assert strings[k] == [k as byte];
    }
    forall s | s in FreshTable(m)
      ensures IsString(m, strings, FreshTable(m)[s]) && strings[FreshTable(m)[s]] == s
    {
      assert s in Singletons(m) && s == [s[0]];
    }
  }

  lemma FreshBehind(m: nat, v: byte)
    requires 2 <= m <= 8 && v < Clear(m)
    ensures Primed(m, Start(m, v)) && Behind(m, Start(m, v), FreshDecoder(m), FreshEntries(m))
  {
    FreshLists(m);
    assert [v] in Singletons(m);
    Pow2Mono(m, 8);
    Pow2Eight();
  }

  /** A clear, and every code of the table, fits the current width. */
  lemma CodeFits(m: nat, c: Coder, d: Decoder, strings: seq<seq<byte>>)
    requires 2 <= m <= 8 && Primed(m, c) && Behind(m, c, d, strings)
    ensures c.table[c.run] < Pow2(c.width) && End(m) < Pow2(c.width)
  {
    Pow2Mono(m + 1, c.width);
    FreshWidth(m);
  }

  /** The decoder after the code of the coder's run: it has the coder's whole
      table, and has widened if that filled the current width. */
  ghost predicate CaughtUp(c: Coder, d: Decoder, strings: seq<seq<byte>>, d': Decoder)
    requires c.run in c.table
  {
    d' == Decoder(strings,
                  if d.prev.Some? && c.next == Pow2(c.width) && c.width < 12 then c.width + 1 else c.width,
                  Some(c.table[c.run]))
  }

  /** One code of the coder's stream gives the coder's run and brings the
      decoder's table up to the coder's. */
  lemma InterpretsRun(m: nat, c: Coder, d: Decoder, strings: seq<seq<byte>>) returns (d': Decoder)
    requires 2 <= m <= 8 && Primed(m, c) && Behind(m, c, d, strings)
    ensures c.table[c.run] != Clear(m) && c.table[c.run] != End(m)
    ensures Interpret(m, d, c.table[c.run]) == Some((c.run, d'))
    ensures CaughtUp(c, d, strings, d')
  {
    var code := c.table[c.run];
    d' := Interpret(m, d, code).value.1;
    if d.prev.Some? {
      assert strings == d.entries + [strings[c.next - 1]];
    }
  }

  lemma ListsExtend(m: nat, table: map<seq<byte>, nat>, strings: seq<seq<byte>>, s: seq<byte>)
    requires Lists(m, table, strings) && s != [] && s !in table
    ensures Lists(m, table[s := |strings|], strings + [s])
  {
    var table', strings' := table[s := |strings|], strings + [s];
    forall k | 0 <= k < |strings'| && k != Clear(m) && k != End(m)
      ensures strings'[k] in table' && table'[strings'[k]] == k
    {
      if k < |strings| {
        assert strings'[k] == strings[k];
      }
    }
  }

  lemma ListedAt(m: nat, table: map<seq<byte>, nat>, strings: seq<seq<byte>>, s: seq<byte>)
    requires Lists(m, table, strings) && s in table
    ensures IsString(m, strings, table[s]) && strings[table[s]] == s && |strings| >= Clear(m) + 2
  {
  }

  lemma Widths(m: nat, next: nat, width: nat)
    requires 2 <= m < width <= 12 && next < 4096
    requires next <= Pow2(width)
    ensures (if next + 1 > Pow2(width) && width < 12 then width + 1 else width)
         == (if next == Pow2(width) && width < 12 then width + 1 else width)
    ensures next + 1 <= Pow2(if next == Pow2(width) && width < 12 then width + 1 else width)
  {
    assert Pow2(width + 1) == 2 * Pow2(width);
    if width == 12 {
      Pow2Twelve();
    }
  }

  lemma Pow2Twelve()
    ensures Pow2(12) == 4096
  {
    var n := 8;
    Pow2Add(n, 4);
    Pow2Eight();
    assert Pow2(4) == 16;
  }

  /** After a miss with room in the table, a decoder that has caught up with
      the old table is one entry behind the new one, at the new width. */
  lemma StaysBehind(m: nat, c: Coder, d: Decoder, strings: seq<seq<byte>>, v: byte, d': Decoder)
    requires 2 <= m <= 8 && Primed(m, c) && Behind(m, c, d, strings) && v < Clear(m)
    requires c.run + [v] !in c.table && c.next < 4096
    requires CaughtUp(c, d, strings, d')
    ensures Behind(m, Step(m, c, v).0, d', strings + [c.run + [v]])
  {
    hide FreshTable, FreshEntries, Singletons, BitsOf, Lists;
    ListedAt(m, c.table, strings, c.run);
    ListsExtend(m, c.table, strings, c.run + [v]);
    var strings' := strings + [c.run + [v]];
    var c' := Step(m, c, v).0;
    assert strings'[..c.next] == strings;
    assert c'.width == d'.width <= 12 && c'.next <= Pow2(c'.width) && m < c'.width by {
      if d.prev.None? {
        FreshWidth(m);
      } else {
        Widths(m, c.next, c.width);
      }
    }
  }

  lemma FreshWidth(m: nat)
    requires 2 <= m
    ensures Clear(m) + 3 <= Pow2(m + 1)
  {
    Pow2Mono(2, m);
    assert Pow2(2) == 4;
  }

  lemma ReadCode(code: nat, width: nat, rest: seq<bool>)
    requires code < Pow2(width)
    ensures var bits := BitsOf(code, width) + rest;
      ValueOf(bits[..width]) == code && bits[width..] == rest
  {
    ValueOfBitsOf(code, width);
    var bits := BitsOf(code, width) + rest;
    assert bits[..width] == BitsOf(code, width);
  }

  /** The end code may be one bit narrower than a decoder that has just
      widened expects. It is still read, or not reached, correctly: what
      follows it is zero padding. */
  lemma DecodeEnd(m: nat, d: Decoder, width: nat, pad: nat)
    requires m <= 8 && 0 < width && End(m) < Pow2(width)
    requires d.width == width || d.width == width + 1
    ensures Decode(m, d, BitsOf(End(m), width) + Zeros(pad)) == Some([])
  {
    var bits := BitsOf(End(m), width) + Zeros(pad);
    if |bits| >= d.width {
      var extra := d.width - width;
      assert bits[..d.width] == BitsOf(End(m), width) + Zeros(extra);
      ValueOfPadded(BitsOf(End(m), width), extra);
      ValueOfBitsOf(End(m), width);
    }
  }

  /** Reading one code of the stream, when it is the code of a string. */
  lemma DecodeOne(m: nat, d: Decoder, code: nat, rest: seq<bool>, text: seq<byte>, d': Decoder, tail: seq<byte>)
    requires m <= 8 && 0 < d.width && code < Pow2(d.width) && code != Clear(m) && code != End(m)
    requires Interpret(m, d, code) == Some((text, d'))
    requires Decode(m, d', rest) == Some(tail)
    ensures Decode(m, d, BitsOf(code, d.width) + rest) == Some(text + tail)
  {
    ReadCode(code, d.width, rest);
  }

  lemma DecodeClear(m: nat, d: Decoder, rest: seq<bool>)
    requires m <= 8 && 0 < d.width && Clear(m) < Pow2(d.width)
    ensures Decode(m, d, BitsOf(Clear(m), d.width) + rest) == Decode(m, FreshDecoder(m), rest)
  {
    ReadCode(Clear(m), d.width, rest);
  }

  lemma {:induction false} DecodeTail(m: nat, c: Coder, d: Decoder, strings: seq<seq<byte>>, rest: seq<byte>, pad: nat)
    requires 2 <= m <= 8 && Primed(m, c) && Behind(m, c, d, strings) && Drawable(rest, m)
    ensures Decode(m, d, SymBits(Tail(m, c, rest)) + Zeros(pad)) == Some(c.run + rest)
    decreases |rest|, 1
  {
    if rest == [] {
      DecodeLast(m, c, d, strings, pad);
      assert c.run + rest == c.run;
    } else if c.run + [rest[0]] in c.table {
      DecodeHit(m, c, d, strings, rest, pad);
    } else {
      DecodeMiss(m, c, d, strings, rest, pad);
    }
  }

  lemma DecodeLast(m: nat, c: Coder, d: Decoder, strings: seq<seq<byte>>, pad: nat)
    requires 2 <= m <= 8 && Primed(m, c) && Behind(m, c, d, strings)
    ensures Decode(m, d, SymBits(Tail(m, c, [])) + Zeros(pad)) == Some(c.run)
  {
    CodeFits(m, c, d, strings);
    var d' := InterpretsRun(m, c, d, strings);
    var code := c.table[c.run];
    var after := BitsOf(End(m), c.width) + Zeros(pad);
    DecodeEnd(m, d', c.width, pad);
    DecodeOne(m, d, code, after, c.run, d', []);
    TwoSyms(Sym(code, c.width), Sym(End(m), c.width));
    assert SymBits(Tail(m, c, [])) + Zeros(pad) == BitsOf(code, d.width) + after;
    assert c.run + [] == c.run;
  }

  lemma TwoSyms(a: Sym, b: Sym)
    ensures SymBits([a]) == BitsOf(a.code, a.width)
    ensures SymBits([a, b]) == BitsOf(a.code, a.width) + BitsOf(b.code, b.width)
  {
    assert [a, b][1..] == [b];
    assert [b][1..] == [] && [a][1..] == [];
    assert SymBits([b]) == BitsOf(b.code, b.width) + SymBits([b][1..]);
  }

  lemma {:induction false} DecodeMiss(m: nat, c: Coder, d: Decoder, strings: seq<seq<byte>>, rest: seq<byte>, pad: nat)
    requires 2 <= m <= 8 && Primed(m, c) && Behind(m, c, d, strings) && Drawable(rest, m)
    requires rest != [] && c.run + [rest[0]] !in c.table
    ensures Decode(m, d, SymBits(Tail(m, c, rest)) + Zeros(pad)) == Some(c.run + rest)
    decreases |rest|, 0
  {
    CodeFits(m, c, d, strings);
    var d' := InterpretsRun(m, c, d, strings);
    var code, v, later := c.table[c.run], rest[0], rest[1..];
    var c' := Step(m, c, v).0;
    StepPrimed(m, c, v);
    var tail := SymBits(Tail(m, c', later)) + Zeros(pad);
    TailMiss(m, c, rest, pad);
    assert [v] + later == rest;
    if c.next < 4096 {
      StaysBehind(m, c, d, strings, v, d');
      DecodeTail(m, c', d', strings + [c.run + [v]], later, pad);
      DecodeOne(m, d, code, tail, c.run, d', rest);
    } else {
      FreshBehind(m, v);
      DecodeTail(m, c', FreshDecoder(m), FreshEntries(m), later, pad);
      DecodeFull(m, c, d, strings, d');
      DecodeClear(m, d', tail);
      DecodeOne(m, d, code, BitsOf(Clear(m), c.width) + tail, c.run, d', rest);
    }
  }

  lemma {:induction false} DecodeHit(m: nat, c: Coder, d: Decoder, strings: seq<seq<byte>>, rest: seq<byte>, pad: nat)
    requires 2 <= m <= 8 && Primed(m, c) && Behind(m, c, d, strings) && Drawable(rest, m)
    requires rest != [] && c.run + [rest[0]] in c.table
    ensures Decode(m, d, SymBits(Tail(m, c, rest)) + Zeros(pad)) == Some(c.run + rest)
    decreases |rest|, 0
  {
    var c' := c.(run := c.run + [rest[0]]);
    TailHit(m, c, rest);
    assert c'.run[0] == c.run[0];
    ShiftOne(c.run, rest);
    DecodeTail(m, c', d, strings, rest[1..], pad);
  }

  lemma TailHit(m: nat, c: Coder, rest: seq<byte>)
    requires m <= 8 && Primed(m, c) && Drawable(rest, m)
    requires rest != [] && c.run + [rest[0]] in c.table
    ensures Tail(m, c, rest) == Tail(m, c.(run := c.run + [rest[0]]), rest[1..])
  {
    StepPrimed(m, c, rest[0]);
  }

  /** The bits of a stream that begins with a miss. */
  lemma TailMiss(m: nat, c: Coder, rest: seq<byte>, pad: nat)
    requires m <= 8 && Primed(m, c) && Drawable(rest, m)
    requires rest != [] && c.run + [rest[0]] !in c.table
    ensures Primed(m, Step(m, c, rest[0]).0)
    ensures var tail := SymBits(Tail(m, Step(m, c, rest[0]).0, rest[1..])) + Zeros(pad);
      SymBits(Tail(m, c, rest)) + Zeros(pad)
      == BitsOf(c.table[c.run], c.width) + (if c.next < 4096 then tail else BitsOf(Clear(m), c.width) + tail)
  {
    var (c', out) := Step(m, c, rest[0]);
    StepPrimed(m, c, rest[0]);
    var later := Tail(m, c', rest[1..]);
    SymBitsAppend(out, later);
    TwoSyms(Sym(c.table[c.run], c.width), Sym(Clear(m), c.width));
    assert SymBits(Tail(m, c, rest)) == SymBits(out) + SymBits(later);
    Assoc(SymBits(out), SymBits(later), Zeros(pad));
    if c.next >= 4096 {
      Assoc(BitsOf(c.table[c.run], c.width), BitsOf(Clear(m), c.width), SymBits(later) + Zeros(pad));
    }
  }

  /** When the table is full the decoder does not widen, so the clear that
      goes out at the old width is read at the old width. */
  lemma DecodeFull(m: nat, c: Coder, d: Decoder, strings: seq<seq<byte>>, d': Decoder)
    requires 2 <= m <= 8 && Primed(m, c) && Behind(m, c, d, strings)
    requires c.next >= 4096 && CaughtUp(c, d, strings, d')
    ensures d'.width == c.width
  {
    Pow2Mono(m, 8);
    Pow2Eight();
    Pow2Twelve();
    if c.width < 12 {
      Pow2Mono(c.width + 1, 12);
    }
  }

  lemma DecodesBody(pixels: seq<byte>, m: nat, pad: nat)
    requires 2 <= m <= 8 && Drawable(pixels, m)
    ensures Decode(m, FreshDecoder(m), SymBits(Body(pixels, m)) + Zeros(pad)) == Some(pixels)
  {
    if pixels == [] {
      FreshWidth(m);
      DecodeEnd(m, FreshDecoder(m), m + 1, pad);
      TwoSyms(Sym(End(m), m + 1), Sym(End(m), m + 1));
    } else {
      FreshBehind(m, pixels[0]);
      DecodeTail(m, Start(m, pixels[0]), FreshDecoder(m), FreshEntries(m), pixels[1..], pad);
      assert [pixels[0]] + pixels[1..] == pixels;
    }
  }

  /** Decoding a picture's codes, however the last byte is padded, gives back
      the picture. */
  lemma DecodesToPicture(pixels: seq<byte>, m: nat, pad: nat)
    requires 2 <= m <= 8 && Drawable(pixels, m)
    ensures Decode(m, FreshDecoder(m), SymBits(Codes(pixels, m)) + Zeros(pad)) == Some(pixels)
  {
    var clear := Sym(Clear(m), m + 1);
    var body := SymBits(Body(pixels, m)) + Zeros(pad);
    FreshWidth(m);
    DecodesBody(pixels, m, pad);
    DecodeClear(m, FreshDecoder(m), body);
    TwoSyms(clear, clear);
    SymBitsAppend([clear], Body(pixels, m));
    Assoc(BitsOf(clear.code, clear.width), SymBits(Body(pixels, m)), Zeros(pad));
  }

  // --- what the packer needs ---------------------------------------------------

  /** Every code of the table fits the current width, and so do the two
      reserved ones. */
  ghost predicate Fits(m: nat, c: Coder)
    requires m <= 8
  {
    && Primed(m, c)
    && End(m) < c.next <= 4096
    && c.next <= Pow2(c.width)
    && m < c.width <= 12
    && forall s :: s in c.table ==> c.table[s] < c.next
  }

  lemma StartFits(m: nat, v: byte)
    requires 1 <= m <= 8 && v < Clear(m)
    ensures Fits(m, Start(m, v))
  {
    assert [v] in Singletons(m);
    Pow2Mono(m, 8);
    Pow2Mono(1, m);
    Pow2Eight();
  }

  lemma StepFits(m: nat, c: Coder, v: byte)
    requires 1 <= m <= 8 && Fits(m, c) && v < Clear(m)
    ensures Fits(m, Step(m, c, v).0)
  {
    StepPrimed(m, c, v);
    StartFits(m, v);
    assert Pow2(c.width + 1) == 2 * Pow2(c.width);
    if c.width == 12 {
      Pow2Twelve();
    }
  }

  /** A picture's codes as bytes: the codes' bits, then fewer than eight zeros. */
  ghost predicate Packs(data: seq<byte>, syms: seq<Sym>) {
    exists pad: nat :: pad < 8 && BitsOfBytes(data) == SymBits(syms) + Zeros(pad)
  }

  function DecodeBytes(data: seq<byte>, m: nat): Option<seq<byte>>
    requires m <= 8
  {
    Decode(m, FreshDecoder(m), BitsOfBytes(data))
  }

  /** The round trip on bytes. */
  lemma PackedDecodes(pixels: seq<byte>, m: nat, data: seq<byte>)
    requires 2 <= m <= 8 && Drawable(pixels, m) && Packs(data, Codes(pixels, m))
    ensures DecodeBytes(data, m) == Some(pixels)
  {
    var pad: nat :| pad < 8 && BitsOfBytes(data) == SymBits(Codes(pixels, m)) + Zeros(pad);
    DecodesToPicture(pixels, m, pad);
  }
}
