/** The web page's GIF coder: lzwEncode in firmware/web/app.js. */
module WebGif {
  import opened Basics
  import opened Bits
  import opened GifLzw

  /** Keys pair the code of the run so far with the next index; the original
      joins the two numbers with a comma. */
  datatype WebCoder = WebCoder(dict: map<(nat, byte), nat>, next: nat, width: nat, prefix: nat)

  function WebStart(m: nat, first: byte): WebCoder {
    WebCoder(map[], End(m) + 1, m + 1, first)
  }

  function WebStep(m: nat, w: WebCoder, k: byte): (WebCoder, seq<Sym>) {
    var key := (w.prefix, k);
    if key in w.dict then
      (w.(prefix := w.dict[key]), [])
    else
      var hit := Sym(w.prefix, w.width);
      var next := w.next + 1;
      var dict := w.dict[key := w.next];
      if next > Pow2(w.width) then
        if w.width < 12 then (WebCoder(dict, next, w.width + 1, k), [hit])
        else (WebStart(m, k), [hit, Sym(Clear(m), w.width)])
      else
        (WebCoder(dict, next, w.width, k), [hit])
  }

  function WebTail(m: nat, w: WebCoder, rest: seq<byte>): seq<Sym>
    decreases |rest|
  {
    if rest == [] then
      [Sym(w.prefix, w.width), Sym(End(m), w.width)]
    else
      var (w', out) := WebStep(m, w, rest[0]);
      out + WebTail(m, w', rest[1..])
  }

  /** The first index of an empty picture is undefined, which the bit
      operations read as zero. */
  function First(pixels: seq<byte>): byte {
    if pixels == [] then 0 else pixels[0]
  }

  /** What follows index i, nothing when there is none. */
  function Rest(pixels: seq<byte>, i: nat): seq<byte> {
    if i <= |pixels| then pixels[i..] else []
  }

  function WebCodes(pixels: seq<byte>, m: nat): seq<Sym> {
    [Sym(Clear(m), m + 1)] + WebTail(m, WebStart(m, First(pixels)), Rest(pixels, 1))
  }

  // --- the two coders agree ------------------------------------------------------

  /** strings lists the string-keyed table by code; the pair-keyed one holds
      (code of s, k) exactly where the other holds s + [k]. */
  ghost predicate Mirrors(m: nat, c: Coder, w: WebCoder, strings: seq<seq<byte>>)
    requires m <= 8
  {
    && Fits(m, c)
    && Lists(m, c.table, strings) && |strings| == c.next
    && w.next == c.next && w.width == c.width
    && w.prefix == c.table[c.run]
    && c.run != []
    && Alphabet(m, c.table)
    && SameEntries(m, c.table, w.dict, strings)
  }

  ghost predicate Alphabet(m: nat, table: map<seq<byte>, nat>) {
    forall v: byte {:trigger [v]} :: v < Clear(m) ==> [v] in table && table[[v]] == v
  }

  ghost predicate SameEntries(m: nat, table: map<seq<byte>, nat>, dict: map<(nat, byte), nat>, strings: seq<seq<byte>>) {
    && (forall s {:trigger s in table} :: s in table && |s| > 1 ==> s[..|s| - 1] in table)
    && (forall p: nat, k: byte {:trigger (p, k) in dict} :: (p, k) in dict ==>
          IsString(m, strings, p) && strings[p] + [k] in table && table[strings[p] + [k]] == dict[(p, k)])
    && (forall p: nat, k: byte {:trigger strings[p] + [k]} :: IsString(m, strings, p) && strings[p] + [k] in table ==> (p, k) in dict)
  }

  lemma FullWidth(next: nat, width: nat)
    requires 4096 <= next <= Pow2(width) && width <= 12
    ensures width == 12 && Pow2(width) == 4096
  {
    Pow2Twelve();
    if width < 12 {
      Pow2Mono(width + 1, 12);
    }
  }

  lemma StartMirrors(m: nat, v: byte)
    requires 1 <= m <= 8 && v < Clear(m)
    ensures Mirrors(m, Start(m, v), WebStart(m, v), FreshEntries(m))
  {
    StartFits(m, v);
    FreshLists(m);
  }

  /** A new entry, added to both tables under the same code. */
  lemma SameEntriesExtend(m: nat, table: map<seq<byte>, nat>, dict: map<(nat, byte), nat>, strings: seq<seq<byte>>, p: nat, k: byte)
    requires Lists(m, table, strings) && SameEntries(m, table, dict, strings)
    requires IsString(m, strings, p) && strings[p] + [k] !in table
    ensures var s := strings[p] + [k];
      SameEntries(m, table[s := |strings|], dict[(p, k) := |strings|], strings + [s])
  {
    var s := strings[p] + [k];
    var table', dict', strings' := table[s := |strings|], dict[(p, k) := |strings|], strings + [s];
    assert s[..|s| - 1] == strings[p];
    forall q: nat, j: byte | IsString(m, strings', q) && strings'[q] + [j] in table'
      ensures (q, j) in dict'
    {
      var t := strings'[q] + [j];
      assert t[..|t| - 1] == strings'[q];
      assert t in table ==> t[..|t| - 1] in table;
      assert t == s ==> strings'[q] == strings[p];
      assert strings'[q] != s && q < |strings|;
      if t == s {
        assert strings[q] == strings[p];
      } else {
        assert t == strings[q] + [j];
      }
    }
    forall q: nat, j: byte | (q, j) in dict'
      ensures IsString(m, strings', q) && strings'[q] + [j] in table' && table'[strings'[q] + [j]] == dict'[(q, j)]
    {
      if (q, j) != (p, k) {
        assert strings'[q] == strings[q];
      }
    }
  }

  lemma AlphabetKept(m: nat, table: map<seq<byte>, nat>, s: seq<byte>, code: nat)
    requires Alphabet(m, table) && |s| > 1
    ensures Alphabet(m, table[s := code])
  {
  }

  /** What both coders do with a run that is not in the table yet. */
  lemma MissSteps(m: nat, c: Coder, w: WebCoder, strings: seq<seq<byte>>, v: byte)
    requires 1 <= m <= 8 && Mirrors(m, c, w, strings) && v < Clear(m)
    requires c.run + [v] !in c.table && c.next < 4096
    ensures IsString(m, strings, w.prefix) && strings[w.prefix] == c.run
    ensures var hit := Sym(w.prefix, c.width); var next := c.next + 1;
      var width := if next > Pow2(c.width) && c.width < 12 then c.width + 1 else c.width;
      && Step(m, c, v) == (Coder(c.table[c.run + [v] := c.next], next, width, [v]), [hit])
      && WebStep(m, w, v) == (WebCoder(w.dict[(w.prefix, v) := c.next], next, width, v), [hit])
  {
    if c.width == 12 {
      Pow2Twelve();
    }
  }

  lemma AlphabetHolds(m: nat, table: map<seq<byte>, nat>, v: byte)
    requires Alphabet(m, table) && v < Clear(m)
    ensures [v] in table && table[[v]] == v
  {
  }

  lemma MissAgrees(m: nat, c: Coder, w: WebCoder, strings: seq<seq<byte>>, v: byte)
    requires 1 <= m <= 8 && Mirrors(m, c, w, strings) && v < Clear(m)
    requires c.run + [v] !in c.table && c.next < 4096
    ensures Step(m, c, v).1 == WebStep(m, w, v).1
    ensures Mirrors(m, Step(m, c, v).0, WebStep(m, w, v).0, strings + [c.run + [v]])
  {
    hide Fits, Lists, Alphabet, SameEntries, IsString, Step, WebStep;
    StepFits(m, c, v);
    MissSteps(m, c, w, strings, v);
    var run := c.run + [v];
    AlphabetKept(m, c.table, run, c.next);
    AlphabetHolds(m, c.table[run := c.next], v);
    ListsExtend(m, c.table, strings, run);
    SameEntriesExtend(m, c.table, w.dict, strings, w.prefix, v);
  }

  /** One pixel: the same codes come out, and the tables stay mirrored. */
  lemma StepAgrees(m: nat, c: Coder, w: WebCoder, strings: seq<seq<byte>>, v: byte) returns (strings': seq<seq<byte>>)
    requires 1 <= m <= 8 && Mirrors(m, c, w, strings) && v < Clear(m)
    ensures Step(m, c, v).1 == WebStep(m, w, v).1
    ensures Mirrors(m, Step(m, c, v).0, WebStep(m, w, v).0, strings')
  {
    hide Alphabet;
    StepFits(m, c, v);
    assert strings[w.prefix] == c.run;
    strings' := strings;
    if c.run + [v] in c.table {
      assert (w.prefix, v) in w.dict;
    } else if c.next < 4096 {
      strings' := strings + [c.run + [v]];
      MissAgrees(m, c, w, strings, v);
    } else {
      FullWidth(c.next, c.width);
      StartMirrors(m, v);
      strings' := FreshEntries(m);
    }
  }

  lemma {:induction false} WebTailAgrees(m: nat, c: Coder, w: WebCoder, strings: seq<seq<byte>>, rest: seq<byte>)
    requires 1 <= m <= 8 && Mirrors(m, c, w, strings) && Drawable(rest, m)
    ensures Tail(m, c, rest) == WebTail(m, w, rest)
    decreases |rest|
  {
    if rest != [] {
      var strings' := StepAgrees(m, c, w, strings, rest[0]);
      WebTailAgrees(m, Step(m, c, rest[0]).0, WebStep(m, w, rest[0]).0, strings', rest[1..]);
    }
  }

  /** The two coders emit the same codes at the same widths for every picture
      with a pixel, although one clears when its table is full and the other
      when the next code would need a thirteenth bit. */
  lemma SameCodes(pixels: seq<byte>, m: nat)
    requires 1 <= m <= 8 && Drawable(pixels, m) && pixels != []
    ensures WebCodes(pixels, m) == Codes(pixels, m)
  {
    StartMirrors(m, pixels[0]);
    WebTailAgrees(m, Start(m, pixels[0]), WebStart(m, pixels[0]), FreshEntries(m), pixels[1..]);
  }

  // --- lzwEncode -------------------------------------------------------------------

  /** The coder's prefix and the two reserved codes fit the current width. */
  ghost predicate WebFits(m: nat, w: WebCoder)
    requires m <= 8
  {
    exists c, strings :: Mirrors(m, c, w, strings)
  }

  lemma StartWebFits(m: nat, v: byte)
    requires 1 <= m <= 8 && v < Clear(m)
    ensures WebFits(m, WebStart(m, v))
  {
    StartMirrors(m, v);
  }

  lemma WebCodeFits(m: nat, w: WebCoder)
    requires m <= 8 && WebFits(m, w)
    ensures w.prefix < Pow2(w.width) && End(m) < Pow2(w.width)
  {
  }

  lemma WebFitsStep(m: nat, w: WebCoder, k: byte)
    requires 1 <= m <= 8 && WebFits(m, w) && k < Clear(m)
    ensures WebFits(m, WebStep(m, w, k).0)
  {
    var c, strings :| Mirrors(m, c, w, strings);
    var strings' := StepAgrees(m, c, w, strings, k);
  }

  lemma WebStepSyms(m: nat, w: WebCoder, k: byte, before: seq<bool>) returns (w': WebCoder, after: seq<bool>)
    ensures w' == WebStep(m, w, k).0 && after == before + SymBits(WebStep(m, w, k).1)
    ensures var key, hit := (w.prefix, k), BitsOf(w.prefix, w.width);
      if key in w.dict then
        after == before && w' == WebCoder(w.dict, w.next, w.width, w.dict[key])
      else if w.next + 1 > Pow2(w.width) && w.width >= 12 then
        after == before + hit + BitsOf(Clear(m), w.width) && w' == WebStart(m, k)
      else
        && after == before + hit
        && w' == WebCoder(w.dict[key := w.next], w.next + 1,
                          if w.next + 1 > Pow2(w.width) then w.width + 1 else w.width, k)
  {
    w', after := WebStep(m, w, k).0, before + SymBits(WebStep(m, w, k).1);
    TwoSyms(Sym(w.prefix, w.width), Sym(Clear(m), w.width));
    Assoc(before, BitsOf(w.prefix, w.width), BitsOf(Clear(m), w.width));
    assert before + [] == before;
  }

  /** What index i adds to the stream, and that the rest follows it. */
  lemma WebTailStep(m: nat, w: WebCoder, indices: seq<byte>, i: nat, before: seq<bool>)
    requires i < |indices|
    ensures before + SymBits(WebTail(m, w, Rest(indices, i)))
         == before + SymBits(WebStep(m, w, indices[i]).1) + SymBits(WebTail(m, WebStep(m, w, indices[i]).0, Rest(indices, i + 1)))
  {
    var (w', out) := WebStep(m, w, indices[i]);
    assert indices[i..][1..] == indices[i + 1..];
    var later := WebTail(m, w', indices[i + 1..]);
    SymBitsAppend(out, later);
    Assoc(before, SymBits(out), SymBits(later));
  }

  lemma WebAdvance(m: nat, w: WebCoder, indices: seq<byte>, i: nat, before: seq<bool>) returns (w': WebCoder, after: seq<bool>)
    requires 1 <= m <= 8 && WebFits(m, w) && Drawable(indices, m) && i < |indices|
    ensures WebFits(m, w')
    ensures var key, hit := (w.prefix, indices[i]), BitsOf(w.prefix, w.width);
      if key in w.dict then
        after == before && w' == WebCoder(w.dict, w.next, w.width, w.dict[key])
      else if w.next + 1 > Pow2(w.width) && w.width >= 12 then
        after == before + hit + BitsOf(Clear(m), w.width) && w' == WebStart(m, indices[i])
      else
        && after == before + hit
        && w' == WebCoder(w.dict[key := w.next], w.next + 1,
                          if w.next + 1 > Pow2(w.width) then w.width + 1 else w.width, indices[i])
    ensures before + SymBits(WebTail(m, w, Rest(indices, i))) == after + SymBits(WebTail(m, w', Rest(indices, i + 1)))
  {
    WebFitsStep(m, w, indices[i]);
    WebTailStep(m, w, indices, i, before);
    w', after := WebStepSyms(m, w, indices[i], before);
  }

  /** The codes of an empty picture are those of a picture of one zero. */
  lemma WebCodesDecode(indices: seq<byte>, m: nat, data: seq<byte>)
    requires 2 <= m <= 8 && Drawable(indices, m) && Packs(data, WebCodes(indices, m))
    ensures DecodeBytes(data, m) == Some(if indices == [] then [0] else indices)
  {
    var drawn: seq<byte> := if indices == [] then [0] else indices;
    SameCodes(drawn, m);
    if indices == [] {
      assert drawn[1..] == [];
    }
    PackedDecodes(drawn, m, data);
  }

  method LzwEncode(indices: seq<byte>, m: nat) returns (out: seq<byte>)
    requires 2 <= m <= 8 && Drawable(indices, m)
    ensures Packs(out, WebCodes(indices, m))
    ensures indices != [] ==> Packs(out, Codes(indices, m))
    ensures DecodeBytes(out, m) == Some(indices) <==> indices != []
  {
    var packer := WebEmitCodes(indices, m);
    out := packer.Flush();
    WebCodesDecode(indices, m, out);
    if indices != [] {
      SameCodes(indices, m);
    }
  }

  method WebEmitCodes(indices: seq<byte>, m: nat) returns (packer: BitPacker)
    requires 2 <= m <= 8 && Drawable(indices, m)
    ensures packer.Valid() && fresh(packer) && packer.Stream() == SymBits(WebCodes(indices, m))
  {
    hide BitsOf, SymBits, WebTail, WebCodes, WebStep, WebFits, FreshTable;
    var codeSize: nat := m + 1;
    var next: nat := End(m) + 1;
    var dict: map<(nat, byte), nat> := map[];
    packer := new BitPacker();
    FreshWidth(m);
    packer.Emit(Clear(m), codeSize);
    var prefix: nat := First(indices);
    ghost var w := WebStart(m, First(indices));
    StartWebFits(m, First(indices));
    WebLeadingClear(indices, m);
    ghost var all := SymBits(WebCodes(indices, m));
    var i: nat := 1;
    while i < |indices|
      invariant indices != [] ==> i <= |indices|
      invariant packer.Valid() && fresh(packer)
      invariant WebFits(m, w) && w == WebCoder(dict, next, codeSize, prefix)
      invariant packer.Stream() + SymBits(WebTail(m, w, Rest(indices, i))) == all
    {
      var k := indices[i];
      var key := (prefix, k);
      WebCodeFits(m, w);
      ghost var after;
      w, after := WebAdvance(m, w, indices, i, packer.Stream());
      i := i + 1;
      if key in dict {
        prefix := dict[key];
        continue;
      }
      packer.Emit(prefix, codeSize);
      dict := dict[key := next];
      next := next + 1;
      if next > Pow2(codeSize) {
        if codeSize < 12 {
          codeSize := codeSize + 1;
        } else {
          packer.Emit(Clear(m), codeSize);
          dict := map[];
          next := End(m) + 1;
          codeSize := m + 1;
        }
      }
      assert packer.Stream() == after;
      prefix := k;
    }
    assert Rest(indices, i) == [];
    WebCodeFits(m, w);
    WebLastCodes(m, w, packer.Stream());
    packer.Emit(prefix, codeSize);
    packer.Emit(End(m), codeSize);
  }

  lemma WebLeadingClear(indices: seq<byte>, m: nat)
    requires m <= 8
    ensures SymBits(WebCodes(indices, m))
         == [] + BitsOf(Clear(m), m + 1)
            + SymBits(WebTail(m, WebStart(m, First(indices)), Rest(indices, 1)))
  {
    TwoSyms(Sym(Clear(m), m + 1), Sym(Clear(m), m + 1));
    SymBitsAppend([Sym(Clear(m), m + 1)], WebTail(m, WebStart(m, First(indices)), Rest(indices, 1)));
    assert [] + BitsOf(Clear(m), m + 1) == BitsOf(Clear(m), m + 1);
  }

  lemma WebLastCodes(m: nat, w: WebCoder, before: seq<bool>)
    ensures before + SymBits(WebTail(m, w, []))
         == before + BitsOf(w.prefix, w.width) + BitsOf(End(m), w.width)
  {
    TwoSyms(Sym(w.prefix, w.width), Sym(End(m), w.width));
    Assoc(before, BitsOf(w.prefix, w.width), BitsOf(End(m), w.width));
  }
}
