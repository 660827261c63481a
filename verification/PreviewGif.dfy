/** The preview generator's image data: tooling/site/build-previews.py. */
module PreviewGif {
  import opened Basics
  import opened Bits
  import opened GifLzw

  // --- sub-blocks ----------------------------------------------------------------

  /** Runs of at most 255 bytes, each after its length, and an empty run. */
  function Framed(data: seq<byte>): seq<byte>
    decreases |data|
  {
    if data == [] then [0]
    else
      var n := if |data| < 255 then |data| else 255;
      [n as byte] + data[..n] + Framed(data[n..])
  }

  /** The reader's side: the bytes carried, and what follows the empty run. */
  function Unframed(stream: seq<byte>): Option<(seq<byte>, seq<byte>)>
    decreases |stream|
  {
    if stream == [] then None
    else if stream[0] == 0 then Some(([], stream[1..]))
    else
      var n: nat := stream[0];
      if |stream| < 1 + n then None
      else
        match Unframed(stream[1 + n..])
        case None => None
        case Some((data, rest)) => Some((stream[1..1 + n] + data, rest))
  }

  /** Reading one run of a stream. */
  lemma UnframedRun(n: byte, run: seq<byte>, rest: seq<byte>, data: seq<byte>, after: seq<byte>)
    requires 0 < n == |run| && Unframed(rest) == Some((data, after))
    ensures Unframed([n] + run + rest) == Some((run + data, after))
  {
    var stream := [n] + run + rest;
    assert stream[1..1 + n] == run && stream[1 + n..] == rest;
  }

  lemma FramedFirst(data: seq<byte>, rest: seq<byte>)
    ensures data == [] ==> Unframed(Framed(data) + rest) == Some((data, rest))
    ensures var n := if |data| < 255 then |data| else 255;
      data != [] ==> Framed(data) == [n as byte] + data[..n] + Framed(data[n..])
  {
    assert ([0] + rest)[1..] == rest;
  }

  /** Image data of any length survives the framing, whatever follows it. */
  lemma {:induction false} FramedRoundTrip(data: seq<byte>, rest: seq<byte>)
    ensures Unframed(Framed(data) + rest) == Some((data, rest))
    decreases |data|
  {
    hide Framed, Unframed;
    FramedFirst(data, rest);
    if data != [] {
      var n := if |data| < 255 then |data| else 255;
      var head := [n as byte] + data[..n];
      FramedRoundTrip(data[n..], rest);
      UnframedRun(n as byte, data[..n], Framed(data[n..]) + rest, data[n..], rest);
      Assoc(head, Framed(data[n..]), rest);
      assert data[..n] + data[n..] == data;
    }
  }

  method SubBlocks(data: seq<byte>) returns (out: seq<byte>)
    ensures out == Framed(data)
  {
    out := [];
    var i := 0;
    assert data[0..] == data;
    while i < |data|
      invariant i <= |data|
      invariant out + Framed(data[i..]) == Framed(data)
    {
      var end := if i + 255 < |data| then i + 255 else |data|;
      var chunk := data[i..end];
      assert data[i..][..end - i] == chunk && data[i..][end - i..] == data[end..];
      out := out + [|chunk| as byte];
      out := out + chunk;
      i := end;
    }
    assert data[|data|..] == [];
    out := out + [0];
  }

  // --- lzw -------------------------------------------------------------------------

  /** What a GIF viewer sees in the image data: the sub-blocks' content,
      decompressed. */
  function Picture(stream: seq<byte>, m: nat): Option<seq<byte>>
    requires m <= 8
  {
    match Unframed(stream)
    case None => None
    case Some((data, _)) => DecodeBytes(data, m)
  }

  /** The alphabet is that of build_gif: codes of 2 to 8 bits, every pixel an
      index into the padded palette. */
  method Lzw(pixels: seq<byte>, m: nat) returns (stream: seq<byte>)
    requires 2 <= m <= 8 && Drawable(pixels, m)
    ensures Picture(stream, m) == Some(pixels)
    ensures exists data :: Packs(data, Codes(pixels, m)) && stream == Framed(data)
  {
    var packer := EmitCodes(pixels, m);
    var data := packer.Flush();
    PackedDecodes(pixels, m, data);
    FramedRoundTrip(data, []);
    stream := SubBlocks(data);
    assert Framed(data) + [] == Framed(data);
  }

  /** One turn of the loop over the pixels. */
  method EmitPixel(packer: BitPacker, m: nat, table: map<seq<byte>, nat>, next: nat, width: nat, run: seq<byte>, value: byte)
    returns (table': map<seq<byte>, nat>, next': nat, width': nat, run': seq<byte>)
    requires 1 <= m <= 8 && packer.Valid() && Fits(m, Coder(table, next, width, run)) && value < Clear(m)
    modifies packer
    ensures packer.Valid()
    ensures var (c, out) := Step(m, Coder(table, next, width, run), value);
      Coder(table', next', width', run') == c && packer.Stream() == old(packer.Stream()) + SymBits(out)
  {
    hide BitsOf, SymBits, FreshTable, Singletons, Fits;
    ghost var before := packer.Stream();
    StepBits(m, Coder(table, next, width, run), value, before);
    CodeFits(m, Coder(table, next, width, run));
    table', next', width' := table, next, width;
    var candidate := run + [value];
    if candidate in table {
      run' := candidate;
      return;
    }
    packer.Emit(table[run], width);
    if next < 4096 {
      table' := table'[candidate := next];
      next' := next + 1;
      if next' > Pow2(width) && width < 12 {
        width' := width + 1;
      }
    } else {
      packer.Emit(Clear(m), width);
      table' := FreshTable(m);
      next' := End(m) + 1;
      width' := m + 1;
    }
    run' := [value];
  }

  lemma CodeFits(m: nat, c: Coder)
    requires m <= 8 && Fits(m, c)
    ensures c.run in c.table && c.table[c.run] < Pow2(c.width) && Clear(m) < Pow2(c.width) && End(m) < Pow2(c.width)
  {
  }

  /** What a pixel adds to the stream. */
  lemma StepBits(m: nat, c: Coder, value: byte, before: seq<bool>)
    requires m <= 8 && Fits(m, c)
    ensures c.run in c.table
    ensures var (c', out) := Step(m, c, value); var candidate, hit := c.run + [value], BitsOf(c.table[c.run], c.width);
      before + SymBits(out) ==
        if candidate in c.table then before
        else if c.next < 4096 then before + hit
        else before + hit + BitsOf(Clear(m), c.width)
  {
    TwoSyms(Sym(c.table[c.run], c.width), Sym(Clear(m), c.width));
    Assoc(before, BitsOf(c.table[c.run], c.width), BitsOf(Clear(m), c.width));
    assert before + [] == before;
  }

  method EmitCodes(pixels: seq<byte>, m: nat) returns (packer: BitPacker)
    requires 2 <= m <= 8 && Drawable(pixels, m)
    ensures packer.Valid() && fresh(packer) && packer.Stream() == SymBits(Codes(pixels, m))
  {
    hide BitsOf, SymBits, Tail, Body, Codes, Step, FreshTable, Singletons;
    packer := new BitPacker();
    var width: nat := m + 1;
    var table: map<seq<byte>, nat> := FreshTable(m);
    var next: nat := End(m) + 1;
    FreshWidth(m);
    packer.Emit(Clear(m), width);
    LeadingClear(pixels, m);
    ghost var all := SymBits(Codes(pixels, m));
    if pixels == [] {
      packer.Emit(End(m), width);
    } else {
      var run := [pixels[0]];
      StartFits(m, pixels[0]);
      var i := 1;
      ghost var c := Start(m, pixels[0]);
      while i < |pixels|
        invariant 1 <= i <= |pixels|
        invariant packer.Valid() && fresh(packer)
        invariant Fits(m, c) && c == Coder(table, next, width, run)
        invariant packer.Stream() + SymBits(Tail(m, c, pixels[i..])) == all
      {
        c := PixelStep(m, c, pixels, i, packer.Stream());
        table, next, width, run := EmitPixel(packer, m, table, next, width, run, pixels[i]);
        i := i + 1;
      }
      assert pixels[i..] == [];
      LastCodes(m, c, packer.Stream());
      packer.Emit(table[run], width);
      packer.Emit(End(m), width);
    }
  }

  lemma LeadingClear(pixels: seq<byte>, m: nat)
    requires m <= 8 && Drawable(pixels, m)
    ensures SymBits(Codes(pixels, m))
         == [] + BitsOf(Clear(m), m + 1)
            + (if pixels == [] then BitsOf(End(m), m + 1) else SymBits(Tail(m, Start(m, pixels[0]), pixels[1..])))
  {
    TwoSyms(Sym(End(m), m + 1), Sym(End(m), m + 1));
    assert [] + BitsOf(Clear(m), m + 1) == BitsOf(Clear(m), m + 1);
    TwoSyms(Sym(Clear(m), m + 1), Sym(Clear(m), m + 1));
    SymBitsAppend([Sym(Clear(m), m + 1)], Body(pixels, m));
  }

  /** The coder after pixel i, and what then follows in the stream. */
  lemma PixelStep(m: nat, c: Coder, pixels: seq<byte>, i: nat, before: seq<bool>) returns (c': Coder)
    requires 1 <= m <= 8 && Fits(m, c) && Drawable(pixels, m) && i < |pixels| && pixels[i] < Clear(m)
    ensures c' == Step(m, c, pixels[i]).0 && Fits(m, c')
    ensures before + SymBits(Tail(m, c, pixels[i..]))
         == before + SymBits(Step(m, c, pixels[i]).1) + SymBits(Tail(m, c', pixels[i + 1..]))
  {
    var out: seq<Sym>;
    c', out := Step(m, c, pixels[i]).0, Step(m, c, pixels[i]).1;
    StepFits(m, c, pixels[i]);
    StepPrimed(m, c, pixels[i]);
    assert pixels[i..][1..] == pixels[i + 1..];
    var later := Tail(m, c', pixels[i + 1..]);
    SymBitsAppend(out, later);
    Assoc(before, SymBits(out), SymBits(later));
  }

  lemma LastCodes(m: nat, c: Coder, before: seq<bool>)
    requires m <= 8 && Primed(m, c)
    ensures before + SymBits(Tail(m, c, []))
         == before + BitsOf(c.table[c.run], c.width) + BitsOf(End(m), c.width)
  {
    TwoSyms(Sym(c.table[c.run], c.width), Sym(End(m), c.width));
    Assoc(before, BitsOf(c.table[c.run], c.width), BitsOf(End(m), c.width));
  }
}
