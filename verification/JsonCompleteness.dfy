/** The reader accepts every JSON text within the limits. */
module JsonCompleteness {
  import opened Basics
  import opened JsonGrammar
  import opened Numerals
  import opened JsonReader
  import opened JsonSoundness

  // --- scalars -------------------------------------------------------------------------

  /** What stands at p stands there without its first n characters, further on. */
  lemma AtDrop(s: string, p: nat, t: string, n: nat)
    requires At(s, p, t) && n <= |t|
    ensures At(s, p + n, t[n..])
  {
    AtConcat(s, p, t[..n], t[n..]);
    assert t[..n] + t[n..] == t;
  }

  lemma CharStands(s: string, p: nat, t: string, k: nat)
    requires At(s, p, t) && k < |t|
    ensures p + k < |s| && s[p + k] == t[k]
  {
    SliceAt(s, p, t);
    assert s[p..p + |t|][k] == s[p + k];
  }

  lemma {:induction false} SpacesComplete(s: string, pos: nat, gap: string)
    requires At(s, pos, gap) && Spaces(gap) && (pos + |gap| < |s| ==> !IsSpace(s[pos + |gap|]))
    ensures pos <= |s| && SkipSpaces(s, pos) == pos + |gap|
    decreases |gap|
  {
    if gap != "" {
      CharStands(s, pos, gap, 0);
      AtDrop(s, pos, gap, 1);
      SpacesComplete(s, pos + 1, gap[1..]);
    }
  }

  lemma {:induction false} DigitsComplete(s: string, pos: nat, ds: string)
    requires At(s, pos, ds) && AllDigits(ds) && (pos + |ds| < |s| ==> !IsDigit(s[pos + |ds|]))
    ensures pos <= |s| && SkipDigits(s, pos) == pos + |ds|
    decreases |ds|
  {
    if ds != "" {
      DigitsComplete(s, pos + 1, ds[1..]);
    }
  }

  /** Scanning steps over exactly the units of the body. */
  lemma ScanUnit(s: string, i: nat, body: string)
    requires body != "" && At(s, i, body) && i + |body| < |s| && StringUnit(body) > 0
    ensures ScanString(s, i) == ScanString(s, i + StringUnit(body))
  {
    CharStands(s, i, body, 0);
    if body[0] == '\\' {
      CharStands(s, i, body, 1);
      if body[1] == 'u' {
        CharStands(s, i, body, 2);
        CharStands(s, i, body, 3);
        CharStands(s, i, body, 4);
        CharStands(s, i, body, 5);
        assert forall h :: i + 2 <= h < i + 6 ==> IsHex(s[h]);
        var k := FirstNonHex(s, i + 2, i + 6);
      }
    }
  }

  lemma {:induction false} StringComplete(s: string, i: nat, body: string)
    requires At(s, i, body) && StringBody(body) && i + |body| < |s| && s[i + |body|] == '"'
    ensures ScanString(s, i) == Upto(i + |body|)
    decreases |body|
  {
    if body != "" {
      var n := StringUnit(body);
      AtDrop(s, i, body, n);
      ScanUnit(s, i, body);
      StringComplete(s, i + n, body[n..]);
    }
  }

  /** Nothing at p could carry a number on. */
  predicate NumberEnds(s: string, p: nat) {
    p < |s| ==> !IsDigit(s[p]) && s[p] !in ".eE"
  }

  lemma WholeComplete(s: string, p: nat, whole: string)
    requires At(s, p, whole) && Digits(whole) && (whole[0] == '0' ==> whole == "0")
    requires p + |whole| < |s| ==> !IsDigit(s[p + |whole|])
    ensures p < |s| && ScanWhole(s, p) == Upto(p + |whole|)
  {
    DigitsComplete(s, p + 1, whole[1..]);
  }

  lemma FractionComplete(s: string, p: nat, frac: string)
    requires At(s, p, frac) && (frac == "" || (frac[0] == '.' && Digits(frac[1..])))
    requires var q := p + |frac|; q < |s| ==> !IsDigit(s[q]) && s[q] != '.'
    ensures p <= |s| && ScanFraction(s, p) == Upto(p + |frac|)
  {
    if frac != "" {
      DigitsComplete(s, p + 1, frac[1..]);
    }
  }

  lemma ExponentComplete(s: string, p: nat, exp: string)
    requires At(s, p, exp) && NumberEnds(s, p + |exp|)
    requires exp == "" || (exp[0] in "eE" && (Digits(exp[1..]) || (|exp| > 1 && exp[1] in "+-" && Digits(exp[2..]))))
    ensures p <= |s| && ScanExponent(s, p) == Upto(p + |exp|)
  {
    if exp != "" {
      if Digits(exp[1..]) {
        assert exp[1] == exp[1..][0];
        DigitsComplete(s, p + 1, exp[1..]);
      } else {
        assert exp[1..][1..] == exp[2..];
        DigitsComplete(s, p + 2, exp[2..]);
      }
    }
  }

  /** Where each part of a number stands, and what the part after it begins with. */
  lemma NumberParts(s: string, at: nat, n: Number)
    requires At(s, at, NumberText(n)) && WellFormedNumber(n) && NumberEnds(s, at + |NumberText(n)|)
    ensures var whole := at + |n.minus|; var frac := whole + |n.whole|; var exp := frac + |n.frac|;
      && At(s, at, n.minus) && At(s, whole, n.whole) && At(s, frac, n.frac) && At(s, exp, n.exp)
      && (frac < |s| ==> !IsDigit(s[frac]))
      && (exp < |s| ==> !IsDigit(s[exp]) && s[exp] != '.')
  {
    AtConcat(s, at, n.minus + n.whole + n.frac, n.exp);
    AtConcat(s, at, n.minus + n.whole, n.frac);
    AtConcat(s, at, n.minus, n.whole);
    var whole := at + |n.minus|;
    var frac := whole + |n.whole|;
    var exp := frac + |n.frac|;
    if n.exp != "" {
      CharStands(s, exp, n.exp, 0);
    }
    if n.frac != "" {
      CharStands(s, frac, n.frac, 0);
    }
  }

  lemma NumberAssembled(x: Input, at: nat, whole: nat, frac: nat, exp: nat, end: nat, count: nat)
    requires at < |x.text| && whole == (if x.text[at] == '-' then at + 1 else at)
    requires whole <= frac <= exp <= end <= |x.text|
    requires ScanWhole(x.text, whole) == Upto(frac)
    requires ScanFraction(x.text, frac) == Upto(exp)
    requires ScanExponent(x.text, exp) == Upto(end)
    requires count < x.capacity
    ensures ReadNumber(x, at, count)
         == Ok(Number.Number(x.text[at..whole], x.text[whole..frac], x.text[frac..exp], x.text[exp..end]), end, count + 1)
  {
  }

  lemma NumberScans(s: string, at: nat, n: Number)
    requires At(s, at, NumberText(n)) && WellFormedNumber(n) && NumberEnds(s, at + |NumberText(n)|)
    ensures at < |s| && (s[at] == '-' || IsDigit(s[at])) && |n.minus| == (if s[at] == '-' then 1 else 0)
    ensures var whole := at + |n.minus|; var frac := whole + |n.whole|; var exp := frac + |n.frac|; var end := exp + |n.exp|;
      && end <= |s|
      && ScanWhole(s, whole) == Upto(frac) && ScanFraction(s, frac) == Upto(exp) && ScanExponent(s, exp) == Upto(end)
  {
    hide At, ScanFraction, ScanExponent;
    NumberParts(s, at, n);
    var whole := at + |n.minus|;
    var frac := whole + |n.whole|;
    WholeComplete(s, whole, n.whole);
    FractionComplete(s, frac, n.frac);
    ExponentComplete(s, frac + |n.frac|, n.exp);
  }

  lemma NumberSlices(s: string, at: nat, n: Number)
    requires At(s, at, NumberText(n)) && at + |NumberText(n)| <= |s|
    ensures var whole := at + |n.minus|; var frac := whole + |n.whole|; var exp := frac + |n.frac|; var end := exp + |n.exp|;
      Number.Number(s[at..whole], s[whole..frac], s[frac..exp], s[exp..end]) == n
  {
    hide At;
    AtConcat(s, at, n.minus + n.whole + n.frac, n.exp);
    AtConcat(s, at, n.minus + n.whole, n.frac);
    AtConcat(s, at, n.minus, n.whole);
    var whole := at + |n.minus|;
    var frac := whole + |n.whole|;
    SliceAt(s, at, n.minus);
    SliceAt(s, whole, n.whole);
    SliceAt(s, frac, n.frac);
    SliceAt(s, frac + |n.frac|, n.exp);
  }

  lemma NumberComplete(x: Input, at: nat, count: nat, n: Number)
    requires At(x.text, at, NumberText(n)) && WellFormedNumber(n) && NumberEnds(x.text, at + |NumberText(n)|)
    requires count < x.capacity
    ensures at < |x.text| && (x.text[at] == '-' || IsDigit(x.text[at]))
    ensures ReadNumber(x, at, count) == Ok(n, at + |NumberText(n)|, count + 1)
  {
    hide At, ScanWhole, ScanFraction, ScanExponent, ReadNumber, WellFormedNumber, NumberEnds;
    NumberScans(x.text, at, n);
    var whole := at + |n.minus|;
    var frac := whole + |n.whole|;
    var exp := frac + |n.frac|;
    NumberAssembled(x, at, whole, frac, exp, exp + |n.exp|, count);
    NumberSlices(x.text, at, n);
  }

  // --- structures ------------------------------------------------------------------------

  ghost predicate Within(x: Input, depth: nat, count: nat, v: Value) {
    && WellFormed(v) && Narrow(v, x.children)
    && (Depth(v) > 0 ==> depth + Depth(v) <= x.maxDepth)
    && count + Size(v) <= x.capacity
  }

  lemma {:induction false} BareComplete(x: Input, at: nat, depth: nat, count: nat, v: Value)
    requires At(x.text, at, Text(v)) && Within(x, depth, count, v) && NumberEnds(x.text, at + |Text(v)|)
    ensures at < |x.text| && !IsSpace(x.text[at]) && x.text[at] !in "]}"
    ensures ReadBare(x, at, depth, count) == Ok(v, at + |Text(v)|, count + Size(v))
    decreases v, 3
  {
    hide At, StringBody, ReadArray, ReadObject, ReadString, ReadNumber, ReadLiteral, WellFormedNumber, NumberText;
    match v
    case Num(n) => NumberComplete(x, at, count, n);
    case Str(raw) => StrComplete(x, at, count, raw);
    case Bool(flag) => WordComplete(x, at, count, if flag then "true" else "false");
    case Nul => WordComplete(x, at, count, "null");
    case Arr(gap, es) => ArrayComplete(x, at, depth, count, gap, es);
    case Obj(gap, ms) => ObjectComplete(x, at, depth, count, gap, ms);
  }

  lemma WordComplete(x: Input, at: nat, count: nat, word: string)
    requires At(x.text, at, word) && word != "" && count < x.capacity
    ensures at < |x.text| && x.text[at] == word[0] && ReadLiteral(x, at, count, word) == Ok((), at + |word|, count + 1)
  {
    SliceAt(x.text, at, word);
  }

  lemma StrScanned(s: string, at: nat, raw: string)
    requires At(s, at, "\"" + raw + "\"") && StringBody(raw)
    ensures at < |s| && ScanString(s, at + 1) == Upto(at + 1 + |raw|)
  {
    Unbracketed(s, at, '"', raw, '"');
    StringComplete(s, at + 1, raw);
  }

  lemma StrRead(x: Input, at: nat, count: nat, raw: string)
    requires at < |x.text| && At(x.text, at + 1, raw) && count < x.capacity
    requires ScanString(x.text, at + 1) == Upto(at + 1 + |raw|)
    ensures ReadString(x, at, count) == Ok(raw, at + 2 + |raw|, count + 1)
  {
    hide ScanString, At;
    SliceAt(x.text, at + 1, raw);
  }

  lemma StrComplete(x: Input, at: nat, count: nat, raw: string)
    requires At(x.text, at, "\"" + raw + "\"") && StringBody(raw) && count < x.capacity
    ensures at < |x.text| && x.text[at] == '"'
    ensures ReadString(x, at, count) == Ok(raw, at + 2 + |raw|, count + 1)
  {
    hide At, StringBody, ScanString;
    StrScanned(x.text, at, raw);
    Unbracketed(x.text, at, '"', raw, '"');
    StrRead(x, at, count, raw);
  }

  /** Opening bracket, inside, closing bracket. */
  lemma Unbracketed(s: string, at: nat, open: char, inner: string, close: char)
    requires At(s, at, [open] + inner + [close])
    ensures At(s, at + 1, inner) && at + 1 + |inner| < |s|
    ensures s[at] == open && s[at + 1 + |inner|] == close
  {
    AtConcat(s, at, [open] + inner, [close]);
    AtConcat(s, at, [open], inner);
    CharStands(s, at, [open], 0);
    CharStands(s, at + 1 + |inner|, [close], 0);
  }

  lemma EmptyComplete(s: string, at: nat, open: char, gap: string, close: char)
    requires At(s, at, [open] + gap + [close]) && Spaces(gap) && !IsSpace(close)
    ensures at < |s| && s[at] == open
    ensures SkipSpaces(s, at + 1) == at + 1 + |gap| < |s| && s[at + 1 + |gap|] == close
    ensures s[at + 1..at + 1 + |gap|] == gap
  {
    Unbracketed(s, at, open, gap, close);
    SpacesComplete(s, at + 1, gap);
    SliceAt(s, at + 1, gap);
  }

  lemma {:induction false} ArrayComplete(x: Input, at: nat, depth: nat, count: nat, gap: string, es: seq<Element>)
    requires At(x.text, at, Text(Arr(gap, es))) && Within(x, depth, count, Arr(gap, es))
    ensures at < |x.text| && x.text[at] == '['
    ensures ReadArray(x, at, depth, count) == Ok(Arr(gap, es), at + |Text(Arr(gap, es))|, count + 1 + ElementsSize(es))
    decreases es, 5
  {
    if es == [] {
      EmptyComplete(x.text, at, '[', gap, ']');
    } else {
      Unbracketed(x.text, at, '[', ElementsText(es), ']');
      assert [] + es == es;
      ElementsStart(x, at + 1, depth, count + 1, es);
      ElementsComplete(x, at + 1, depth, count + 1, [], es,
        Ok(es, at + 1 + |ElementsText(es)| + 1, count + 1 + ElementsSize(es)));
    }
  }

  lemma {:induction false} ObjectComplete(x: Input, at: nat, depth: nat, count: nat, gap: string, ms: seq<Member>)
    requires At(x.text, at, Text(Obj(gap, ms))) && Within(x, depth, count, Obj(gap, ms))
    ensures at < |x.text| && x.text[at] == '{'
    ensures ReadObject(x, at, depth, count) == Ok(Obj(gap, ms), at + |Text(Obj(gap, ms))|, count + 1 + MembersSize(ms))
    decreases ms, 5
  {
    if ms == [] {
      EmptyComplete(x.text, at, '{', gap, '}');
    } else {
      Unbracketed(x.text, at, '{', MembersText(ms), '}');
      assert [] + ms == ms;
      MembersStart(x, at + 1, depth, count + 1, ms);
      MembersComplete(x, at + 1, depth, count + 1, [], ms,
        Ok(ms, at + 1 + |MembersText(ms)| + 1, count + 1 + MembersSize(ms)));
    }
  }

  // --- a value among others ------------------------------------------------------------

  /** White space, a value, and the white space up to what follows. */
  function SpacedText(before: string, v: Value, after: string): string {
    before + Text(v) + after
  }

  /** The value is what is read at from, and its white space follows. */
  ghost predicate ReadsSpaced(x: Input, from: nat, depth: nat, count: nat, before: string, v: Value, after: string) {
    var p := from + |before| + |Text(v)|;
    && p + |after| < |x.text|
    && from + |before| < p
    && x.text[from + |before|] !in "]}"
    && SkipSpaces(x.text, from) == from + |before|
    && ReadValue(x, from, depth, count) == Ok(Spaced(before, v), p, count + Size(v))
    && SkipSpaces(x.text, p) == p + |after|
    && x.text[p..p + |after|] == after
  }

  lemma {:induction false} SpacedComplete(x: Input, from: nat, depth: nat, count: nat, before: string, v: Value, after: string)
    requires At(x.text, from, SpacedText(before, v, after))
    requires Spaces(before) && Spaces(after) && Within(x, depth, count, v)
    requires var end := from + |SpacedText(before, v, after)|; end < |x.text| && x.text[end] in ",]}"
    ensures ReadsSpaced(x, from, depth, count, before, v, after) == true
    decreases v, 4
  {
    hide Text, At, SkipSpaces, ReadBare, WellFormed, Narrow, Size, Depth;
    AtConcat(x.text, from, before + Text(v), after);
    AtConcat(x.text, from, before, Text(v));
    var at := from + |before|;
    AfterValue(x.text, at + |Text(v)|, after);
    BareComplete(x, at, depth, count, v);
    SpacesComplete(x.text, from, before);
    SliceAt(x.text, from, before);
  }

  lemma AfterValue(s: string, p: nat, after: string)
    requires At(s, p, after) && Spaces(after) && p + |after| < |s| && s[p + |after|] in ",]}"
    ensures NumberEnds(s, p) && p <= |s| && SkipSpaces(s, p) == p + |after| && s[p..p + |after|] == after
  {
    SpacesComplete(s, p, after);
    SliceAt(s, p, after);
  }

  // --- elements ---------------------------------------------------------------------------

  ghost predicate ElementsWithin(x: Input, depth: nat, count: nat, es: seq<Element>) {
    && WellFormedElements(es) && NarrowElements(es, x.children)
    && depth < x.maxDepth && (ElementsDepth(es) > 0 ==> depth + 1 + ElementsDepth(es) <= x.maxDepth)
    && count + ElementsSize(es) <= x.capacity
  }

  /** What the limits on some elements say about the first and about the rest. */
  lemma ElementsWithinStep(x: Input, depth: nat, count: nat, es: seq<Element>)
    requires es != [] && ElementsWithin(x, depth, count, es)
    ensures WellFormedElement(es[0]) && Within(x, depth + 1, count, es[0].value)
    ensures ElementsWithin(x, depth, count + Size(es[0].value), es[1..])
    ensures ElementsSize(es) == Size(es[0].value) + ElementsSize(es[1..])
  {
    assert WellFormedElement(es[0]);
  }

  /** The first of some elements, and the comma and elements after it. */
  lemma ElementsStand(s: string, from: nat, es: seq<Element>)
    requires es != [] && At(s, from, ElementsText(es))
    ensures At(s, from, ElementText(es[0]))
    ensures var q := from + |ElementText(es[0])|;
      if |es| == 1 then q == from + |ElementsText(es)|
      else q < |s| && s[q] == ',' && At(s, q + 1, ElementsText(es[1..]))
           && q + 1 + |ElementsText(es[1..])| == from + |ElementsText(es)|
  {
    if |es| > 1 {
      var first := ElementText(es[0]);
      AtConcat(s, from, first + ",", ElementsText(es[1..]));
      AtConcat(s, from, first, ",");
    }
  }

  /** An opening bracket with something inside is not followed by its closing one. */
  lemma {:induction false} ElementsStart(x: Input, from: nat, depth: nat, count: nat, es: seq<Element>)
    requires es != [] && 0 < x.children && At(x.text, from, ElementsText(es)) && ElementsWithin(x, depth, count, es)
    requires var end := from + |ElementsText(es)|; end < |x.text| && x.text[end] == ']'
    ensures from <= |x.text|
    ensures var p := SkipSpaces(x.text, from); p < |x.text| && x.text[p] != ']'
    decreases es, 4
  {
    ElementsStand(x.text, from, es);
    ElementsWithinStep(x, depth, count, es);
    ElementRead(x, from, depth, count, 0, es[0]);
  }

  lemma {:induction false} ElementsComplete(x: Input, from: nat, depth: nat, count: nat, acc: seq<Element>, es: seq<Element>, r: Read<seq<Element>>)
    requires es != [] && At(x.text, from, ElementsText(es)) == true && ElementsWithin(x, depth, count, es) == true
    requires |acc| + |es| <= x.children
    requires var end := from + |ElementsText(es)|; end < |x.text| && x.text[end] == ']'
    requires r.Ok? && r.value == acc + es && r.pos == from + |ElementsText(es)| + 1 && r.count == count + ElementsSize(es)
    ensures from <= |x.text| && ReadElements(x, from, depth, count, acc) == r
    decreases es, 4, 1
  {
    hide At, ReadElements, ReadElement, ElementText, ElementsText, Text, WellFormedElement, Within;
    var e := es[0];
    var q := from + |ElementText(e)|;
    var n := count + Size(e.value);
    ElementsStand(x.text, from, es);
    ElementsWithinStep(x, depth, count, es);
    ElementRead(x, from, depth, count, |acc|, e);
    if |es| > 1 {
      ShiftOne(acc, es);
      ElementsComplete(x, q + 1, depth, n, acc + [e], es[1..], r);
      ElementsMore(x, from, depth, count, acc, e, q, n, r);
    } else {
      assert es == [e] && ElementsSize(es[1..]) == 0;
      ElementsLast(x, from, depth, count, acc, e, q, n);
    }
  }

  lemma ElementsMore(x: Input, from: nat, depth: nat, count: nat, acc: seq<Element>, e: Element, q: nat, n: nat, r: Read<seq<Element>>)
    requires from <= |x.text| && ReadElement(x, from, depth, count, |acc|) == Ok(e, q, n)
    requires x.text[q] == ',' && ReadElements(x, q + 1, depth, n, acc + [e]) == r
    ensures ReadElements(x, from, depth, count, acc) == r
  {
  }

  lemma ElementsLast(x: Input, from: nat, depth: nat, count: nat, acc: seq<Element>, e: Element, q: nat, n: nat)
    requires from <= |x.text| && ReadElement(x, from, depth, count, |acc|) == Ok(e, q, n)
    requires x.text[q] != ','
    ensures ReadElements(x, from, depth, count, acc) == Ok(acc + [e], q + 1, n)
  {
  }

  lemma {:induction false} ElementRead(x: Input, from: nat, depth: nat, count: nat, k: nat, e: Element)
    requires At(x.text, from, ElementText(e)) == true && k < x.children
    requires WellFormedElement(e) == true && Within(x, depth + 1, count, e.value) == true
    requires var q := from + |ElementText(e)|; q < |x.text| && x.text[q] in ",]"
    ensures from <= |x.text|
    ensures ReadElement(x, from, depth, count, k) == Ok(e, from + |ElementText(e)|, count + Size(e.value))
    ensures var p := SkipSpaces(x.text, from); p < |x.text| && x.text[p] != ']'
    decreases e, 4
  {
    hide At, Text, ReadValue, Spaces, WellFormed, Narrow, Size, Depth;
    SpacedComplete(x, from, depth + 1, count, e.before, e.value, e.after);
  }

  // --- members ------------------------------------------------------------------------------

  ghost predicate MembersWithin(x: Input, depth: nat, count: nat, ms: seq<Member>) {
    && WellFormedMembers(ms) && NarrowMembers(ms, x.children)
    && depth < x.maxDepth && (MembersDepth(ms) > 0 ==> depth + 1 + MembersDepth(ms) <= x.maxDepth)
    && count + MembersSize(ms) <= x.capacity
  }

  lemma MembersWithinStep(x: Input, depth: nat, count: nat, ms: seq<Member>)
    requires ms != [] && MembersWithin(x, depth, count, ms)
    ensures WellFormedMember(ms[0]) && Within(x, depth + 1, count + 1, ms[0].value) && count < x.capacity
    ensures MembersWithin(x, depth, count + 1 + Size(ms[0].value), ms[1..])
    ensures MembersSize(ms) == 1 + Size(ms[0].value) + MembersSize(ms[1..])
  {
  }

  lemma MembersStand(s: string, from: nat, ms: seq<Member>)
    requires ms != [] && At(s, from, MembersText(ms))
    ensures At(s, from, MemberText(ms[0]))
    ensures var q := from + |MemberText(ms[0])|;
      if |ms| == 1 then q == from + |MembersText(ms)|
      else q < |s| && s[q] == ',' && At(s, q + 1, MembersText(ms[1..]))
           && q + 1 + |MembersText(ms[1..])| == from + |MembersText(ms)|
  {
    if |ms| > 1 {
      var first := MemberText(ms[0]);
      AtConcat(s, from, first + ",", MembersText(ms[1..]));
      AtConcat(s, from, first, ",");
    }
  }

  /** The label of a member, and what stands after it. */
  lemma LabelComplete(x: Input, from: nat, count: nat, m: Member)
    requires At(x.text, from, MemberText(m)) && WellFormedMember(m) && count < x.capacity
    ensures var l := Label(m.beforeKey, m.key, m.afterKey);
      && from <= |x.text|
      && ReadLabel(x, from, count) == Ok(l, from + |LabelText(l)|, count + 1)
      && At(x.text, from + |LabelText(l)|, SpacedText(m.beforeValue, m.value, m.after))
      && |MemberText(m)| == |LabelText(l)| + |SpacedText(m.beforeValue, m.value, m.after)|
    ensures var p := SkipSpaces(x.text, from); p < |x.text| && x.text[p] == '"'
  {
    hide At, ReadLabel, SkipSpaces, StringBody, Spaces, Text, WellFormed;
    var l := Label(m.beforeKey, m.key, m.afterKey);
    var rest := SpacedText(m.beforeValue, m.value, m.after);
    assert MemberText(m) == LabelText(l) + rest;
    AtConcat(x.text, from, LabelText(l), rest);
    LabelRead(x, from, count, l);
  }

  lemma LabelRead(x: Input, from: nat, count: nat, l: Label)
    requires At(x.text, from, LabelText(l)) && count < x.capacity
    requires Spaces(l.beforeKey) && StringBody(l.key) && Spaces(l.afterKey)
    ensures from <= |x.text| && ReadLabel(x, from, count) == Ok(l, from + |LabelText(l)|, count + 1)
    ensures var p := SkipSpaces(x.text, from); p < |x.text| && x.text[p] == '"'
  {
    hide StringBody, Spaces, SkipSpaces, At, ReadString, LabelText;
    LabelParts(x.text, from, l);
    LabelLength(l);
    var key := from + |l.beforeKey|;
    var after := key + |l.key| + 2;
    SpacesComplete(x.text, from, l.beforeKey);
    StrComplete(x, key, count, l.key);
    SpacesComplete(x.text, after, l.afterKey);
    SliceAt(x.text, from, l.beforeKey);
    SliceAt(x.text, after, l.afterKey);
  }

  lemma LabelLength(l: Label)
    ensures |LabelText(l)| == |l.beforeKey| + |l.key| + |l.afterKey| + 3
  {
  }

  lemma LabelParts(s: string, from: nat, l: Label)
    requires At(s, from, LabelText(l))
    ensures var key := from + |l.beforeKey|; var after := key + |l.key| + 2; var colon := after + |l.afterKey|;
      && At(s, from, l.beforeKey) && At(s, key, "\"" + l.key + "\"") && At(s, after, l.afterKey)
      && s[key] == '"' && colon < |s| && s[colon] == ':'
  {
    var quoted := "\"" + l.key + "\"";
    assert LabelText(l) == l.beforeKey + quoted + l.afterKey + ":";
    AtConcat(s, from, l.beforeKey + quoted + l.afterKey, ":");
    AtConcat(s, from, l.beforeKey + quoted, l.afterKey);
    AtConcat(s, from, l.beforeKey, quoted);
    CharStands(s, from + |l.beforeKey|, quoted, 0);
    CharStands(s, from + |LabelText(l)| - 1, ":", 0);
  }

  /** An opening bracket with something inside is not followed by its closing one. */
  lemma {:induction false} MembersStart(x: Input, from: nat, depth: nat, count: nat, ms: seq<Member>)
    requires ms != [] && 0 < x.children && At(x.text, from, MembersText(ms)) && MembersWithin(x, depth, count, ms)
    requires var end := from + |MembersText(ms)|; end < |x.text| && x.text[end] == '}'
    ensures from <= |x.text|
    ensures var p := SkipSpaces(x.text, from); p < |x.text| && x.text[p] != '}'
    decreases ms, 4
  {
    MembersStand(x.text, from, ms);
    MembersWithinStep(x, depth, count, ms);
    MemberRead(x, from, depth, count, 0, ms[0]);
  }

  lemma {:induction false} MembersComplete(x: Input, from: nat, depth: nat, count: nat, acc: seq<Member>, ms: seq<Member>, r: Read<seq<Member>>)
    requires ms != [] && At(x.text, from, MembersText(ms)) == true && MembersWithin(x, depth, count, ms) == true
    requires |acc| + |ms| <= x.children
    requires var end := from + |MembersText(ms)|; end < |x.text| && x.text[end] == '}'
    requires r.Ok? && r.value == acc + ms && r.pos == from + |MembersText(ms)| + 1 && r.count == count + MembersSize(ms)
    ensures from <= |x.text| && ReadMembers(x, from, depth, count, acc) == r
    decreases ms, 4, 1
  {
    hide At, ReadMembers, ReadMember, MemberText, MembersText, Text, WellFormedMember, Within;
    var m := ms[0];
    var q := from + |MemberText(m)|;
    var n := count + 1 + Size(m.value);
    MembersStand(x.text, from, ms);
    MembersWithinStep(x, depth, count, ms);
    MemberRead(x, from, depth, count, |acc|, m);
    if |ms| > 1 {
      ShiftOne(acc, ms);
      MembersComplete(x, q + 1, depth, n, acc + [m], ms[1..], r);
      MembersMore(x, from, depth, count, acc, m, q, n, r);
    } else {
      assert ms == [m] && MembersSize(ms[1..]) == 0;
      MembersLast(x, from, depth, count, acc, m, q, n);
    }
  }

  lemma MembersMore(x: Input, from: nat, depth: nat, count: nat, acc: seq<Member>, m: Member, q: nat, n: nat, r: Read<seq<Member>>)
    requires from <= |x.text| && ReadMember(x, from, depth, count, |acc|) == Ok(m, q, n)
    requires x.text[q] == ',' && ReadMembers(x, q + 1, depth, n, acc + [m]) == r
    ensures ReadMembers(x, from, depth, count, acc) == r
  {
  }

  lemma MembersLast(x: Input, from: nat, depth: nat, count: nat, acc: seq<Member>, m: Member, q: nat, n: nat)
    requires from <= |x.text| && ReadMember(x, from, depth, count, |acc|) == Ok(m, q, n)
    requires x.text[q] != ','
    ensures ReadMembers(x, from, depth, count, acc) == Ok(acc + [m], q + 1, n)
  {
  }

  lemma {:induction false} MemberRead(x: Input, from: nat, depth: nat, count: nat, k: nat, m: Member)
    requires At(x.text, from, MemberText(m)) == true && k < x.children
    requires WellFormedMember(m) == true && Within(x, depth + 1, count + 1, m.value) == true && count < x.capacity
    requires var q := from + |MemberText(m)|; q < |x.text| && x.text[q] in ",}"
    ensures from <= |x.text|
    ensures ReadMember(x, from, depth, count, k) == Ok(m, from + |MemberText(m)|, count + 1 + Size(m.value))
    ensures var p := SkipSpaces(x.text, from); p < |x.text| && x.text[p] != '}'
    decreases m, 4
  {
    hide At, Text, ReadLabel, ReadValue, StringBody, Spaces, WellFormed, Narrow, Size, Depth;
    LabelComplete(x, from, count, m);
    SpacedComplete(x, ReadLabel(x, from, count).pos, depth + 1, count + 1, m.beforeValue, m.value, m.after);
  }
}
