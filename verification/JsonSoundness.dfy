/** The reader accepts only JSON, and what it returns is what the text spells. */
module JsonSoundness {
  import opened JsonGrammar
  import opened Numerals
  import opened JsonReader
  import opened Bits

  /** t stands in s from offset p on. */
  predicate At(s: string, p: nat, t: string)
    decreases |t|
  {
    if t == "" then p <= |s| else p < |s| && s[p] == t[0] && At(s, p + 1, t[1..])
  }

  lemma {:induction false} AtConcat(s: string, p: nat, a: string, b: string)
    ensures At(s, p, a + b) <==> At(s, p, a) && At(s, p + |a|, b)
    decreases |a|
  {
    if a == "" {
      assert a + b == b;
    } else {
      assert (a + b)[1..] == a[1..] + b;
      AtConcat(s, p + 1, a[1..], b);
    }
  }

  lemma {:induction false} AtSlice(s: string, p: nat, q: nat)
    requires p <= q <= |s|
    ensures At(s, p, s[p..q])
    decreases q - p
  {
    if p < q {
      assert s[p..q][1..] == s[p + 1..q];
      AtSlice(s, p + 1, q);
    }
  }

  lemma {:induction false} SliceAt(s: string, p: nat, t: string)
    requires At(s, p, t)
    ensures p + |t| <= |s| && s[p..p + |t|] == t
    decreases |t|
  {
    if t != "" {
      SliceAt(s, p + 1, t[1..]);
      assert s[p..p + |t|] == [s[p]] + s[p + 1..p + |t|];
      assert t == [t[0]] + t[1..];
    }
  }

  // --- scalars -------------------------------------------------------------------------

  lemma {:induction false} SpacesSound(s: string, pos: nat)
    requires pos <= |s|
    ensures var p := SkipSpaces(s, pos); Spaces(s[pos..p]) && (p < |s| ==> !IsSpace(s[p]))
    decreases |s| - pos
  {
    if pos < |s| && IsSpace(s[pos]) {
      SpacesSound(s, pos + 1);
      var p := SkipSpaces(s, pos);
      assert s[pos..p] == [s[pos]] + s[pos + 1..p];
    }
  }

  lemma {:induction false} DigitsSound(s: string, pos: nat)
    requires pos <= |s|
    ensures var p := SkipDigits(s, pos);
      && (forall i :: pos <= i < p ==> IsDigit(s[i]))
      && (p < |s| ==> !IsDigit(s[p]))
    decreases |s| - pos
  {
    if pos < |s| && IsDigit(s[pos]) {
      DigitsSound(s, pos + 1);
    }
  }

  /** One step of the scan passes one unit of the body. */
  lemma UnitScanned(s: string, i: nat) returns (n: nat)
    requires i < |s| && ScanString(s, i).Upto? && s[i] != '"'
    ensures 0 < n && i + n <= ScanString(s, i).pos && ScanString(s, i) == ScanString(s, i + n)
    ensures StringUnit(s[i..ScanString(s, i).pos]) == n
  {
    var body := s[i..ScanString(s, i).pos];
    if s[i] != '\\' {
      n := 1;
    } else if IsSimpleEscape(s[i + 1]) {
      n := 2;
    } else {
      n := 6;
      assert forall h :: 2 <= h < 6 ==> body[h] == s[i + h];
    }
  }

  lemma {:induction false} StringSound(s: string, i: nat)
    requires i <= |s| && ScanString(s, i).Upto?
    ensures StringBody(s[i..ScanString(s, i).pos])
    decreases |s| - i
  {
    if s[i] != '"' {
      var n := UnitScanned(s, i);
      var j := ScanString(s, i).pos;
      StringSound(s, i + n);
      assert s[i..j][n..] == s[i + n..j];
    }
  }

  lemma WholeSound(s: string, p: nat)
    requires p <= |s| && ScanWhole(s, p).Upto?
    ensures var whole := s[p..ScanWhole(s, p).pos];
      Digits(whole) && (whole[0] == '0' ==> whole == "0")
  {
    DigitsSound(s, p + 1);
  }

  lemma FractionSound(s: string, p: nat)
    requires p <= |s| && ScanFraction(s, p).Upto?
    ensures var frac := s[p..ScanFraction(s, p).pos];
      frac == "" || (frac[0] == '.' && Digits(frac[1..]))
  {
    var e := ScanFraction(s, p).pos;
    if p < e {
      DigitsSound(s, p + 1);
      assert s[p..e][1..] == s[p + 1..e];
    }
  }

  lemma ExponentSound(s: string, p: nat)
    requires p <= |s| && ScanExponent(s, p).Upto?
    ensures var exp := s[p..ScanExponent(s, p).pos];
      exp == "" || (exp[0] in "eE" && (Digits(exp[1..]) || (|exp| > 1 && exp[1] in "+-" && Digits(exp[2..]))))
  {
    var end := ScanExponent(s, p).pos;
    if p < end {
      var q := if p + 1 < |s| && s[p + 1] in "+-" then p + 2 else p + 1;
      DigitsSound(s, q);
      assert s[p..end][q - p..] == s[q..end];
      assert Digits(s[q..end]);
    }
  }

  lemma FourSlices(s: string, a: nat, b: nat, c: nat, d: nat, e: nat)
    requires a <= b <= c <= d <= e <= |s|
    ensures s[a..b] + s[b..c] + s[c..d] + s[d..e] == s[a..e]
  {
    TwoSlices(s, a, b, c);
    TwoSlices(s, a, c, d);
    TwoSlices(s, a, d, e);
  }

  lemma TwoSlices(s: string, a: nat, b: nat, c: nat)
    requires a <= b <= c <= |s|
    ensures s[a..b] + s[b..c] == s[a..c]
  {
  }

  lemma NumberSound(x: Input, at: nat, count: nat)
    requires at < |x.text| && ReadNumber(x, at, count).Ok?
    ensures var r := ReadNumber(x, at, count);
      && WellFormedNumber(r.value) && At(x.text, at, NumberText(r.value)) && r.pos == at + |NumberText(r.value)|
      && r.count == count + 1 <= x.capacity
  {
    hide ScanWhole, ScanFraction, ScanExponent, Digits, At;
    var s := x.text;
    var digits := if s[at] == '-' then at + 1 else at;
    var point := ScanWhole(s, digits).pos;
    var e := ScanFraction(s, point).pos;
    var end := ScanExponent(s, e).pos;
    WholeSound(s, digits);
    FractionSound(s, point);
    ExponentSound(s, e);
    FourSlices(s, at, digits, point, e, end);
    AtSlice(s, at, end);
    if s[at] == '-' {
      assert s[at..digits] == "-";
    }
  }

  // --- structures ------------------------------------------------------------------------

  /** What a successful read of a value at p says about it. Where lemmas below
      end in "== true" they hand such a predicate on whole, unopened. */
  ghost predicate Reads(x: Input, p: nat, depth: nat, count: nat, v: Value, end: nat, count': nat) {
    && At(x.text, p, Text(v)) && end == p + |Text(v)|
    && WellFormed(v) && Narrow(v, x.children)
    && (Depth(v) > 0 ==> depth + Depth(v) <= x.maxDepth)
    && count' == count + Size(v) <= x.capacity
  }

  ghost predicate ReadsElements(x: Input, at: nat, depth: nat, count: nat, es: seq<Element>, end: nat, count': nat) {
    && es != []
    && At(x.text, at, ElementsText(es)) && end == at + |ElementsText(es)|
    && WellFormedElements(es) && NarrowElements(es, x.children)
    && (ElementsDepth(es) > 0 ==> depth + 1 + ElementsDepth(es) <= x.maxDepth)
    && count' == count + ElementsSize(es) <= x.capacity
  }

  ghost predicate ReadsMembers(x: Input, at: nat, depth: nat, count: nat, ms: seq<Member>, end: nat, count': nat) {
    && ms != []
    && At(x.text, at, MembersText(ms)) && end == at + |MembersText(ms)|
    && WellFormedMembers(ms) && NarrowMembers(ms, x.children)
    && (MembersDepth(ms) > 0 ==> depth + 1 + MembersDepth(ms) <= x.maxDepth)
    && count' == count + MembersSize(ms) <= x.capacity
  }

  lemma {:induction false} ValueSound(x: Input, pos: nat, depth: nat, count: nat)
    requires pos <= |x.text| && ReadValue(x, pos, depth, count).Ok?
    ensures var r := ReadValue(x, pos, depth, count);
      && Spaces(r.value.before) && At(x.text, pos, r.value.before)
      && Reads(x, pos + |r.value.before|, depth, count, r.value.value, r.pos, r.count)
    decreases |x.text| - pos, 2
  {
    SpacesSound(x.text, pos);
    AtSlice(x.text, pos, SkipSpaces(x.text, pos));
    BareSound(x, SkipSpaces(x.text, pos), depth, count);
  }

  lemma {:induction false} BareSound(x: Input, at: nat, depth: nat, count: nat)
    requires at < |x.text| && ReadBare(x, at, depth, count).Ok?
    ensures var r := ReadBare(x, at, depth, count);
      Reads(x, at, depth, count, r.value, r.pos, r.count)
    decreases |x.text| - at, 1
  {
    var c := x.text[at];
    if c == '{' {
      ObjectSound(x, at, depth, count);
    } else if c == '[' {
      ArraySound(x, at, depth, count);
    } else {
      ScalarSound(x, at, depth, count);
    }
  }

  lemma WordSound(x: Input, at: nat, count: nat, word: string)
    requires at < |x.text| && word != "" && ReadLiteral(x, at, count, word).Ok?
    ensures var r := ReadLiteral(x, at, count, word);
      At(x.text, at, word) && r.pos == at + |word| && r.count == count + 1 <= x.capacity
  {
    AtSlice(x.text, at, at + |word|);
  }

  lemma StrSound(x: Input, at: nat, count: nat)
    requires at < |x.text| && x.text[at] == '"' && ReadString(x, at, count).Ok?
    ensures var r := ReadString(x, at, count);
      && At(x.text, at, "\"" + r.value + "\"") && r.pos == at + |"\"" + r.value + "\""|
      && StringBody(r.value) && r.count == count + 1 <= x.capacity
  {
    hide ScanString, StringBody;
    StringSound(x.text, at + 1);
    var i := ScanString(x.text, at + 1).pos;
    AtSlice(x.text, at + 1, i);
    Bracketed(x.text, at, "\"", x.text[at + 1..i], "\"");
  }

  lemma ScalarSound(x: Input, at: nat, depth: nat, count: nat)
    requires at < |x.text| && x.text[at] !in "{[" && ReadBare(x, at, depth, count).Ok?
    ensures var r := ReadBare(x, at, depth, count);
      Reads(x, at, depth, count, r.value, r.pos, r.count)
  {
    hide At, ReadString, ReadNumber, ReadLiteral, ReadObject, ReadArray, WellFormedNumber, NumberText, StringBody;
    var c := x.text[at];
    if c == '"' {
      StrSound(x, at, count);
    } else if c == 't' || c == 'f' || c == 'n' {
      var word := if c == 't' then "true" else if c == 'f' then "false" else "null";
      WordSound(x, at, count, word);
    } else {
      NumberSound(x, at, count);
    }
  }

  lemma {:induction false} ArraySound(x: Input, at: nat, depth: nat, count: nat)
    requires at < |x.text| && x.text[at] == '[' && ReadArray(x, at, depth, count).Ok?
    ensures var r := ReadArray(x, at, depth, count);
      Reads(x, at, depth, count, r.value, r.pos, r.count)
    decreases |x.text| - at, 0
  {
    hide At, SkipSpaces, ReadElements, Reads, ReadsElements, Text, ElementsText, Size, Depth, WellFormed, Narrow;
    var p := SkipSpaces(x.text, at + 1);
    if p < |x.text| && x.text[p] == ']' {
      EmptyArraySound(x, at, depth, count, p);
    } else {
      var es, end, n := ElementsSound(x, at + 1, depth, count + 1, []);
      assert [] + es == es;
      ElementsBounded(x, at + 1, depth, count + 1, []);
      ArraySpelled(x, at, depth, count, es, end, n);
    }
  }

  lemma EmptyArraySound(x: Input, at: nat, depth: nat, count: nat, p: nat)
    requires at < |x.text| && x.text[at] == '[' && depth < x.maxDepth && count < x.capacity
    requires p == SkipSpaces(x.text, at + 1) < |x.text| && x.text[p] == ']'
    ensures Reads(x, at, depth, count, Arr(x.text[at + 1..p], []), p + 1, count + 1)
  {
    hide At, SkipSpaces;
    EmptySound(x, at, depth, count, '[', ']');
    var gap := x.text[at + 1..p];
    var v := Arr(gap, []);
    assert Text(v) == ['['] + gap + [']'];
    assert At(x.text, at, Text(v)) && WellFormed(v) && Narrow(v, x.children) && Depth(v) == 1 && Size(v) == 1;
  }

  lemma ArraySpelled(x: Input, at: nat, depth: nat, count: nat, es: seq<Element>, end: nat, count': nat)
    requires at < |x.text| && x.text[at] == '[' && depth < x.maxDepth
    requires ReadsElements(x, at + 1, depth, count + 1, es, end, count')
    requires end < |x.text| && x.text[end] == ']' && |es| <= x.children
    ensures Reads(x, at, depth, count, Arr("", es), end + 1, count')
  {
    Bracketed(x.text, at, "[", ElementsText(es), "]");
  }

  lemma {:induction false} ObjectSound(x: Input, at: nat, depth: nat, count: nat)
    requires at < |x.text| && x.text[at] == '{' && ReadObject(x, at, depth, count).Ok?
    ensures var r := ReadObject(x, at, depth, count);
      Reads(x, at, depth, count, r.value, r.pos, r.count)
    decreases |x.text| - at, 0
  {
    hide At, SkipSpaces, ReadMembers, Reads, ReadsMembers, Text, MembersText, Size, Depth, WellFormed, Narrow;
    var p := SkipSpaces(x.text, at + 1);
    if p < |x.text| && x.text[p] == '}' {
      EmptyObjectSound(x, at, depth, count, p);
    } else {
      var ms, end, n := MembersSound(x, at + 1, depth, count + 1, []);
      assert [] + ms == ms;
      MembersBounded(x, at + 1, depth, count + 1, []);
      ObjectSpelled(x, at, depth, count, ms, end, n);
    }
  }

  lemma EmptyObjectSound(x: Input, at: nat, depth: nat, count: nat, p: nat)
    requires at < |x.text| && x.text[at] == '{' && depth < x.maxDepth && count < x.capacity
    requires p == SkipSpaces(x.text, at + 1) < |x.text| && x.text[p] == '}'
    ensures Reads(x, at, depth, count, Obj(x.text[at + 1..p], []), p + 1, count + 1)
  {
    hide At, SkipSpaces;
    EmptySound(x, at, depth, count, '{', '}');
    var gap := x.text[at + 1..p];
    var v := Obj(gap, []);
    assert Text(v) == ['{'] + gap + ['}'];
    assert At(x.text, at, Text(v)) && WellFormed(v) && Narrow(v, x.children) && Depth(v) == 1 && Size(v) == 1;
  }

  lemma ObjectSpelled(x: Input, at: nat, depth: nat, count: nat, ms: seq<Member>, end: nat, count': nat)
    requires at < |x.text| && x.text[at] == '{' && depth < x.maxDepth
    requires ReadsMembers(x, at + 1, depth, count + 1, ms, end, count')
    requires end < |x.text| && x.text[end] == '}' && |ms| <= x.children
    ensures Reads(x, at, depth, count, Obj("", ms), end + 1, count')
  {
    Bracketed(x.text, at, "{", MembersText(ms), "}");
  }

  /** Nothing but white space between the brackets. */
  lemma EmptySound(x: Input, at: nat, depth: nat, count: nat, open: char, close: char)
    requires at < |x.text| && x.text[at] == open && depth < x.maxDepth && count < x.capacity
    requires var p := SkipSpaces(x.text, at + 1); p < |x.text| && x.text[p] == close
    ensures var p := SkipSpaces(x.text, at + 1); var gap := x.text[at + 1..p];
      && Spaces(gap)
      && At(x.text, at, [open] + gap + [close])
  {
    SpacesSound(x.text, at + 1);
    var p := SkipSpaces(x.text, at + 1);
    AtSlice(x.text, at + 1, p);
    Bracketed(x.text, at, [open], x.text[at + 1..p], [close]);
  }

  lemma Bracketed(s: string, at: nat, open: string, inner: string, close: string)
    requires At(s, at, open) && At(s, at + |open|, inner) && At(s, at + |open| + |inner|, close)
    ensures At(s, at, open + inner + close)
  {
    AtConcat(s, at, open, inner);
    AtConcat(s, at, open + inner, close);
  }

  /** One element and the white space after it. */
  lemma {:induction false} ElementSound(x: Input, from: nat, depth: nat, count: nat, k: nat)
    requires from <= |x.text| && ReadElement(x, from, depth, count, k).Ok?
    ensures var r := ReadElement(x, from, depth, count, k); var e := r.value;
      && At(x.text, from, ElementText(e)) && r.pos == from + |ElementText(e)|
      && WellFormedElement(e) && Narrow(e.value, x.children)
      && (Depth(e.value) > 0 ==> depth + 1 + Depth(e.value) <= x.maxDepth)
      && r.count == count + Size(e.value) <= x.capacity
      && k != x.children
    decreases |x.text| - from, 3
  {
    hide At, Text, ReadValue, SkipSpaces, Spaces, WellFormed, Narrow, Size, Depth;
    var e := ReadElement(x, from, depth, count, k).value;
    var v := ReadValue(x, from, depth + 1, count);
    ValueSound(x, from, depth + 1, count);
    SpacesSound(x.text, v.pos);
    AtSlice(x.text, v.pos, SkipSpaces(x.text, v.pos));
    Bracketed(x.text, from, e.before, Text(e.value), e.after);
  }

  lemma ElementCounted(x: Input, from: nat, depth: nat, count: nat, k: nat)
    requires from <= |x.text| && ReadElement(x, from, depth, count, k).Ok?
    ensures k != x.children
  {
    hide ReadValue, SkipSpaces;
  }

  lemma {:induction false} ElementsBounded(x: Input, from: nat, depth: nat, count: nat, acc: seq<Element>)
    requires from <= |x.text| && ReadElements(x, from, depth, count, acc).Ok? && |acc| <= x.children
    ensures |ReadElements(x, from, depth, count, acc).value| <= x.children
    decreases |x.text| - from
  {
    hide ReadElement;
    var r := ReadElement(x, from, depth, count, |acc|);
    ElementCounted(x, from, depth, count, |acc|);
    if x.text[r.pos] == ',' {
      ElementsBounded(x, r.pos + 1, depth, r.count, acc + [r.value]);
    }
  }

  lemma {:induction false} ElementsSound(x: Input, from: nat, depth: nat, count: nat, acc: seq<Element>)
    returns (es: seq<Element>, end: nat, count': nat)
    requires from <= |x.text| && ReadElements(x, from, depth, count, acc).Ok?
    requires depth < x.maxDepth
    ensures ReadElements(x, from, depth, count, acc) == Ok(acc + es, end + 1, count')
    ensures end < |x.text| && x.text[end] == ']'
    ensures ReadsElements(x, from, depth, count, es, end, count') == true
    decreases |x.text| - from, 4
  {
    hide At, ElementText, ElementsText, ReadElement, WellFormed, WellFormedElement, Narrow, Size, Depth, ReadsElements;
    ElementSound(x, from, depth, count, |acc|);
    var r := ReadElement(x, from, depth, count, |acc|);
    if x.text[r.pos] == ',' {
      var rest;
      rest, end, count' := ElementsSound(x, r.pos + 1, depth, r.count, acc + [r.value]);
      ElementPrepended(x, from, depth, count, r.value, r.pos, r.count, rest, end, count');
      es := [r.value] + rest;
      Assoc(acc, [r.value], rest);
    } else {
      ElementAlone(x, from, depth, count, r.value, r.pos, r.count);
      es, end, count' := [r.value], r.pos, r.count;
    }
  }

  lemma ElementAlone(x: Input, from: nat, depth: nat, count: nat, e: Element, q: nat, n: nat)
    requires At(x.text, from, ElementText(e)) && q == from + |ElementText(e)|
    requires WellFormedElement(e) && Narrow(e.value, x.children)
    requires Depth(e.value) > 0 ==> depth + 1 + Depth(e.value) <= x.maxDepth
    requires n == count + Size(e.value) <= x.capacity
    ensures ReadsElements(x, from, depth, count, [e], q, n) == true
  {
    assert [e][1..] == [];
    assert WellFormedElements([]) && NarrowElements([], x.children) && ElementsDepth([]) == 0 && ElementsSize([]) == 0;
  }

  lemma ElementPrepended(x: Input, from: nat, depth: nat, count: nat, e: Element, q: nat, n: nat, rest: seq<Element>, end: nat, count': nat)
    requires At(x.text, from, ElementText(e)) && q == from + |ElementText(e)| < |x.text| && x.text[q] == ','
    requires WellFormedElement(e) && Narrow(e.value, x.children)
    requires Depth(e.value) > 0 ==> depth + 1 + Depth(e.value) <= x.maxDepth
    requires n == count + Size(e.value)
    requires ReadsElements(x, q + 1, depth, n, rest, end, count')
    ensures ReadsElements(x, from, depth, count, [e] + rest, end, count') == true
  {
    Bracketed(x.text, from, ElementText(e), ",", ElementsText(rest));
    assert ([e] + rest)[1..] == rest;
  }

  lemma LabelSound(x: Input, from: nat, count: nat)
    requires from <= |x.text| && ReadLabel(x, from, count).Ok?
    ensures var r := ReadLabel(x, from, count); var l := r.value;
      && Spaces(l.beforeKey) && StringBody(l.key) && Spaces(l.afterKey)
      && At(x.text, from, LabelText(l)) && r.pos == from + |LabelText(l)|
      && r.count == count + 1 <= x.capacity
  {
    var at := SkipSpaces(x.text, from);
    var p := ReadString(x, at, count).pos;
    var colon := SkipSpaces(x.text, p);
    SpacesSound(x.text, from);
    StringSound(x.text, at + 1);
    SpacesSound(x.text, p);
    SixSlices(x.text, from, at, p, colon);
  }

  lemma SixSlices(s: string, from: nat, at: nat, p: nat, colon: nat)
    requires from <= at && at + 2 <= p <= colon < |s|
    requires s[at] == '"' && s[p - 1] == '"' && s[colon] == ':'
    ensures var t := s[from..at] + "\"" + s[at + 1..p - 1] + "\"" + s[p..colon] + ":";
      At(s, from, t) && |t| == colon + 1 - from
  {
    AtSlice(s, from, at);
    AtSlice(s, at + 1, p - 1);
    AtSlice(s, p, colon);
    Bracketed(s, from, s[from..at], "\"", s[at + 1..p - 1]);
    Bracketed(s, from, s[from..at] + "\"" + s[at + 1..p - 1], "\"", s[p..colon]);
    AtConcat(s, from, s[from..at] + "\"" + s[at + 1..p - 1] + "\"" + s[p..colon], ":");
  }

  function LabelText(l: Label): string {
    l.beforeKey + "\"" + l.key + "\"" + l.afterKey + ":"
  }

  lemma {:induction false} MemberSound(x: Input, from: nat, depth: nat, count: nat, k: nat)
    requires from <= |x.text| && ReadMember(x, from, depth, count, k).Ok?
    ensures var r := ReadMember(x, from, depth, count, k); var m := r.value;
      && At(x.text, from, MemberText(m)) && r.pos == from + |MemberText(m)|
      && WellFormedMember(m) && Narrow(m.value, x.children)
      && (Depth(m.value) > 0 ==> depth + 1 + Depth(m.value) <= x.maxDepth)
      && r.count == count + 1 + Size(m.value) <= x.capacity
      && k != x.children
    decreases |x.text| - from, 3
  {
    hide At, Text, ReadLabel, ReadValue, SkipSpaces, StringBody, Spaces, WellFormed, Narrow, Size, Depth;
    var m := ReadMember(x, from, depth, count, k);
    LabelSound(x, from, count);
    var l := ReadLabel(x, from, count);
    var v := ReadValue(x, l.pos, depth + 1, l.count);
    ValueSound(x, l.pos, depth + 1, l.count);
    SpacesSound(x.text, v.pos);
    AtSlice(x.text, v.pos, m.pos);
    MemberSpelled(x, from, l.value, m.value, m.pos);
  }

  lemma MemberCounted(x: Input, from: nat, depth: nat, count: nat, k: nat)
    requires from <= |x.text| && ReadMember(x, from, depth, count, k).Ok?
    ensures k != x.children
  {
    hide ReadValue, SkipSpaces, ReadLabel;
  }

  lemma {:induction false} MembersBounded(x: Input, from: nat, depth: nat, count: nat, acc: seq<Member>)
    requires from <= |x.text| && ReadMembers(x, from, depth, count, acc).Ok? && |acc| <= x.children
    ensures |ReadMembers(x, from, depth, count, acc).value| <= x.children
    decreases |x.text| - from
  {
    hide ReadMember;
    var r := ReadMember(x, from, depth, count, |acc|);
    MemberCounted(x, from, depth, count, |acc|);
    if x.text[r.pos] == ',' {
      MembersBounded(x, r.pos + 1, depth, r.count, acc + [r.value]);
    }
  }

  lemma {:induction false} MembersSound(x: Input, from: nat, depth: nat, count: nat, acc: seq<Member>)
    returns (ms: seq<Member>, end: nat, count': nat)
    requires from <= |x.text| && ReadMembers(x, from, depth, count, acc).Ok?
    requires depth < x.maxDepth
    ensures ReadMembers(x, from, depth, count, acc) == Ok(acc + ms, end + 1, count')
    ensures end < |x.text| && x.text[end] == '}'
    ensures ReadsMembers(x, from, depth, count, ms, end, count') == true
    decreases |x.text| - from, 4
  {
    hide At, MemberText, MembersText, ReadMember, WellFormed, WellFormedMember, Narrow, Size, Depth, ReadsMembers;
    MemberSound(x, from, depth, count, |acc|);
    var r := ReadMember(x, from, depth, count, |acc|);
    if x.text[r.pos] == ',' {
      var rest;
      rest, end, count' := MembersSound(x, r.pos + 1, depth, r.count, acc + [r.value]);
      MemberPrepended(x, from, depth, count, r.value, r.pos, r.count, rest, end, count');
      ms := [r.value] + rest;
      Assoc(acc, [r.value], rest);
    } else {
      MemberAlone(x, from, depth, count, r.value, r.pos, r.count);
      ms, end, count' := [r.value], r.pos, r.count;
    }
  }

  lemma MemberSpelled(x: Input, from: nat, l: Label, m: Member, end: nat)
    requires m.beforeKey == l.beforeKey && m.key == l.key && m.afterKey == l.afterKey
    requires At(x.text, from, LabelText(l))
    requires At(x.text, from + |LabelText(l)|, m.beforeValue)
    requires At(x.text, from + |LabelText(l)| + |m.beforeValue|, Text(m.value))
    requires At(x.text, from + |LabelText(l)| + |m.beforeValue| + |Text(m.value)|, m.after)
    requires end == from + |LabelText(l)| + |m.beforeValue| + |Text(m.value)| + |m.after|
    ensures At(x.text, from, MemberText(m)) && end == from + |MemberText(m)|
  {
    Bracketed(x.text, from, LabelText(l), m.beforeValue, Text(m.value));
    AtConcat(x.text, from, LabelText(l) + m.beforeValue + Text(m.value), m.after);
  }

  lemma MemberAlone(x: Input, from: nat, depth: nat, count: nat, m: Member, q: nat, n: nat)
    requires At(x.text, from, MemberText(m)) && q == from + |MemberText(m)|
    requires WellFormedMember(m) && Narrow(m.value, x.children)
    requires Depth(m.value) > 0 ==> depth + 1 + Depth(m.value) <= x.maxDepth
    requires n == count + 1 + Size(m.value) <= x.capacity
    ensures ReadsMembers(x, from, depth, count, [m], q, n) == true
  {
    assert [m][1..] == [];
    assert WellFormedMembers([]) && NarrowMembers([], x.children) && MembersDepth([]) == 0 && MembersSize([]) == 0;
  }

  lemma MemberPrepended(x: Input, from: nat, depth: nat, count: nat, m: Member, q: nat, n: nat, rest: seq<Member>, end: nat, count': nat)
    requires At(x.text, from, MemberText(m)) && q == from + |MemberText(m)| < |x.text| && x.text[q] == ','
    requires WellFormedMember(m) && Narrow(m.value, x.children)
    requires Depth(m.value) > 0 ==> depth + 1 + Depth(m.value) <= x.maxDepth
    requires n == count + 1 + Size(m.value)
    requires ReadsMembers(x, q + 1, depth, n, rest, end, count')
    ensures ReadsMembers(x, from, depth, count, [m] + rest, end, count') == true
  {
    Bracketed(x.text, from, MemberText(m), ",", MembersText(rest));
    assert ([m] + rest)[1..] == rest;
  }
}
