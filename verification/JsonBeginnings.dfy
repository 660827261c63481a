/**
 A text the reader refuses begins as JSON does, up to the place of the error: what
 was read by then, and a little more where the kind of error says so, can be
 completed to a document.
 */
module JsonBeginnings {
  import opened JsonGrammar
  import opened Numerals
  import opened JsonReader
  import opened JsonSoundness
  import A = JsonAcceptance

  /** Some JSON text begins so, whatever its depth and size. */
  ghost predicate Begins(t: string) {
    exists d :: A.IsJson(d) && t <= A.DocumentText(d)
  }

  /** What stands in s from from to to, and then f, is the beginning of t. */
  predicate Leads(s: string, from: nat, to: nat, f: string, t: string) {
    from <= to <= |s| && s[from..to] + f <= t
  }

  lemma LeadsAfter(s: string, from: nat, to: nat, f: string, a: string, t: string)
    requires At(s, from, a) && Leads(s, from + |a|, to, f, t)
    ensures Leads(s, from, to, f, a + t)
  {
    hide At;
    SliceAt(s, from, a);
    var q := from + |a|;
    assert s[from..to] == s[from..q] + s[q..to];
    assert s[from..to] + f == a + (s[q..to] + f);
    Prefixed(a, s[q..to] + f, t);
  }

  lemma Prefixed(a: string, b: string, t: string)
    requires b <= t
    ensures a + b <= a + t
  {
    assert t == b + t[|b|..];
    assert a + t == (a + b) + t[|b|..];
  }

  lemma LeadsMore(s: string, from: nat, to: nat, f: string, t: string, u: string)
    requires Leads(s, from, to, f, t)
    ensures Leads(s, from, to, f, t + u)
  {
    var b := s[from..to] + f;
    assert t == b + t[|b|..];
    assert t + u == b + (t[|b|..] + u);
  }

  lemma LeadsWhole(s: string, from: nat, t: string)
    requires At(s, from, t)
    ensures Leads(s, from, from + |t|, "", t)
  {
    hide At;
    SliceAt(s, from, t);
    assert t + "" == t;
  }

  lemma LeadsSlice(s: string, from: nat, to: nat, f: string, u: string)
    requires from <= to <= |s|
    ensures Leads(s, from, to, f, s[from..to] + f + u)
  {
    LeadsSelf(s, from, to, f);
    LeadsMore(s, from, to, f, s[from..to] + f, u);
  }

  lemma LeadsSelf(s: string, from: nat, to: nat, f: string)
    requires from <= to <= |s|
    ensures Leads(s, from, to, f, s[from..to] + f)
  {
  }

  // --- what may stand where the error was found -------------------------------------------------------

  /** An escape of four digits that the text ends within, so far right. */
  predicate CutEscape(s: string, at: nat) {
    at + 1 == |s| || (at + 1 < |s| < at + 6 && s[at + 1] == 'u' && forall i :: at + 2 <= i < |s| ==> IsHex(s[i]))
  }

  /** Where an error was found at at, f could have stood there. */
  predicate Fills(s: string, e: Error, at: nat, f: string) {
    at <= |s| &&
    (f == "" ||
     match e
     case UnexpectedCharacter => f == " "
     case InvalidString => f == "q"
     case InvalidNumber => f == "0"
     case InvalidLiteral => at < |s| && (f == "null" || (f == s[at..] && f <= WordOf(s[at])))
     case UnexpectedEnd =>
       if at == |s| then f == " " && (s != "" ==> s[|s| - 1] != '-')
       else f == "q" || (f == s[at..] && s[at] == '\\' && CutEscape(s, at))
     case _ => false)
  }

  // --- scalars ----------------------------------------------------------------------------------------

  function Zeros(n: nat): string
    requires n <= 4
  {
    "0000"[..n]
  }

  /** An escape of four digits, cut anywhere, completed with zeros. */
  lemma EscapeFilled(t: string)
    requires 2 <= |t| <= 6 && t[0] == '\\' && t[1] == 'u' && forall i :: 2 <= i < |t| ==> IsHex(t[i])
    ensures StringBody(t + Zeros(6 - |t|))
  {
    var b := t + Zeros(6 - |t|);
    assert forall i :: 2 <= i < 6 ==> IsHex(b[i]);
    assert StringUnit(b) == 6 && b[6..] == "";
  }

  lemma UnitPrepended(u: string, b: string)
    requires u != "" && StringUnit(u) == |u| && StringBody(b)
    ensures StringBody(u + b)
  {
    hide StringBody;
    assert (u + b)[|u|..] == b;
    UnitFirst(u, b);
    BodyFolds(u + b, |u|);
  }

  lemma UnitFirst(u: string, b: string)
    requires u != "" && StringUnit(u) == |u|
    ensures StringUnit(u + b) == |u|
  {
  }

  lemma BodyFolds(s: string, n: nat)
    requires s != "" && StringUnit(s) == n > 0 && StringBody(s[n..])
    ensures StringBody(s)
  {
  }

  lemma ShortBody(f: string)
    requires f == "" || f == " " || f == "q" || f == "\\n"
    ensures StringBody(f)
  {
    if f == "\\n" {
      assert StringUnit(f) == 2 && f[2..] == "";
    } else if f != "" {
      assert StringUnit(f) == 1 && f[1..] == "";
    }
  }

  /** The scan stops at i: what follows there. */
  lemma BodyStops(s: string, i: nat, f: string) returns (b: string)
    requires i <= |s| && ScanString(s, i).Bad?
    requires var r := ScanString(s, i); Fills(s, r.error, r.at, f)
    requires i == |s| || s[i] < ' '
          || (s[i] == '\\' && (i + 1 >= |s| || (!IsSimpleEscape(s[i + 1]) &&
               (s[i + 1] != 'u' || i + 5 >= |s| || FirstNonHex(s, i + 2, i + 6) < i + 6))))
    ensures StringBody(b) && Leads(s, i, ScanString(s, i).at, f, b)
  {
    hide StringBody, StringUnit;
    var at := ScanString(s, i).at;
    ShortBody("");
    ShortBody(" ");
    ShortBody("q");
    ShortBody("\\n");
    if at == i {
      assert s[i..i] + f == f;
      if f == "" || f == " " || f == "q" {
        b := f;
      } else if i + 1 == |s| {
        b := "\\n";
      } else {
        EscapeFilled(f);
        b := f + Zeros(6 - |f|);
      }
    } else if at == i + 1 {
      b := "\\n";
      assert s[i..at] + "" == "\\";
    } else {
      var t := s[i..at];
      EscapeFilled(t);
      b := t + Zeros(6 - |t|);
      assert t + "" == t;
    }
  }

  lemma {:induction false} BodyBegins(s: string, i: nat, f: string) returns (b: string)
    requires i <= |s| && ScanString(s, i).Bad?
    requires var r := ScanString(s, i); Fills(s, r.error, r.at, f)
    ensures StringBody(b) && Leads(s, i, ScanString(s, i).at, f, b)
    decreases |s| - i
  {
    hide StringBody, Fills, Leads;
    if i < |s| && s[i] >= ' ' && s[i] != '\\' {
      b := BodyOn(s, i, 1, f);
    } else if i + 1 < |s| && s[i] == '\\' && IsSimpleEscape(s[i + 1]) {
      b := BodyOn(s, i, 2, f);
    } else if i + 5 < |s| && s[i] == '\\' && s[i + 1] == 'u' && FirstNonHex(s, i + 2, i + 6) == i + 6 {
      b := BodyOn(s, i, 6, f);
    } else {
      b := BodyStops(s, i, f);
    }
  }

  /** The scan goes on after n characters. */
  lemma {:induction false} BodyOn(s: string, i: nat, n: nat, f: string) returns (b: string)
    requires 0 < n && i + n <= |s| && ScanString(s, i).Bad? && ScanString(s, i) == ScanString(s, i + n)
    requires var r := ScanString(s, i); Fills(s, r.error, r.at, f)
    requires StringUnit(s[i..i + n]) == n
    ensures StringBody(b) && Leads(s, i, ScanString(s, i).at, f, b)
    decreases |s| - i, 0
  {
    hide StringBody, Fills, Leads, StringUnit, ScanString;
    var rest := BodyBegins(s, i + n, f);
    var u := s[i..i + n];
    AtSlice(s, i, i + n);
    LeadsAfter(s, i, ScanString(s, i).at, f, u, rest);
    UnitPrepended(u, rest);
    b := u + rest;
  }

  /** A string literal that cannot be read. */
  lemma StringBegins(x: Input, at: nat, count: nat, f: string) returns (b: string)
    requires at < |x.text| && x.text[at] == '"' && ReadString(x, at, count).Fail?
    requires var r := ReadString(x, at, count); Fills(x.text, r.error, r.at, f)
    ensures StringBody(b) && Leads(x.text, at, ReadString(x, at, count).at, f, "\"" + b + "\"")
  {
    hide StringBody, ScanString;
    var s, r := x.text, ReadString(x, at, count);
    if ScanString(s, at + 1).Bad? {
      b := BodyBegins(s, at + 1, f);
      AtSlice(s, at, at + 1);
      assert s[at..at + 1] == "\"";
      LeadsAfter(s, at, r.at, f, "\"", b);
      LeadsMore(s, at, r.at, f, "\"" + b, "\"");
    } else {
      b := "";
      ShortBody("");
    }
  }

  lemma DigitZero()
    ensures Digits("0") && AllDigits("0")
  {
  }

  lemma NumberBegins(x: Input, at: nat, count: nat, f: string) returns (n: Number)
    requires at < |x.text| && ReadNumber(x, at, count).Fail?
    requires var r := ReadNumber(x, at, count); Fills(x.text, r.error, r.at, f) && f != " "
    ensures WellFormedNumber(n) && Leads(x.text, at, ReadNumber(x, at, count).at, f, NumberText(n))
  {
    hide Digits, ScanWhole, ScanFraction, ScanExponent, Leads, WellFormedNumber, NumberText;
    var s, to := x.text, ReadNumber(x, at, count).at;
    var digits := if s[at] == '-' then at + 1 else at;
    if ScanWhole(s, digits).Bad? {
      WholeStops(s, digits);
      n := WholeCut(s, at, digits);
      ZeroLeads(s, at, to, f, NumberText(n));
      return;
    }
    var point := ScanWhole(s, digits).pos;
    if ScanFraction(s, point).Bad? {
      n := FractionCut(s, at, digits, point);
      ZeroLeads(s, at, to, f, NumberText(n));
      return;
    }
    var e := ScanFraction(s, point).pos;
    if ScanExponent(s, e).Bad? {
      n := ExponentCut(s, at, digits, point, e);
      ZeroLeads(s, at, to, f, NumberText(n));
    } else {
      n := NumberWhole(s, at, digits, point, e);
      LeadsSlice(s, at, to, "", "");
      assert s[at..to] + "" + "" == s[at..to];
    }
  }

  lemma WholeCut(s: string, at: nat, digits: nat) returns (n: Number)
    requires at < |s| && digits == if s[at] == '-' then at + 1 else at
    ensures WellFormedNumber(n) && NumberText(n) == s[at..digits] + "0"
  {
    DigitZero();
    n := Number.Number(s[at..digits], "0", "", "");
    assert s[at..digits] == if s[at] == '-' then "-" else "";
  }

  lemma FractionCut(s: string, at: nat, digits: nat, point: nat) returns (n: Number)
    requires at < |s| && digits == if s[at] == '-' then at + 1 else at
    requires ScanWhole(s, digits) == Upto(point) && ScanFraction(s, point).Bad?
    ensures var to := ScanFraction(s, point).at;
      at <= to <= |s| && ScanFraction(s, point).error == InvalidNumber && WellFormedNumber(n) && NumberText(n) == s[at..to] + "0"
  {
    hide ScanWhole, ScanFraction, Digits;
    WholeSound(s, digits);
    FractionStops(s, point);
    n := Number.Number(s[at..digits], s[digits..point], ".0", "");
    assert s[at..digits] == if s[at] == '-' then "-" else "";
    TwoSlices(s, at, digits, point);
    TwoSlices(s, at, point, point + 1);
    assert s[point..point + 1] == ".";
    PointZero(s[at..digits], s[digits..point]);
  }

  lemma PointZero(minus: string, whole: string)
    ensures NumberText(Number.Number(minus, whole, ".0", "")) == minus + whole + "." + "0"
  {
    assert ".0" == "." + "0";
  }

  lemma ExponentCut(s: string, at: nat, digits: nat, point: nat, e: nat) returns (n: Number)
    requires at < |s| && digits == if s[at] == '-' then at + 1 else at
    requires ScanWhole(s, digits) == Upto(point) && ScanFraction(s, point) == Upto(e) && ScanExponent(s, e).Bad?
    ensures var to := ScanExponent(s, e).at;
      at <= to <= |s| && ScanExponent(s, e).error == InvalidNumber && WellFormedNumber(n) && NumberText(n) == s[at..to] + "0"
  {
    hide ScanWhole, ScanFraction, ScanExponent, Digits;
    WholeSound(s, digits);
    FractionSound(s, point);
    ExponentStops(s, e);
    var to := ScanExponent(s, e).at;
    n := Number.Number(s[at..digits], s[digits..point], s[point..e], s[e..to] + "0");
    assert s[at..digits] == if s[at] == '-' then "-" else "";
    TwoSlices(s, at, digits, point);
    TwoSlices(s, at, point, e);
    TwoSlices(s, at, e, to);
    assert s[at..e] + (s[e..to] + "0") == s[at..e] + s[e..to] + "0";
  }

  lemma NumberWhole(s: string, at: nat, digits: nat, point: nat, e: nat) returns (n: Number)
    requires at < |s| && digits == if s[at] == '-' then at + 1 else at
    requires ScanWhole(s, digits) == Upto(point) && ScanFraction(s, point) == Upto(e) && ScanExponent(s, e).Upto?
    ensures var to := ScanExponent(s, e).pos; at <= to <= |s| && WellFormedNumber(n) && NumberText(n) == s[at..to]
  {
    hide ScanWhole, ScanFraction, ScanExponent, Digits;
    WholeSound(s, digits);
    FractionSound(s, point);
    ExponentSound(s, e);
    var to := ScanExponent(s, e).pos;
    n := Number.Number(s[at..digits], s[digits..point], s[point..e], s[e..to]);
    assert s[at..digits] == if s[at] == '-' then "-" else "";
    FourSlices(s, at, digits, point, e, to);
  }

  lemma ZeroLeads(s: string, at: nat, to: nat, f: string, t: string)
    requires at <= to <= |s| && f in ["", "0"] && t == s[at..to] + "0"
    ensures Leads(s, at, to, f, t)
  {
    LeadsSlice(s, at, to, f, if f == "" then "0" else "");
    assert s[at..to] + f + (if f == "" then "0" else "") == t;
  }

  lemma WholeStops(s: string, p: nat)
    requires p <= |s| && ScanWhole(s, p).Bad?
    ensures ScanWhole(s, p).at == p && ScanWhole(s, p).error == if p == |s| then UnexpectedEnd else InvalidNumber
  {
  }

  lemma FractionStops(s: string, p: nat)
    requires p <= |s| && ScanFraction(s, p).Bad?
    ensures ScanFraction(s, p) == Bad(InvalidNumber, p + 1) && p < |s| && s[p] == '.'
    ensures Digits(".0"[1..]) && ".0"[0] == '.'
  {
    assert ".0"[1..] == "0";
  }

  lemma ExponentStops(s: string, p: nat)
    requires p <= |s| && ScanExponent(s, p).Bad?
    ensures var r := ScanExponent(s, p);
      && r.error == InvalidNumber && p < r.at <= |s|
      && var exp := s[p..r.at] + "0";
         exp[0] in "eE" && (Digits(exp[1..]) || (|exp| > 1 && exp[1] in "+-" && Digits(exp[2..])))
  {
    var q := ScanExponent(s, p).at;
    var exp := s[p..q] + "0";
    if q == p + 1 {
      assert exp[1..] == "0";
    } else {
      assert exp[2..] == "0";
    }
  }

  lemma LiteralBegins(x: Input, at: nat, count: nat, f: string) returns (v: Value)
    requires at < |x.text| && x.text[at] in "tfn" && ReadLiteral(x, at, count, WordOf(x.text[at])).Fail?
    requires var r := ReadLiteral(x, at, count, WordOf(x.text[at])); Fills(x.text, r.error, r.at, f)
    ensures WellFormed(v) && Leads(x.text, at, ReadLiteral(x, at, count, WordOf(x.text[at])).at, f, Text(v))
  {
    var s := x.text;
    assert s[at..at] + f == f;
    v := if f == "null" || s[at] == 'n' then Nul else Bool(s[at] == 't');
  }

  // --- structures -------------------------------------------------------------------------------------

  lemma {:induction false} ValueBegins(x: Input, pos: nat, depth: nat, count: nat, f: string) returns (b: Spaced)
    requires pos <= |x.text| && ReadValue(x, pos, depth, count).Fail?
    requires var r := ReadValue(x, pos, depth, count); Fills(x.text, r.error, r.at, f)
    ensures Spaces(b.before) && WellFormed(b.value)
    ensures Leads(x.text, pos, ReadValue(x, pos, depth, count).at, f, b.before + Text(b.value))
    decreases |x.text| - pos, 2
  {
    hide ReadBare, Leads, Fills, WellFormed, Text;
    var s, r := x.text, ReadValue(x, pos, depth, count);
    var at := SkipSpaces(s, pos);
    SpacesSound(s, pos);
    if f == " " && r.at == at {
      b := Spaced(s[pos..at] + " ", Nul);
      NulIs();
      LeadsSlice(s, pos, at, " ", Text(Nul));
    } else if at == |s| {
      EndFills(s, r.error, f);
      b := Spaced(s[pos..at], Nul);
      NulIs();
      LeadsSlice(s, pos, at, "", Text(Nul));
      assert s[pos..at] + "" == s[pos..at];
    } else {
      var v := BareBegins(x, at, depth, count, f);
      AtSlice(s, pos, at);
      LeadsAfter(s, pos, r.at, f, s[pos..at], Text(v));
      b := Spaced(s[pos..at], v);
    }
  }

  lemma NulIs()
    ensures WellFormed(Nul) && Text(Nul) == "null" && Spaces(" ")
  {
  }

  lemma EndFills(s: string, e: Error, f: string)
    requires e == UnexpectedEnd && Fills(s, e, |s|, f) && f != " "
    ensures f == ""
  {
  }

  lemma {:induction false} BareBegins(x: Input, at: nat, depth: nat, count: nat, f: string) returns (v: Value)
    requires at < |x.text| && !IsSpace(x.text[at]) && ReadBare(x, at, depth, count).Fail?
    requires var r := ReadBare(x, at, depth, count); Fills(x.text, r.error, r.at, f) && (f == " " ==> r.at != at)
    ensures WellFormed(v) && Leads(x.text, at, ReadBare(x, at, depth, count).at, f, Text(v))
    decreases |x.text| - at, 1
  {
    hide ReadString, ReadNumber, ReadLiteral, ReadObject, ReadArray, Leads, Fills, WellFormedNumber, StringBody, NumberText;
    var s, c := x.text, x.text[at];
    if c == '{' {
      v := ObjectBegins(x, at, depth, count, f);
    } else if c == '[' {
      v := ArrayBegins(x, at, depth, count, f);
    } else if c == '"' {
      var b := StringBegins(x, at, count, f);
      v := Str(b);
    } else if c in "tfn" {
      v := LiteralBegins(x, at, count, f);
    } else if c == '-' || IsDigit(c) {
      NumberFills(x, at, count, f);
      var n := NumberBegins(x, at, count, f);
      v := Num(n);
    } else {
      CharacterFills(s, at, f);
      v := Nul;
      LeadsSlice(s, at, at, "", "null");
      assert s[at..at] + "" + "null" == "null";
    }
  }

  lemma CharacterFills(s: string, at: nat, f: string)
    requires Fills(s, UnexpectedCharacter, at, f) && f != " "
    ensures f == ""
  {
  }

  lemma NumberFills(x: Input, at: nat, count: nat, f: string)
    requires at < |x.text| && (x.text[at] == '-' || IsDigit(x.text[at])) && ReadNumber(x, at, count).Fail?
    requires var r := ReadNumber(x, at, count); Fills(x.text, r.error, r.at, f)
    ensures f != " "
  {
    hide SkipDigits;
  }

  lemma {:induction false} ArrayBegins(x: Input, at: nat, depth: nat, count: nat, f: string) returns (v: Value)
    requires at < |x.text| && x.text[at] == '[' && ReadArray(x, at, depth, count).Fail?
    requires var r := ReadArray(x, at, depth, count); Fills(x.text, r.error, r.at, f)
    ensures WellFormed(v) && Leads(x.text, at, ReadArray(x, at, depth, count).at, f, Text(v))
    decreases |x.text| - at, 0
  {
    hide ReadElements, Leads, WellFormedElements, ElementsText;
    var s, r := x.text, ReadArray(x, at, depth, count);
    if depth >= x.maxDepth || count >= x.capacity {
      v := Nul;
      LeadsSlice(s, at, at, "", "null");
      assert s[at..at] + "" + "null" == "null";
    } else {
      var es := ElementsBegins(x, at + 1, depth, count + 1, [], f);
      AtSlice(s, at, at + 1);
      assert s[at..at + 1] == "[";
      LeadsAfter(s, at, r.at, f, "[", ElementsText(es));
      LeadsMore(s, at, r.at, f, "[" + ElementsText(es), "]");
      v := Arr("", es);
    }
  }

  lemma {:induction false} ElementsBegins(x: Input, from: nat, depth: nat, count: nat, acc: seq<Element>, f: string)
    returns (es: seq<Element>)
    requires from <= |x.text| && ReadElements(x, from, depth, count, acc).Fail?
    requires var r := ReadElements(x, from, depth, count, acc); Fills(x.text, r.error, r.at, f)
    ensures es != [] && WellFormedElements(es)
    ensures Leads(x.text, from, ReadElements(x, from, depth, count, acc).at, f, ElementsText(es))
    decreases |x.text| - from, 4
  {
    hide ReadElement, Leads, Fills, WellFormedElement, ElementText, At, Narrow, Depth, Size;
    var s, r := x.text, ReadElements(x, from, depth, count, acc);
    var one := ReadElement(x, from, depth, count, |acc|);
    if one.Fail? {
      var e := ElementBegins(x, from, depth, count, |acc|, f);
      es := [e];
    } else {
      var rest := ElementsBegins(x, one.pos + 1, depth, one.count, acc + [one.value], f);
      ElementSound(x, from, depth, count, |acc|);
      var a := ElementText(one.value);
      AtSlice(s, one.pos, one.pos + 1);
      assert s[one.pos..one.pos + 1] == ",";
      AtConcat(s, from, a, ",");
      LeadsAfter(s, from, r.at, f, a + ",", ElementsText(rest));
      es := [one.value] + rest;
      assert es[1..] == rest;
    }
  }

  lemma {:induction false} ElementBegins(x: Input, from: nat, depth: nat, count: nat, k: nat, f: string) returns (e: Element)
    requires from <= |x.text| && ReadElement(x, from, depth, count, k).Fail?
    requires var r := ReadElement(x, from, depth, count, k); Fills(x.text, r.error, r.at, f)
    ensures WellFormedElement(e) && Leads(x.text, from, ReadElement(x, from, depth, count, k).at, f, ElementText(e))
    decreases |x.text| - from, 3
  {
    hide ReadValue, Leads, Fills, WellFormed, Text, At, Narrow, Depth, Size, Spaces, SkipSpaces;
    var s, r := x.text, ReadElement(x, from, depth, count, k);
    var v := ReadValue(x, from, depth + 1, count);
    NoSpaces();
    if v.Fail? {
      var b := ValueBegins(x, from, depth + 1, count, f);
      e := Element(b.before, b.value, "");
      assert ElementText(e) == b.before + Text(b.value);
    } else {
      ValueSound(x, from, depth + 1, count);
      var after := Follows(s, v.pos, r.error, r.at, f, k == x.children);
      e := Element(v.value.before, v.value.value, after);
      AtConcat(s, from, v.value.before, Text(v.value.value));
      LeadsAfter(s, from, r.at, f, v.value.before + Text(v.value.value), after);
    }
  }

  lemma NoSpaces()
    ensures Spaces("") && Spaces(" ")
  {
  }

  /** The white space after a value, up to the error. */
  lemma Follows(s: string, p: nat, e: Error, at: nat, f: string, full: bool) returns (after: string)
    requires p <= |s| && Fills(s, e, at, f)
    requires if full then e == TokenLimit && at == p else e in {UnexpectedEnd, UnexpectedCharacter} && at == SkipSpaces(s, p)
    requires !full && e == UnexpectedEnd ==> at == |s|
    ensures Spaces(after) && Leads(s, p, at, f, after)
  {
    hide SkipSpaces;
    SpacesSound(s, p);
    after := s[p..at] + f;
    LeadsSelf(s, p, at, f);
  }

  lemma {:induction false} ObjectBegins(x: Input, at: nat, depth: nat, count: nat, f: string) returns (v: Value)
    requires at < |x.text| && x.text[at] == '{' && ReadObject(x, at, depth, count).Fail?
    requires var r := ReadObject(x, at, depth, count); Fills(x.text, r.error, r.at, f)
    ensures WellFormed(v) && Leads(x.text, at, ReadObject(x, at, depth, count).at, f, Text(v))
    decreases |x.text| - at, 0
  {
    hide ReadMembers, Leads, WellFormedMembers, MembersText;
    var s, r := x.text, ReadObject(x, at, depth, count);
    if depth >= x.maxDepth || count >= x.capacity {
      v := Nul;
      LeadsSlice(s, at, at, "", "null");
      assert s[at..at] + "" + "null" == "null";
    } else {
      var ms := MembersBegins(x, at + 1, depth, count + 1, [], f);
      AtSlice(s, at, at + 1);
      assert s[at..at + 1] == "{";
      LeadsAfter(s, at, r.at, f, "{", MembersText(ms));
      LeadsMore(s, at, r.at, f, "{" + MembersText(ms), "}");
      v := Obj("", ms);
    }
  }

  lemma {:induction false} MembersBegins(x: Input, from: nat, depth: nat, count: nat, acc: seq<Member>, f: string)
    returns (ms: seq<Member>)
    requires from <= |x.text| && ReadMembers(x, from, depth, count, acc).Fail?
    requires var r := ReadMembers(x, from, depth, count, acc); Fills(x.text, r.error, r.at, f)
    ensures ms != [] && WellFormedMembers(ms)
    ensures Leads(x.text, from, ReadMembers(x, from, depth, count, acc).at, f, MembersText(ms))
    decreases |x.text| - from, 4
  {
    hide ReadMember, Leads, Fills, WellFormedMember, MemberText, At, Narrow, Depth, Size;
    var s, r := x.text, ReadMembers(x, from, depth, count, acc);
    var one := ReadMember(x, from, depth, count, |acc|);
    if one.Fail? {
      var m := MemberBegins(x, from, depth, count, |acc|, f);
      ms := [m];
    } else {
      var rest := MembersBegins(x, one.pos + 1, depth, one.count, acc + [one.value], f);
      MemberSound(x, from, depth, count, |acc|);
      var a := MemberText(one.value);
      AtSlice(s, one.pos, one.pos + 1);
      assert s[one.pos..one.pos + 1] == ",";
      AtConcat(s, from, a, ",");
      LeadsAfter(s, from, r.at, f, a + ",", MembersText(rest));
      ms := [one.value] + rest;
      assert ms[1..] == rest;
    }
  }

  lemma LabelBegins(x: Input, from: nat, count: nat, f: string) returns (l: Label)
    requires from <= |x.text| && ReadLabel(x, from, count).Fail?
    requires var r := ReadLabel(x, from, count); Fills(x.text, r.error, r.at, f)
    ensures Spaces(l.beforeKey) && StringBody(l.key) && Spaces(l.afterKey)
    ensures Leads(x.text, from, ReadLabel(x, from, count).at, f, LabelText(l))
  {
    hide Leads, Fills, At, Spaces, SkipSpaces, StringBody, ReadString;
    var s, r := x.text, ReadLabel(x, from, count);
    var at := SkipSpaces(s, from);
    NoSpaces();
    ShortBody("");
    SpacesSound(s, from);
    AtSlice(s, from, at);
    if at == |s| || s[at] != '"' {
      var before := Follows(s, from, r.error, at, f, false);
      l := Label(before, "", "");
      LeadsMore(s, from, at, f, before, "\"\":");
      assert LabelText(l) == before + "\"\":";
    } else if ReadString(x, at, count).Fail? {
      var b := StringBegins(x, at, count, f);
      l := Label(s[from..at], b, "");
      LeadsAfter(s, from, r.at, f, s[from..at], "\"" + b + "\"");
      LeadsMore(s, from, r.at, f, s[from..at] + ("\"" + b + "\""), ":");
      assert LabelText(l) == s[from..at] + ("\"" + b + "\"") + ":";
    } else {
      l := LabelCut(x, from, at, count, f);
    }
  }

  /** The key is read, but no colon follows. */
  lemma LabelCut(x: Input, from: nat, at: nat, count: nat, f: string) returns (l: Label)
    requires from <= |x.text| && ReadLabel(x, from, count).Fail? && at == SkipSpaces(x.text, from) < |x.text|
    requires x.text[at] == '"' && ReadString(x, at, count).Ok?
    requires var r := ReadLabel(x, from, count); Fills(x.text, r.error, r.at, f)
    ensures Spaces(l.beforeKey) && StringBody(l.key) && Spaces(l.afterKey)
    ensures Leads(x.text, from, ReadLabel(x, from, count).at, f, LabelText(l))
  {
    hide Leads, Fills, At, Spaces, SkipSpaces, StringBody, ReadString;
    var s, r := x.text, ReadLabel(x, from, count);
    var key := ReadString(x, at, count);
    SpacesSound(s, from);
    StrSound(x, at, count);
    var after := Follows(s, key.pos, r.error, r.at, f, false);
    AtSlice(s, from, at);
    var a := s[from..at] + ("\"" + key.value + "\"");
    AtConcat(s, from, s[from..at], "\"" + key.value + "\"");
    LeadsAfter(s, from, r.at, f, a, after);
    LeadsMore(s, from, r.at, f, a + after, ":");
    l := Label(s[from..at], key.value, after);
    assert LabelText(l) == a + after + ":";
  }

  lemma {:induction false} MemberBegins(x: Input, from: nat, depth: nat, count: nat, k: nat, f: string) returns (m: Member)
    requires from <= |x.text| && ReadMember(x, from, depth, count, k).Fail?
    requires var r := ReadMember(x, from, depth, count, k); Fills(x.text, r.error, r.at, f)
    ensures WellFormedMember(m) && Leads(x.text, from, ReadMember(x, from, depth, count, k).at, f, MemberText(m))
    decreases |x.text| - from, 3
  {
    hide ReadValue, ReadLabel, Leads, Fills, WellFormed, Text, At, Narrow, Depth, Size, Spaces, SkipSpaces, StringBody;
    var s, r := x.text, ReadMember(x, from, depth, count, k);
    var l := ReadLabel(x, from, count);
    NoSpaces();
    if l.Fail? {
      var b := LabelBegins(x, from, count, f);
      NulIs();
      m := Member(b.beforeKey, b.key, b.afterKey, "", Nul, "");
      LeadsMore(s, from, r.at, f, LabelText(b), "null");
      assert MemberText(m) == LabelText(b) + "null";
      return;
    }
    LabelSound(x, from, count);
    var v := ReadValue(x, l.pos, depth + 1, l.count);
    if v.Fail? {
      var b := ValueBegins(x, l.pos, depth + 1, l.count, f);
      m := Member(l.value.beforeKey, l.value.key, l.value.afterKey, b.before, b.value, "");
      LeadsAfter(s, from, r.at, f, LabelText(l.value), b.before + Text(b.value));
      assert MemberText(m) == LabelText(l.value) + (b.before + Text(b.value));
    } else {
      ValueSound(x, l.pos, depth + 1, l.count);
      var after := Follows(s, v.pos, r.error, r.at, f, k == x.children);
      m := Member(l.value.beforeKey, l.value.key, l.value.afterKey, v.value.before, v.value.value, after);
      var a := LabelText(l.value) + (v.value.before + Text(v.value.value));
      AtConcat(s, l.pos, v.value.before, Text(v.value.value));
      AtConcat(s, from, LabelText(l.value), v.value.before + Text(v.value.value));
      LeadsAfter(s, from, r.at, f, a, after);
      assert MemberText(m) == a + after;
    }
  }

  /** What was read up to an error, and whatever the error leaves room for, begins
      some JSON text. */
  lemma ReadBegins(x: Input, f: string)
    requires A.ReadDocument(x).Fail?
    requires var r := A.ReadDocument(x); Fills(x.text, r.error, r.at, f)
    ensures Begins(x.text[..A.ReadDocument(x).at] + f)
  {
    hide ReadValue, Leads, Fills, WellFormed, Text, At, Narrow, Depth, Size, Spaces, SkipSpaces;
    var s, r := x.text, A.ReadDocument(x);
    var v := ReadValue(x, 0, 0, 0);
    NoSpaces();
    if v.Fail? {
      var b := ValueBegins(x, 0, 0, 0, f);
      var d := A.Document(b.before, b.value, "");
      assert A.DocumentText(d) == b.before + Text(b.value);
      LeadsFromStart(s, r.at, f, d);
    } else {
      ValueSound(x, 0, 0, 0);
      TrailingFills(s, r.at, f);
      SpacesSound(s, v.pos);
      var after := s[v.pos..r.at];
      LeadsSelf(s, v.pos, r.at, "");
      assert after + "" == after;
      var d := A.Document(v.value.before, v.value.value, after);
      AtConcat(s, 0, v.value.before, Text(v.value.value));
      LeadsAfter(s, 0, r.at, "", v.value.before + Text(v.value.value), after);
      LeadsFromStart(s, r.at, f, d);
    }
  }

  lemma TrailingFills(s: string, at: nat, f: string)
    requires Fills(s, TrailingContent, at, f)
    ensures f == ""
  {
  }

  lemma LeadsFromStart(s: string, to: nat, f: string, d: A.Document)
    requires A.IsJson(d) && Leads(s, 0, to, f, A.DocumentText(d))
    ensures to <= |s| && Begins(s[..to] + f)
  {
    assert s[0..to] == s[..to];
  }
}
