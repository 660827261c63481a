/**
 The reader looks at a text from left to right: what it has read, and why it stops,
 is the same for every text that begins so, under no tighter limits.
 */
module JsonLocality {
  import opened JsonGrammar
  import opened Numerals
  import opened JsonReader
  import opened JsonSoundness
  import A = JsonAcceptance
  import JB = JsonBeginnings

  predicate Agree(s: string, t: string, n: nat) {
    n <= |s| && n <= |t| && forall i :: 0 <= i < n ==> s[i] == t[i]
  }

  /** The texts agree before p, and t has there what s has, nothing, or a character
      that cannot go on with anything but a string. */
  predicate Joint(s: string, t: string, p: nat) {
    Agree(s, t, p) && (p == |t| || t[p] == 'q' || (p < |s| && t[p] == s[p]))
  }

  predicate Roomier(x: Input, y: Input) {
    y.maxDepth >= x.maxDepth && y.capacity >= x.capacity && y.children >= x.children
  }

  lemma AgreeBefore(s: string, t: string, p: nat, n: nat)
    requires Agree(s, t, n) && p < n
    ensures Agree(s, t, p) && Joint(s, t, p) && s[p] == t[p]
  {
  }

  lemma SliceAlike(s: string, t: string, a: nat, b: nat, n: nat)
    requires Agree(s, t, n) && a <= b <= n
    ensures s[a..b] == t[a..b]
  {
  }

  // --- what is read is read alike -----------------------------------------------------------------

  lemma {:induction false} SpacesAlike(s: string, t: string, pos: nat)
    requires pos <= |s| && Joint(s, t, SkipSpaces(s, pos))
    ensures pos <= |t| && SkipSpaces(t, pos) == SkipSpaces(s, pos)
    decreases |s| - pos
  {
    if pos < |s| && IsSpace(s[pos]) {
      SpacesAlike(s, t, pos + 1);
    }
  }

  lemma {:induction false} DigitsAlike(s: string, t: string, pos: nat)
    requires pos <= |s| && Joint(s, t, SkipDigits(s, pos))
    ensures pos <= |t| && SkipDigits(t, pos) == SkipDigits(s, pos)
    decreases |s| - pos
  {
    if pos < |s| && IsDigit(s[pos]) {
      DigitsAlike(s, t, pos + 1);
    }
  }

  lemma {:induction false} HexAlike(s: string, t: string, i: nat, j: nat)
    requires i <= j && Agree(s, t, j)
    ensures FirstNonHex(s, i, j) == FirstNonHex(t, i, j)
    decreases j - i
  {
    if i < j && IsHex(s[i]) {
      HexAlike(s, t, i + 1, j);
    }
  }

  /** One step of the scan, which passes n characters. */
  lemma StepAlike(s: string, t: string, i: nat, n: nat)
    requires i + n <= |s| && Agree(s, t, i + n) && 0 < n && s[i] != '"'
    requires if s[i] != '\\' then n == 1 && s[i] >= ' '
             else n >= 2 && if IsSimpleEscape(s[i + 1]) then n == 2
             else n == 6 && s[i + 1] == 'u' && FirstNonHex(s, i + 2, i + 6) == i + 6
    ensures ScanString(s, i) == ScanString(s, i + n) && ScanString(t, i) == ScanString(t, i + n)
  {
    if n == 6 {
      HexAlike(s, t, i + 2, i + 6);
    }
  }

  /** The number of characters a step of the scan passes, or zero where it ends. */
  function StepOf(s: string, i: nat): nat
    requires i <= |s|
  {
    if i == |s| || s[i] == '"' then 0
    else if s[i] == '\\' then
      if i + 1 < |s| && IsSimpleEscape(s[i + 1]) then 2
      else if i + 5 < |s| && s[i + 1] == 'u' && FirstNonHex(s, i + 2, i + 6) == i + 6 then 6
      else 0
    else if s[i] < ' ' then 0 else 1
  }

  lemma {:induction false} ScanAlike(s: string, t: string, i: nat)
    requires i <= |s| && ScanString(s, i).Upto? && Agree(s, t, ScanString(s, i).pos + 1)
    ensures i <= |t| && ScanString(t, i) == ScanString(s, i)
    decreases |s| - i
  {
    hide ScanString, FirstNonHex;
    var n := StepOf(s, i);
    ScanGoes(s, i);
    if n > 0 {
      StepAlike(s, t, i, n);
      ScanAlike(s, t, i + n);
    } else {
      QuoteEnds(t, i);
    }
  }

  lemma QuoteEnds(t: string, i: nat)
    requires i < |t| && t[i] == '"'
    ensures ScanString(t, i) == Upto(i)
  {
  }

  /** A scan goes on by its steps, and ends well only at a quote. */
  lemma ScanGoes(s: string, i: nat)
    requires i <= |s|
    ensures var n := StepOf(s, i);
      if n > 0 then i + n <= |s| && ScanString(s, i) == ScanString(s, i + n)
      else if i < |s| && s[i] == '"' then ScanString(s, i) == Upto(i)
      else ScanString(s, i).Bad?
  {
  }

  lemma StringAlike(x: Input, y: Input, at: nat, count: nat)
    requires at < |x.text| && ReadString(x, at, count).Ok? && Roomier(x, y)
    requires Agree(x.text, y.text, ReadString(x, at, count).pos)
    ensures at < |y.text| && ReadString(y, at, count) == ReadString(x, at, count)
  {
    hide ScanString;
    ScanAlike(x.text, y.text, at + 1);
    var i := ScanString(x.text, at + 1).pos;
    SliceAlike(x.text, y.text, at + 1, i, i + 1);
  }

  lemma WholeAlike(s: string, t: string, p: nat)
    requires p <= |s| && ScanWhole(s, p).Upto? && Joint(s, t, ScanWhole(s, p).pos)
    ensures p <= |t| && ScanWhole(t, p) == ScanWhole(s, p)
  {
    hide SkipDigits;
    var q := ScanWhole(s, p).pos;
    assert s[p] == t[p];
    if s[p] != '0' {
      DigitsAlike(s, t, p + 1);
    }
  }

  lemma FractionAlike(s: string, t: string, p: nat)
    requires p <= |s| && ScanFraction(s, p).Upto? && Joint(s, t, ScanFraction(s, p).pos)
    ensures p <= |t| && ScanFraction(t, p) == ScanFraction(s, p)
  {
    hide SkipDigits;
    var q := ScanFraction(s, p).pos;
    if p < q {
      DigitsAfter(s, p + 1);
      AgreeBefore(s, t, p, q);
      AgreeBefore(s, t, p + 1, q);
      DigitsAlike(s, t, p + 1);
    }
  }

  lemma DigitsAfter(s: string, p: nat)
    requires p < |s| && IsDigit(s[p])
    ensures SkipDigits(s, p) > p
  {
  }

  lemma ExponentAlike(s: string, t: string, p: nat)
    requires p <= |s| && ScanExponent(s, p).Upto? && Joint(s, t, ScanExponent(s, p).pos)
    ensures p <= |t| && ScanExponent(t, p) == ScanExponent(s, p)
  {
    hide SkipDigits;
    var q := ScanExponent(s, p).pos;
    if p < |s| && s[p] in "eE" {
      var first := if p + 1 < |s| && s[p + 1] in "+-" then p + 2 else p + 1;
      DigitsAfter(s, first);
      AgreeBefore(s, t, p, q);
      AgreeBefore(s, t, p + 1, q);
      AgreeBefore(s, t, first, q);
      DigitsAlike(s, t, first);
    }
  }

  lemma JointWithin(s: string, t: string, p: nat, q: nat)
    requires Joint(s, t, q) && p <= q
    ensures Joint(s, t, p)
  {
  }

  lemma NumberAlike(x: Input, y: Input, at: nat, count: nat)
    requires at < |x.text| && ReadNumber(x, at, count).Ok? && Roomier(x, y)
    requires Joint(x.text, y.text, ReadNumber(x, at, count).pos)
    ensures at < |y.text| && ReadNumber(y, at, count) == ReadNumber(x, at, count)
  {
    hide ScanWhole, ScanFraction, ScanExponent, Joint;
    var s, t, end := x.text, y.text, ReadNumber(x, at, count).pos;
    JointAgrees(s, t, end);
    AgreeBefore(s, t, at, end);
    var digits := if s[at] == '-' then at + 1 else at;
    var point := ScanWhole(s, digits).pos;
    var e := ScanFraction(s, point).pos;
    JointWithin(s, t, point, end);
    WholeAlike(s, t, digits);
    JointWithin(s, t, e, end);
    FractionAlike(s, t, point);
    ExponentAlike(s, t, e);
    SliceAlike(s, t, at, digits, end);
    SliceAlike(s, t, digits, point, end);
    SliceAlike(s, t, point, e, end);
    SliceAlike(s, t, e, end, end);
  }

  lemma JointAgrees(s: string, t: string, p: nat)
    requires Joint(s, t, p)
    ensures Agree(s, t, p)
  {
  }

  lemma LiteralAlike(x: Input, y: Input, at: nat, count: nat, word: string)
    requires at < |x.text| && word != "" && ReadLiteral(x, at, count, word).Ok? && Roomier(x, y)
    requires Agree(x.text, y.text, at + |word|)
    ensures at < |y.text| && ReadLiteral(y, at, count, word) == ReadLiteral(x, at, count, word)
  {
    SliceAlike(x.text, y.text, at, at + |word|, at + |word|);
  }

  lemma {:induction false} ValueAlike(x: Input, y: Input, pos: nat, depth: nat, count: nat)
    requires pos <= |x.text| && ReadValue(x, pos, depth, count).Ok? && Roomier(x, y)
    requires Joint(x.text, y.text, ReadValue(x, pos, depth, count).pos)
    ensures pos <= |y.text| && ReadValue(y, pos, depth, count) == ReadValue(x, pos, depth, count)
    decreases |x.text| - pos, 2
  {
    hide ReadBare, Joint, SkipSpaces, Agree;
    var s, t, end := x.text, y.text, ReadValue(x, pos, depth, count).pos;
    var at := SkipSpaces(s, pos);
    JointWithin(s, t, at, end);
    SpacesAlike(s, t, pos);
    BareAlike(x, y, at, depth, count);
    JointAgrees(s, t, end);
    SliceAlike(s, t, pos, at, end);
  }

  lemma {:induction false} BareAlike(x: Input, y: Input, at: nat, depth: nat, count: nat)
    requires at < |x.text| && ReadBare(x, at, depth, count).Ok? && Roomier(x, y)
    requires Joint(x.text, y.text, ReadBare(x, at, depth, count).pos)
    ensures at < |y.text| && ReadBare(y, at, depth, count) == ReadBare(x, at, depth, count)
    decreases |x.text| - at, 1
  {
    hide ReadString, ReadNumber, ReadLiteral, ReadObject, ReadArray, Joint, Agree;
    var s, t, end, c := x.text, y.text, ReadBare(x, at, depth, count).pos, x.text[at];
    JointAgrees(s, t, end);
    AgreeBefore(s, t, at, end);
    if c == '{' {
      ObjectAlike(x, y, at, depth, count);
    } else if c == '[' {
      ArrayAlike(x, y, at, depth, count);
    } else if c == '"' {
      StringAlike(x, y, at, count);
    } else if c in "tfn" {
      LiteralLength(x, at, count, WordOf(c));
      LiteralAlike(x, y, at, count, WordOf(c));
    } else {
      NumberAlike(x, y, at, count);
    }
  }

  lemma LiteralLength(x: Input, at: nat, count: nat, word: string)
    requires at < |x.text| && word != "" && ReadLiteral(x, at, count, word).Ok?
    ensures ReadLiteral(x, at, count, word).pos == at + |word|
  {
  }

  lemma {:induction false} ArrayAlike(x: Input, y: Input, at: nat, depth: nat, count: nat)
    requires at < |x.text| && ReadArray(x, at, depth, count).Ok? && Roomier(x, y)
    requires Agree(x.text, y.text, ReadArray(x, at, depth, count).pos)
    ensures at < |y.text| && ReadArray(y, at, depth, count) == ReadArray(x, at, depth, count)
    decreases |x.text| - at, 0
  {
    hide ReadElements, SkipSpaces, Agree, Joint;
    var s, t, end := x.text, y.text, ReadArray(x, at, depth, count).pos;
    AgreeBefore(s, t, at, end);
    var p := SkipSpaces(s, at + 1);
    if p < |s| && s[p] == ']' {
      OpeningAlike(s, t, at, end);
      SliceAlike(s, t, at + 1, p, end);
    } else {
      ElementsStart(x, at + 1, depth, count + 1);
      OpeningAlike(s, t, at, end);
      ElementsAlike(x, y, at + 1, depth, count + 1, []);
    }
  }

  /** Elements begin at the first character that is no white space. */
  lemma ElementsStart(x: Input, from: nat, depth: nat, count: nat)
    requires from <= |x.text| && ReadElements(x, from, depth, count, []).Ok?
    ensures SkipSpaces(x.text, from) < ReadElements(x, from, depth, count, []).pos
  {
    hide ReadBare, SkipSpaces;
    var none: seq<Element> := [];
    var one := ReadElement(x, from, depth, count, |none|);
    assert one.Ok? && ReadValue(x, from, depth + 1, count).pos > SkipSpaces(x.text, from);
  }

  /** After an opening bracket both texts close at once, or neither does. */
  lemma OpeningAlike(s: string, t: string, at: nat, end: nat)
    requires at < |s| && Agree(s, t, end) && SkipSpaces(s, at + 1) < end
    ensures var p := SkipSpaces(s, at + 1); at + 1 <= |t| && SkipSpaces(t, at + 1) == p < |t| && p < |s| && t[p] == s[p]
  {
    AgreeBefore(s, t, SkipSpaces(s, at + 1), end);
    SpacesAlike(s, t, at + 1);
  }

  lemma {:induction false} ElementAlike(x: Input, y: Input, from: nat, depth: nat, count: nat, k: nat)
    requires from <= |x.text| && ReadElement(x, from, depth, count, k).Ok? && Roomier(x, y) && k <= x.children
    requires Agree(x.text, y.text, ReadElement(x, from, depth, count, k).pos + 1)
    ensures from <= |y.text| && ReadElement(y, from, depth, count, k) == ReadElement(x, from, depth, count, k)
    decreases |x.text| - from, 3
  {
    hide ReadValue, SkipSpaces, Agree, Joint;
    var s, t, q := x.text, y.text, ReadElement(x, from, depth, count, k).pos;
    var v := ReadValue(x, from, depth + 1, count);
    AgreeBefore(s, t, v.pos, q + 1);
    AgreeBefore(s, t, q, q + 1);
    ValueAlike(x, y, from, depth + 1, count);
    SpacesAlike(s, t, v.pos);
    SliceAlike(s, t, v.pos, q, q + 1);
    AgreeWithin(s, t, q + 1);
  }

  lemma AgreeWithin(s: string, t: string, n: nat)
    requires Agree(s, t, n)
    ensures n <= |s| && n <= |t|
  {
  }

  lemma {:induction false} ElementsAlike(x: Input, y: Input, from: nat, depth: nat, count: nat, acc: seq<Element>)
    requires from <= |x.text| && ReadElements(x, from, depth, count, acc).Ok? && Roomier(x, y) && |acc| <= x.children
    requires Agree(x.text, y.text, ReadElements(x, from, depth, count, acc).pos)
    ensures from <= |y.text| && ReadElements(y, from, depth, count, acc) == ReadElements(x, from, depth, count, acc)
    decreases |x.text| - from, 4
  {
    hide ReadElement, Agree, Joint;
    var s, t, end := x.text, y.text, ReadElements(x, from, depth, count, acc).pos;
    var one := ReadElement(x, from, depth, count, |acc|);
    AgreeLess(s, t, one.pos + 1, end);
    AgreeBefore(s, t, one.pos, one.pos + 1);
    ElementAlike(x, y, from, depth, count, |acc|);
    ElementCounted(x, from, depth, count, |acc|);
    if s[one.pos] == ',' {
      ElementsAlike(x, y, one.pos + 1, depth, one.count, acc + [one.value]);
    }
  }

  lemma AgreeLess(s: string, t: string, p: nat, n: nat)
    requires Agree(s, t, n) && p <= n
    ensures Agree(s, t, p)
  {
  }

  lemma {:induction false} ObjectAlike(x: Input, y: Input, at: nat, depth: nat, count: nat)
    requires at < |x.text| && ReadObject(x, at, depth, count).Ok? && Roomier(x, y)
    requires Agree(x.text, y.text, ReadObject(x, at, depth, count).pos)
    ensures at < |y.text| && ReadObject(y, at, depth, count) == ReadObject(x, at, depth, count)
    decreases |x.text| - at, 0
  {
    hide ReadMembers, SkipSpaces, Agree, Joint;
    var s, t, end := x.text, y.text, ReadObject(x, at, depth, count).pos;
    AgreeBefore(s, t, at, end);
    var p := SkipSpaces(s, at + 1);
    if p < |s| && s[p] == '}' {
      OpeningAlike(s, t, at, end);
      SliceAlike(s, t, at + 1, p, end);
    } else {
      MembersStart(x, at + 1, depth, count + 1);
      OpeningAlike(s, t, at, end);
      MembersAlike(x, y, at + 1, depth, count + 1, []);
    }
  }

  /** Members begin at the first character that is no white space. */
  lemma MembersStart(x: Input, from: nat, depth: nat, count: nat)
    requires from <= |x.text| && ReadMembers(x, from, depth, count, []).Ok?
    ensures SkipSpaces(x.text, from) < ReadMembers(x, from, depth, count, []).pos
  {
    hide ReadString, ReadValue, SkipSpaces;
  }

  lemma LabelAlike(x: Input, y: Input, from: nat, count: nat)
    requires from <= |x.text| && ReadLabel(x, from, count).Ok? && Roomier(x, y)
    requires Agree(x.text, y.text, ReadLabel(x, from, count).pos)
    ensures from <= |y.text| && ReadLabel(y, from, count) == ReadLabel(x, from, count)
  {
    hide ReadString, SkipSpaces, Agree, Joint;
    var s, t, end := x.text, y.text, ReadLabel(x, from, count).pos;
    var at := SkipSpaces(s, from);
    var key := ReadString(x, at, count);
    AgreeBefore(s, t, at, end);
    SpacesAlike(s, t, from);
    AgreeLess(s, t, key.pos, end);
    StringAlike(x, y, at, count);
    AgreeBefore(s, t, end - 1, end);
    SpacesAlike(s, t, key.pos);
    SliceAlike(s, t, from, at, end);
    SliceAlike(s, t, key.pos, end - 1, end);
    AgreeWithin(s, t, end);
  }

  lemma {:induction false} MemberAlike(x: Input, y: Input, from: nat, depth: nat, count: nat, k: nat)
    requires from <= |x.text| && ReadMember(x, from, depth, count, k).Ok? && Roomier(x, y) && k <= x.children
    requires Agree(x.text, y.text, ReadMember(x, from, depth, count, k).pos + 1)
    ensures from <= |y.text| && ReadMember(y, from, depth, count, k) == ReadMember(x, from, depth, count, k)
    decreases |x.text| - from, 3
  {
    hide ReadValue, ReadLabel, SkipSpaces, Agree, Joint;
    var s, t, q := x.text, y.text, ReadMember(x, from, depth, count, k).pos;
    var l := ReadLabel(x, from, count);
    var v := ReadValue(x, l.pos, depth + 1, l.count);
    AgreeLess(s, t, l.pos, q + 1);
    LabelAlike(x, y, from, count);
    AgreeBefore(s, t, v.pos, q + 1);
    AgreeBefore(s, t, q, q + 1);
    ValueAlike(x, y, l.pos, depth + 1, l.count);
    SpacesAlike(s, t, v.pos);
    SliceAlike(s, t, v.pos, q, q + 1);
    AgreeWithin(s, t, q + 1);
  }

  lemma {:induction false} MembersAlike(x: Input, y: Input, from: nat, depth: nat, count: nat, acc: seq<Member>)
    requires from <= |x.text| && ReadMembers(x, from, depth, count, acc).Ok? && Roomier(x, y) && |acc| <= x.children
    requires Agree(x.text, y.text, ReadMembers(x, from, depth, count, acc).pos)
    ensures from <= |y.text| && ReadMembers(y, from, depth, count, acc) == ReadMembers(x, from, depth, count, acc)
    decreases |x.text| - from, 4
  {
    hide ReadMember, Agree, Joint;
    var s, t, end := x.text, y.text, ReadMembers(x, from, depth, count, acc).pos;
    var one := ReadMember(x, from, depth, count, |acc|);
    AgreeLess(s, t, one.pos + 1, end);
    AgreeBefore(s, t, one.pos, one.pos + 1);
    MemberAlike(x, y, from, depth, count, |acc|);
    MemberCounted(x, from, depth, count, |acc|);
    if s[one.pos] == ',' {
      MembersAlike(x, y, one.pos + 1, depth, one.count, acc + [one.value]);
    }
  }

  // --- and what stops the reader stops it there ------------------------------------------------------

  /** t goes on, where s was found wrong, with what is wrong there too. */
  predicate StopsToo(s: string, t: string, e: Error, at: nat) {
    Agree(s, t, at) &&
    ((at < |s| && at < |t| && t[at] == s[at] && e !in {UnexpectedEnd, InvalidLiteral})
     || (at < |t| && t[at] == 'q' && e in {UnexpectedCharacter, InvalidLiteral})
     || (at < |t| && t[at] == ' ' && e in {InvalidNumber, InvalidEscape})
     || (at < |t| && t[at] == 'a' && e == InvalidNumber)
     || (at == |t| && e == UnexpectedCharacter)
     || (at == |s| && e == TokenLimit)
     || (at < |s| && Agree(s, t, |s|) && e == InvalidLiteral && !(s[at..] <= WordOf(s[at])))
     || (at < |s| && Agree(s, t, |s|) && e == UnexpectedEnd && !JB.CutEscape(s, at))
     || (t == s && e !in {DepthExceeded, TokenLimit}))
  }

  /** Limits that let the reader get as far, and no further when they stop it. */
  predicate Limits(x: Input, y: Input, e: Error) {
    Roomier(x, y) && (e == DepthExceeded ==> y.maxDepth == x.maxDepth) && (e == TokenLimit ==> y.capacity == x.capacity && y.children == x.children)
  }

  ghost predicate Settles(x: Input, y: Input, e: Error, at: nat) {
    StopsToo(x.text, y.text, e, at) && Limits(x, y, e)
  }

  lemma SettlesRoom(x: Input, y: Input, e: Error, at: nat)
    requires Settles(x, y, e, at)
    ensures Roomier(x, y) && Agree(x.text, y.text, at)
  {
  }

  lemma SettlesBefore(x: Input, y: Input, e: Error, at: nat, p: nat)
    requires Settles(x, y, e, at) && p < at
    ensures p < |x.text| && p < |y.text| && x.text[p] == y.text[p] && Joint(x.text, y.text, p) && Agree(x.text, y.text, p + 1)
  {
  }

  /** Errors of characters, found at the beginning of what cannot be read. */
  lemma SettlesAt(x: Input, y: Input, e: Error, at: nat)
    requires Settles(x, y, e, at) && e !in {InvalidNumber, InvalidEscape} && (e == TokenLimit ==> at < |x.text|)
    ensures Joint(x.text, y.text, at)
  {
  }

  /** The scan stops: so it does in t. */
  lemma ScanStops(x: Input, y: Input, i: nat)
    requires i <= |x.text| && StepOf(x.text, i) == 0 && (i < |x.text| ==> x.text[i] != '"')
    requires ScanString(x.text, i).Bad? && Settles(x, y, ScanString(x.text, i).error, ScanString(x.text, i).at)
    ensures i <= |y.text| && ScanString(y.text, i).Bad?
  {
    hide Agree;
    var s, t := x.text, y.text;
    var e, at := ScanString(s, i).error, ScanString(s, i).at;
    SettlesRoom(x, y, e, at);
    AgreeWithin(s, t, at);
    if i < |s| && t != s {
      if at == i {
        if e == UnexpectedEnd {
          CutStops(s, t, i);
        }
      } else {
        SettlesBefore(x, y, e, at, i);
        if at > i + 1 {
          SettlesBefore(x, y, e, at, i + 1);
          if i + 5 < |t| {
            AgreeHex(s, t, i + 2, at);
            assert !IsHex(t[at]);
          }
        }
      }
    }
  }

  lemma AgreeHex(s: string, t: string, i: nat, k: nat)
    requires Agree(s, t, k) && forall h :: i <= h < k ==> IsHex(s[h])
    ensures forall h :: i <= h < k ==> IsHex(t[h])
  {
  }

  /** Digits that are none, in an escape that the text ends within. */
  lemma CutStops(s: string, t: string, i: nat)
    requires i < |s| && s[i] == '\\' && ScanString(s, i) == Bad(UnexpectedEnd, i)
    requires Agree(s, t, |s|) && !JB.CutEscape(s, i)
    ensures ScanString(t, i).Bad?
  {
    assert t[i] == s[i];
    assert i + 1 < |s| && t[i + 1] == s[i + 1] == 'u';
    var k :| i + 2 <= k < |s| && !IsHex(s[k]);
    assert t[k] == s[k];
  }

  lemma {:induction false} ScanSettled(x: Input, y: Input, i: nat)
    requires i <= |x.text| && ScanString(x.text, i).Bad?
    requires Settles(x, y, ScanString(x.text, i).error, ScanString(x.text, i).at)
    ensures i <= |y.text| && ScanString(y.text, i).Bad?
    decreases |x.text| - i
  {
    hide Settles, ScanString, FirstNonHex, Agree;
    var s, t := x.text, y.text;
    var n, at := StepOf(s, i), ScanString(s, i).at;
    ScanGoes(s, i);
    if n > 0 {
      ScanReaches(s, i, n);
      SettlesRoom(x, y, ScanString(s, i).error, at);
      AgreeLess(s, t, i + n, at);
      StepAlike(s, t, i, n);
      ScanSettled(x, y, i + n);
    } else {
      ScanStops(x, y, i);
    }
  }

  lemma ScanReaches(s: string, i: nat, n: nat)
    requires i + n <= |s| && ScanString(s, i) == ScanString(s, i + n) && ScanString(s, i).Bad?
    ensures ScanString(s, i).at >= i + n
  {
  }

  lemma StringSettled(x: Input, y: Input, at: nat, count: nat)
    requires at < |x.text| && at < |y.text| && ReadString(x, at, count).Fail?
    requires var r := ReadString(x, at, count); Settles(x, y, r.error, r.at)
    ensures ReadString(y, at, count).Fail?
  {
    hide ScanString, StopsToo;
    if ScanString(x.text, at + 1).Bad? {
      ScanSettled(x, y, at + 1);
    }
  }

  lemma LiteralSettled(x: Input, y: Input, at: nat, count: nat, word: string)
    requires at < |x.text| && at < |y.text| && x.text[at] == y.text[at] && word == WordOf(x.text[at])
    requires ReadLiteral(x, at, count, word).Fail?
    requires var r := ReadLiteral(x, at, count, word); Settles(x, y, r.error, r.at)
    ensures ReadLiteral(y, at, count, word).Fail?
  {
    var s, t := x.text, y.text;
    if ReadLiteral(x, at, count, word).error == InvalidLiteral && t != s {
      assert s[at] == word[0] || s[at] != word[0];
      if |t| - at >= |word| && t[at..at + |word|] == word && t[at] != 'q' {
        SliceAlike(s, t, at, |s|, |s|);
        PrefixOfWord(s, t, at, word);
      }
    }
  }

  lemma PrefixOfWord(s: string, t: string, at: nat, word: string)
    requires at < |s| <= |t| && Agree(s, t, |s|) && |t| - at >= |word| && t[at..at + |word|] == word
    ensures s[at..] <= word || (|s| - at >= |word| && s[at..at + |word|] == word)
  {
    if |s| - at < |word| {
      assert s[at..] == word[..|s| - at];
    } else {
      SliceAlike(s, t, at, at + |word|, |s|);
    }
  }

  // Where a number that cannot be read goes wrong.
  lemma NumberSettled(x: Input, y: Input, at: nat, count: nat)
    requires at < |x.text| && at < |y.text| && x.text[at] == y.text[at] && (x.text[at] == '-' || IsDigit(x.text[at]))
    requires ReadNumber(x, at, count).Fail?
    requires var r := ReadNumber(x, at, count); Settles(x, y, r.error, r.at)
    ensures ReadNumber(y, at, count).Fail?
  {
    hide ScanWhole, ScanFraction, ScanExponent, Joint, Agree, StopsToo;
    var s, t, r := x.text, y.text, ReadNumber(x, at, count);
    var digits := if s[at] == '-' then at + 1 else at;
    WholeDigits(s, digits);
    if t == s {
      NumberErrors(x, at, count);
      return;
    }
    if ScanWhole(s, digits).Bad? {
      WholeSettled(x, y, digits);
      return;
    }
    var point := ScanWhole(s, digits).pos;
    if ScanFraction(s, point).Bad? {
      JB.FractionStops(s, point);
      SettlesBefore(x, y, r.error, r.at, point);
      WholeAlike(s, t, digits);
      FractionSettled(x, y, point);
      return;
    }
    var e := ScanFraction(s, point).pos;
    if ScanExponent(s, e).Upto? {
      return;
    }
    JB.ExponentStops(s, e);
    SettlesBefore(x, y, r.error, r.at, e);
    JointWithin(s, t, point, e);
    WholeAlike(s, t, digits);
    FractionAlike(s, t, point);
    ExponentSettled(x, y, e);
  }

  lemma WholeDigits(s: string, p: nat)
    requires p <= |s|
    ensures p < |s| && IsDigit(s[p]) ==> ScanWhole(s, p).Upto?
  {
  }

  lemma NumberErrors(x: Input, at: nat, count: nat)
    requires at < |x.text| && ReadNumber(x, at, count).Fail?
    ensures ReadNumber(x, at, count).error == TokenLimit <==>
      var digits := if x.text[at] == '-' then at + 1 else at;
      && ScanWhole(x.text, digits).Upto? && ScanFraction(x.text, ScanWhole(x.text, digits).pos).Upto?
      && ScanExponent(x.text, ScanFraction(x.text, ScanWhole(x.text, digits).pos).pos).Upto?
  {
    hide SkipDigits;
  }

  lemma WholeSettled(x: Input, y: Input, p: nat)
    requires 0 < p <= |x.text| && ScanWhole(x.text, p).Bad? && y.text != x.text
    requires Settles(x, y, ScanWhole(x.text, p).error, ScanWhole(x.text, p).at)
    ensures p <= |y.text| && ScanWhole(y.text, p).Bad?
  {
    hide SkipDigits;
  }

  lemma FractionSettled(x: Input, y: Input, p: nat)
    requires p <= |x.text| && ScanFraction(x.text, p).Bad? && y.text != x.text
    requires Settles(x, y, ScanFraction(x.text, p).error, ScanFraction(x.text, p).at)
    ensures p <= |y.text| && ScanFraction(y.text, p).Bad?
  {
    hide SkipDigits;
    SettlesBefore(x, y, InvalidNumber, p + 1, p);
  }

  lemma ExponentSettled(x: Input, y: Input, p: nat)
    requires p <= |x.text| && ScanExponent(x.text, p).Bad? && y.text != x.text
    requires Settles(x, y, ScanExponent(x.text, p).error, ScanExponent(x.text, p).at)
    ensures p <= |y.text| && ScanExponent(y.text, p).Bad?
  {
    hide SkipDigits;
    var q := ScanExponent(x.text, p).at;
    SettlesBefore(x, y, InvalidNumber, q, p);
    if q == p + 2 {
      SettlesBefore(x, y, InvalidNumber, q, p + 1);
    }
  }

  lemma {:induction false} ValueSettled(x: Input, y: Input, pos: nat, depth: nat, count: nat)
    requires pos <= |x.text| && ReadValue(x, pos, depth, count).Fail?
    requires var r := ReadValue(x, pos, depth, count); Settles(x, y, r.error, r.at)
    ensures pos <= |y.text| && ReadValue(y, pos, depth, count).Fail?
    decreases |x.text| - pos, 2
  {
    hide ReadBare, Settles, SkipSpaces, Joint;
    var s, t, r := x.text, y.text, ReadValue(x, pos, depth, count);
    var at := SkipSpaces(s, pos);
    if at < |s| {
      BareFails(x, at, depth, count);
      if at < r.at {
        SettlesBefore(x, y, r.error, r.at, at);
      } else {
        SettlesAt(x, y, r.error, r.at);
      }
      SpacesAlike(s, t, pos);
      if at < |t| {
        BareSettled(x, y, at, depth, count);
      }
    } else {
      SettlesAt(x, y, r.error, r.at);
      SpacesAlike(s, t, pos);
      EndOnly(x, y);
    }
  }

  /** A text that ends too soon says nothing of longer ones. */
  lemma EndOnly(x: Input, y: Input)
    requires Settles(x, y, UnexpectedEnd, |x.text|)
    ensures y.text == x.text
  {
  }

  /** Within a number or an escape there is something before the error. */
  lemma BareFails(x: Input, at: nat, depth: nat, count: nat)
    requires at < |x.text| && ReadBare(x, at, depth, count).Fail?
    ensures var r := ReadBare(x, at, depth, count);
      && (r.error in {InvalidNumber, InvalidEscape, UnexpectedEnd} ==> r.at > at)
      && (r.error == TokenLimit && r.at == at ==> at < |x.text|)
  {
    hide ReadElements, ReadMembers, ScanString, ScanFraction, ScanExponent, SkipDigits;
  }

  lemma {:induction false} BareSettled(x: Input, y: Input, at: nat, depth: nat, count: nat)
    requires at < |x.text| && at < |y.text| && ReadBare(x, at, depth, count).Fail?
    requires var r := ReadBare(x, at, depth, count); Settles(x, y, r.error, r.at)
    ensures ReadBare(y, at, depth, count).Fail?
    decreases |x.text| - at, 1
  {
    hide ReadString, ReadNumber, ReadLiteral, ReadObject, ReadArray, Settles;
    var s, t, c, r := x.text, y.text, x.text[at], ReadBare(x, at, depth, count);
    BareFails(x, at, depth, count);
    if r.at > at {
      SettlesBefore(x, y, r.error, r.at, at);
    } else {
      FirstCharacter(x, y, r.error, at);
      if t[at] == 'q' {
        return;
      }
    }
    if c == '{' {
      ObjectSettled(x, y, at, depth, count);
    } else if c == '[' {
      ArraySettled(x, y, at, depth, count);
    } else if c == '"' {
      StringSettled(x, y, at, count);
    } else if c in "tfn" {
      LiteralSettled(x, y, at, count, WordOf(c));
    } else if c == '-' || IsDigit(c) {
      NumberSettled(x, y, at, count);
    }
  }

  lemma FirstCharacter(x: Input, y: Input, e: Error, at: nat)
    requires at < |x.text| && at < |y.text| && Settles(x, y, e, at) && e !in {InvalidNumber, InvalidEscape}
    ensures y.text[at] == x.text[at] || y.text[at] == 'q'
  {
  }

  lemma {:induction false} ArraySettled(x: Input, y: Input, at: nat, depth: nat, count: nat)
    requires at < |x.text| && at < |y.text| && ReadArray(x, at, depth, count).Fail?
    requires var r := ReadArray(x, at, depth, count); Settles(x, y, r.error, r.at)
    ensures ReadArray(y, at, depth, count).Fail?
    decreases |x.text| - at, 0
  {
    hide ReadElements, Settles, SkipSpaces;
    var s, t, r := x.text, y.text, ReadArray(x, at, depth, count);
    if depth >= x.maxDepth || count >= x.capacity {
      LimitsStay(x, y, r.error, r.at);
    } else {
      ElementsSettled(x, y, at + 1, depth, count + 1, []);
      FirstOfElements(x, at + 1, depth, count + 1);
      NoClosing(x, y, at, r.error, r.at, ']');
    }
  }

  lemma LimitsStay(x: Input, y: Input, e: Error, at: nat)
    requires Settles(x, y, e, at)
    ensures e == DepthExceeded ==> y.maxDepth == x.maxDepth
    ensures e == TokenLimit ==> y.capacity == x.capacity && y.children == x.children
  {
  }

  /** What cannot be read as elements stops at the first of them or later. */
  lemma FirstOfElements(x: Input, from: nat, depth: nat, count: nat)
    requires from <= |x.text| && ReadElements(x, from, depth, count, []).Fail?
    ensures var r := ReadElements(x, from, depth, count, []); var p := SkipSpaces(x.text, from);
      && r.at >= p && (r.at == p ==> r.error !in {InvalidNumber, InvalidEscape} && (r.error == TokenLimit ==> p < |x.text|))
  {
    hide ReadBare, SkipSpaces;
    var none: seq<Element> := [];
    var one := ReadElement(x, from, depth, count, |none|);
    var at := SkipSpaces(x.text, from);
    assert ReadValue(x, from, depth + 1, count).Ok? ==> ReadValue(x, from, depth + 1, count).pos > at;
    if at < |x.text| && ReadBare(x, at, depth + 1, count).Fail? {
      BareFails(x, at, depth + 1, count);
    }
  }

  /** Neither text closes at once. */
  lemma NoClosing(x: Input, y: Input, at: nat, e: Error, where: nat, close: char)
    requires at < |x.text| && Settles(x, y, e, where) && close in "]}"
    requires var p := SkipSpaces(x.text, at + 1);
      && where >= p && (p < |x.text| ==> x.text[p] != close)
      && (where == p ==> e !in {InvalidNumber, InvalidEscape} && (e == TokenLimit ==> p < |x.text|))
    ensures at + 1 <= |y.text|
    ensures var p := SkipSpaces(y.text, at + 1); !(p < |y.text| && y.text[p] == close)
  {
    hide Settles, SkipSpaces;
    var p := SkipSpaces(x.text, at + 1);
    if p < where {
      SettlesBefore(x, y, e, where, p);
    } else {
      SettlesAt(x, y, e, where);
    }
    SpacesAlike(x.text, y.text, at + 1);
  }

  lemma {:induction false} ElementsSettled(x: Input, y: Input, from: nat, depth: nat, count: nat, acc: seq<Element>)
    requires from <= |x.text| && ReadElements(x, from, depth, count, acc).Fail? && |acc| <= x.children
    requires var r := ReadElements(x, from, depth, count, acc); Settles(x, y, r.error, r.at)
    ensures from <= |y.text| && ReadElements(y, from, depth, count, acc).Fail?
    decreases |x.text| - from, 4
  {
    hide ReadElement, Settles;
    var r := ReadElements(x, from, depth, count, acc);
    var one := ReadElement(x, from, depth, count, |acc|);
    if one.Fail? {
      ElementSettled(x, y, from, depth, count, |acc|);
    } else {
      SettlesRoom(x, y, r.error, r.at);
      SettlesBefore(x, y, r.error, r.at, one.pos);
      ElementAlike(x, y, from, depth, count, |acc|);
      ElementCounted(x, from, depth, count, |acc|);
      ElementsSettled(x, y, one.pos + 1, depth, one.count, acc + [one.value]);
    }
  }

  lemma {:induction false} ElementSettled(x: Input, y: Input, from: nat, depth: nat, count: nat, k: nat)
    requires from <= |x.text| && ReadElement(x, from, depth, count, k).Fail? && k <= x.children
    requires var r := ReadElement(x, from, depth, count, k); Settles(x, y, r.error, r.at)
    ensures from <= |y.text| && ReadElement(y, from, depth, count, k).Fail?
    decreases |x.text| - from, 3
  {
    hide ReadValue, Settles, SkipSpaces, Joint;
    var r := ReadElement(x, from, depth, count, k);
    var v := ReadValue(x, from, depth + 1, count);
    if v.Fail? {
      ValueSettled(x, y, from, depth + 1, count);
    } else if k != x.children {
      ValueKept(x, y, from, depth + 1, count, r.error, r.at);
      AfterSettled(x, y, v.pos, r.error, r.at, ']');
    } else {
      SettlesRoom(x, y, r.error, r.at);
      AgreeWithin(x.text, y.text, r.at);
      LimitsStay(x, y, r.error, r.at);
    }
  }

  /** A value before the error is read in both texts. */
  lemma ValueKept(x: Input, y: Input, from: nat, depth: nat, count: nat, e: Error, at: nat)
    requires from <= |x.text| && ReadValue(x, from, depth, count).Ok? && ReadValue(x, from, depth, count).pos <= at
    requires Settles(x, y, e, at) && e in {UnexpectedEnd, UnexpectedCharacter, TrailingContent}
    ensures from <= |y.text| && ReadValue(y, from, depth, count) == ReadValue(x, from, depth, count)
  {
    hide ReadValue, Settles, Joint;
    SettlesRoom(x, y, e, at);
    SettlesAt(x, y, e, at);
    JointWithin(x.text, y.text, ReadValue(x, from, depth, count).pos, at);
    ValueAlike(x, y, from, depth, count);
  }

  /** Neither comma nor bracket follows. */
  lemma AfterSettled(x: Input, y: Input, p: nat, e: Error, at: nat, close: char)
    requires p <= |x.text| && at == SkipSpaces(x.text, p) && Settles(x, y, e, at) && close in "]}:\""
    requires e == if at == |x.text| then UnexpectedEnd else UnexpectedCharacter
    requires at < |x.text| ==> x.text[at] !in [',', close] || (close in ":\"" && x.text[at] != close)
    ensures p <= |y.text|
    ensures var q := SkipSpaces(y.text, p); q < |y.text| ==> y.text[q] != close && (close in "]}" ==> y.text[q] != ',')
  {
    hide Settles, SkipSpaces, Joint;
    SettlesAt(x, y, e, at);
    SpacesAlike(x.text, y.text, p);
    if at == |x.text| {
      EndOnly(x, y);
    } else if at < |y.text| {
      FirstCharacter(x, y, e, at);
    }
  }

  lemma {:induction false} ObjectSettled(x: Input, y: Input, at: nat, depth: nat, count: nat)
    requires at < |x.text| && at < |y.text| && ReadObject(x, at, depth, count).Fail?
    requires var r := ReadObject(x, at, depth, count); Settles(x, y, r.error, r.at)
    ensures ReadObject(y, at, depth, count).Fail?
    decreases |x.text| - at, 0
  {
    hide ReadMembers, Settles, SkipSpaces;
    var s, t, r := x.text, y.text, ReadObject(x, at, depth, count);
    if depth >= x.maxDepth || count >= x.capacity {
      LimitsStay(x, y, r.error, r.at);
    } else {
      MembersSettled(x, y, at + 1, depth, count + 1, []);
      FirstOfMembers(x, at + 1, depth, count + 1);
      NoClosing(x, y, at, r.error, r.at, '}');
    }
  }

  lemma FirstOfMembers(x: Input, from: nat, depth: nat, count: nat)
    requires from <= |x.text| && ReadMembers(x, from, depth, count, []).Fail?
    ensures var r := ReadMembers(x, from, depth, count, []); var p := SkipSpaces(x.text, from);
      && r.at >= p && (r.at == p ==> r.error !in {InvalidNumber, InvalidEscape} && (r.error == TokenLimit ==> p < |x.text|))
  {
    hide ReadValue, SkipSpaces, ScanString;
    var at := SkipSpaces(x.text, from);
    if at < |x.text| && x.text[at] == '"' && ReadString(x, at, count).Fail? {
      StringFails(x, at, count);
    }
  }

  lemma StringFails(x: Input, at: nat, count: nat)
    requires at < |x.text| && ReadString(x, at, count).Fail?
    ensures var r := ReadString(x, at, count); r.error !in {InvalidNumber} && (r.error == InvalidEscape ==> r.at > at)
  {
    hide ScanString;
    if ScanString(x.text, at + 1).Bad? {
      ScanErrors(x.text, at + 1);
    }
  }

  lemma {:induction false} ScanErrors(s: string, i: nat)
    requires i <= |s| && ScanString(s, i).Bad?
    ensures ScanString(s, i).error in {UnexpectedEnd, InvalidEscape, InvalidString}
    decreases |s| - i
  {
    hide ScanString, FirstNonHex;
    var n := StepOf(s, i);
    ScanGoes(s, i);
    if n > 0 {
      ScanErrors(s, i + n);
    } else {
      ScanStopError(s, i);
    }
  }

  lemma ScanStopError(s: string, i: nat)
    requires i <= |s| && StepOf(s, i) == 0 && ScanString(s, i).Bad?
    ensures ScanString(s, i).error in {UnexpectedEnd, InvalidEscape, InvalidString}
  {
  }

  lemma LabelSettled(x: Input, y: Input, from: nat, count: nat)
    requires from <= |x.text| && ReadLabel(x, from, count).Fail?
    requires var r := ReadLabel(x, from, count); Settles(x, y, r.error, r.at)
    ensures from <= |y.text| && ReadLabel(y, from, count).Fail?
  {
    hide ReadString, Settles, SkipSpaces, Joint;
    var s, t, r := x.text, y.text, ReadLabel(x, from, count);
    var at := SkipSpaces(s, from);
    if at == |s| || s[at] != '"' {
      AfterSettled(x, y, from, r.error, r.at, '"');
      return;
    }
    SettlesRoom(x, y, r.error, r.at);
    var key := ReadString(x, at, count);
    if key.Fail? {
      KeySettled(x, y, from, at, count);
    } else {
      SettlesBefore(x, y, r.error, r.at, at);
      SpacesAlike(s, t, from);
      AgreeLess(s, t, key.pos, r.at);
      StringAlike(x, y, at, count);
      AfterSettled(x, y, key.pos, r.error, r.at, ':');
    }
  }

  lemma KeySettled(x: Input, y: Input, from: nat, at: nat, count: nat)
    requires from <= |x.text| && at == SkipSpaces(x.text, from) < |x.text| && x.text[at] == '"' && ReadString(x, at, count).Fail?
    requires var r := ReadString(x, at, count); Settles(x, y, r.error, r.at)
    ensures from <= |y.text| && ReadLabel(y, from, count).Fail?
  {
    hide ReadString, Settles, SkipSpaces, Joint;
    var r := ReadString(x, at, count);
    StringFails(x, at, count);
    if r.at > at {
      SettlesBefore(x, y, r.error, r.at, at);
    } else {
      SettlesAt(x, y, r.error, r.at);
    }
    SpacesAlike(x.text, y.text, from);
    if at < |y.text| {
      StringSettled(x, y, at, count);
    }
  }

  lemma {:induction false} MemberSettled(x: Input, y: Input, from: nat, depth: nat, count: nat, k: nat)
    requires from <= |x.text| && ReadMember(x, from, depth, count, k).Fail? && k <= x.children
    requires var r := ReadMember(x, from, depth, count, k); Settles(x, y, r.error, r.at)
    ensures from <= |y.text| && ReadMember(y, from, depth, count, k).Fail?
    decreases |x.text| - from, 3
  {
    hide ReadValue, ReadLabel, Settles, SkipSpaces, Joint;
    var r := ReadMember(x, from, depth, count, k);
    var l := ReadLabel(x, from, count);
    if l.Fail? {
      LabelSettled(x, y, from, count);
      return;
    }
    SettlesRoom(x, y, r.error, r.at);
    AgreeLess(x.text, y.text, l.pos, r.at);
    LabelAlike(x, y, from, count);
    var v := ReadValue(x, l.pos, depth + 1, l.count);
    if v.Fail? {
      ValueSettled(x, y, l.pos, depth + 1, l.count);
    } else if k != x.children {
      ValueKept(x, y, l.pos, depth + 1, l.count, r.error, r.at);
      AfterSettled(x, y, v.pos, r.error, r.at, '}');
    } else {
      LimitsStay(x, y, r.error, r.at);
    }
  }

  lemma {:induction false} MembersSettled(x: Input, y: Input, from: nat, depth: nat, count: nat, acc: seq<Member>)
    requires from <= |x.text| && ReadMembers(x, from, depth, count, acc).Fail? && |acc| <= x.children
    requires var r := ReadMembers(x, from, depth, count, acc); Settles(x, y, r.error, r.at)
    ensures from <= |y.text| && ReadMembers(y, from, depth, count, acc).Fail?
    decreases |x.text| - from, 4
  {
    hide ReadMember, Settles;
    var r := ReadMembers(x, from, depth, count, acc);
    var one := ReadMember(x, from, depth, count, |acc|);
    if one.Fail? {
      MemberSettled(x, y, from, depth, count, |acc|);
    } else {
      SettlesRoom(x, y, r.error, r.at);
      SettlesBefore(x, y, r.error, r.at, one.pos);
      MemberAlike(x, y, from, depth, count, |acc|);
      MemberCounted(x, from, depth, count, |acc|);
      MembersSettled(x, y, one.pos + 1, depth, one.count, acc + [one.value]);
    }
  }

  /** What is refused at a place is refused in every text that stops there too. */
  lemma DocumentSettled(x: Input, y: Input)
    requires A.ReadDocument(x).Fail?
    requires var r := A.ReadDocument(x); Settles(x, y, r.error, r.at)
    ensures A.ReadDocument(y).Fail?
  {
    hide ReadValue, Settles, SkipSpaces, Joint;
    var s, t, r := x.text, y.text, A.ReadDocument(x);
    var v := ReadValue(x, 0, 0, 0);
    if v.Fail? {
      ValueSettled(x, y, 0, 0, 0);
    } else {
      ValueKept(x, y, 0, 0, 0, r.error, r.at);
      SettlesAt(x, y, r.error, r.at);
      SpacesAlike(s, t, v.pos);
      TrailingStays(x, y, r.at);
    }
  }

  lemma TrailingStays(x: Input, y: Input, at: nat)
    requires Settles(x, y, TrailingContent, at) && at < |x.text|
    ensures at < |y.text|
  {
  }
}
