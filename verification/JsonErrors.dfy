/**
 What the reader's errors and their places mean, in terms of the JSON texts there
 are: how far a refused text can be gone on from, and why no further.
 */
module JsonErrors {
  import opened Basics
  import opened JsonGrammar
  import opened Numerals
  import opened JsonReader
  import JL = JsonLocality
  import A = JsonAcceptance
  import opened JB = JsonBeginnings

  /** t is a JSON text. */
  ghost predicate IsText(t: string) {
    exists d :: A.IsJson(d) && A.DocumentText(d) == t
  }

  /** What stands at at is what no JSON text goes on with. */
  ghost predicate Breaks(w: string, at: nat) {
    at < |w| && !Begins(w[..at + 1])
  }

  /** A backslash stands before at, as the first character of an escape that at is in. */
  predicate InEscape(w: string, at: nat) {
    at <= |w| && exists i :: 0 <= i < at && at < i + 6 && w[i] == '\\' && (i == at - 1 || w[i + 1] == 'u')
  }

  /** A text up to the character an error was found at, as far as there is one. */
  function Seen(w: string, at: nat): string
    requires at <= |w|
  {
    if at < |w| then w[..at + 1] else w
  }

  /** What it means that a text is refused with an error at a place, under limits on
      its depth and its tokens. It begins as JSON up to there, and
      - an unexpected character is no text's next, where white space could stand and no
        string is open, after what is no whole text;
      - a bad character of a string is a control character where a string is open;
      - a bad escape breaks off behind a backslash, where no space could stand;
      - a bad number wants a digit and has something else, or nothing;
      - a bad literal stands where a value could, and is not its word; what is cut
        short of the word begins a text, and nothing else does;
      - an unexpected end is the end, where white space could stand or after a minus, or
        an escape the end comes too soon for; that begins a text if its digits are digits;
      - trailing content follows a whole text within the limits;
      - every text that goes on from there has more depth, or more tokens or
        more children in one place, than allowed. */
  ghost predicate Means(w: string, e: Error, at: nat, maxDepth: int, capacity: int) {
    at <= |w| && Begins(w[..at]) &&
    match e
    case UnexpectedCharacter =>
      Breaks(w, at) && Begins(w[..at] + " ") && !Begins(w[..at] + "q") && !IsText(w[..at])
    case InvalidString => Breaks(w, at) && w[at] < ' ' && Begins(w[..at] + "q")
    case InvalidEscape => Breaks(w, at) && InEscape(w, at) && !Begins(w[..at] + " ")
    case InvalidNumber =>
      && (at == |w| || (Breaks(w, at) && !IsDigit(w[at])))
      && Begins(w[..at] + "0") && !Begins(w[..at] + " ") && !Begins(w[..at] + "a")
    case InvalidLiteral =>
      && at < |w| && w[at] in "tfn" && !(WordOf(w[at]) <= w[at..])
      && Begins(w[..at] + "null") && !Begins(w[..at] + "q")
      && (Begins(w) <==> w[at..] <= WordOf(w[at]))
    case UnexpectedEnd =>
      && !IsText(w)
      && (if at == |w| then Begins(w + " ") || (w != "" && w[|w| - 1] == '-')
          else w[at] == '\\' && Begins(w[..at] + "q") && (at + 1 == |w| || (w[at + 1] == 'u' && |w| < at + 6))
               && (Begins(w) <==> CutEscape(w, at)))
    case TrailingContent =>
      && Breaks(w, at)
      && exists d :: A.IsJson(d) && A.DocumentText(d) == w[..at] && A.WithinLimits(d, maxDepth, capacity)
    case DepthExceeded =>
      && at < |w| && w[at] in "{["
      && forall d :: A.IsJson(d) && w[..at + 1] <= A.DocumentText(d) ==> Depth(d.value) > maxDepth
    case TokenLimit =>
      forall d :: A.IsJson(d) && Seen(w, at) <= A.DocumentText(d) ==> Size(d.value) > capacity || Width(d.value) > MAX_CHILDREN
    case _ => false
  }

  // --- what stands where an error is found --------------------------------------------------------------

  predicate Found(s: string, e: Error, at: nat) {
    at <= |s| &&
    match e
    case UnexpectedCharacter => at < |s|
    case UnexpectedEnd =>
      at == |s| || (s[at] == '\\' && (at + 1 == |s| || (s[at + 1] == 'u' && |s| < at + 6)))
    case InvalidString => at < |s| && s[at] < ' '
    case InvalidEscape => at < |s| && InEscape(s, at)
    case InvalidNumber => at == |s| || !IsDigit(s[at])
    case InvalidLiteral => at < |s| && s[at] in "tfn" && !(WordOf(s[at]) <= s[at..])
    case DepthExceeded => at < |s| && s[at] in "{["
    case TokenLimit => true
    case _ => false
  }

  lemma StopFound(s: string, i: nat)
    requires i <= |s| && JL.StepOf(s, i) == 0 && ScanString(s, i).Bad?
    ensures var r := ScanString(s, i); Found(s, r.error, r.at)
  {
    var at := ScanString(s, i).at;
    if i < |s| && at > i {
      assert s[i] == '\\' && at < i + 6;
    }
  }

  lemma {:induction false} ScanFound(s: string, i: nat)
    requires i <= |s| && ScanString(s, i).Bad?
    ensures var r := ScanString(s, i); Found(s, r.error, r.at)
    decreases |s| - i
  {
    hide ScanString, FirstNonHex, Found;
    var n := JL.StepOf(s, i);
    JL.ScanGoes(s, i);
    if n > 0 {
      ScanFound(s, i + n);
    } else {
      StopFound(s, i);
    }
  }

  lemma StringFound(x: Input, at: nat, count: nat)
    requires at < |x.text| && ReadString(x, at, count).Fail?
    ensures var r := ReadString(x, at, count); Found(x.text, r.error, r.at)
  {
    hide ScanString, InEscape;
    if ScanString(x.text, at + 1).Bad? {
      ScanFound(x.text, at + 1);
    }
  }

  lemma NumberFound(x: Input, at: nat, count: nat)
    requires at < |x.text| && ReadNumber(x, at, count).Fail?
    ensures var r := ReadNumber(x, at, count); Found(x.text, r.error, r.at)
  {
    hide SkipDigits, InEscape;
  }

  lemma LiteralFound(x: Input, at: nat, count: nat)
    requires at < |x.text| && x.text[at] in "tfn" && ReadLiteral(x, at, count, WordOf(x.text[at])).Fail?
    ensures var r := ReadLiteral(x, at, count, WordOf(x.text[at])); Found(x.text, r.error, r.at)
  {
    var s, word := x.text, WordOf(x.text[at]);
    if word <= s[at..] {
      assert s[at..][..|word|] == s[at..at + |word|];
    }
  }

  lemma {:induction false} ValueFound(x: Input, pos: nat, depth: nat, count: nat)
    requires pos <= |x.text| && ReadValue(x, pos, depth, count).Fail?
    ensures var r := ReadValue(x, pos, depth, count); Found(x.text, r.error, r.at)
    decreases |x.text| - pos, 2
  {
    hide ReadBare, SkipSpaces, InEscape;
    var at := SkipSpaces(x.text, pos);
    if at < |x.text| {
      BareFound(x, at, depth, count);
    }
  }

  lemma {:induction false} BareFound(x: Input, at: nat, depth: nat, count: nat)
    requires at < |x.text| && ReadBare(x, at, depth, count).Fail?
    ensures var r := ReadBare(x, at, depth, count); Found(x.text, r.error, r.at)
    decreases |x.text| - at, 1
  {
    hide ReadString, ReadNumber, ReadLiteral, ReadElements, ReadMembers, InEscape, SkipSpaces;
    var c := x.text[at];
    if c == '{' {
      if depth < x.maxDepth && count < x.capacity {
        MembersFound(x, at + 1, depth, count + 1, []);
      }
    } else if c == '[' {
      if depth < x.maxDepth && count < x.capacity {
        ElementsFound(x, at + 1, depth, count + 1, []);
      }
    } else if c == '"' {
      StringFound(x, at, count);
    } else if c in "tfn" {
      LiteralFound(x, at, count);
    } else if c == '-' || IsDigit(c) {
      NumberFound(x, at, count);
    }
  }

  lemma {:induction false} ElementsFound(x: Input, from: nat, depth: nat, count: nat, acc: seq<Element>)
    requires from <= |x.text| && ReadElements(x, from, depth, count, acc).Fail?
    ensures var r := ReadElements(x, from, depth, count, acc); Found(x.text, r.error, r.at)
    decreases |x.text| - from, 4
  {
    hide ReadValue, Found, SkipSpaces;
    var one := ReadElement(x, from, depth, count, |acc|);
    if one.Fail? {
      if ReadValue(x, from, depth + 1, count).Fail? {
        ValueFound(x, from, depth + 1, count);
      } else {
        PlainFound(x.text, one.error, one.at);
      }
    } else {
      ElementsFound(x, one.pos + 1, depth, one.count, acc + [one.value]);
    }
  }

  lemma PlainFound(s: string, e: Error, at: nat)
    requires at <= |s| && (e == TokenLimit || e == if at == |s| then UnexpectedEnd else UnexpectedCharacter)
    ensures Found(s, e, at)
  {
  }

  lemma {:induction false} MembersFound(x: Input, from: nat, depth: nat, count: nat, acc: seq<Member>)
    requires from <= |x.text| && ReadMembers(x, from, depth, count, acc).Fail?
    ensures var r := ReadMembers(x, from, depth, count, acc); Found(x.text, r.error, r.at)
    decreases |x.text| - from, 4
  {
    hide ReadMember, Found;
    var one := ReadMember(x, from, depth, count, |acc|);
    if one.Fail? {
      MemberFound(x, from, depth, count, |acc|);
    } else {
      MembersFound(x, one.pos + 1, depth, one.count, acc + [one.value]);
    }
  }

  lemma {:induction false} MemberFound(x: Input, from: nat, depth: nat, count: nat, k: nat)
    requires from <= |x.text| && ReadMember(x, from, depth, count, k).Fail?
    ensures var r := ReadMember(x, from, depth, count, k); Found(x.text, r.error, r.at)
    decreases |x.text| - from, 3
  {
    hide ReadValue, ReadLabel, Found, SkipSpaces;
    var r, l := ReadMember(x, from, depth, count, k), ReadLabel(x, from, count);
    if l.Fail? {
      LabelFound(x, from, count);
    } else if ReadValue(x, l.pos, depth + 1, l.count).Fail? {
      ValueFound(x, l.pos, depth + 1, l.count);
    } else {
      PlainFound(x.text, r.error, r.at);
    }
  }

  lemma LabelFound(x: Input, from: nat, count: nat)
    requires from <= |x.text| && ReadLabel(x, from, count).Fail?
    ensures var r := ReadLabel(x, from, count); Found(x.text, r.error, r.at)
  {
    hide ReadString, Found, SkipSpaces;
    var r, at := ReadLabel(x, from, count), SkipSpaces(x.text, from);
    if at < |x.text| && x.text[at] == '"' && ReadString(x, at, count).Fail? {
      StringFound(x, at, count);
    } else {
      PlainFound(x.text, r.error, r.at);
    }
  }

  lemma DocumentFound(x: Input)
    requires A.ReadDocument(x).Fail?
    ensures var r := A.ReadDocument(x); if r.error == TrailingContent then r.at < |x.text| else Found(x.text, r.error, r.at)
  {
    hide ReadValue, SkipSpaces, InEscape;
    if ReadValue(x, 0, 0, 0).Fail? {
      ValueFound(x, 0, 0, 0);
    }
  }

  // --- no text goes on so ---------------------------------------------------------------------------------

  /** A text the reader would stop in as well is none, limits aside. */
  lemma NoText(x: Input, d: A.Document)
    requires A.ReadDocument(x).Fail? && A.IsJson(d)
    requires var r := A.ReadDocument(x); JL.StopsToo(x.text, A.DocumentText(d), r.error, r.at)
    ensures var e := A.ReadDocument(x).error;
      && (e == DepthExceeded ==> Depth(d.value) > x.maxDepth)
      && (e == TokenLimit ==> Size(d.value) > x.capacity || Width(d.value) > x.children)
      && e in {DepthExceeded, TokenLimit}
  {
    hide A.ReadDocument, JL.StopsToo, A.DocumentText, A.IsJson, Narrow, Depth, Size, Width;
    var r := A.ReadDocument(x);
    var depth := if r.error == DepthExceeded then x.maxDepth else Max(x.maxDepth, Depth(d.value));
    var capacity := if r.error == TokenLimit then x.capacity else Max(x.capacity, Size(d.value));
    var children := if r.error == TokenLimit then x.children else Max(x.children, Width(d.value));
    var y := Input(A.DocumentText(d), depth, capacity, children);
    JL.DocumentSettled(x, y);
    if Depth(d.value) <= depth && Size(d.value) <= capacity && Width(d.value) <= children {
      WideEnough(d.value, children);
      A.DocumentComplete(y, d);
      assert false;
    }
  }

  /** Whatever stops the reader in s at at stops every text that is s up to there and c. */
  lemma StopsAt(s: string, e: Error, at: nat, c: char, t: string)
    requires at <= |s| && s[..at] + [c] <= t
    requires (at < |s| && c == s[at] && e !in {UnexpectedEnd, InvalidLiteral})
          || (c == 'q' && e in {UnexpectedCharacter, InvalidLiteral})
          || (c == ' ' && e in {InvalidNumber, InvalidEscape})
          || (c == 'a' && e == InvalidNumber)
    ensures JL.StopsToo(s, t, e, at)
  {
    PrefixAgrees(s[..at] + [c], t);
    assert forall i :: 0 <= i < at ==> s[i] == (s[..at] + [c])[i];
  }

  lemma PrefixAgrees(p: string, t: string)
    requires p <= t
    ensures |p| <= |t| && JL.Agree(p, t, |p|)
  {
  }

  lemma NotBegun(x: Input, c: char)
    requires A.ReadDocument(x).Fail?
    requires var r := A.ReadDocument(x);
      (r.at < |x.text| && c == x.text[r.at] && r.error !in {UnexpectedEnd, InvalidLiteral, DepthExceeded, TokenLimit})
      || (c == 'q' && r.error in {UnexpectedCharacter, InvalidLiteral})
      || (c == ' ' && r.error in {InvalidNumber, InvalidEscape})
      || (c == 'a' && r.error == InvalidNumber)
    ensures !Begins(x.text[..A.ReadDocument(x).at] + [c])
  {
    hide A.ReadDocument, JL.StopsToo, A.DocumentText, A.IsJson;
    var s, r := x.text, A.ReadDocument(x);
    var t := s[..r.at] + [c];
    forall d | A.IsJson(d) && t <= A.DocumentText(d) ensures false {
      StopsAt(s, r.error, r.at, c, A.DocumentText(d));
      NoText(x, d);
    }
  }

  /** The text itself is none, for no limits' sake. */
  lemma NotText(x: Input)
    requires A.ReadDocument(x).Fail? && A.ReadDocument(x).error !in {DepthExceeded, TokenLimit}
    ensures !IsText(x.text)
  {
    hide A.ReadDocument, A.DocumentText, A.IsJson;
    forall d | A.IsJson(d) && A.DocumentText(d) == x.text ensures false {
      NoText(x, d);
    }
  }

  /** Nor does it go on to one, when a literal is not its word or an escape's digits
      are none. */
  lemma NoMore(x: Input)
    requires A.ReadDocument(x).Fail?
    requires var r := A.ReadDocument(x);
      && r.at < |x.text|
      && ((r.error == InvalidLiteral && !(x.text[r.at..] <= WordOf(x.text[r.at])))
          || (r.error == UnexpectedEnd && !CutEscape(x.text, r.at)))
    ensures !Begins(x.text)
  {
    hide A.ReadDocument, A.DocumentText, A.IsJson;
    var s, r := x.text, A.ReadDocument(x);
    forall d | A.IsJson(d) && s <= A.DocumentText(d) ensures false {
      PrefixAgrees(s, A.DocumentText(d));
      NoText(x, d);
    }
  }

  // --- what each error means ----------------------------------------------------------------------------

  lemma SeenIs(w: string, at: nat)
    requires at < |w|
    ensures w[..at] + [w[at]] == w[..at + 1] && w[..at] + w[at..] == w && w[..at] + "" == w[..at]
  {
  }

  lemma CharacterMeans(x: Input)
    requires A.ReadDocument(x).Fail? && A.ReadDocument(x).error == UnexpectedCharacter
    ensures var r := A.ReadDocument(x); Means(x.text, r.error, r.at, x.maxDepth, x.capacity)
  {
    hide A.ReadDocument, A.DocumentText, A.IsJson, Begins, CutEscape, InEscape, IsText;
    var w, at := x.text, A.ReadDocument(x).at;
    DocumentFound(x);
    SeenIs(w, at);
    ReadBegins(x, "");
    ReadBegins(x, " ");
    NotBegun(x, w[at]);
    NotBegun(x, 'q');
    CutIsNone(x);
  }

  /** What comes before an unexpected character is no whole text. */
  lemma CutIsNone(x: Input)
    requires A.ReadDocument(x).Fail? && A.ReadDocument(x).error == UnexpectedCharacter
    ensures !IsText(x.text[..A.ReadDocument(x).at])
  {
    hide A.ReadDocument, A.DocumentText, A.IsJson;
    var w, at := x.text, A.ReadDocument(x).at;
    forall d | A.IsJson(d) && A.DocumentText(d) == w[..at] ensures false {
      NoText(x, d);
    }
  }

  lemma StringMeans(x: Input)
    requires A.ReadDocument(x).Fail? && A.ReadDocument(x).error in {InvalidString, InvalidEscape}
    ensures var r := A.ReadDocument(x); Means(x.text, r.error, r.at, x.maxDepth, x.capacity)
  {
    hide A.ReadDocument, A.DocumentText, A.IsJson, Begins, CutEscape, InEscape, IsText;
    var w, r := x.text, A.ReadDocument(x);
    DocumentFound(x);
    SeenIs(w, r.at);
    ReadBegins(x, "");
    NotBegun(x, w[r.at]);
    if r.error == InvalidString {
      ReadBegins(x, "q");
    } else {
      NotBegun(x, ' ');
    }
  }

  lemma NumberMeans(x: Input)
    requires A.ReadDocument(x).Fail? && A.ReadDocument(x).error == InvalidNumber
    ensures var r := A.ReadDocument(x); Means(x.text, r.error, r.at, x.maxDepth, x.capacity)
  {
    hide A.ReadDocument, A.DocumentText, A.IsJson, Begins, CutEscape, InEscape, IsText;
    var w, at := x.text, A.ReadDocument(x).at;
    DocumentFound(x);
    ReadBegins(x, "");
    assert w[..at] + "" == w[..at];
    ReadBegins(x, "0");
    NotBegun(x, ' ');
    NotBegun(x, 'a');
    if at < |w| {
      SeenIs(w, at);
      NotBegun(x, w[at]);
    }
  }

  lemma LiteralMeans(x: Input)
    requires A.ReadDocument(x).Fail? && A.ReadDocument(x).error == InvalidLiteral
    ensures var r := A.ReadDocument(x); Means(x.text, r.error, r.at, x.maxDepth, x.capacity)
  {
    hide A.ReadDocument, A.DocumentText, A.IsJson, Begins, CutEscape, InEscape, IsText;
    var w, at := x.text, A.ReadDocument(x).at;
    DocumentFound(x);
    SeenIs(w, at);
    ReadBegins(x, "");
    ReadBegins(x, "null");
    NotBegun(x, 'q');
    if w[at..] <= WordOf(w[at]) {
      ReadBegins(x, w[at..]);
    } else {
      NoMore(x);
    }
  }

  lemma EndMeans(x: Input)
    requires A.ReadDocument(x).Fail? && A.ReadDocument(x).error == UnexpectedEnd
    ensures var r := A.ReadDocument(x); Means(x.text, r.error, r.at, x.maxDepth, x.capacity)
  {
    hide A.ReadDocument, A.DocumentText, A.IsJson, Begins, CutEscape, InEscape, IsText;
    var w, at := x.text, A.ReadDocument(x).at;
    DocumentFound(x);
    NotText(x);
    ReadBegins(x, "");
    assert w[..at] + "" == w[..at];
    if at == |w| {
      assert w[..at] == w;
      if w == "" || w[|w| - 1] != '-' {
        ReadBegins(x, " ");
      }
    } else {
      SeenIs(w, at);
      ReadBegins(x, "q");
      if CutEscape(w, at) {
        ReadBegins(x, w[at..]);
      } else {
        NoMore(x);
      }
    }
  }

  lemma TrailingMeans(x: Input)
    requires A.ReadDocument(x).Fail? && A.ReadDocument(x).error == TrailingContent && x.children == MAX_CHILDREN
    ensures var r := A.ReadDocument(x); Means(x.text, r.error, r.at, x.maxDepth, x.capacity)
  {
    hide A.ReadDocument, A.DocumentText, A.IsJson, Begins, CutEscape, InEscape, IsText, A.WithinLimits;
    var w, at := x.text, A.ReadDocument(x).at;
    DocumentFound(x);
    SeenIs(w, at);
    ReadBegins(x, "");
    NotBegun(x, w[at]);
    var d := WholeBefore(x);
  }

  /** What comes before trailing content is a whole text. */
  lemma WholeBefore(x: Input) returns (d: A.Document)
    requires A.ReadDocument(x).Fail? && A.ReadDocument(x).error == TrailingContent
    ensures A.IsJson(d) && A.DocumentText(d) == x.text[..A.ReadDocument(x).at]
    ensures A.WithinLimits(d, x.maxDepth, x.capacity, x.children)
  {
    hide ReadValue, SkipSpaces, Narrow, Depth, Size;
    var s, at := x.text, A.ReadDocument(x).at;
    NoTrailing(x);
    var v := ReadValue(x, 0, 0, 0);
    var y := Input(s[..at], x.maxDepth, x.capacity, x.children);
    JL.ValueAlike(x, y, 0, 0, 0);
    JL.SpacesAlike(s, s[..at], v.pos);
    A.DocumentSound(y);
    d := A.ReadDocument(y).value;
  }

  /** A value that cannot be read is not trailing content. */
  lemma NoTrailing(x: Input)
    ensures ReadValue(x, 0, 0, 0).Fail? ==> ReadValue(x, 0, 0, 0).error != TrailingContent
  {
    hide ReadValue, InEscape;
    if ReadValue(x, 0, 0, 0).Fail? {
      ValueFound(x, 0, 0, 0);
    }
  }

  lemma LimitMeans(x: Input)
    requires A.ReadDocument(x).Fail? && A.ReadDocument(x).error in {DepthExceeded, TokenLimit} && x.children == MAX_CHILDREN
    ensures var r := A.ReadDocument(x); Means(x.text, r.error, r.at, x.maxDepth, x.capacity)
  {
    hide A.ReadDocument, A.DocumentText, A.IsJson, Begins, CutEscape, InEscape, IsText, Depth, Size, Width;
    var w, r := x.text, A.ReadDocument(x);
    DocumentFound(x);
    ReadBegins(x, "");
    assert w[..r.at] + "" == w[..r.at];
    forall d | A.IsJson(d) && Seen(w, r.at) <= A.DocumentText(d)
      ensures r.error == DepthExceeded ==> Depth(d.value) > x.maxDepth
      ensures r.error == TokenLimit ==> Size(d.value) > x.capacity || Width(d.value) > MAX_CHILDREN
    {
      LimitStops(w, r.error, r.at, A.DocumentText(d));
      NoText(x, d);
    }
  }

  lemma LimitStops(w: string, e: Error, at: nat, t: string)
    requires at <= |w| && e in {DepthExceeded, TokenLimit} && (e == DepthExceeded ==> at < |w|)
    requires Seen(w, at) <= t
    ensures JL.StopsToo(w, t, e, at)
  {
    PrefixAgrees(Seen(w, at), t);
  }

  /** Every error of the reader, at the place it gives, is what it is called. */
  lemma ErrorMeans(x: Input)
    requires A.ReadDocument(x).Fail? && x.children == MAX_CHILDREN
    ensures var r := A.ReadDocument(x); Means(x.text, r.error, r.at, x.maxDepth, x.capacity)
  {
    hide A.ReadDocument, Means, Found;
    DocumentFound(x);
    ErrorIs(x);
    match A.ReadDocument(x).error {
      case UnexpectedCharacter => CharacterMeans(x);
      case InvalidString => StringMeans(x);
      case InvalidEscape => StringMeans(x);
      case InvalidNumber => NumberMeans(x);
      case InvalidLiteral => LiteralMeans(x);
      case UnexpectedEnd => EndMeans(x);
      case TrailingContent => TrailingMeans(x);
      case _ => LimitMeans(x);
    }
  }

  lemma ErrorIs(x: Input)
    requires A.ReadDocument(x).Fail?
    ensures A.ReadDocument(x).error !in {NoError, InputTooLarge}
  {
    hide A.ReadDocument, InEscape;
    DocumentFound(x);
  }

  /** With no room for a single token every text has too many. */
  lemma NoRoomMeans(w: string, maxDepth: int)
    ensures Means(w, TokenLimit, 0, maxDepth, 0)
  {
    var d := A.Document("", Nul, "");
    assert A.IsJson(d) && w[..0] <= A.DocumentText(d);
    forall d | A.IsJson(d) ensures Size(d.value) > 0 {
    }
  }
}
