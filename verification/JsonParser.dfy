/**
 The recursive-descent tokeniser of firmware/src/json/Json.cpp: a cursor, a
 token buffer filled in preorder, and an error. Each routine does to this state
 what the reader's function of the same name says, and leaves in the buffer the
 flattened tree of what it read.
 */
module JsonParser {
  import opened JsonGrammar
  import opened Numerals
  import opened JsonReader
  import opened JsonSoundness
  import opened JsonTrees

  class Parser {
    const text: string
    const tokens: array<Token>
    const maxDepth: int
    var count: nat
    var pos: nat
    var error: Error

    constructor (text: string, tokens: array<Token>, maxDepth: int)
      ensures this.text == text && this.tokens == tokens && this.maxDepth == maxDepth
      ensures Valid() && pos == 0 && count == 0
    {
      this.text, this.tokens, this.maxDepth := text, tokens, maxDepth;
      count, pos, error := 0, 0, NoError;
    }

    ghost predicate Valid()
      reads this
    {
      pos <= |text| && count <= tokens.Length
    }

    function Given(): Input {
      Input(text, maxDepth, tokens.Length)
    }

    /** The tokens made so far. */
    ghost function Made(): (ts: seq<Token>)
      requires Valid()
      reads this, tokens
      ensures |ts| == count
    {
      tokens[..count]
    }

    method SkipWhitespace()
      requires Valid()
      modifies this`pos
      ensures Valid() && pos == SkipSpaces(text, old(pos))
    {
      while pos < |text| && IsSpace(text[pos])
        invariant Valid() && SkipSpaces(text, pos) == SkipSpaces(text, old(pos))
      {
        pos := pos + 1;
      }
    }

    method PassDigits()
      requires Valid()
      modifies this`pos
      ensures Valid() && pos == SkipDigits(text, old(pos))
    {
      while pos < |text| && IsDigit(text[pos])
        invariant Valid() && SkipDigits(text, pos) == SkipDigits(text, old(pos))
      {
        pos := pos + 1;
      }
    }

    /** -1 when the buffer is full. */
    method Allocate(kind: TokenType, start: nat) returns (index: int)
      requires Valid()
      modifies this`count, this`error, tokens
      ensures Valid()
      ensures old(count) >= tokens.Length ==>
        index == -1 && error == TokenLimit && Made() == old(Made())
      ensures old(count) < tokens.Length ==>
        index == old(count) && Made() == old(Made()) + [Token(kind, 0, start, start)]
    {
      if count >= tokens.Length {
        error := TokenLimit;
        return -1;
      }
      tokens[count] := Token(kind, 0, start, start);
      index := count;
      count := count + 1;
      assert tokens[..count - 1] == old(tokens[..count]);
    }

    method AddChild(parent: nat) returns (ok: bool)
      requires Valid() && parent < count
      modifies this`error, tokens
      ensures Valid() && ok == (old(Made())[parent].childCount != MAX_CHILDREN)
      ensures ok ==> Made() == Bumped(old(Made()), parent) && error == old(error)
      ensures !ok ==> error == TokenLimit
    {
      if tokens[parent].childCount == MAX_CHILDREN {
        error := TokenLimit;
        return false;
      }
      tokens[parent] := tokens[parent].(childCount := tokens[parent].childCount + 1);
      ok := true;
    }

    method Close(index: nat, end: nat)
      requires Valid() && index < count
      modifies tokens
      ensures Made() == Closed(old(Made()), index, end)
    {
      tokens[index] := tokens[index].(end := end);
    }

    /** The key owns its value: one child. */
    method Own(key: nat)
      requires Valid() && key < count
      modifies tokens
      ensures Made() == Owning(old(Made()), key)
    {
      tokens[key] := tokens[key].(childCount := 1);
    }

    // --- scalars -------------------------------------------------------------------------

    /** The digits of a four-digit escape; stops at the first that is none. */
    method CheckHex(from: nat, to: nat) returns (ok: bool)
      requires Valid() && from <= to <= |text|
      modifies this`pos, this`error
      ensures Valid() && ok == (FirstNonHex(text, from, to) == to)
      ensures ok ==> pos == old(pos)
      ensures !ok ==> pos == FirstNonHex(text, from, to) && error == InvalidEscape
    {
      var digit := from;
      while digit < to
        invariant from <= digit <= to
        invariant FirstNonHex(text, digit, to) == FirstNonHex(text, from, to)
      {
        if !IsHex(text[digit]) {
          pos, error := digit, InvalidEscape;
          return false;
        }
        digit := digit + 1;
      }
      return true;
    }

    /** The escape at i; next is what follows it. */
    method PassEscape(i: nat) returns (ok: bool, next: nat)
      requires Valid() && i < |text| && text[i] == '\\'
      modifies this`pos, this`error
      ensures Valid()
      ensures ok ==> i < next <= |text| && pos == old(pos) && ScanString(text, i) == ScanString(text, next)
      ensures !ok ==> ScanString(text, i) == Bad(error, pos)
    {
      hide FirstNonHex;
      next := i;
      if i + 1 >= |text| {
        pos, error := i, UnexpectedEnd;
        return false, next;
      }
      var escape := text[i + 1];
      if IsSimpleEscape(escape) {
        return true, i + 2;
      } else if escape == 'u' {
        if i + 5 >= |text| {
          pos, error := i, UnexpectedEnd;
          return false, next;
        }
        ok := CheckHex(i + 2, i + 6);
        if ok {
          next := i + 6;
        }
      } else {
        pos, error := i + 1, InvalidEscape;
        ok := false;
      }
    }

    /** The closing quote is at end. */
    method CloseString(start: nat, end: nat) returns (ok: bool, index: int)
      requires Valid() && start <= end < |text|
      modifies this, tokens
      ensures Valid() && ok == (old(count) < tokens.Length)
      ensures ok ==> index == old(count) && pos == end + 1 && Made() == old(Made()) + [Token(String, 0, start, end)]
      ensures !ok ==> error == TokenLimit && pos == old(pos)
    {
      index := Allocate(String, start);
      if index < 0 {
        return false, index;
      }
      Close(index, end);
      pos := end + 1;
      ok := true;
    }

    /** The token's range leaves out the quotes. index is where the token is. */
    method ParseString() returns (ok: bool, index: int)
      requires Valid() && pos < |text| && text[pos] == '"'
      modifies this, tokens
      ensures Valid()
      ensures var r := ReadString(Given(), old(pos), old(count));
        if r.Fail? then !ok && error == r.error && pos == r.at
        else ok && pos == r.pos && count == r.count && index == old(count)
             && Made() == old(Made()) + [Token(String, 0, old(pos) + 1, old(pos) + 1 + |r.value|)]
    {
      hide ScanString;
      var contentStart := pos + 1;
      var i := contentStart;
      index := -1;
      while i < |text|
        invariant contentStart <= i <= |text|
        invariant pos == old(pos) && count == old(count) && Made() == old(Made())
        invariant ScanString(text, i) == ScanString(text, contentStart)
      {
        var c := text[i];
        ScanStep(text, i);
        if c == '"' {
          ok, index := CloseString(contentStart, i);
          return;
        }
        if c == '\\' {
          var escaped;
          escaped, i := PassEscape(i);
          if !escaped {
            return false, index;
          }
          continue;
        }
        if c < ' ' {
          pos, error := i, InvalidString;
          return false, index;
        }
        i := i + 1;
      }
      ScanStep(text, i);
      pos, error := i, UnexpectedEnd;
      return false, index;
    }

    method ParseNumber() returns (ok: bool)
      requires Valid() && pos < |text|
      modifies this, tokens
      ensures Valid()
      ensures var r := ReadNumber(Given(), old(pos), old(count));
        if r.Fail? then !ok && error == r.error && pos == r.at
        else ok && pos == r.pos && count == r.count
             && Made() == old(Made()) + [Token(TokenType.Number, 0, old(pos), pos)]
    {
      hide ScanWhole, ScanFraction, ScanExponent;
      var start := pos;
      if pos < |text| && text[pos] == '-' {
        pos := pos + 1;
      }
      ok := ParseWhole();
      if !ok {
        return;
      }
      ok := ParseFraction();
      if !ok {
        return;
      }
      ok := ParseExponent();
      if !ok {
        return;
      }
      var index := Allocate(TokenType.Number, start);
      if index < 0 {
        return false;
      }
      Close(index, pos);
      return true;
    }

    /** The integer part of parseNumber: a single zero, or a run of digits. */
    method ParseWhole() returns (ok: bool)
      requires Valid()
      modifies this`pos, this`error
      ensures Valid()
      ensures match ScanWhole(text, old(pos))
              case Upto(p) => ok && pos == p && error == old(error)
              case Bad(e, p) => !ok && error == e && pos == p
    {
      if pos >= |text| {
        error := UnexpectedEnd;
        return false;
      }
      if text[pos] == '0' {
        pos := pos + 1;
      } else if IsDigit(text[pos]) {
        PassDigits();
      } else {
        error := InvalidNumber;
        return false;
      }
      return true;
    }

    method ParseFraction() returns (ok: bool)
      requires Valid()
      modifies this`pos, this`error
      ensures Valid()
      ensures match ScanFraction(text, old(pos))
              case Upto(p) => ok && pos == p && error == old(error)
              case Bad(e, p) => !ok && error == e && pos == p
    {
      if pos < |text| && text[pos] == '.' {
        pos := pos + 1;
        if pos >= |text| || !IsDigit(text[pos]) {
          error := InvalidNumber;
          return false;
        }
        PassDigits();
      }
      return true;
    }

    method ParseExponent() returns (ok: bool)
      requires Valid()
      modifies this`pos, this`error
      ensures Valid()
      ensures match ScanExponent(text, old(pos))
              case Upto(p) => ok && pos == p && error == old(error)
              case Bad(e, p) => !ok && error == e && pos == p
    {
      if pos < |text| && (text[pos] == 'e' || text[pos] == 'E') {
        pos := pos + 1;
        if pos < |text| && (text[pos] == '+' || text[pos] == '-') {
          pos := pos + 1;
        }
        if pos >= |text| || !IsDigit(text[pos]) {
          error := InvalidNumber;
          return false;
        }
        PassDigits();
      }
      return true;
    }

    method ParseLiteral(word: string, kind: TokenType) returns (ok: bool)
      requires Valid() && pos < |text| && word != ""
      modifies this, tokens
      ensures Valid()
      ensures var r := ReadLiteral(Given(), old(pos), old(count), word);
        if r.Fail? then !ok && error == r.error && pos == r.at
        else ok && pos == r.pos && count == r.count
             && Made() == old(Made()) + [Token(kind, 0, old(pos), pos)]
    {
      if |text| - pos < |word| || text[pos..pos + |word|] != word {
        error := InvalidLiteral;
        return false;
      }
      var index := Allocate(kind, pos);
      if index < 0 {
        return false;
      }
      pos := pos + |word|;
      Close(index, pos);
      return true;
    }

    /** What follows an element or a member: a comma, or the end of its parent. */
    method SeesSeparator(close: char) returns (ok: bool)
      requires Valid()
      modifies this`pos, this`error
      ensures Valid() && pos == SkipSpaces(text, old(pos))
      ensures ok <==> pos < |text| && text[pos] in [',', close]
      ensures !ok ==> error == if pos >= |text| then UnexpectedEnd else UnexpectedCharacter
    {
      SkipWhitespace();
      if pos >= |text| {
        error := UnexpectedEnd;
        return false;
      }
      if text[pos] != ',' && text[pos] != close {
        error := UnexpectedCharacter;
        return false;
      }
      return true;
    }

    // --- values ----------------------------------------------------------------------------

    method ParseValue(depth: nat) returns (ok: bool)
      requires Valid()
      modifies this, tokens
      ensures Valid()
      ensures var r := ReadValue(Given(), old(pos), depth, old(count));
        if r.Fail? then !ok && error == r.error && pos == r.at
        else ok && pos == r.pos && count == r.count
             && Made() == old(Made()) + Flatten(TreeOf(r.value.value, old(pos) + |r.value.before|))
      decreases |text| - pos, 2
    {
      ghost var from := pos;
      SkipWhitespace();
      if pos >= |text| {
        error := UnexpectedEnd;
        return false;
      }
      ok := ParseBare(depth);
    }

    /** The switch of parseValue, at a character that is no white space. */
    method ParseBare(depth: nat) returns (ok: bool)
      requires Valid() && pos < |text|
      modifies this, tokens
      ensures Valid()
      ensures var r := ReadBare(Given(), old(pos), depth, old(count));
        if r.Fail? then !ok && error == r.error && pos == r.at
        else ok && pos == r.pos && count == r.count
             && Made() == old(Made()) + Flatten(TreeOf(r.value, old(pos)))
      decreases |text| - pos, 1
    {
      hide ReadString, ReadNumber, ReadLiteral, ReadObject, ReadArray, WellFormed, Narrow, Size, Depth;
      var c := text[pos];
      if c == '{' {
        ok := ParseObject(depth);
      } else if c == '[' {
        ok := ParseArray(depth);
      } else {
        ghost var r := ReadBare(Given(), pos, depth, count);
        if r.Ok? {
          ScalarSound(Given(), pos, depth, count);
          ScalarTokens(r.value, pos);
        }
        if c == '"' {
          var ignored;
          ok, ignored := ParseString();
        } else if c == 't' {
          ok := ParseLiteral("true", Boolean);
        } else if c == 'f' {
          ok := ParseLiteral("false", Boolean);
        } else if c == 'n' {
          ok := ParseLiteral("null", Null);
        } else if c == '-' || IsDigit(c) {
          ok := ParseNumber();
        } else {
          error := UnexpectedCharacter;
          ok := false;
        }
      }
    }

    method ParseArray(depth: nat) returns (ok: bool)
      requires Valid() && pos < |text| && text[pos] == '['
      modifies this, tokens
      ensures Valid()
      ensures var r := ReadArray(Given(), old(pos), depth, old(count));
        if r.Fail? then !ok && error == r.error && pos == r.at
        else ok && pos == r.pos && count == r.count
             && Made() == old(Made()) + Flatten(TreeOf(r.value, old(pos)))
      decreases |text| - pos, 0
    {
      hide ReadElements, Flatten, Growing, Closed, TreeOf, Text, ElementTrees, SkipSpaces;
      if depth >= maxDepth {
        error := DepthExceeded;
        return false;
      }
      ghost var x, base, at, first := Given(), Made(), pos, count;
      var self := Allocate(Array, pos);
      if self < 0 {
        return false;
      }
      pos := pos + 1;
      SkipWhitespace();
      NoKids(base, Token(Array, 0, at, at));
      if pos < |text| && text[pos] == ']' {
        pos := pos + 1;
        Close(self, pos);
        ArrayClosed(x, at, depth, first, base);
        return true;
      }
      ok := ParseElements(depth, self, base, at);
      if ok {
        ArrayClosed(x, at, depth, first, base);
      }
    }

    /** The loop of parseArray, entered past the white space after the bracket. */
    method ParseElements(depth: nat, self: nat, ghost base: seq<Token>, ghost at: nat) returns (ok: bool)
      requires Valid() && self < count && self == |base| && depth < maxDepth
      requires at < pos <= SkipSpaces(text, at + 1)
      requires Made() == Growing(base, Token(Array, 0, at, at), [])
      modifies this, tokens
      ensures Valid()
      ensures var r := ReadElements(Given(), at + 1, depth, old(count), []);
        if r.Fail? then !ok && error == r.error && pos == r.at
        else ok && pos == r.pos && count == r.count
             && Made() == Closed(Growing(base, Token(Array, |r.value|, at, at), ElementTrees(r.value, at + 1)), self, pos)
      decreases |text| - pos, 4
    {
      hide ReadElement, ReadElements, Flatten, Growing, Closed, TreeOf, ElementTrees, ElementsEnd, Bumped, SkipSpaces;
      ghost var x, acc, from := Given(), [], at + 1;
      NoElements(from);
      while true
        invariant Valid() && at < from <= pos <= SkipSpaces(text, from) && old(pos) <= pos
        invariant count > self
        invariant Made() == Growing(base, Token(Array, |acc|, at, at), ElementTrees(acc, at + 1))
        invariant from == ElementsEnd(acc, at + 1)
        invariant ReadElements(x, at + 1, depth, old(count), []) == ReadElements(x, from, depth, count, acc)
        decreases |text| - from
      {
        ghost var r := ReadElement(x, from, depth, count, |acc|);
        ElementsGoOn(x, from, depth, count, acc);
        ElementGrown(x, base, at, acc, from, depth, count);
        ok := ParseElement(depth, self, from);
        if !ok {
          return;
        }
        acc := acc + [r.value];
        if text[pos] == ',' {
          pos := pos + 1;
          from := pos;
        } else {
          pos := pos + 1;
          Close(self, pos);
          return true;
        }
      }
    }

    /** One turn of the loop of parseArray, up to its look at what follows. */
    method ParseElement(depth: nat, self: nat, ghost from: nat) returns (ok: bool)
      requires Valid() && self < count && from <= pos <= SkipSpaces(text, from)
      modifies this, tokens
      ensures Valid()
      ensures var r := ReadElement(Given(), from, depth, old(count), old(Made())[self].childCount);
        if r.Fail? then !ok && error == r.error && pos == r.at
        else ok && pos == r.pos && count == r.count
             && Made() == Bumped(old(Made()), self) + Flatten(TreeOf(r.value.value, from + |r.value.before|))
      ensures ok ==> pos > old(pos)
      decreases |text| - pos, 3
    {
      hide Flatten, TreeOf, ReadValue, SkipSpaces, Bumped;
      SpacesSkipped(Given(), from, pos, depth + 1, count);
      ghost var v := ReadValue(Given(), from, depth + 1, count);
      ghost var tree := if v.Ok? then Flatten(TreeOf(v.value.value, from + |v.value.before|)) else [];
      BumpedBefore(Made(), tree, self);
      ok := ParseValue(depth + 1);
      if !ok {
        return;
      }
      ok := AddChild(self);
      if !ok {
        return;
      }
      ok := SeesSeparator(']');
    }

    method ParseObject(depth: nat) returns (ok: bool)
      requires Valid() && pos < |text| && text[pos] == '{'
      modifies this, tokens
      ensures Valid()
      ensures var r := ReadObject(Given(), old(pos), depth, old(count));
        if r.Fail? then !ok && error == r.error && pos == r.at
        else ok && pos == r.pos && count == r.count
             && Made() == old(Made()) + Flatten(TreeOf(r.value, old(pos)))
      decreases |text| - pos, 0
    {
      hide ReadMembers, Flatten, Growing, Closed, TreeOf, Text, MemberTrees, SkipSpaces;
      if depth >= maxDepth {
        error := DepthExceeded;
        return false;
      }
      ghost var x, base, at, first := Given(), Made(), pos, count;
      var self := Allocate(Object, pos);
      if self < 0 {
        return false;
      }
      pos := pos + 1;
      SkipWhitespace();
      NoKids(base, Token(Object, 0, at, at));
      if pos < |text| && text[pos] == '}' {
        pos := pos + 1;
        Close(self, pos);
        ObjectClosed(x, at, depth, first, base);
        return true;
      }
      ok := ParseMembers(depth, self, base, at);
      if ok {
        ObjectClosed(x, at, depth, first, base);
      }
    }

    /** The loop of parseObject, entered past the white space after the bracket. */
    method ParseMembers(depth: nat, self: nat, ghost base: seq<Token>, ghost at: nat) returns (ok: bool)
      requires Valid() && self < count && self == |base| && depth < maxDepth
      requires at < pos <= SkipSpaces(text, at + 1)
      requires Made() == Growing(base, Token(Object, 0, at, at), [])
      modifies this, tokens
      ensures Valid()
      ensures var r := ReadMembers(Given(), at + 1, depth, old(count), []);
        if r.Fail? then !ok && error == r.error && pos == r.at
        else ok && pos == r.pos && count == r.count
             && Made() == Closed(Growing(base, Token(Object, |r.value|, at, at), MemberTrees(r.value, at + 1)), self, pos)
      decreases |text| - pos, 5
    {
      hide ReadMember, ReadMembers, Flatten, Growing, Closed, MemberTree, MemberTrees, MembersEnd, Bumped, SkipSpaces;
      ghost var x, acc, from := Given(), [], at + 1;
      NoMembers(from);
      while true
        invariant Valid() && at < from <= pos <= SkipSpaces(text, from) && old(pos) <= pos
        invariant count > self
        invariant Made() == Growing(base, Token(Object, |acc|, at, at), MemberTrees(acc, at + 1))
        invariant from == MembersEnd(acc, at + 1)
        invariant ReadMembers(x, at + 1, depth, old(count), []) == ReadMembers(x, from, depth, count, acc)
        decreases |text| - from
      {
        ghost var r := ReadMember(x, from, depth, count, |acc|);
        MembersGoOn(x, from, depth, count, acc);
        MemberGrown(x, base, at, acc, from, depth, count);
        ok := ParseMember(depth, self, from);
        if !ok {
          return;
        }
        acc := acc + [r.value];
        if text[pos] == ',' {
          pos := pos + 1;
          from := pos;
        } else {
          pos := pos + 1;
          Close(self, pos);
          return true;
        }
      }
    }

    /** A key, a colon and the white space around them. key is the key's token. */
    method ParseLabel(ghost from: nat) returns (ok: bool, key: int)
      requires Valid() && from <= pos <= SkipSpaces(text, from)
      modifies this, tokens
      ensures Valid()
      ensures var r := ReadLabel(Given(), from, old(count));
        if r.Fail? then !ok && error == r.error && pos == r.at
        else ok && pos == r.pos && count == r.count && key == old(count)
             && var start := from + |r.value.beforeKey| + 1;
                Made() == old(Made()) + [Token(String, 0, start, start + |r.value.key|)]
      ensures ok ==> pos > old(pos)
    {
      hide ReadString, SkipSpaces;
      SpacesMeet(text, from, pos);
      key := -1;
      SkipWhitespace();
      if pos >= |text| {
        error := UnexpectedEnd;
        return false, key;
      }
      if text[pos] != '"' {
        error := UnexpectedCharacter;
        return false, key;
      }
      ok, key := ParseString();
      if !ok {
        return;
      }
      SkipWhitespace();
      if pos >= |text| {
        error := UnexpectedEnd;
        return false, key;
      }
      if text[pos] != ':' {
        error := UnexpectedCharacter;
        return false, key;
      }
      pos := pos + 1;
    }

    /** A key and its value, which the key then owns. */
    method ParsePair(depth: nat, ghost from: nat) returns (ok: bool)
      requires Valid() && from <= pos <= SkipSpaces(text, from)
      modifies this, tokens
      ensures Valid()
      ensures var l := ReadLabel(Given(), from, old(count));
        if l.Fail? then !ok && error == l.error && pos == l.at
        else
          var v := ReadValue(Given(), l.pos, depth, l.count);
          if v.Fail? then !ok && error == v.error && pos == v.at
          else ok && pos == v.pos && count == v.count
               && Made() == old(Made()) + Flatten(MemberTree(PairOf(l.value, v.value), from))
      ensures ok ==> pos > old(pos)
      decreases |text| - pos, 3
    {
      hide Flatten, TreeOf, MemberTree, ReadLabel, ReadValue, SkipSpaces, Owning;
      ghost var base, first := Made(), count;
      var key;
      ok, key := ParseLabel(from);
      if !ok {
        return;
      }
      if ReadValue(Given(), pos, depth, count).Ok? {
        PairMade(Given(), from, depth, first, base);
      }
      ok := ParseValue(depth);
      if ok {
        Own(key);
      }
    }

    /** One turn of the loop of parseObject, up to its look at what follows. */
    method ParseMember(depth: nat, self: nat, ghost from: nat) returns (ok: bool)
      requires Valid() && self < count && from <= pos <= SkipSpaces(text, from)
      modifies this, tokens
      ensures Valid()
      ensures var r := ReadMember(Given(), from, depth, old(count), old(Made())[self].childCount);
        if r.Fail? then !ok && error == r.error && pos == r.at
        else ok && pos == r.pos && count == r.count
             && Made() == Bumped(old(Made()), self) + Flatten(MemberTree(r.value, from))
      ensures ok ==> pos > old(pos)
      decreases |text| - pos, 4
    {
      hide Flatten, TreeOf, MemberTree, ReadLabel, ReadValue, SkipSpaces, Bumped;
      ghost var base, r := Made(), ReadMember(Given(), from, depth, count, Made()[self].childCount);
      ok := ParsePair(depth + 1, from);
      if !ok {
        return;
      }
      ghost var pair := Made()[|base|..];
      assert Made() == base + pair;
      BumpedBefore(base, pair, self);
      ok := AddChild(self);
      if !ok {
        return;
      }
      ok := SeesSeparator('}');
      if ok {
        AfterPlaysNoPart(r.value.(after := ""), r.value.after, from);
      }
    }
  }

  lemma ScanStep(s: string, i: nat)
    requires i <= |s|
    ensures i == |s| ==> ScanString(s, i) == Bad(UnexpectedEnd, i)
    ensures i < |s| && s[i] == '"' ==> ScanString(s, i) == Upto(i)
    ensures i < |s| && s[i] !in ['"', '\\'] ==> ScanString(s, i) == if s[i] < ' ' then Bad(InvalidString, i) else ScanString(s, i + 1)
  {
  }

  lemma {:induction false} SpacesMeet(s: string, from: nat, pos: nat)
    requires from <= pos <= |s| && pos <= SkipSpaces(s, from)
    ensures SkipSpaces(s, pos) == SkipSpaces(s, from)
    decreases pos - from
  {
    if from < pos {
      SpacesMeet(s, from + 1, pos);
    }
  }

  /** Reading may begin anywhere in the white space before a value. */
  lemma SpacesSkipped(x: Input, from: nat, pos: nat, depth: nat, count: nat)
    requires from <= pos <= |x.text| && pos <= SkipSpaces(x.text, from)
    ensures var r, r' := ReadValue(x, from, depth, count), ReadValue(x, pos, depth, count);
      if r.Fail? then r' == r
      else r'.Ok? && r'.pos == r.pos && r'.count == r.count && r'.value.value == r.value.value
           && pos + |r'.value.before| == from + |r.value.before|
  {
    SpacesMeet(x.text, from, pos);
  }

  lemma NoElements(at: nat)
    ensures ElementTrees([], at) == [] && ElementsEnd([], at) == at
  {
  }

  lemma NoMembers(at: nat)
    ensures MemberTrees([], at) == [] && MembersEnd([], at) == at
  {
  }

  lemma ElementsGoOn(x: Input, from: nat, depth: nat, count: nat, acc: seq<Element>)
    requires from <= |x.text|
    ensures ReadElements(x, from, depth, count, acc) ==
      match ReadElement(x, from, depth, count, |acc|)
      case Fail(error, where) => Fail(error, where)
      case Ok(one, p, n) =>
        if x.text[p] == ',' then ReadElements(x, p + 1, depth, n, acc + [one]) else Ok(acc + [one], p + 1, n)
  {
    hide ReadElement;
  }

  /** One more element: the buffer and the place after it. */
  lemma ElementGrown(x: Input, base: seq<Token>, at: nat, acc: seq<Element>, from: nat, depth: nat, count: nat)
    requires from <= |x.text| && from == ElementsEnd(acc, at + 1)
    ensures Growing(base, Token(Array, |acc|, at, at), ElementTrees(acc, at + 1))[|base|].childCount == |acc|
    ensures var r := ReadElement(x, from, depth, count, |acc|); r.Ok? ==>
      var now := acc + [r.value];
      && Bumped(Growing(base, Token(Array, |acc|, at, at), ElementTrees(acc, at + 1)), |base|) + Flatten(TreeOf(r.value.value, from + |r.value.before|))
         == Growing(base, Token(Array, |now|, at, at), ElementTrees(now, at + 1))
      && ElementsEnd(now, at + 1) == r.pos + 1
  {
    hide ReadElement, Flatten, FlattenAll, Growing, WellFormed, Narrow, Depth, Size, ElementText, TreeOf, MemberTree, ElementTrees, Bumped, At, Spaces, StringBody;
    GrowingParent(base, Token(Array, |acc|, at, at), ElementTrees(acc, at + 1));
    var r := ReadElement(x, from, depth, count, |acc|);
    if r.Ok? {
      ElementSound(x, from, depth, count, |acc|);
      ElementsSnoc(acc, r.value, at + 1);
      Grow(base, Token(Array, |acc|, at, at), ElementTrees(acc, at + 1), TreeOf(r.value.value, from + |r.value.before|));
    }
  }

  /** The tokens of an array are its tree's once its end is set. */
  lemma ArrayClosed(x: Input, at: nat, depth: nat, count: nat, base: seq<Token>)
    requires at < |x.text| && x.text[at] == '[' && ReadArray(x, at, depth, count).Ok?
    ensures ReadArray(x, at, depth, count).value.Arr? && ElementTrees([], at + 1) == []
    ensures var r := ReadArray(x, at, depth, count);
      Closed(Growing(base, Token(Array, |r.value.elements|, at, at), ElementTrees(r.value.elements, at + 1)), |base|, r.pos)
      == base + Flatten(TreeOf(r.value, at))
  {
    hide ReadElements, Flatten, Growing, Closed, WellFormed, Narrow, Depth, Size, At;
    var r := ReadArray(x, at, depth, count);
    ArraySound(x, at, depth, count);
    Grown(base, TreeOf(r.value, at), at);
  }

  /** A member before the white space after it is seen. */
  function PairOf(l: Label, v: Spaced): Member {
    Member(l.beforeKey, l.key, l.afterKey, v.before, v.value, "")
  }

  lemma AfterPlaysNoPart(m: Member, after: string, at: nat)
    ensures MemberTree(m.(after := after), at) == MemberTree(m, at)
  {
    hide TreeOf;
  }

  /** A key and the value it owns make a member's tokens. */
  lemma PairMade(x: Input, from: nat, depth: nat, count: nat, base: seq<Token>)
    requires from <= |x.text| && ReadLabel(x, from, count).Ok?
    requires var l := ReadLabel(x, from, count); ReadValue(x, l.pos, depth, l.count).Ok?
    ensures var l := ReadLabel(x, from, count); var v := ReadValue(x, l.pos, depth, l.count).value;
      var start := from + |l.value.beforeKey| + 1;
      Owning(base + [Token(String, 0, start, start + |l.value.key|)] + Flatten(TreeOf(v.value, l.pos + |v.before|)), |base|)
      == base + Flatten(MemberTree(PairOf(l.value, v), from))
  {
    hide Flatten, TreeOf, ReadLabel, ReadValue, Owning, At, Spaces, StringBody;
    LabelSound(x, from, count);
    var l := ReadLabel(x, from, count);
    var v := ReadValue(x, l.pos, depth, l.count).value;
    KeyOwnsValue(base, PairOf(l.value, v), from, TreeOf(v.value, l.pos + |v.before|));
  }

  lemma MembersGoOn(x: Input, from: nat, depth: nat, count: nat, acc: seq<Member>)
    requires from <= |x.text|
    ensures ReadMembers(x, from, depth, count, acc) ==
      match ReadMember(x, from, depth, count, |acc|)
      case Fail(error, where) => Fail(error, where)
      case Ok(one, p, n) =>
        if x.text[p] == ',' then ReadMembers(x, p + 1, depth, n, acc + [one]) else Ok(acc + [one], p + 1, n)
  {
    hide ReadMember;
  }

  /** One more member: the buffer and the place after it. */
  lemma MemberGrown(x: Input, base: seq<Token>, at: nat, acc: seq<Member>, from: nat, depth: nat, count: nat)
    requires from <= |x.text| && from == MembersEnd(acc, at + 1)
    ensures Growing(base, Token(Object, |acc|, at, at), MemberTrees(acc, at + 1))[|base|].childCount == |acc|
    ensures var r := ReadMember(x, from, depth, count, |acc|); r.Ok? ==>
      var now := acc + [r.value];
      && Bumped(Growing(base, Token(Object, |acc|, at, at), MemberTrees(acc, at + 1)), |base|) + Flatten(MemberTree(r.value, from))
         == Growing(base, Token(Object, |now|, at, at), MemberTrees(now, at + 1))
      && MembersEnd(now, at + 1) == r.pos + 1
  {
    hide ReadMember, Flatten, FlattenAll, Growing, WellFormed, Narrow, Depth, Size, MemberText, TreeOf, MemberTree, MemberTrees, Bumped, At, Spaces, StringBody;
    GrowingParent(base, Token(Object, |acc|, at, at), MemberTrees(acc, at + 1));
    var r := ReadMember(x, from, depth, count, |acc|);
    if r.Ok? {
      MemberSound(x, from, depth, count, |acc|);
      MembersSnoc(acc, r.value, at + 1);
      Grow(base, Token(Object, |acc|, at, at), MemberTrees(acc, at + 1), MemberTree(r.value, from));
    }
  }

  /** The tokens of an object are its tree's once its end is set. */
  lemma ObjectClosed(x: Input, at: nat, depth: nat, count: nat, base: seq<Token>)
    requires at < |x.text| && x.text[at] == '{' && ReadObject(x, at, depth, count).Ok?
    ensures ReadObject(x, at, depth, count).value.Obj? && MemberTrees([], at + 1) == []
    ensures var r := ReadObject(x, at, depth, count);
      Closed(Growing(base, Token(Object, |r.value.members|, at, at), MemberTrees(r.value.members, at + 1)), |base|, r.pos)
      == base + Flatten(TreeOf(r.value, at))
  {
    hide ReadMembers, Flatten, Growing, Closed, WellFormed, Narrow, Depth, Size, At;
    var r := ReadObject(x, at, depth, count);
    ObjectSound(x, at, depth, count);
    Grown(base, TreeOf(r.value, at), at);
  }

  lemma ScalarTokens(v: Value, at: nat)
    requires !v.Obj? && !v.Arr?
    ensures var t := TreeOf(v, at); Flatten(t) == [Token(t.kind, 0, t.start, t.end)]
  {
    assert FlattenAll([]) == [];
  }
}
