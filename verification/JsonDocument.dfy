/**
 The document of firmware/src/json/Json.cpp: parsing into a caller's token
 array, and cursors that walk it. A cursor is a token's index, and one that
 points nowhere is -1. Every method that follows a cursor is proved to arrive at
 the piece of syntax its name promises.
 */
module JsonDocument {
  import opened Basics
  import opened JsonGrammar
  import opened Numerals
  import opened JsonReader
  import opened JsonSights
  import opened JsonText
  import A = JsonAcceptance
  import E = JsonErrors
  import P = JsonParser
  import S = JsonSoundness

  /** The characters a token's range covers. */
  function SightRaw(s: Sight): string {
    match s
    case ValueSight(v, _) => if v.Str? then v.raw else Text(v)
    case KeySight(m, _) => m.key
  }

  ghost predicate Named(m: Member, name: string) {
    StringBody(m.key) && Decode(m.key) == name
  }

  /** Member i is the first whose key decodes to name. */
  ghost predicate IsFirstNamed(ms: seq<Member>, name: string, i: nat) {
    i < |ms| && Named(ms[i], name) && forall j :: 0 <= j < i ==> !Named(ms[j], name)
  }

  class Document {
    const tokens: array<Token>
    var count: nat
    var input: string
    var error: Error
    var errorOffset: nat
    ghost var shown: Option<A.Document>

    constructor (tokens: array<Token>)
      ensures this.tokens == tokens && Valid() && shown == None
    {
      this.tokens := tokens;
      count, input, error, errorOffset, shown := 0, "", NoError, 0, None;
    }

    ghost predicate Valid()
      reads this, tokens
    {
      match shown
      case None => count == 0
      case Some(d) =>
        A.IsJson(d) && A.DocumentText(d) == input && count == Size(d.value) <= tokens.Length
        && tokens[..count] == Flatten(TreeOf(d.value, |d.before|))
    }

    /** A text is accepted exactly when it is JSON within the limits, and then the
        buffer holds its syntax tree in preorder; an error and its place mean what
        they are called. */
    method Parse(text: string, maxDepth: int, maxInputBytes: nat) returns (e: Error)
      modifies this, tokens
      ensures Valid() && e == error
      ensures e == NoError <==>
        |text| <= maxInputBytes
        && exists d :: A.IsJson(d) && A.DocumentText(d) == text && A.WithinLimits(d, if maxDepth < 1 then 1 else maxDepth, tokens.Length)
      ensures e == NoError ==> shown.Some? && input == text
      ensures e == NoError ==>
        A.ReadDocument(Input(text, if maxDepth < 1 then 1 else maxDepth, tokens.Length)) == Ok(shown.value, |text|, count)
      ensures e != NoError ==> shown == None && count == 0 && errorOffset <= |text|
      ensures e == InputTooLarge <==> |text| > maxInputBytes
      ensures e == InputTooLarge ==> errorOffset == 0
      ensures e != NoError && e != InputTooLarge ==>
        E.Means(text, e, errorOffset, if maxDepth < 1 then 1 else maxDepth, tokens.Length)
      ensures |text| <= maxInputBytes && tokens.Length == 0 ==> e == TokenLimit
      ensures |text| <= maxInputBytes && tokens.Length > 0 && e != NoError ==>
        A.ReadDocument(Input(text, if maxDepth < 1 then 1 else maxDepth, tokens.Length)) == Fail(e, errorOffset)
    {
      hide A.DocumentText, A.IsJson, A.WithinLimits, A.ReadDocument, E.Means, Flatten, TreeOf;
      count, input, error, errorOffset, shown := 0, "", NoError, 0, None;
      if |text| > maxInputBytes {
        error := InputTooLarge;
        return error;
      }
      ghost var limits := Input(text, if maxDepth < 1 then 1 else maxDepth, tokens.Length);
      A.AcceptedIffJson(text, limits.maxDepth, tokens.Length);
      if tokens.Length == 0 {
        NoRoom(limits);
        E.NoRoomMeans(text, limits.maxDepth);
        error := TokenLimit;
        return error;
      }
      e := Fill(text, if maxDepth < 1 then 1 else maxDepth);
      error := e;
      ghost var r := A.ReadDocument(limits);
      if r.Ok? {
        A.DocumentSound(limits);
        shown := Some(r.value);
      } else {
        E.ErrorMeans(limits);
        E.ErrorIs(limits);
      }
    }

    /** The tokens of a text, or why and where it is none. */
    method Fill(text: string, depth: int) returns (e: Error)
      requires count == 0 && input == ""
      modifies `count, `input, `errorOffset, tokens
      ensures match A.ReadDocument(Input(text, depth, tokens.Length))
              case Fail(why, where) => e == why && errorOffset == where && count == 0 && input == ""
              case Ok(d, _, n) => e == NoError && errorOffset == old(errorOffset) && count == n <= tokens.Length && input == text
                                  && tokens[..count] == Flatten(TreeOf(d.value, |d.before|))
    {
      hide A.DocumentText, ReadValue, Flatten, TreeOf;
      var parser := new P.Parser(text, tokens, depth);
      var ok := parser.ParseValue(0);
      if !ok {
        errorOffset := parser.pos;
        return parser.error;
      }
      parser.SkipWhitespace();
      if parser.pos != |text| {
        errorOffset := parser.pos;
        return TrailingContent;
      }
      count := parser.count;
      input := text;
      e := NoError;
    }

    // --- cursors -------------------------------------------------------------------------------

    predicate InRange(index: int)
      reads this
    {
      0 <= index < count
    }

    /** What the token at index stands for. */
    ghost function Seen(index: int): Sight
      requires Valid() && InRange(index)
      reads this, tokens
    {
      Locate(shown.value.value, |shown.value.before|, index)
    }

    lemma TokenSeen(index: int)
      requires Valid() && InRange(index)
      ensures tokens[index] == Flatten(SightTree(Seen(index)))[0]
      ensures Spelled(input, Seen(index))
    {
      hide Flatten, TreeOf, Locate, SightTree, Spelled, WellFormed, Text;
      var d := shown.value;
      TokenAt(d.value, |d.before|, index);
      assert tokens[index] == tokens[..count][index];
      S.AtSlice(input, 0, |input|);
      assert input[0..|input|] == input;
      S.AtConcat(input, 0, d.before + Text(d.value), d.after);
      S.AtConcat(input, 0, d.before, Text(d.value));
      LocateSpelled(input, d.value, |d.before|, index);
    }

    /** The tokens inside what index shows come right after it. */
    lemma SeenWithin(index: int, k: nat)
      requires Valid() && InRange(index) && k < SightSize(Seen(index))
      ensures InRange(index + k) && Seen(index + k) == LocateIn(Seen(index), k)
    {
      hide Flatten, TreeOf, Locate, LocateIn, SightSize;
      LocateWithin(shown.value.value, |shown.value.before|, index, k);
    }

    /** One past the subtree at index. */
    method Skip(index: int) returns (next: int)
      requires Valid()
      ensures !InRange(index) ==> next == count
      ensures InRange(index) ==> next == index + SightSize(Seen(index)) <= count
    {
      hide Flatten, TreeOf, Locate, SightSize, A.IsJson;
      if !InRange(index) {
        return count;
      }
      SkipsSubtree(shown.value.value, |shown.value.before|, index);
      ghost var ts := tokens[..count];
      var pending: nat := 1;
      next := index;
      while pending > 0 && next < count
        invariant index <= next <= count
        invariant SkipFrom(ts, next, pending) == SkipFrom(ts, index, 1)
        decreases count - next
      {
        assert tokens[next] == ts[next];
        pending := pending + tokens[next].childCount;
        pending := pending - 1;
        next := next + 1;
      }
    }

    function Type(index: int): (kind: TokenType)
      requires Valid()
      reads this, tokens
      ensures InRange(index) ==> kind == SightTree(Seen(index)).kind
      ensures !InRange(index) ==> kind == Undefined
    {
      if InRange(index) then TokenSeen(index); tokens[index].kind else Undefined
    }

    /** Elements of an array or members of an object; zero for anything else. */
    function Length(index: int): (n: nat)
      requires Valid()
      reads this, tokens
      ensures InRange(index) && Seen(index).ValueSight? && Seen(index).value.Arr? ==> n == |Seen(index).value.elements|
      ensures InRange(index) && Seen(index).ValueSight? && Seen(index).value.Obj? ==> n == |Seen(index).value.members|
      ensures InRange(index) && (Seen(index).KeySight? || (!Seen(index).value.Arr? && !Seen(index).value.Obj?)) ==> n == 0
    {
      if Type(index) != Object && Type(index) != Array then 0
      else TokenSeen(index); tokens[index].childCount
    }

    // --- children ---------------------------------------------------------------------------------

    ghost predicate IsArray(index: int)
      requires Valid()
      reads this, tokens
    {
      InRange(index) && Seen(index).ValueSight? && Seen(index).value.Arr?
    }

    ghost predicate IsObject(index: int)
      requires Valid()
      reads this, tokens
    {
      InRange(index) && Seen(index).ValueSight? && Seen(index).value.Obj?
    }

    ghost predicate Points(index: int, s: Sight)
      requires Valid()
      reads this, tokens
    {
      InRange(index) && Seen(index) == s
    }

    lemma ElementSeen(index: int, i: nat)
      requires Valid() && IsArray(index) && i < |Seen(index).value.elements|
      ensures var es := Seen(index).value.elements; var child := index + 1 + ElementIndex(es, i);
        && Points(child, ValueSight(es[i].value, ElementAt(es, Seen(index).at + 1, i)))
        && child + Size(es[i].value) == index + 1 + ElementIndex(es, i + 1)
    {
      hide Flatten, TreeOf, LocateElement, ElementIndex, ElementAt;
      var es := Seen(index).value.elements;
      NthElement(es, Seen(index).at + 1, i);
      SeenWithin(index, 1 + ElementIndex(es, i));
    }

    lemma MemberSeen(index: int, i: nat)
      requires Valid() && IsObject(index) && i < |Seen(index).value.members|
      ensures var ms := Seen(index).value.members; var key := index + 1 + MemberIndex(ms, i);
        && Points(key, KeySight(ms[i], MemberAt(ms, Seen(index).at + 1, i)))
        && key + 1 + Size(ms[i].value) == index + 1 + MemberIndex(ms, i + 1)
    {
      hide Flatten, TreeOf, LocateMember, MemberIndex, MemberAt;
      var ms := Seen(index).value.members;
      NthMember(ms, Seen(index).at + 1, i);
      SeenWithin(index, 1 + MemberIndex(ms, i));
    }

    method ElementOf(index: int, i: int) returns (child: int)
      requires Valid()
      ensures var found := IsArray(index) && 0 <= i < |Seen(index).value.elements|;
        if found then
          var es := Seen(index).value.elements;
          Points(child, ValueSight(es[i].value, ElementAt(es, Seen(index).at + 1, i)))
        else child == -1
    {
      hide Flatten, Locate, ElementAt, ElementsSize;
      if Type(index) != Array || i < 0 || i >= Length(index) {
        return -1;
      }
      ghost var es := Seen(index).value.elements;
      child := index + 1;
      var j := 0;
      assert ElementIndex(es, 0) == 0;
      while j < i
        invariant j <= i && child == index + 1 + ElementIndex(es, j)
      {
        ElementSeen(index, j);
        child := Skip(child);
        j := j + 1;
      }
      ElementSeen(index, i);
      child := if InRange(child) then child else -1;
    }

    method KeyAt(index: int, i: int) returns (key: int)
      requires Valid()
      ensures var found := IsObject(index) && 0 <= i < |Seen(index).value.members|;
        if found then
          var ms := Seen(index).value.members;
          Points(key, KeySight(ms[i], MemberAt(ms, Seen(index).at + 1, i)))
        else key == -1
    {
      hide Flatten, Locate, MemberAt, MembersSize;
      if Type(index) != Object || i < 0 || i >= Length(index) {
        return -1;
      }
      ghost var ms := Seen(index).value.members;
      key := index + 1;
      var j := 0;
      assert MemberIndex(ms, 0) == 0;
      while j < i
        invariant j <= i && key == index + 1 + MemberIndex(ms, j)
      {
        MemberSeen(index, j);
        key := Skip(key);
        j := j + 1;
      }
      MemberSeen(index, i);
      key := if InRange(key) then key else -1;
    }

    method ValueAt(index: int, i: int) returns (child: int)
      requires Valid()
      ensures var found := IsObject(index) && 0 <= i < |Seen(index).value.members|;
        if found then
          var ms := Seen(index).value.members;
          Points(child, ValueSight(ms[i].value, MemberAt(ms, Seen(index).at + 1, i) + ValueStart(ms[i])))
        else child == -1
    {
      hide Flatten, MemberAt, TreeOf;
      var key := KeyAt(index, i);
      if key == -1 {
        return -1;
      }
      SizePositive(Seen(key).member.value);
      SeenWithin(key, 1);
      child := key + 1;
      child := if InRange(child) then child else -1;
    }

    ghost predicate ValueOfFirst(index: int, name: string, i: nat, child: int)
      requires Valid() && IsObject(index)
      reads this, tokens
    {
      var ms := Seen(index).value.members;
      IsFirstNamed(ms, name, i)
      && Points(child, ValueSight(ms[i].value, MemberAt(ms, Seen(index).at + 1, i) + ValueStart(ms[i])))
    }

    /** The value of the first member whose key decodes to name. */
    method Find(index: int, name: string) returns (child: int)
      requires Valid()
      ensures !IsObject(index) ==> child == -1
      ensures IsObject(index) ==>
        var ms := Seen(index).value.members;
        if child == -1 then forall i :: 0 <= i < |ms| ==> !Named(ms[i], name)
        else exists i: nat :: ValueOfFirst(index, name, i, child)
    {
      hide Flatten, Locate, MemberAt, FlattenAll, MemberTrees;
      var n := if Type(index) == Object then Length(index) else 0;
      var i := 0;
      while i < n
        invariant 0 <= i <= n
        invariant IsObject(index) ==> forall j :: 0 <= j < i ==> !Named(Seen(index).value.members[j], name)
      {
        var key := KeyAt(index, i);
        var equal := StringEqualsAt(key, name);
        if equal {
          child := ValueAt(index, i);
          assert ValueOfFirst(index, name, i, child);
          return;
        }
        i := i + 1;
      }
      child := -1;
    }

    // --- scalars ------------------------------------------------------------------------------------

    function Raw(index: int): string
      requires Valid()
      reads this, tokens
    {
      if !InRange(index) then ""
      else
        var token := tokens[index];
        if token.start > |input| || token.end > |input| || token.end < token.start then ""
        else input[token.start..token.end]
    }

    lemma RawSeen(index: int)
      requires Valid() && InRange(index)
      ensures Raw(index) == SightRaw(Seen(index))
    {
      hide Locate, Spelled, SightRaw;
      TokenSeen(index);
      RawSpelled(input, Seen(index));
    }

    method StringEqualsAt(index: int, other: string) returns (equal: bool)
      requires Valid()
      ensures InRange(index) && Seen(index).KeySight? ==> (equal <==> Named(Seen(index).member, other))
      ensures InRange(index) && Seen(index).ValueSight? && Seen(index).value.Str? ==>
        StringBody(Seen(index).value.raw) && (equal <==> Decode(Seen(index).value.raw) == other)
      ensures Type(index) != String ==> !equal
    {
      hide Flatten, Locate, Decode, StringBody;
      if Type(index) != String {
        return false;
      }
      TokenSeen(index);
      RawSeen(index);
      equal := StringEquals(Raw(index), other);
    }

    method ToString(index: int, fallback: string) returns (text: string)
      requires Valid()
      ensures InRange(index) && Seen(index).KeySight? ==> Named(Seen(index).member, text)
      ensures InRange(index) && Seen(index).ValueSight? && Seen(index).value.Str? ==>
        StringBody(Seen(index).value.raw) && text == Decode(Seen(index).value.raw)
      ensures Type(index) != String ==> text == fallback
    {
      hide Flatten, Locate, Decode, StringBody;
      if Type(index) != String {
        return fallback;
      }
      TokenSeen(index);
      RawSeen(index);
      text := Raw(index);
      if '\\' !in text {
        PlainSplits(text, |text|);
      } else {
        text := DecodeEscaped(text);
      }
    }

    method ToBool(index: int, fallback: bool) returns (flag: bool)
      requires Valid()
      ensures InRange(index) && Seen(index).ValueSight? && Seen(index).value.Bool? ==> flag == Seen(index).value.flag
      ensures Type(index) != Boolean ==> flag == fallback
    {
      hide Flatten, Locate;
      if Type(index) != Boolean {
        return fallback;
      }
      RawSeen(index);
      return |Raw(index)| == 4;
    }

    /** viaDouble is what the path through strtod makes of a number that has a
        fraction or an exponent. */
    method ToIntAt(index: int, fallback: int, viaDouble: int) returns (n: int)
      requires Valid()
      ensures Type(index) != TokenType.Number ==> n == fallback
      ensures InRange(index) && Seen(index).ValueSight? && Seen(index).value.Num? ==>
        var number := Seen(index).value.number; var text := NumberText(number);
        if number.frac == "" && number.exp == "" then
          IntText(text) && n == if IsInt64(IntOf(text)) then IntOf(text) else fallback
        else n == viaDouble
    {
      hide Flatten, Locate, IntOf, IntText;
      if Type(index) != TokenType.Number {
        return fallback;
      }
      TokenSeen(index);
      RawSeen(index);
      var text := Raw(index);
      NumberIsInteger(Seen(index).value.number);
      if text == "" {
        return fallback;
      }
      if '.' in text || 'e' in text || 'E' in text {
        return viaDouble;
      }
      n := ToInt(text, fallback);
    }
  }

  lemma RawSpelled(s: string, sight: Sight)
    requires Spelled(s, sight)
    ensures var t := SightTree(sight); t.start <= t.end <= |s| && s[t.start..t.end] == SightRaw(sight)
  {
    hide S.At;
    match sight {
      case KeySight(m, at) =>
        ValueInMember(s, m, at);
        S.SliceAt(s, at + |m.beforeKey| + 1, m.key);
      case ValueSight(v, at) =>
        if v.Str? {
          S.AtConcat(s, at, "\"" + v.raw, "\"");
          S.AtConcat(s, at, "\"", v.raw);
          S.SliceAt(s, at + 1, v.raw);
        } else {
          S.SliceAt(s, at, Text(v));
        }
    }
  }

  /** A number is an integer's text exactly when none of . e E is in it. */
  lemma NumberIsInteger(n: Number)
    requires WellFormedNumber(n)
    ensures var text := NumberText(n);
      && text != ""
      && (('.' in text || 'e' in text || 'E' in text) <==> (n.frac != "" || n.exp != ""))
      && (n.frac == "" && n.exp == "" ==> IntText(text))
  {
    var text := NumberText(n);
    assert n.whole[0] in text;
    if n.frac != "" {
      assert text[|n.minus| + |n.whole|] == '.';
    } else if n.exp != "" {
      assert text[|n.minus| + |n.whole|] == n.exp[0];
    } else {
      assert text == n.minus + n.whole;
      assert n.minus == "-" ==> text[1..] == n.whole;
      forall i | 0 <= i < |text| ensures text[i] !in ".eE" {
        assert text[i] == '-' || IsDigit(n.whole[i - |n.minus|]);
      }
    }
  }

  lemma NoRoom(x: Input)
    requires x.capacity == 0
    ensures A.ReadDocument(x).Fail?
  {
    if A.ReadDocument(x).Ok? {
      A.DocumentSound(x);
      SizePositive(A.ReadDocument(x).value.value);
    }
  }
}
