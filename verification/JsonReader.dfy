/**
 What each parsing routine of firmware/src/json/Json.cpp yields, as functions of
 the input: the piece of syntax read and where reading stopped, or the error
 and where it was found. JsonParser runs the same steps on mutable state.
 */
module JsonReader {
  import opened JsonGrammar
  import opened Numerals

  datatype Error =
    | NoError
    | UnexpectedCharacter
    | UnexpectedEnd
    | InvalidNumber
    | InvalidString
    | InvalidEscape
    | InvalidLiteral
    | DepthExceeded
    | TokenLimit
    | InputTooLarge
    | TrailingContent

  /** children is how many one container may have, which no caller sets. */
  datatype Input = Input(text: string, maxDepth: int, capacity: int, children: nat := MAX_CHILDREN)

  datatype Read<+T> =
    | Ok(value: T, pos: nat, count: nat)
    | Fail(error: Error, at: nat)

  /** Where a scan ends, or why it cannot go on. */
  datatype Scan = Upto(pos: nat) | Bad(error: Error, at: nat)

  /** The literal a character begins. */
  function WordOf(c: char): string {
    if c == 't' then "true" else if c == 'f' then "false" else "null"
  }

  function SkipSpaces(s: string, pos: nat): (p: nat)
    requires pos <= |s|
    ensures pos <= p <= |s|
    decreases |s| - pos
  {
    if pos < |s| && IsSpace(s[pos]) then SkipSpaces(s, pos + 1) else pos
  }

  function SkipDigits(s: string, pos: nat): (p: nat)
    requires pos <= |s|
    ensures pos <= p <= |s|
    decreases |s| - pos
  {
    if pos < |s| && IsDigit(s[pos]) then SkipDigits(s, pos + 1) else pos
  }

  // --- strings -------------------------------------------------------------------------

  /** The first of s[i..j] that is no hexadecimal digit, or j. */
  function FirstNonHex(s: string, i: nat, j: nat): (k: nat)
    requires i <= j <= |s|
    ensures i <= k <= j && (k < j ==> !IsHex(s[k]))
    ensures forall h :: i <= h < k ==> IsHex(s[h])
    decreases j - i
  {
    if i < j && IsHex(s[i]) then FirstNonHex(s, i + 1, j) else i
  }

  /** From inside a string literal to its closing quote. */
  function ScanString(s: string, i: nat): (r: Scan)
    requires i <= |s|
    ensures r.Upto? ==> i <= r.pos < |s| && s[r.pos] == '"'
    ensures r.Bad? ==> i <= r.at <= |s| && r.error != NoError
    decreases |s| - i
  {
    if i >= |s| then Bad(UnexpectedEnd, i)
    else if s[i] == '"' then Upto(i)
    else if s[i] == '\\' then
      if i + 1 >= |s| then Bad(UnexpectedEnd, i)
      else if IsSimpleEscape(s[i + 1]) then ScanString(s, i + 2)
      else if s[i + 1] == 'u' then
        if i + 5 >= |s| then Bad(UnexpectedEnd, i)
        else
          var k := FirstNonHex(s, i + 2, i + 6);
          if k < i + 6 then Bad(InvalidEscape, k) else ScanString(s, i + 6)
      else Bad(InvalidEscape, i + 1)
    else if s[i] < ' ' then Bad(InvalidString, i)
    else ScanString(s, i + 1)
  }

  function ReadString(x: Input, at: nat, count: nat): (r: Read<string>)
    requires at < |x.text|
    ensures r.Ok? ==> at < r.pos <= |x.text|
    ensures r.Fail? ==> at <= r.at <= |x.text| && r.error != NoError
  {
    match ScanString(x.text, at + 1)
    case Bad(error, where) => Fail(error, where)
    case Upto(i) =>
      if count >= x.capacity then Fail(TokenLimit, at)
      else Ok(x.text[at + 1..i], i + 1, count + 1)
  }

  // --- numbers and literals -------------------------------------------------------------

  function ScanWhole(s: string, p: nat): (r: Scan)
    requires p <= |s|
    ensures r.Upto? ==> p < r.pos <= |s|
    ensures r.Bad? ==> p <= r.at <= |s| && r.error != NoError
  {
    if p >= |s| then Bad(UnexpectedEnd, p)
    else if s[p] == '0' then Upto(p + 1)
    else if IsDigit(s[p]) then Upto(SkipDigits(s, p + 1))
    else Bad(InvalidNumber, p)
  }

  function ScanFraction(s: string, p: nat): (r: Scan)
    requires p <= |s|
    ensures r.Upto? ==> p <= r.pos <= |s|
    ensures r.Bad? ==> p <= r.at <= |s| && r.error != NoError
  {
    if p >= |s| || s[p] != '.' then Upto(p)
    else if p + 1 >= |s| || !IsDigit(s[p + 1]) then Bad(InvalidNumber, p + 1)
    else Upto(SkipDigits(s, p + 1))
  }

  function ScanExponent(s: string, p: nat): (r: Scan)
    requires p <= |s|
    ensures r.Upto? ==> p <= r.pos <= |s|
    ensures r.Bad? ==> p <= r.at <= |s| && r.error != NoError
  {
    if p >= |s| || s[p] !in "eE" then Upto(p)
    else
      var q := if p + 1 < |s| && s[p + 1] in "+-" then p + 2 else p + 1;
      if q >= |s| || !IsDigit(s[q]) then Bad(InvalidNumber, q)
      else Upto(SkipDigits(s, q))
  }

  function ReadNumber(x: Input, at: nat, count: nat): (r: Read<Number>)
    requires at < |x.text|
    ensures r.Ok? ==> at < r.pos <= |x.text|
    ensures r.Fail? ==> at <= r.at <= |x.text| && r.error != NoError
  {
    var s := x.text;
    var digits := if s[at] == '-' then at + 1 else at;
    match ScanWhole(s, digits)
    case Bad(error, where) => Fail(error, where)
    case Upto(point) =>
      match ScanFraction(s, point)
      case Bad(error, where) => Fail(error, where)
      case Upto(e) =>
        match ScanExponent(s, e)
        case Bad(error, where) => Fail(error, where)
        case Upto(end) =>
          if count >= x.capacity then Fail(TokenLimit, end)
          else Ok(Number.Number(s[at..digits], s[digits..point], s[point..e], s[e..end]), end, count + 1)
  }

  function ReadLiteral(x: Input, at: nat, count: nat, word: string): (r: Read<()>)
    requires at < |x.text| && word != ""
    ensures r.Ok? ==> at < r.pos <= |x.text|
    ensures r.Fail? ==> at <= r.at <= |x.text| && r.error != NoError
  {
    if |x.text| - at < |word| || x.text[at..at + |word|] != word then Fail(InvalidLiteral, at)
    else if count >= x.capacity then Fail(TokenLimit, at)
    else Ok((), at + |word|, count + 1)
  }

  // --- values ----------------------------------------------------------------------------

  /** A value and the white space before it. */
  datatype Spaced = Spaced(before: string, value: Value)

  function ReadValue(x: Input, pos: nat, depth: nat, count: nat): (r: Read<Spaced>)
    requires pos <= |x.text|
    ensures r.Ok? ==> pos < r.pos <= |x.text|
    ensures r.Fail? ==> pos <= r.at <= |x.text| && r.error != NoError
    decreases |x.text| - pos, 2
  {
    var at := SkipSpaces(x.text, pos);
    if at >= |x.text| then Fail(UnexpectedEnd, at)
    else
      match ReadBare(x, at, depth, count)
      case Fail(error, where) => Fail(error, where)
      case Ok(v, p, c) => Ok(Spaced(x.text[pos..at], v), p, c)
  }

  function ReadBare(x: Input, at: nat, depth: nat, count: nat): (r: Read<Value>)
    requires at < |x.text|
    ensures r.Ok? ==> at < r.pos <= |x.text|
    ensures r.Fail? ==> at <= r.at <= |x.text| && r.error != NoError
    decreases |x.text| - at, 1
  {
    var c := x.text[at];
    if c == '{' then ReadObject(x, at, depth, count)
    else if c == '[' then ReadArray(x, at, depth, count)
    else if c == '"' then
      match ReadString(x, at, count)
      case Fail(error, where) => Fail(error, where)
      case Ok(raw, p, n) => Ok(Str(raw), p, n)
    else if c == 't' then
      match ReadLiteral(x, at, count, "true")
      case Fail(error, where) => Fail(error, where)
      case Ok(_, p, n) => Ok(Bool(true), p, n)
    else if c == 'f' then
      match ReadLiteral(x, at, count, "false")
      case Fail(error, where) => Fail(error, where)
      case Ok(_, p, n) => Ok(Bool(false), p, n)
    else if c == 'n' then
      match ReadLiteral(x, at, count, "null")
      case Fail(error, where) => Fail(error, where)
      case Ok(_, p, n) => Ok(Nul, p, n)
    else if c == '-' || IsDigit(c) then
      match ReadNumber(x, at, count)
      case Fail(error, where) => Fail(error, where)
      case Ok(number, p, n) => Ok(Num(number), p, n)
    else Fail(UnexpectedCharacter, at)
  }

  function ReadArray(x: Input, at: nat, depth: nat, count: nat): (r: Read<Value>)
    requires at < |x.text|
    ensures r.Ok? ==> at < r.pos <= |x.text|
    ensures r.Fail? ==> at <= r.at <= |x.text| && r.error != NoError
    decreases |x.text| - at, 0
  {
    if depth >= x.maxDepth then Fail(DepthExceeded, at)
    else if count >= x.capacity then Fail(TokenLimit, at)
    else
      var p := SkipSpaces(x.text, at + 1);
      if p < |x.text| && x.text[p] == ']' then Ok(Arr(x.text[at + 1..p], []), p + 1, count + 1)
      else
        match ReadElements(x, at + 1, depth, count + 1, [])
        case Fail(error, where) => Fail(error, where)
        case Ok(es, q, n) => Ok(Arr("", es), q, n)
  }

  /** One element and the white space after it, up to the comma or bracket at
      r.pos; k elements came before it. */
  function ReadElement(x: Input, from: nat, depth: nat, count: nat, k: nat): (r: Read<Element>)
    requires from <= |x.text|
    ensures r.Ok? ==> from < r.pos < |x.text| && x.text[r.pos] in ",]"
    ensures r.Fail? ==> from <= r.at <= |x.text| && r.error != NoError
    decreases |x.text| - from, 3
  {
    match ReadValue(x, from, depth + 1, count)
    case Fail(error, where) => Fail(error, where)
    case Ok(v, p, n) =>
      if k == x.children then Fail(TokenLimit, p)
      else
        var q := SkipSpaces(x.text, p);
        if q >= |x.text| then Fail(UnexpectedEnd, q)
        else if x.text[q] !in ",]" then Fail(UnexpectedCharacter, q)
        else Ok(Element(v.before, v.value, x.text[p..q]), q, n)
  }

  /** The rest of an array from its opening bracket or a comma on, after the
      elements in acc. */
  function ReadElements(x: Input, from: nat, depth: nat, count: nat, acc: seq<Element>): (r: Read<seq<Element>>)
    requires from <= |x.text|
    ensures r.Ok? ==> from < r.pos <= |x.text|
    ensures r.Fail? ==> from <= r.at <= |x.text| && r.error != NoError
    decreases |x.text| - from, 4
  {
    match ReadElement(x, from, depth, count, |acc|)
    case Fail(error, where) => Fail(error, where)
    case Ok(e, q, n) =>
      if x.text[q] == ',' then ReadElements(x, q + 1, depth, n, acc + [e]) else Ok(acc + [e], q + 1, n)
  }

  function ReadObject(x: Input, at: nat, depth: nat, count: nat): (r: Read<Value>)
    requires at < |x.text|
    ensures r.Ok? ==> at < r.pos <= |x.text|
    ensures r.Fail? ==> at <= r.at <= |x.text| && r.error != NoError
    decreases |x.text| - at, 0
  {
    if depth >= x.maxDepth then Fail(DepthExceeded, at)
    else if count >= x.capacity then Fail(TokenLimit, at)
    else
      var p := SkipSpaces(x.text, at + 1);
      if p < |x.text| && x.text[p] == '}' then Ok(Obj(x.text[at + 1..p], []), p + 1, count + 1)
      else
        match ReadMembers(x, at + 1, depth, count + 1, [])
        case Fail(error, where) => Fail(error, where)
        case Ok(ms, q, n) => Ok(Obj("", ms), q, n)
  }

  /** A member's key, its colon and the white space around them. */
  datatype Label = Label(beforeKey: string, key: string, afterKey: string)

  function ReadLabel(x: Input, from: nat, count: nat): (r: Read<Label>)
    requires from <= |x.text|
    ensures r.Ok? ==> from < r.pos <= |x.text|
    ensures r.Fail? ==> from <= r.at <= |x.text| && r.error != NoError
  {
    var at := SkipSpaces(x.text, from);
    if at >= |x.text| then Fail(UnexpectedEnd, at)
    else if x.text[at] != '"' then Fail(UnexpectedCharacter, at)
    else
      match ReadString(x, at, count)
      case Fail(error, where) => Fail(error, where)
      case Ok(key, p, n) =>
        var colon := SkipSpaces(x.text, p);
        if colon >= |x.text| then Fail(UnexpectedEnd, colon)
        else if x.text[colon] != ':' then Fail(UnexpectedCharacter, colon)
        else Ok(Label(x.text[from..at], key, x.text[p..colon]), colon + 1, n)
  }

  /** One member and the white space after it, up to the comma or brace at
      r.pos; k members came before it. */
  function ReadMember(x: Input, from: nat, depth: nat, count: nat, k: nat): (r: Read<Member>)
    requires from <= |x.text|
    ensures r.Ok? ==> from < r.pos < |x.text| && x.text[r.pos] in ",}"
    ensures r.Fail? ==> from <= r.at <= |x.text| && r.error != NoError
    decreases |x.text| - from, 3
  {
    match ReadLabel(x, from, count)
    case Fail(error, where) => Fail(error, where)
    case Ok(l, start, c) =>
      match ReadValue(x, start, depth + 1, c)
      case Fail(error, where) => Fail(error, where)
      case Ok(v, p, n) =>
        if k == x.children then Fail(TokenLimit, p)
        else
          var q := SkipSpaces(x.text, p);
          if q >= |x.text| then Fail(UnexpectedEnd, q)
          else if x.text[q] !in ",}" then Fail(UnexpectedCharacter, q)
          else Ok(Member(l.beforeKey, l.key, l.afterKey, v.before, v.value, x.text[p..q]), q, n)
  }

  function ReadMembers(x: Input, from: nat, depth: nat, count: nat, acc: seq<Member>): (r: Read<seq<Member>>)
    requires from <= |x.text|
    ensures r.Ok? ==> from < r.pos <= |x.text|
    ensures r.Fail? ==> from <= r.at <= |x.text| && r.error != NoError
    decreases |x.text| - from, 4
  {
    match ReadMember(x, from, depth, count, |acc|)
    case Fail(error, where) => Fail(error, where)
    case Ok(m, q, n) =>
      if x.text[q] == ',' then ReadMembers(x, q + 1, depth, n, acc + [m]) else Ok(acc + [m], q + 1, n)
  }
}
