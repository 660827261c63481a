/**
 The JSON grammar of RFC 8259, sections 2 to 7, as concrete syntax: a value
 together with the white space it was written with, and the text it spells.
 Characters stand for bytes; the grammar, like the parser, takes every byte
 from 0x80 up as an unescaped character of a string.
 */
module JsonGrammar {
  import opened Basics
  import opened Numerals

  datatype Value =
    | Obj(gap: string, members: seq<Member>)
    | Arr(gap: string, elements: seq<Element>)
    | Str(raw: string)
    | Num(number: Number)
    | Bool(flag: bool)
    | Nul

  datatype Element = Element(before: string, value: Value, after: string)

  datatype Member =
    Member(beforeKey: string, key: string, afterKey: string, beforeValue: string, value: Value, after: string)

  datatype Number = Number(minus: string, whole: string, frac: string, exp: string)

  // --- spelling --------------------------------------------------------------------

  function Text(v: Value): string
    decreases v, 0
  {
    match v
    case Obj(gap, ms) => "{" + (if ms == [] then gap else MembersText(ms)) + "}"
    case Arr(gap, es) => "[" + (if es == [] then gap else ElementsText(es)) + "]"
    case Str(raw) => "\"" + raw + "\""
    case Num(n) => NumberText(n)
    case Bool(flag) => if flag then "true" else "false"
    case Nul => "null"
  }

  function NumberText(n: Number): string {
    n.minus + n.whole + n.frac + n.exp
  }

  function ElementText(e: Element): string
    decreases e, 1
  {
    e.before + Text(e.value) + e.after
  }

  function MemberText(m: Member): string
    decreases m, 1
  {
    m.beforeKey + "\"" + m.key + "\"" + m.afterKey + ":" + m.beforeValue + Text(m.value) + m.after
  }

  function ElementsText(es: seq<Element>): string
    requires es != []
    decreases es, 2
  {
    if |es| == 1 then ElementText(es[0])
    else ElementText(es[0]) + "," + ElementsText(es[1..])
  }

  function MembersText(ms: seq<Member>): string
    requires ms != []
    decreases ms, 2
  {
    if |ms| == 1 then MemberText(ms[0])
    else MemberText(ms[0]) + "," + MembersText(ms[1..])
  }

  // --- which spellings are JSON ------------------------------------------------------

  predicate IsSpace(c: char) { c == ' ' || c == '\t' || c == '\n' || c == '\r' }
  predicate IsHex(c: char) { IsDigit(c) || 'a' <= c <= 'f' || 'A' <= c <= 'F' }
  predicate IsSimpleEscape(c: char) { c in "\"\\/bfnrt" }

  predicate Spaces(s: string) { forall i :: 0 <= i < |s| ==> IsSpace(s[i]) }
  predicate Digits(s: string) { s != "" && AllDigits(s) }

  /** The length of the unescaped character or escape sequence s begins with;
      zero when it begins with neither. */
  function StringUnit(s: string): (n: nat)
    requires s != ""
    ensures n <= |s|
  {
    if s[0] == '\\' then
      if |s| < 2 then 0
      else if s[1] == 'u' then
        if |s| >= 6 && IsHex(s[2]) && IsHex(s[3]) && IsHex(s[4]) && IsHex(s[5]) then 6 else 0
      else if IsSimpleEscape(s[1]) then 2 else 0
    else if s[0] >= ' ' && s[0] != '"' then 1 else 0
  }

  predicate StringBody(s: string) {
    s == "" || (StringUnit(s) > 0 && StringBody(s[StringUnit(s)..]))
  }

  predicate WellFormedNumber(n: Number) {
    && n.minus in {"", "-"}
    && Digits(n.whole) && (n.whole[0] == '0' ==> n.whole == "0")
    && (n.frac == "" || (n.frac[0] == '.' && Digits(n.frac[1..])))
    && (n.exp == "" || (n.exp[0] in "eE" && (Digits(n.exp[1..]) || (|n.exp| > 1 && n.exp[1] in "+-" && Digits(n.exp[2..])))))
  }

  predicate WellFormed(v: Value)
    decreases v, 0
  {
    match v
    case Obj(gap, ms) => Spaces(gap) && (ms != [] ==> gap == "") && WellFormedMembers(ms)
    case Arr(gap, es) => Spaces(gap) && (es != [] ==> gap == "") && WellFormedElements(es)
    case Str(raw) => StringBody(raw)
    case Num(n) => WellFormedNumber(n)
    case Bool(_) => true
    case Nul => true
  }

  predicate WellFormedElement(e: Element)
    decreases e, 1
  {
    Spaces(e.before) && WellFormed(e.value) && Spaces(e.after)
  }

  predicate WellFormedMember(m: Member)
    decreases m, 1
  {
    && Spaces(m.beforeKey) && StringBody(m.key) && Spaces(m.afterKey)
    && Spaces(m.beforeValue) && WellFormed(m.value) && Spaces(m.after)
  }

  predicate WellFormedElements(es: seq<Element>)
    decreases es, 2
  {
    es == [] || (WellFormedElement(es[0]) && WellFormedElements(es[1..]))
  }

  predicate WellFormedMembers(ms: seq<Member>)
    decreases ms, 2
  {
    ms == [] || (WellFormedMember(ms[0]) && WellFormedMembers(ms[1..]))
  }

  // --- measures the limits speak of ---------------------------------------------------

  /** How many containers enclose the innermost one, itself included. */
  function Depth(v: Value): nat
    decreases v, 0
  {
    match v
    case Obj(_, ms) => 1 + MembersDepth(ms)
    case Arr(_, es) => 1 + ElementsDepth(es)
    case _ => 0
  }

  function ElementsDepth(es: seq<Element>): nat
    decreases es, 2
  {
    if es == [] then 0 else Max(Depth(es[0].value), ElementsDepth(es[1..]))
  }

  function MembersDepth(ms: seq<Member>): nat
    decreases ms, 2
  {
    if ms == [] then 0 else Max(Depth(ms[0].value), MembersDepth(ms[1..]))
  }

  /** How many tokens: one a value and one a key. */
  function Size(v: Value): nat
    decreases v, 0
  {
    match v
    case Obj(_, ms) => 1 + MembersSize(ms)
    case Arr(_, es) => 1 + ElementsSize(es)
    case _ => 1
  }

  function ElementsSize(es: seq<Element>): nat
    decreases es, 2
  {
    if es == [] then 0 else Size(es[0].value) + ElementsSize(es[1..])
  }

  function MembersSize(ms: seq<Member>): nat
    decreases ms, 2
  {
    if ms == [] then 0 else 1 + Size(ms[0].value) + MembersSize(ms[1..])
  }

  /** A child count is sixteen bits wide. */
  const MAX_CHILDREN: nat := 0xFFFF

  predicate Narrow(v: Value, most: nat := MAX_CHILDREN)
    decreases v, 0
  {
    match v
    case Obj(_, ms) => |ms| <= most && NarrowMembers(ms, most)
    case Arr(_, es) => |es| <= most && NarrowElements(es, most)
    case _ => true
  }

  predicate NarrowElements(es: seq<Element>, most: nat := MAX_CHILDREN)
    decreases es, 2
  {
    es == [] || (Narrow(es[0].value, most) && NarrowElements(es[1..], most))
  }

  predicate NarrowMembers(ms: seq<Member>, most: nat := MAX_CHILDREN)
    decreases ms, 2
  {
    ms == [] || (Narrow(ms[0].value, most) && NarrowMembers(ms[1..], most))
  }

  /** The most children one container has. */
  function Width(v: Value): nat
    decreases v, 0
  {
    match v
    case Obj(_, ms) => Max(|ms|, MembersWidth(ms))
    case Arr(_, es) => Max(|es|, ElementsWidth(es))
    case _ => 0
  }

  function ElementsWidth(es: seq<Element>): nat
    decreases es, 2
  {
    if es == [] then 0 else Max(Width(es[0].value), ElementsWidth(es[1..]))
  }

  function MembersWidth(ms: seq<Member>): nat
    decreases ms, 2
  {
    if ms == [] then 0 else Max(Width(ms[0].value), MembersWidth(ms[1..]))
  }

  lemma {:induction false} WideEnough(v: Value, most: nat)
    requires Width(v) <= most
    ensures Narrow(v, most)
    decreases v, 0
  {
    match v {
      case Obj(_, ms) => MembersWideEnough(ms, most);
      case Arr(_, es) => ElementsWideEnough(es, most);
      case _ =>
    }
  }

  lemma {:induction false} ElementsWideEnough(es: seq<Element>, most: nat)
    requires ElementsWidth(es) <= most
    ensures NarrowElements(es, most)
    decreases es, 2
  {
    hide Width, Narrow;
    if es != [] {
      WideEnough(es[0].value, most);
      ElementsWideEnough(es[1..], most);
    }
  }

  lemma {:induction false} MembersWideEnough(ms: seq<Member>, most: nat)
    requires MembersWidth(ms) <= most
    ensures NarrowMembers(ms, most)
    decreases ms, 2
  {
    hide Width, Narrow;
    if ms != [] {
      WideEnough(ms[0].value, most);
      MembersWideEnough(ms[1..], most);
    }
  }

  // --- tokens ---------------------------------------------------------------------------

  datatype TokenType = Undefined | Object | Array | String | Number | Boolean | Null

  datatype Token = Token(kind: TokenType, childCount: nat, start: nat, end: nat)

  /** The syntax tree the token array flattens. A key is a node whose one child
      is its value. */
  datatype Tree = Node(kind: TokenType, start: nat, end: nat, kids: seq<Tree>)

  function Flatten(t: Tree): (ts: seq<Token>)
    ensures |ts| > 0
    decreases t, 0
  {
    [Token(t.kind, |t.kids|, t.start, t.end)] + FlattenAll(t.kids)
  }

  function FlattenAll(kids: seq<Tree>): seq<Token>
    decreases kids, 1
  {
    if kids == [] then [] else Flatten(kids[0]) + FlattenAll(kids[1..])
  }

  /** The tree of a value spelled from offset at on. */
  function TreeOf(v: Value, at: nat): Tree
    decreases v, 0
  {
    var end := at + |Text(v)|;
    match v
    case Obj(_, ms) => Node(Object, at, end, MemberTrees(ms, at + 1))
    case Arr(_, es) => Node(Array, at, end, ElementTrees(es, at + 1))
    case Str(raw) => Node(String, at + 1, at + 1 + |raw|, [])
    case Num(_) => Node(TokenType.Number, at, end, [])
    case Bool(_) => Node(Boolean, at, end, [])
    case Nul => Node(Null, at, end, [])
  }

  /** The trees of elements spelled from offset at on, a comma apart. */
  function ElementTrees(es: seq<Element>, at: nat): (ts: seq<Tree>)
    ensures |ts| == |es|
    decreases es, 2
  {
    if es == [] then [] else
    [TreeOf(es[0].value, at + |es[0].before|)] + ElementTrees(es[1..], at + |ElementText(es[0])| + 1)
  }

  function MemberTree(m: Member, at: nat): Tree
    decreases m, 1
  {
    var key := at + |m.beforeKey| + 1;
    var value := key + |m.key| + 1 + |m.afterKey| + 1 + |m.beforeValue|;
    Node(String, key, key + |m.key|, [TreeOf(m.value, value)])
  }

  function MemberTrees(ms: seq<Member>, at: nat): (ts: seq<Tree>)
    ensures |ts| == |ms|
    decreases ms, 2
  {
    if ms == [] then [] else
    [MemberTree(ms[0], at)] + MemberTrees(ms[1..], at + |MemberText(ms[0])| + 1)
  }
}
