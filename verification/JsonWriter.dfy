/**
 The streaming writer of firmware/src/api/JsonWriter.cpp, and that whatever is
 written by well-nested calls is read back as the same tree.
 */
module JsonWriter {
  import opened Basics
  import opened JsonGrammar
  import opened JsonText
  import opened JsonReader
  import A = JsonAcceptance
  import B = Bits

  datatype State = State(out: string, stack: seq<bool>, expectingValue: bool)

  datatype Call =
    | BeginObject
    | EndObject
    | BeginArray
    | EndArray
    | Key(name: string)
    | StringValue(text: string)
    | IntValue(number: int)
    | BoolValue(flag: bool)
    | NullValue
    | RawValue(json: string)

  /** The state with a comma added where one is due. */
  function Separated(s: State): State {
    if s.expectingValue then s.(expectingValue := false)
    else if s.stack == [] then s
    else if s.stack[|s.stack| - 1] then s.(out := s.out + ",")
    else s.(stack := s.stack[|s.stack| - 1 := true])
  }

  function Append(s: State, text: string): State {
    s.(out := s.out + text)
  }

  function Popped(stack: seq<bool>): seq<bool> {
    if stack == [] then [] else stack[..|stack| - 1]
  }

  function Step(s: State, call: Call): State {
    match call
    case BeginObject => var t := Append(Separated(s), "{"); t.(stack := t.stack + [false])
    case EndObject => Append(s.(stack := Popped(s.stack)), "}")
    case BeginArray => var t := Append(Separated(s), "["); t.(stack := t.stack + [false])
    case EndArray => Append(s.(stack := Popped(s.stack)), "]")
    case Key(name) => Append(Separated(s), Quoted(name) + ":").(expectingValue := true)
    case StringValue(text) => Append(Separated(s), Quoted(text))
    case IntValue(number) => Append(Separated(s), Decimal(number))
    case BoolValue(flag) => Append(Separated(s), if flag then "true" else "false")
    case NullValue => Append(Separated(s), "null")
    case RawValue(json) => Append(Separated(s), if json == "" then "null" else json)
  }

  function Quoted(text: string): string {
    "\"" + Escape(text) + "\""
  }

  class Writer {
    var out: string
    var stack: seq<bool>
    var expectingValue: bool

    constructor ()
      ensures Now() == State("", [], false)
    {
      out, stack, expectingValue := "", [], false;
    }

    function Now(): State
      reads this
    {
      State(out, stack, expectingValue)
    }

    method Separate()
      modifies this
      ensures Now() == Separated(old(Now()))
    {
      if expectingValue {
        expectingValue := false;
        return;
      }
      if stack == [] {
        return;
      }
      if stack[|stack| - 1] {
        out := out + ",";
      } else {
        stack := stack[|stack| - 1 := true];
      }
    }

    method StartObject()
      modifies this
      ensures Now() == Step(old(Now()), BeginObject)
    {
      Separate();
      out := out + "{";
      stack := stack + [false];
    }

    method FinishObject()
      modifies this
      ensures Now() == Step(old(Now()), EndObject)
    {
      if stack != [] {
        stack := stack[..|stack| - 1];
      }
      out := out + "}";
    }

    method StartArray()
      modifies this
      ensures Now() == Step(old(Now()), BeginArray)
    {
      Separate();
      out := out + "[";
      stack := stack + [false];
    }

    method FinishArray()
      modifies this
      ensures Now() == Step(old(Now()), EndArray)
    {
      if stack != [] {
        stack := stack[..|stack| - 1];
      }
      out := out + "]";
    }

    method WriteKey(name: string)
      modifies this
      ensures Now() == Step(old(Now()), Key(name))
    {
      hide Escape;
      Separate();
      ghost var before := out;
      out := AppendJsonString(out, name);
      out := out + ":";
      B.Assoc(before, Quoted(name), ":");
      B.Assoc(before + "\"", Escape(name), "\"");
      assert out == before + (Quoted(name) + ":");
      expectingValue := true;
    }

    method WriteString(text: string)
      modifies this
      ensures Now() == Step(old(Now()), StringValue(text))
    {
      hide Escape;
      Separate();
      ghost var before := out;
      out := AppendJsonString(out, text);
      assert out == before + Quoted(text);
    }

    method WriteInt(number: int)
      modifies this
      ensures Now() == Step(old(Now()), IntValue(number))
    {
      Separate();
      out := out + Decimal(number);
    }

    method WriteBool(flag: bool)
      modifies this
      ensures Now() == Step(old(Now()), BoolValue(flag))
    {
      Separate();
      out := out + if flag then "true" else "false";
    }

    method WriteNull()
      modifies this
      ensures Now() == Step(old(Now()), NullValue)
    {
      Separate();
      out := out + "null";
    }

    method WriteRaw(json: string)
      modifies this
      ensures Now() == Step(old(Now()), RawValue(json))
    {
      Separate();
      if json == "" {
        out := out + "null";
      } else {
        out := out + json;
      }
    }
  }

  function Run(s: State, calls: seq<Call>): State
    decreases |calls|
  {
    if calls == [] then s else Run(Step(s, calls[0]), calls[1..])
  }

  // --- trees ----------------------------------------------------------------------------------

  datatype Json =
    | JObject(fields: seq<Field>)
    | JArray(items: seq<Json>)
    | JString(text: string)
    | JInt(number: int)
    | JBool(flag: bool)
    | JNull
    | JRaw(given: Option<A.Document>)

  datatype Field = Field(name: string, value: Json)

  /** JSON text that is passed on as it is; no text at all stands for null. */
  function RawText(given: Option<A.Document>): string {
    match given
    case None => ""
    case Some(d) => A.DocumentText(d)
  }

  /** The white space a raw value brings along. */
  function Before(j: Json): string {
    if j.JRaw? && j.given.Some? then j.given.value.before else ""
  }

  function After(j: Json): string {
    if j.JRaw? && j.given.Some? then j.given.value.after else ""
  }

  /** The calls that write a tree. */
  function Calls(j: Json): seq<Call>
    decreases j, 0
  {
    match j
    case JObject(fields) => [BeginObject] + FieldCalls(fields) + [EndObject]
    case JArray(items) => [BeginArray] + ItemCalls(items) + [EndArray]
    case JString(text) => [StringValue(text)]
    case JInt(number) => [IntValue(number)]
    case JBool(flag) => [BoolValue(flag)]
    case JNull => [NullValue]
    case JRaw(given) => [RawValue(RawText(given))]
  }

  function ItemCalls(items: seq<Json>): seq<Call>
    decreases items, 1
  {
    if items == [] then [] else Calls(items[0]) + ItemCalls(items[1..])
  }

  function FieldCalls(fields: seq<Field>): seq<Call>
    decreases fields, 1
  {
    if fields == [] then [] else [Key(fields[0].name)] + Calls(fields[0].value) + FieldCalls(fields[1..])
  }

  /** The spelling of a tree: no white space, strings escaped, and raw values as given. */
  function Spelling(j: Json): Value
    decreases j, 0
  {
    match j
    case JObject(fields) => Obj("", FieldSpellings(fields))
    case JArray(items) => Arr("", ItemSpellings(items))
    case JString(text) => Str(Escape(text))
    case JInt(number) => Num(DecimalNumber(number))
    case JBool(flag) => Bool(flag)
    case JNull => Nul
    case JRaw(given) => if given == None then Nul else given.value.value
  }

  function ItemSpellings(items: seq<Json>): (es: seq<Element>)
    ensures |es| == |items|
    decreases items, 1
  {
    if items == [] then [] else [Element(Before(items[0]), Spelling(items[0]), After(items[0]))] + ItemSpellings(items[1..])
  }

  function FieldSpellings(fields: seq<Field>): (ms: seq<Member>)
    ensures |ms| == |fields|
    decreases fields, 1
  {
    if fields == [] then [] else
    [Member("", Escape(fields[0].name), "", Before(fields[0].value), Spelling(fields[0].value), After(fields[0].value))]
    + FieldSpellings(fields[1..])
  }

  /** The tree a spelling stands for; none when a number in it is no integer. */
  function Meaning(v: Value): Option<Json>
    requires WellFormed(v)
    decreases v, 0
  {
    match v
    case Obj(_, ms) =>
      (match FieldMeanings(ms)
       case None => None
       case Some(fields) => Some(JObject(fields)))
    case Arr(_, es) =>
      (match ItemMeanings(es)
       case None => None
       case Some(items) => Some(JArray(items)))
    case Str(raw) => Some(JString(Decode(raw)))
    case Num(n) => if IntText(NumberText(n)) then Some(JInt(IntOf(NumberText(n)))) else None
    case Bool(flag) => Some(JBool(flag))
    case Nul => Some(JNull)
  }

  function ItemMeanings(es: seq<Element>): Option<seq<Json>>
    requires WellFormedElements(es)
    decreases es, 2
  {
    if es == [] then Some([]) else
    assert WellFormedElement(es[0]);
    match (Meaning(es[0].value), ItemMeanings(es[1..]))
    case (Some(item), Some(items)) => Some([item] + items)
    case _ => None
  }

  function FieldMeanings(ms: seq<Member>): Option<seq<Field>>
    requires WellFormedMembers(ms)
    decreases ms, 2
  {
    if ms == [] then Some([]) else
    assert WellFormedMember(ms[0]);
    match (Meaning(ms[0].value), FieldMeanings(ms[1..]))
    case (Some(value), Some(fields)) => Some([Field(Decode(ms[0].key), value)] + fields)
    case _ => None
  }

  /** What a tree's raw values are, is JSON. */
  ghost predicate Clean(j: Json)
    decreases j, 0
  {
    match j
    case JObject(fields) => CleanFields(fields)
    case JArray(items) => CleanItems(items)
    case JRaw(given) => given.Some? ==> A.IsJson(given.value)
    case _ => true
  }

  ghost predicate CleanItems(items: seq<Json>)
    decreases items, 1
  {
    items == [] || (Clean(items[0]) && CleanItems(items[1..]))
  }

  ghost predicate CleanFields(fields: seq<Field>)
    decreases fields, 1
  {
    fields == [] || (Clean(fields[0].value) && CleanFields(fields[1..]))
  }

  /** The tree with what its raw values mean in their place; none when a number in
      one of those is no integer. */
  ghost function Plain(j: Json): Option<Json>
    requires Clean(j)
    decreases j, 0
  {
    match j
    case JObject(fields) =>
      (match PlainFields(fields)
       case None => None
       case Some(plain) => Some(JObject(plain)))
    case JArray(items) =>
      (match PlainItems(items)
       case None => None
       case Some(plain) => Some(JArray(plain)))
    case JRaw(given) => if given == None then Some(JNull) else Meaning(given.value.value)
    case _ => Some(j)
  }

  ghost function PlainItems(items: seq<Json>): Option<seq<Json>>
    requires CleanItems(items)
    decreases items, 1
  {
    if items == [] then Some([]) else
    match (Plain(items[0]), PlainItems(items[1..]))
    case (Some(item), Some(later)) => Some([item] + later)
    case _ => None
  }

  ghost function PlainFields(fields: seq<Field>): Option<seq<Field>>
    requires CleanFields(fields)
    decreases fields, 1
  {
    if fields == [] then Some([]) else
    match (Plain(fields[0].value), PlainFields(fields[1..]))
    case (Some(value), Some(later)) => Some([Field(fields[0].name, value)] + later)
    case _ => None
  }

  predicate Rawless(j: Json)
    decreases j, 0
  {
    match j
    case JObject(fields) => RawlessFields(fields)
    case JArray(items) => RawlessItems(items)
    case JRaw(_) => false
    case _ => true
  }

  predicate RawlessItems(items: seq<Json>)
    decreases items, 1
  {
    items == [] || (Rawless(items[0]) && RawlessItems(items[1..]))
  }

  predicate RawlessFields(fields: seq<Field>)
    decreases fields, 1
  {
    fields == [] || (Rawless(fields[0].value) && RawlessFields(fields[1..]))
  }

  /** A tree without raw values is plain. */
  lemma {:induction false} RawlessIsPlain(j: Json)
    requires Rawless(j)
    ensures Clean(j) && Plain(j) == Some(j)
    decreases j, 0
  {
    match j {
      case JObject(fields) => RawlessFieldsPlain(fields);
      case JArray(items) => RawlessItemsPlain(items);
      case _ =>
    }
  }

  lemma {:induction false} RawlessItemsPlain(items: seq<Json>)
    requires RawlessItems(items)
    ensures CleanItems(items) && PlainItems(items) == Some(items)
    decreases items, 1
  {
    hide Rawless, Clean, Plain;
    if items != [] {
      RawlessIsPlain(items[0]);
      RawlessItemsPlain(items[1..]);
      assert items == [items[0]] + items[1..];
    }
  }

  lemma {:induction false} RawlessFieldsPlain(fields: seq<Field>)
    requires RawlessFields(fields)
    ensures CleanFields(fields) && PlainFields(fields) == Some(fields)
    decreases fields, 1
  {
    hide Rawless, Clean, Plain;
    if fields != [] {
      RawlessIsPlain(fields[0].value);
      RawlessFieldsPlain(fields[1..]);
      assert fields == [fields[0]] + fields[1..];
    }
  }

  // --- the spelling of a tree means the tree ----------------------------------------------------

  lemma Margins(j: Json)
    requires Clean(j)
    ensures Spaces(Before(j)) && Spaces(After(j))
  {
  }

  lemma {:induction false} SpellingMeans(j: Json)
    requires Clean(j)
    ensures WellFormed(Spelling(j)) && Meaning(Spelling(j)) == Plain(j)
    decreases j, 0
  {
    hide StringBody, Decode, Escape, Decimal, WellFormedNumber, IntText, IntOf;
    match j {
      case JObject(fields) => FieldSpellingsMean(fields);
      case JArray(items) => ItemSpellingsMean(items);
      case JString(text) => EscapeRoundTrip(text);
      case JInt(number) => DecimalReads(number);
      case _ =>
    }
  }

  lemma {:induction false} ItemSpellingsMean(items: seq<Json>)
    requires CleanItems(items)
    ensures WellFormedElements(ItemSpellings(items)) && ItemMeanings(ItemSpellings(items)) == PlainItems(items)
    decreases items, 1
  {
    hide WellFormed, Meaning, Spelling, Plain, Clean, Before, After, Spaces;
    if items != [] {
      Margins(items[0]);
      SpellingMeans(items[0]);
      ItemSpellingsMean(items[1..]);
      var es := ItemSpellings(items);
      assert es[1..] == ItemSpellings(items[1..]) && items == [items[0]] + items[1..];
    }
  }

  lemma {:induction false} FieldSpellingsMean(fields: seq<Field>)
    requires CleanFields(fields)
    ensures WellFormedMembers(FieldSpellings(fields)) && FieldMeanings(FieldSpellings(fields)) == PlainFields(fields)
    decreases fields, 1
  {
    hide WellFormed, Meaning, Spelling, StringBody, Decode, Escape, Plain, Clean, Before, After;
    if fields != [] {
      Margins(fields[0].value);
      SpellingMeans(fields[0].value);
      EscapeRoundTrip(fields[0].name);
      FieldSpellingsMean(fields[1..]);
      var ms := FieldSpellings(fields);
      assert ms[1..] == FieldSpellings(fields[1..]) && fields == [fields[0]] + fields[1..];
    }
  }

  // --- the calls write the spelling ----------------------------------------------------------------

  lemma {:induction false} RunConcat(s: State, a: seq<Call>, b: seq<Call>)
    ensures Run(s, a + b) == Run(Run(s, a), b)
    decreases |a|
  {
    hide Step;
    if a == [] {
      assert a + b == b;
    } else {
      RunConcat(Step(s, a[0]), a[1..], b);
      assert (a + b)[1..] == a[1..] + b;
    }
  }

  lemma RunOne(s: State, call: Call)
    ensures Run(s, [call]) == Step(s, call)
  {
    hide Step;
    assert Run(s, [call]) == Run(Step(s, call), []);
  }

  /** A tree's text, with the white space a raw value brings along. */
  function Written(j: Json): string {
    A.DocumentText(A.Document(Before(j), Spelling(j), After(j)))
  }

  lemma {:induction false} CallsWrite(s: State, j: Json)
    requires Clean(j)
    ensures Run(s, Calls(j)) == Append(Separated(s), Written(j))
    decreases j, 0
  {
    hide Run, Escape, Decimal, CleanItems, CleanFields, ItemCalls, FieldCalls, Written;
    match j {
      case JObject(fields) => ObjectWrites(s, fields);
      case JArray(items) => ArrayWrites(s, items);
      case JString(text) => RunOne(s, StringValue(text)); BareText(j);
      case JInt(number) => RunOne(s, IntValue(number)); DecimalReads(number); BareText(j);
      case JBool(flag) => RunOne(s, BoolValue(flag)); BareText(j);
      case JNull => RunOne(s, NullValue); BareText(j);
      case JRaw(given) => RunOne(s, RawValue(RawText(given))); RawWrites(s, given);
    }
  }

  lemma {:induction false} ObjectWrites(s: State, fields: seq<Field>)
    requires CleanFields(fields)
    ensures Run(s, Calls(JObject(fields))) == Append(Separated(s), Written(JObject(fields)))
    decreases fields, 2
  {
    hide Run, FieldSpellings, MembersText, CleanFields, FieldCalls, Written, Separated;
    var open := Step(s, BeginObject);
    RunConcat(s, [BeginObject] + FieldCalls(fields), [EndObject]);
    RunConcat(s, [BeginObject], FieldCalls(fields));
    RunOne(s, BeginObject);
    FieldCallsWrite(open.out, Separated(s).stack, false, fields);
    RunOne(Run(open, FieldCalls(fields)), EndObject);
    Closing(Separated(s), FieldSpellingsText(fields), "{", "}");
    SeparatedReady(s);
    BareText(JObject(fields));
  }

  lemma {:induction false} ArrayWrites(s: State, items: seq<Json>)
    requires CleanItems(items)
    ensures Run(s, Calls(JArray(items))) == Append(Separated(s), Written(JArray(items)))
    decreases items, 2
  {
    hide Run, ItemSpellings, ElementsText, CleanItems, ItemCalls, Written, Separated;
    var open := Step(s, BeginArray);
    RunConcat(s, [BeginArray] + ItemCalls(items), [EndArray]);
    RunConcat(s, [BeginArray], ItemCalls(items));
    RunOne(s, BeginArray);
    ItemCallsWrite(open.out, Separated(s).stack, false, items);
    RunOne(Run(open, ItemCalls(items)), EndArray);
    Closing(Separated(s), ItemSpellingsText(items), "[", "]");
    SeparatedReady(s);
    BareText(JArray(items));
  }

  lemma SeparatedReady(s: State)
    ensures !Separated(s).expectingValue
  {
  }

  lemma BareText(j: Json)
    requires !j.JRaw?
    ensures Written(j) == Text(Spelling(j))
  {
    hide Text, Spelling;
  }

  lemma RawWrites(s: State, given: Option<A.Document>)
    requires Clean(JRaw(given))
    ensures Step(s, RawValue(RawText(given))) == Append(Separated(s), Written(JRaw(given)))
  {
    hide Separated, WellFormed;
    if given.Some? {
      TextNotEmpty(given.value.value);
    } else {
      assert Written(JRaw(None)) == "null";
    }
  }

  function ItemSpellingsText(items: seq<Json>): string {
    if items == [] then "" else ElementsText(ItemSpellings(items))
  }

  function FieldSpellingsText(fields: seq<Field>): string {
    if fields == [] then "" else MembersText(FieldSpellings(fields))
  }

  lemma Closing(s: State, inner: string, open: string, close: string)
    ensures s.out + open + inner + close == s.out + (open + inner + close)
    ensures forall b :: Popped(s.stack + [b]) == s.stack
  {
  }

  /** The comma that is due between what was written and what follows. */
  function Comma(started: bool, text: string): string {
    if started && text != "" then "," + text else text
  }

  lemma CommaDue(out: string, started: bool, first: string, rest: string)
    requires first != ""
    ensures out + (if started then "," else "") + first + Comma(true, rest)
         == out + Comma(started, first + Comma(true, rest))
  {
  }

  lemma SeparatedInside(out: string, stack: seq<bool>, started: bool)
    ensures Separated(State(out, stack + [started], false))
         == State(out + if started then "," else "", stack + [true], false)
  {
    assert (stack + [started])[|stack| := true] == stack + [true];
  }

  lemma {:induction false} ItemCallsWrite(out: string, stack: seq<bool>, started: bool, items: seq<Json>)
    requires CleanItems(items)
    ensures Run(State(out, stack + [started], false), ItemCalls(items))
         == State(out + Comma(started, ItemSpellingsText(items)), stack + [started || items != []], false)
    decreases items, 1
  {
    hide Written, Clean, Calls, Comma, ItemSpellingsText, Separated, Run;
    var s := State(out, stack + [started], false);
    if items == [] {
      NothingToWrite(s);
    } else {
      var first := Written(items[0]);
      RunConcat(s, Calls(items[0]), ItemCalls(items[1..]));
      CallsWrite(s, items[0]);
      SeparatedInside(out, stack, started);
      ItemCallsWrite(Separated(s).out + first, stack, true, items[1..]);
      ItemsTextUnfolds(items);
      CommaDue(out, started, first, ItemSpellingsText(items[1..]));
    }
  }

  lemma NothingToWrite(s: State)
    ensures Run(s, []) == s && ItemSpellingsText([]) == FieldSpellingsText([]) == ""
    ensures forall started :: s.out + Comma(started, "") == s.out
  {
  }

  lemma ItemsTextUnfolds(items: seq<Json>)
    requires items != [] && CleanItems(items)
    ensures ItemSpellingsText(items) == Written(items[0]) + Comma(true, ItemSpellingsText(items[1..]))
    ensures Written(items[0]) != ""
  {
    hide Clean, Written, ElementText, Before, After, Spelling, ElementsText;
    var es, rest := ItemSpellings(items), items[1..];
    assert es == [Element(Before(items[0]), Spelling(items[0]), After(items[0]))] + ItemSpellings(rest);
    ElementsUnfold(es[0], ItemSpellings(rest));
    ItemText(items[0]);
    if rest != [] {
      ItemText(rest[0]);
      ElementsUnfold(ItemSpellings(rest)[0], ItemSpellings(rest)[1..]);
      assert ItemSpellings(rest) == [ItemSpellings(rest)[0]] + ItemSpellings(rest)[1..];
    }
  }

  lemma ElementsUnfold(e: Element, later: seq<Element>)
    ensures ElementsText([e] + later) == ElementText(e) + if later == [] then "" else "," + ElementsText(later)
  {
    hide ElementText;
    assert ([e] + later)[1..] == later;
  }

  lemma ItemText(j: Json)
    requires Clean(j)
    ensures ElementText(Element(Before(j), Spelling(j), After(j))) == Written(j) != ""
  {
    hide Spelling, Text, WellFormed, Before, After, Clean, Plain, Meaning;
    SpellingMeans(j);
    TextNotEmpty(Spelling(j));
  }

  lemma TextNotEmpty(v: Value)
    requires WellFormed(v)
    ensures Text(v) != ""
  {
    if v.Num? {
      assert v.number.whole != "";
    }
  }

  lemma {:induction false} FieldCallsWrite(out: string, stack: seq<bool>, started: bool, fields: seq<Field>)
    requires CleanFields(fields)
    ensures Run(State(out, stack + [started], false), FieldCalls(fields))
         == State(out + Comma(started, FieldSpellingsText(fields)), stack + [started || fields != []], false)
    decreases fields, 1
  {
    hide Written, Clean, Calls, Quoted, Comma, FieldSpellingsText, Separated, Run;
    var s := State(out, stack + [started], false);
    if fields == [] {
      NothingToWrite(s);
    } else {
      var key, value := Key(fields[0].name), fields[0].value;
      var first := Quoted(fields[0].name) + ":" + Written(value);
      RunConcat(s, [key] + Calls(value), FieldCalls(fields[1..]));
      RunConcat(s, [key], Calls(value));
      RunOne(s, key);
      CallsWrite(Step(s, key), value);
      SeparatedInside(out, stack, started);
      KeyIsDue(Step(s, key));
      B.Assoc(Separated(s).out, Quoted(fields[0].name) + ":", Written(value));
      FieldCallsWrite(Separated(s).out + first, stack, true, fields[1..]);
      FieldsTextUnfolds(fields);
      CommaDue(out, started, first, FieldSpellingsText(fields[1..]));
    }
  }

  lemma KeyIsDue(s: State)
    requires s.expectingValue
    ensures Separated(s) == s.(expectingValue := false)
  {
  }

  lemma FieldsTextUnfolds(fields: seq<Field>)
    requires fields != []
    ensures FieldSpellingsText(fields)
         == Quoted(fields[0].name) + ":" + Written(fields[0].value) + Comma(true, FieldSpellingsText(fields[1..]))
  {
    hide Spelling, Text, Escape, Before, After, Written, MemberText;
    var ms := FieldSpellings(fields);
    assert ms[1..] == FieldSpellings(fields[1..]);
    FieldText(fields[0]);
    if fields[1..] != [] {
      FieldText(fields[1]);
      assert MembersText(ms[1..]) != "";
    }
  }

  lemma FieldText(f: Field)
    ensures MemberText(Member("", Escape(f.name), "", Before(f.value), Spelling(f.value), After(f.value)))
         == Quoted(f.name) + ":" + Written(f.value) != ""
  {
    hide Spelling, Text, Escape, Before, After;
  }

  // --- writing, then reading --------------------------------------------------------------------------

  /** A tree written by well-nested calls is read back, within the limits, as what
      was written, raw values as the JSON they are; without raw values it is the
      same tree. */
  lemma WrittenReadsBack(j: Json, maxDepth: int, capacity: int)
    requires Clean(j)
    requires var v := Spelling(j);
      Narrow(v) && Size(v) <= capacity && (Depth(v) > 0 ==> Depth(v) <= maxDepth)
    ensures var text := Run(State("", [], false), Calls(j)).out;
      var d := A.Document(Before(j), Spelling(j), After(j));
      && A.ReadDocument(Input(text, maxDepth, capacity)) == Ok(d, |text|, Size(d.value))
      && WellFormed(d.value) && Meaning(d.value) == Plain(j) && (Rawless(j) ==> Plain(j) == Some(j))
  {
    hide Run, Text, Spelling, WellFormed, Meaning, Narrow, Size, Depth, A.ReadDocument, Clean, Plain, Before, After, Rawless;
    var text := Run(State("", [], false), Calls(j)).out;
    CallsWrite(State("", [], false), j);
    SpellingMeans(j);
    Margins(j);
    var d := A.Document(Before(j), Spelling(j), After(j));
    assert text == Written(j) == A.DocumentText(d);
    A.DocumentComplete(Input(text, maxDepth, capacity), d);
    if Rawless(j) {
      RawlessIsPlain(j);
    }
  }

  /** Any text that is JSON can be given as a raw value, and stands for one document. */
  lemma RawIsDocument(json: string, maxDepth: int, capacity: int)
    requires A.ReadDocument(Input(json, maxDepth, capacity)).Ok?
    ensures var d := A.ReadDocument(Input(json, maxDepth, capacity)).value; Clean(JRaw(Some(d))) && RawText(Some(d)) == json
  {
    hide A.ReadDocument, A.DocumentText, A.WithinLimits;
    A.DocumentSound(Input(json, maxDepth, capacity));
  }
}
