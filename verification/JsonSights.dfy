/**
 Finding one's way in a flattened tree: which piece of syntax each token stands
 for, where its children are, and that skipping over child counts steps across
 exactly one subtree (firmware/src/json/Json.cpp, Document::skip and Value).
 */
module JsonSights {
  import opened JsonGrammar
  import opened JsonSoundness

  /** What a token stands for, and where in the text its spelling begins. */
  datatype Sight =
    | ValueSight(value: Value, at: nat)
    | KeySight(member: Member, at: nat)

  // --- positions of children --------------------------------------------------------------

  function ValueStart(m: Member): nat {
    |m.beforeKey| + 1 + |m.key| + 1 + |m.afterKey| + 1 + |m.beforeValue|
  }

  /** How many tokens come before element i, and where its value begins. */
  function ElementIndex(es: seq<Element>, i: nat): nat
    requires i <= |es|
  {
    if i == 0 then 0 else Size(es[0].value) + ElementIndex(es[1..], i - 1)
  }

  function ElementAt(es: seq<Element>, at: nat, i: nat): nat
    requires i < |es|
  {
    if i == 0 then at + |es[0].before| else ElementAt(es[1..], at + |ElementText(es[0])| + 1, i - 1)
  }

  function MemberIndex(ms: seq<Member>, i: nat): nat
    requires i <= |ms|
  {
    if i == 0 then 0 else 1 + Size(ms[0].value) + MemberIndex(ms[1..], i - 1)
  }

  function MemberAt(ms: seq<Member>, at: nat, i: nat): nat
    requires i < |ms|
  {
    if i == 0 then at else MemberAt(ms[1..], at + |MemberText(ms[0])| + 1, i - 1)
  }

  // --- what the k-th token stands for --------------------------------------------------------

  function Locate(v: Value, at: nat, k: nat): Sight
    requires k < Size(v)
    decreases v, 0
  {
    if k == 0 then ValueSight(v, at)
    else
      match v
      case Obj(_, ms) => LocateMember(ms, at + 1, k - 1)
      case Arr(_, es) => LocateElement(es, at + 1, k - 1)
  }

  function LocateElement(es: seq<Element>, at: nat, k: nat): Sight
    requires k < ElementsSize(es)
    decreases es, 2
  {
    if k < Size(es[0].value) then Locate(es[0].value, at + |es[0].before|, k)
    else LocateElement(es[1..], at + |ElementText(es[0])| + 1, k - Size(es[0].value))
  }

  function LocateMember(ms: seq<Member>, at: nat, k: nat): Sight
    requires k < MembersSize(ms)
    decreases ms, 2
  {
    if k == 0 then KeySight(ms[0], at)
    else if k - 1 < Size(ms[0].value) then Locate(ms[0].value, at + ValueStart(ms[0]), k - 1)
    else LocateMember(ms[1..], at + |MemberText(ms[0])| + 1, k - 1 - Size(ms[0].value))
  }

  function SightSize(s: Sight): (n: nat)
    ensures n > 0
  {
    match s
    case ValueSight(v, _) => SizePositive(v); Size(v)
    case KeySight(m, _) => 1 + Size(m.value)
  }

  lemma SizePositive(v: Value)
    ensures Size(v) > 0
  {
  }

  function SightTree(s: Sight): Tree {
    match s
    case ValueSight(v, at) => TreeOf(v, at)
    case KeySight(m, at) => MemberTree(m, at)
  }

  /** The token at k inside what a token stands for. */
  function LocateIn(s: Sight, k: nat): Sight
    requires k < SightSize(s)
  {
    match s
    case ValueSight(v, at) => Locate(v, at, k)
    case KeySight(m, at) => if k == 0 then s else Locate(m.value, at + ValueStart(m), k - 1)
  }

  // --- locating is compositional -----------------------------------------------------------------

  lemma {:induction false} LocateWithin(v: Value, at: nat, i: nat, k: nat)
    requires i < Size(v) && k < SightSize(Locate(v, at, i))
    ensures i + k < Size(v) && Locate(v, at, i + k) == LocateIn(Locate(v, at, i), k)
    decreases v, 0
  {
    if i > 0 {
      match v {
        case Obj(_, ms) => MemberWithin(ms, at + 1, i - 1, k);
        case Arr(_, es) => ElementWithin(es, at + 1, i - 1, k);
        case _ =>
      }
    }
  }

  lemma {:induction false} ElementWithin(es: seq<Element>, at: nat, i: nat, k: nat)
    requires i < ElementsSize(es) && k < SightSize(LocateElement(es, at, i))
    ensures i + k < ElementsSize(es) && LocateElement(es, at, i + k) == LocateIn(LocateElement(es, at, i), k)
    decreases es, 2
  {
    hide ElementText;
    var n := Size(es[0].value);
    if i < n {
      LocateWithin(es[0].value, at + |es[0].before|, i, k);
    } else {
      ElementWithin(es[1..], at + |ElementText(es[0])| + 1, i - n, k);
    }
  }

  lemma {:induction false} MemberWithin(ms: seq<Member>, at: nat, i: nat, k: nat)
    requires i < MembersSize(ms) && k < SightSize(LocateMember(ms, at, i))
    ensures i + k < MembersSize(ms) && LocateMember(ms, at, i + k) == LocateIn(LocateMember(ms, at, i), k)
    decreases ms, 2
  {
    hide MemberText;
    var n := Size(ms[0].value);
    if i == 0 {
    } else if i - 1 < n {
      LocateWithin(ms[0].value, at + ValueStart(ms[0]), i - 1, k);
    } else {
      MemberWithin(ms[1..], at + |MemberText(ms[0])| + 1, i - 1 - n, k);
    }
  }

  lemma {:induction false} NthElement(es: seq<Element>, at: nat, i: nat)
    requires i < |es|
    ensures ElementIndex(es, i) + Size(es[i].value) == ElementIndex(es, i + 1) <= ElementsSize(es)
    ensures ElementIndex(es, i) < ElementsSize(es)
         && LocateElement(es, at, ElementIndex(es, i)) == ValueSight(es[i].value, ElementAt(es, at, i))
  {
    hide ElementText;
    SizePositive(es[0].value);
    SizePositive(es[i].value);
    if i > 0 {
      NthElement(es[1..], at + |ElementText(es[0])| + 1, i - 1);
    } else {
      assert ElementIndex(es[1..], 0) == 0;
    }
  }

  lemma {:induction false} NthMember(ms: seq<Member>, at: nat, i: nat)
    requires i < |ms|
    ensures MemberIndex(ms, i) + 1 + Size(ms[i].value) == MemberIndex(ms, i + 1) <= MembersSize(ms)
    ensures MemberIndex(ms, i) < MembersSize(ms)
         && LocateMember(ms, at, MemberIndex(ms, i)) == KeySight(ms[i], MemberAt(ms, at, i))
  {
    hide MemberText;
    if i > 0 {
      NthMember(ms[1..], at + |MemberText(ms[0])| + 1, i - 1);
    } else {
      assert MemberIndex(ms[1..], 0) == 0;
    }
  }

  // --- every token is the token of what it stands for -------------------------------------------------

  lemma {:induction false} FlattenSize(v: Value, at: nat)
    ensures |Flatten(TreeOf(v, at))| == Size(v)
    decreases v, 0
  {
    match v {
      case Obj(_, ms) => MembersFlattenSize(ms, at + 1);
      case Arr(_, es) => ElementsFlattenSize(es, at + 1);
      case _ => assert TreeOf(v, at).kids == [];
    }
  }

  lemma {:induction false} ElementsFlattenSize(es: seq<Element>, at: nat)
    ensures |FlattenAll(ElementTrees(es, at))| == ElementsSize(es)
    decreases es, 2
  {
    hide ElementText, Flatten, TreeOf;
    if es != [] {
      FlattenSize(es[0].value, at + |es[0].before|);
      ElementsFlattenSize(es[1..], at + |ElementText(es[0])| + 1);
      FlattenPrepended(TreeOf(es[0].value, at + |es[0].before|), ElementTrees(es[1..], at + |ElementText(es[0])| + 1));
    }
  }

  lemma {:induction false} MembersFlattenSize(ms: seq<Member>, at: nat)
    ensures |FlattenAll(MemberTrees(ms, at))| == MembersSize(ms)
    decreases ms, 2
  {
    hide MemberText, Flatten, TreeOf;
    if ms != [] {
      FlattenSize(ms[0].value, at + ValueStart(ms[0]));
      MembersFlattenSize(ms[1..], at + |MemberText(ms[0])| + 1);
      KeyFlattened(ms[0], at);
      FlattenPrepended(MemberTree(ms[0], at), MemberTrees(ms[1..], at + |MemberText(ms[0])| + 1));
    }
  }

  lemma FlattenPrepended(t: Tree, kids: seq<Tree>)
    ensures FlattenAll([t] + kids) == Flatten(t) + FlattenAll(kids)
  {
    assert ([t] + kids)[1..] == kids;
  }

  lemma KeyFlattened(m: Member, at: nat)
    ensures var value := TreeOf(m.value, at + ValueStart(m)); var key := MemberTree(m, at);
      key.kids == [value] && Flatten(key) == [Token(String, 1, key.start, key.end)] + Flatten(value)
  {
    hide TreeOf;
    var value := TreeOf(m.value, at + ValueStart(m));
    FlattenPrepended(value, []);
    assert [value] + [] == [value] && FlattenAll([]) == [];
  }

  lemma {:induction false} TokenAt(v: Value, at: nat, k: nat)
    requires k < Size(v)
    ensures |Flatten(TreeOf(v, at))| == Size(v)
    ensures Flatten(TreeOf(v, at))[k] == Flatten(SightTree(Locate(v, at, k)))[0]
    decreases v, 0
  {
    FlattenSize(v, at);
    if k > 0 {
      match v {
        case Obj(_, ms) => MemberTokenAt(ms, at + 1, k - 1);
        case Arr(_, es) => ElementTokenAt(es, at + 1, k - 1);
        case _ =>
      }
    }
  }

  lemma {:induction false} ElementTokenAt(es: seq<Element>, at: nat, k: nat)
    requires k < ElementsSize(es)
    ensures |FlattenAll(ElementTrees(es, at))| == ElementsSize(es)
    ensures FlattenAll(ElementTrees(es, at))[k] == Flatten(SightTree(LocateElement(es, at, k)))[0]
    decreases es, 2
  {
    hide ElementText, Flatten, TreeOf, SightTree;
    ElementsFlattenSize(es, at);
    var n := Size(es[0].value);
    var next := at + |ElementText(es[0])| + 1;
    FlattenSize(es[0].value, at + |es[0].before|);
    FlattenPrepended(TreeOf(es[0].value, at + |es[0].before|), ElementTrees(es[1..], next));
    if k < n {
      TokenAt(es[0].value, at + |es[0].before|, k);
    } else {
      ElementTokenAt(es[1..], next, k - n);
    }
  }

  lemma {:induction false} MemberTokenAt(ms: seq<Member>, at: nat, k: nat)
    requires k < MembersSize(ms)
    ensures |FlattenAll(MemberTrees(ms, at))| == MembersSize(ms)
    ensures FlattenAll(MemberTrees(ms, at))[k] == Flatten(SightTree(LocateMember(ms, at, k)))[0]
    decreases ms, 2
  {
    hide MemberText, Flatten, TreeOf, MemberTree;
    MembersFlattenSize(ms, at);
    var n := Size(ms[0].value);
    var next := at + |MemberText(ms[0])| + 1;
    FlattenSize(ms[0].value, at + ValueStart(ms[0]));
    KeyFlattened(ms[0], at);
    FlattenPrepended(MemberTree(ms[0], at), MemberTrees(ms[1..], next));
    if k == 0 {
    } else if k - 1 < n {
      TokenAt(ms[0].value, at + ValueStart(ms[0]), k - 1);
    } else {
      MemberTokenAt(ms[1..], next, k - 1 - n);
    }
  }

  // --- skipping -----------------------------------------------------------------------------------

  /** Document::skip's loop. */
  function SkipFrom(ts: seq<Token>, i: nat, pending: nat): (next: nat)
    requires i <= |ts|
    ensures i <= next <= |ts|
    decreases |ts| - i
  {
    if pending == 0 || i == |ts| then i else SkipFrom(ts, i + 1, pending + ts[i].childCount - 1)
  }

  lemma {:induction false} SkipTree(pre: seq<Token>, t: Tree, post: seq<Token>, pending: nat)
    ensures var ts := pre + Flatten(t) + post; var after := |pre| + |Flatten(t)|;
      SkipFrom(ts, |pre|, pending + 1) == SkipFrom(ts, after, pending)
    decreases t, 0
  {
    hide SkipFrom;
    var head := Token(t.kind, |t.kids|, t.start, t.end);
    var ts := pre + Flatten(t) + post;
    SkipAll(pre + [head], t.kids, post, pending);
    assert pre + [head] + FlattenAll(t.kids) + post == ts;
    SkipOne(ts, |pre|, pending);
  }

  lemma SkipOne(ts: seq<Token>, i: nat, pending: nat)
    requires i < |ts|
    ensures SkipFrom(ts, i, pending + 1) == SkipFrom(ts, i + 1, pending + ts[i].childCount)
  {
  }

  lemma {:induction false} SkipAll(pre: seq<Token>, kids: seq<Tree>, post: seq<Token>, pending: nat)
    ensures var ts := pre + FlattenAll(kids) + post; var after := |pre| + |FlattenAll(kids)|;
      SkipFrom(ts, |pre|, pending + |kids|) == SkipFrom(ts, after, pending)
    decreases kids, 1
  {
    hide SkipFrom, Flatten;
    if kids != [] {
      var first, rest := Flatten(kids[0]), FlattenAll(kids[1..]);
      var ts := pre + FlattenAll(kids) + post;
      SkipTree(pre, kids[0], rest + post, pending + |kids| - 1);
      SkipAll(pre + first, kids[1..], post, pending);
      assert pre + first + (rest + post) == ts && pre + first + rest + post == ts;
    }
  }

  /** In a flattened tree, the subtree a token stands for is its own flattening. */
  lemma {:induction false} Subtree(v: Value, at: nat, i: nat) returns (pre: seq<Token>, post: seq<Token>)
    requires i < Size(v)
    ensures |pre| == i && Flatten(TreeOf(v, at)) == pre + Flatten(SightTree(Locate(v, at, i))) + post
    decreases v, 0
  {
    hide Flatten, FlattenAll, ElementTrees, MemberTrees;
    if i == 0 {
      pre, post := [], [];
      assert [] + Flatten(TreeOf(v, at)) + [] == Flatten(TreeOf(v, at));
    } else {
      var t := TreeOf(v, at);
      var head := [Token(t.kind, |t.kids|, t.start, t.end)];
      FlattenUnfolds(t);
      var before;
      match v {
        case Obj(_, ms) => before, post := MemberSubtree(ms, at + 1, i - 1);
        case Arr(_, es) => before, post := ElementSubtree(es, at + 1, i - 1);
        case _ => before := []; post := [];
      }
      pre := head + before;
      Regroup(head, before, Flatten(SightTree(Locate(v, at, i))), post);
    }
  }

  lemma FlattenUnfolds(t: Tree)
    ensures Flatten(t) == [Token(t.kind, |t.kids|, t.start, t.end)] + FlattenAll(t.kids)
  {
  }

  lemma Regroup<T>(a: seq<T>, b: seq<T>, c: seq<T>, d: seq<T>)
    ensures a + (b + c + d) == (a + b) + c + d
  {
  }

  lemma {:induction false} ElementSubtree(es: seq<Element>, at: nat, i: nat) returns (pre: seq<Token>, post: seq<Token>)
    requires i < ElementsSize(es)
    ensures |pre| == i && FlattenAll(ElementTrees(es, at)) == pre + Flatten(SightTree(LocateElement(es, at, i))) + post
    decreases es, 2
  {
    hide ElementText, Flatten, TreeOf, SightTree, FlattenAll;
    var n := Size(es[0].value);
    var next := at + |ElementText(es[0])| + 1;
    var first, rest := Flatten(TreeOf(es[0].value, at + |es[0].before|)), FlattenAll(ElementTrees(es[1..], next));
    FlattenSize(es[0].value, at + |es[0].before|);
    FlattenPrepended(TreeOf(es[0].value, at + |es[0].before|), ElementTrees(es[1..], next));
    if i < n {
      var after;
      pre, after := Subtree(es[0].value, at + |es[0].before|, i);
      post := after + rest;
      assert pre + Flatten(SightTree(LocateElement(es, at, i))) + after + rest
          == pre + Flatten(SightTree(LocateElement(es, at, i))) + (after + rest);
    } else {
      var before;
      before, post := ElementSubtree(es[1..], next, i - n);
      pre := first + before;
      Regroup(first, before, Flatten(SightTree(LocateElement(es, at, i))), post);
    }
  }

  lemma {:induction false} MemberSubtree(ms: seq<Member>, at: nat, i: nat) returns (pre: seq<Token>, post: seq<Token>)
    requires i < MembersSize(ms)
    ensures |pre| == i && FlattenAll(MemberTrees(ms, at)) == pre + Flatten(SightTree(LocateMember(ms, at, i))) + post
    decreases ms, 2
  {
    hide MemberText, Flatten, TreeOf, MemberTree, FlattenAll;
    var n := Size(ms[0].value);
    var next := at + |MemberText(ms[0])| + 1;
    var key := MemberTree(ms[0], at);
    var value := Flatten(TreeOf(ms[0].value, at + ValueStart(ms[0])));
    var rest := FlattenAll(MemberTrees(ms[1..], next));
    var head := [Token(String, 1, key.start, key.end)];
    FlattenSize(ms[0].value, at + ValueStart(ms[0]));
    KeyFlattened(ms[0], at);
    FlattenPrepended(key, MemberTrees(ms[1..], next));
    var middle := Flatten(SightTree(LocateMember(ms, at, i)));
    if i == 0 {
      pre, post := [], rest;
      assert [] + middle == middle;
    } else if i - 1 < n {
      var before, after := Subtree(ms[0].value, at + ValueStart(ms[0]), i - 1);
      pre, post := head + before, after + rest;
      Regroup(head, before, middle, after);
      assert head + before + middle + after + rest == head + before + middle + (after + rest);
    } else {
      var before;
      before, post := MemberSubtree(ms[1..], next, i - 1 - n);
      pre := head + value + before;
      Regroup(head + value, before, middle, post);
    }
  }

  /** Skipping from any token ends just past what it stands for. */
  lemma SkipsSubtree(v: Value, at: nat, i: nat)
    requires i < Size(v)
    ensures |Flatten(TreeOf(v, at))| == Size(v)
    ensures i + SightSize(Locate(v, at, i)) <= Size(v)
    ensures SkipFrom(Flatten(TreeOf(v, at)), i, 1) == i + SightSize(Locate(v, at, i))
  {
    hide Flatten, TreeOf, Locate, SightTree;
    FlattenSize(v, at);
    var s := Locate(v, at, i);
    var pre, post := Subtree(v, at, i);
    SkipTree(pre, SightTree(s), post, 0);
    SightFlattenSize(s);
  }

  lemma SightFlattenSize(s: Sight)
    ensures |Flatten(SightTree(s))| == SightSize(s)
  {
    hide Flatten, TreeOf;
    match s {
      case ValueSight(v, at) => FlattenSize(v, at);
      case KeySight(m, at) =>
        KeyFlattened(m, at);
        FlattenSize(m.value, at + ValueStart(m));
    }
  }

  // --- and stands where it is spelled ------------------------------------------------------------------

  ghost predicate Spelled(s: string, sight: Sight) {
    match sight
    case ValueSight(v, at) => WellFormed(v) && At(s, at, Text(v))
    case KeySight(m, at) => WellFormedMember(m) && At(s, at, MemberText(m))
  }

  lemma {:induction false} LocateSpelled(s: string, v: Value, at: nat, k: nat)
    requires k < Size(v) && WellFormed(v) && At(s, at, Text(v))
    ensures Spelled(s, Locate(v, at, k))
    decreases v, 0
  {
    hide At;
    if k > 0 {
      match v {
        case Obj(_, ms) =>
          AtConcat(s, at, "{" + MembersText(ms), "}");
          AtConcat(s, at, "{", MembersText(ms));
          MembersSpelled(s, ms, at + 1, k - 1);
        case Arr(_, es) =>
          AtConcat(s, at, "[" + ElementsText(es), "]");
          AtConcat(s, at, "[", ElementsText(es));
          ElementsSpelled(s, es, at + 1, k - 1);
        case _ =>
      }
    }
  }

  lemma {:induction false} ElementsSpelled(s: string, es: seq<Element>, at: nat, k: nat)
    requires k < ElementsSize(es) && WellFormedElements(es) && At(s, at, ElementsText(es))
    ensures Spelled(s, LocateElement(es, at, k))
    decreases es, 2
  {
    hide At, Text, Spelled, WellFormed;
    var e, n := es[0], Size(es[0].value);
    if |es| > 1 {
      AtConcat(s, at, ElementText(e) + ",", ElementsText(es[1..]));
      AtConcat(s, at, ElementText(e), ",");
    }
    if k < n {
      AtConcat(s, at, e.before + Text(e.value), e.after);
      AtConcat(s, at, e.before, Text(e.value));
      LocateSpelled(s, e.value, at + |e.before|, k);
    } else {
      ElementsSpelled(s, es[1..], at + |ElementText(e)| + 1, k - n);
    }
  }

  lemma ValueInMember(s: string, m: Member, at: nat)
    requires At(s, at, MemberText(m))
    ensures At(s, at + ValueStart(m), Text(m.value))
    ensures At(s, at + |m.beforeKey| + 1, m.key)
  {
    hide At, Text;
    var lead := m.beforeKey + "\"" + m.key + "\"" + m.afterKey + ":" + m.beforeValue;
    AtConcat(s, at, lead + Text(m.value), m.after);
    AtConcat(s, at, lead, Text(m.value));
    AtConcat(s, at, m.beforeKey + "\"" + m.key + "\"" + m.afterKey + ":", m.beforeValue);
    AtConcat(s, at, m.beforeKey + "\"" + m.key + "\"" + m.afterKey, ":");
    AtConcat(s, at, m.beforeKey + "\"" + m.key + "\"", m.afterKey);
    AtConcat(s, at, m.beforeKey + "\"" + m.key, "\"");
    AtConcat(s, at, m.beforeKey + "\"", m.key);
  }

  lemma {:induction false} MembersSpelled(s: string, ms: seq<Member>, at: nat, k: nat)
    requires k < MembersSize(ms) && WellFormedMembers(ms) && At(s, at, MembersText(ms))
    ensures Spelled(s, LocateMember(ms, at, k))
    decreases ms, 2
  {
    hide At, Text, MemberText, WellFormed;
    var m, n := ms[0], Size(ms[0].value);
    if |ms| > 1 {
      AtConcat(s, at, MemberText(m) + ",", MembersText(ms[1..]));
      AtConcat(s, at, MemberText(m), ",");
    }
    if k == 0 {
    } else if k - 1 < n {
      ValueInMember(s, m, at);
      LocateSpelled(s, m.value, at + ValueStart(m), k - 1);
    } else {
      MembersSpelled(s, ms[1..], at + |MemberText(m)| + 1, k - 1 - n);
    }
  }
}
