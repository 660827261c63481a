/** How trees and token buffers grow when a list is read one child at a time. */
module JsonTrees {
  import opened JsonGrammar

  /** Where the element after es begins, es being spelled from offset at on. */
  function ElementsEnd(es: seq<Element>, at: nat): nat {
    if es == [] then at else ElementsEnd(es[1..], at + |ElementText(es[0])| + 1)
  }

  function MembersEnd(ms: seq<Member>, at: nat): nat {
    if ms == [] then at else MembersEnd(ms[1..], at + |MemberText(ms[0])| + 1)
  }

  lemma {:induction false} FlattenSnoc(kids: seq<Tree>, t: Tree)
    ensures FlattenAll(kids + [t]) == FlattenAll(kids) + Flatten(t)
  {
    hide Flatten;
    if kids == [] {
      assert FlattenAll([t]) == Flatten(t) + FlattenAll([]);
      assert FlattenAll([]) == [];
      assert [] + [t] == [t];
    } else {
      FlattenSnoc(kids[1..], t);
      assert (kids + [t])[1..] == kids[1..] + [t];
    }
  }

  lemma {:induction false} ElementsSnoc(es: seq<Element>, e: Element, at: nat)
    ensures ElementTrees(es + [e], at) == ElementTrees(es, at) + [TreeOf(e.value, ElementsEnd(es, at) + |e.before|)]
    ensures ElementsEnd(es + [e], at) == ElementsEnd(es, at) + |ElementText(e)| + 1
  {
    hide ElementText, TreeOf, ElementTrees;
    if es == [] {
      assert [] + [e] == [e] == [e] + [];
      ElementTreesCons(e, [], at);
    } else {
      var next := at + |ElementText(es[0])| + 1;
      assert es == [es[0]] + es[1..];
      assert es + [e] == [es[0]] + (es[1..] + [e]);
      ElementsSnoc(es[1..], e, next);
      ElementTreesCons(es[0], es[1..], at);
      ElementTreesCons(es[0], es[1..] + [e], at);
      assert (es + [e])[1..] == es[1..] + [e];
    }
  }

  lemma {:induction false} ElementTreesCons(e: Element, es: seq<Element>, at: nat)
    ensures ElementTrees([e] + es, at) == [TreeOf(e.value, at + |e.before|)] + ElementTrees(es, at + |ElementText(e)| + 1)
    ensures ElementTrees([], at) == ElementTrees([], at + |ElementText(e)| + 1) == []
  {
    hide ElementText, TreeOf;
    assert ([e] + es)[1..] == es;
  }

  lemma {:induction false} MembersSnoc(ms: seq<Member>, m: Member, at: nat)
    ensures MemberTrees(ms + [m], at) == MemberTrees(ms, at) + [MemberTree(m, MembersEnd(ms, at))]
    ensures MembersEnd(ms + [m], at) == MembersEnd(ms, at) + |MemberText(m)| + 1
  {
    hide MemberText, MemberTree, MemberTrees;
    if ms == [] {
      assert [] + [m] == [m] == [m] + [];
      MemberTreesCons(m, [], at);
    } else {
      var next := at + |MemberText(ms[0])| + 1;
      assert ms == [ms[0]] + ms[1..];
      assert ms + [m] == [ms[0]] + (ms[1..] + [m]);
      MembersSnoc(ms[1..], m, next);
      MemberTreesCons(ms[0], ms[1..], at);
      MemberTreesCons(ms[0], ms[1..] + [m], at);
      assert (ms + [m])[1..] == ms[1..] + [m];
    }
  }

  lemma {:induction false} MemberTreesCons(m: Member, ms: seq<Member>, at: nat)
    ensures MemberTrees([m] + ms, at) == [MemberTree(m, at)] + MemberTrees(ms, at + |MemberText(m)| + 1)
    ensures MemberTrees([], at) == MemberTrees([], at + |MemberText(m)| + 1) == []
  {
    hide MemberText, MemberTree;
    assert ([m] + ms)[1..] == ms;
  }

  /** The buffer once one more child of the token at index is counted. */
  function Bumped(ts: seq<Token>, index: nat): (r: seq<Token>)
    requires index < |ts|
    ensures |r| == |ts|
  {
    ts[index := ts[index].(childCount := ts[index].childCount + 1)]
  }

  lemma BumpedBefore(ts: seq<Token>, after: seq<Token>, index: nat)
    requires index < |ts|
    ensures Bumped(ts + after, index) == Bumped(ts, index) + after
  {
  }

  /** The buffer once the token at index is seen to reach to end. */
  function Closed(ts: seq<Token>, index: nat, end: nat): (r: seq<Token>)
    requires index < |ts|
    ensures |r| == |ts|
  {
    ts[index := ts[index].(end := end)]
  }

  /** A parent and the children it has so far, with whatever came before it. */
  function Growing(base: seq<Token>, parent: Token, kids: seq<Tree>): (ts: seq<Token>)
    ensures |ts| > |base|
  {
    base + [parent] + FlattenAll(kids)
  }

  lemma NoKids(base: seq<Token>, parent: Token)
    ensures Growing(base, parent, []) == base + [parent]
  {
  }

  lemma GrowingParent(base: seq<Token>, parent: Token, kids: seq<Tree>)
    ensures Growing(base, parent, kids)[|base|] == parent
  {
  }

  lemma Grow(base: seq<Token>, parent: Token, kids: seq<Tree>, t: Tree)
    ensures Bumped(Growing(base, parent, kids), |base|) + Flatten(t)
         == Growing(base, parent.(childCount := parent.childCount + 1), kids + [t])
  {
    hide Flatten, FlattenAll;
    FlattenSnoc(kids, t);
  }

  lemma Grown(base: seq<Token>, t: Tree, end: nat)
    ensures Closed(Growing(base, Token(t.kind, |t.kids|, t.start, end), t.kids), |base|, t.end) == base + Flatten(t)
  {
    hide FlattenAll;
  }

  /** The buffer once the key at index has its value. */
  function Owning(ts: seq<Token>, index: nat): (r: seq<Token>)
    requires index < |ts|
    ensures |r| == |ts|
  {
    ts[index := ts[index].(childCount := 1)]
  }

  /** A key becomes a node once its value follows it. */
  lemma KeyOwnsValue(base: seq<Token>, m: Member, at: nat, value: Tree)
    requires MemberTree(m, at).kids == [value]
    ensures var key := MemberTree(m, at);
      Owning(base + [Token(String, 0, key.start, key.end)] + Flatten(value), |base|) == base + Flatten(key)
  {
    var key := MemberTree(m, at);
    assert FlattenAll(key.kids) == Flatten(value) + FlattenAll([]);
    assert Flatten(key) == [Token(String, 1, key.start, key.end)] + Flatten(value);
  }
}
