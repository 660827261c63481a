/**
 How firmware/src/host/ApplicationHost.cpp keeps the arrangement of apps over a
 restart: the stored order is applied to whatever apps there are, and the order
 there is gets stored again.
 */
module AppOrder {
  import opened Basics
  import opened AppRegistry
  import B = Bits

  datatype Preference = Preference(id: string, enabled: bool, seconds: int)

  function With(app: App, p: Preference): App {
    app.(enabled := p.enabled, seconds := p.seconds)
  }

  // --- as the host does it --------------------------------------------------------------------

  /** One turn of applyStoredAppOrder: the app goes to position, with its settings. */
  function Placed(apps: seq<App>, p: Preference, position: nat): (r: seq<App>)
    ensures |r| == |apps|
  {
    var current := IndexOf(apps, p.id);
    if current < 0 then apps
    else if position >= |apps| then apps[current := With(apps[current], p)]
    else Moved(apps, current, position)[position := With(apps[current], p)]
  }

  function Applied(stored: seq<Preference>, apps: seq<App>, position: nat): (r: seq<App>)
    ensures |r| == |apps|
    decreases |stored|
  {
    if stored == [] then apps
    else if IndexOf(apps, stored[0].id) < 0 then Applied(stored[1..], apps, position)
    else Applied(stored[1..], Placed(apps, stored[0], position), position + 1)
  }

  function Remembered(apps: seq<App>): seq<Preference> {
    if apps == [] then [] else Entry(apps[0]) + Remembered(apps[1..])
  }

  /** Temporary apps are gone before the next start. */
  function Entry(app: App): seq<Preference> {
    if app.source == Temporary then [] else [Preference(app.id, app.enabled, app.seconds)]
  }

  /** Whether the stored order describes the apps. */
  predicate Matches(stored: seq<Preference>, apps: seq<App>) {
    stored == Remembered(apps)
  }

  // --- as it is meant --------------------------------------------------------------------------

  predicate Names(stored: seq<Preference>, id: string) {
    exists i :: 0 <= i < |stored| && stored[i].id == id
  }

  predicate DistinctIds(stored: seq<Preference>) {
    forall i, j :: 0 <= i < j < |stored| ==> stored[i].id != stored[j].id
  }

  function Found(apps: seq<App>, id: string): Option<App> {
    var i := IndexOf(apps, id);
    if i < 0 then None else Some(apps[i])
  }

  /** The stored apps that exist, in stored order and with their stored settings. */
  function Known(stored: seq<Preference>, apps: seq<App>): seq<App>
    decreases |stored|
  {
    if stored == [] then []
    else
      (match Found(apps, stored[0].id) case None => [] case Some(app) => [With(app, stored[0])])
      + Known(stored[1..], apps)
  }

  /** The apps the stored order does not name, in the order they have. */
  ghost function Unnamed(stored: seq<Preference>, apps: seq<App>): seq<App> {
    if apps == [] then []
    else (if Names(stored, apps[0].id) then [] else [apps[0]]) + Unnamed(stored, apps[1..])
  }

  ghost function Arranged(stored: seq<Preference>, apps: seq<App>): seq<App> {
    Known(stored, apps) + Unnamed(stored, apps)
  }

  // --- looking up and leaving out ------------------------------------------------------------------

  lemma {:induction false} FoundConcat(a: seq<App>, b: seq<App>, id: string)
    ensures Found(a + b, id) == if Found(a, id).Some? then Found(a, id) else Found(b, id)
    ensures IndexOf(a, id) < 0 ==> IndexOf(a + b, id) == if IndexOf(b, id) < 0 then -1 else |a| + IndexOf(b, id)
  {
    if a == [] {
      assert a + b == b;
    } else {
      FoundConcat(a[1..], b, id);
      assert (a + b)[1..] == a[1..] + b;
    }
  }

  lemma FoundWithout(apps: seq<App>, j: nat, id: string)
    requires j < |apps| && id != apps[j].id
    ensures Found(Without(apps, j), id) == Found(apps, id)
  {
    hide IndexOf;
    var a, x, b := apps[..j], apps[j], apps[j + 1..];
    assert apps == a + ([x] + b) && Without(apps, j) == a + b;
    FoundConcat(a, [x] + b, id);
    FoundConcat([x], b, id);
    FoundConcat(a, b, id);
    FoundOne(x, id);
  }

  lemma FoundOne(x: App, id: string)
    ensures Found([x], id) == if x.id == id then Some(x) else None
  {
  }

  lemma {:induction false} KnownWithout(stored: seq<Preference>, apps: seq<App>, j: nat)
    requires j < |apps| && !Names(stored, apps[j].id)
    ensures Known(stored, Without(apps, j)) == Known(stored, apps)
    decreases |stored|
  {
    hide Found;
    if stored != [] {
      assert stored[0].id != apps[j].id;
      FoundWithout(apps, j, stored[0].id);
      FewerNames(stored);
      KnownWithout(stored[1..], apps, j);
    }
  }

  lemma FewerNames(stored: seq<Preference>)
    requires stored != []
    ensures forall id :: Names(stored, id) <==> stored[0].id == id || Names(stored[1..], id)
  {
    forall id ensures Names(stored, id) <==> stored[0].id == id || Names(stored[1..], id) {
      if Names(stored, id) {
        var i :| 0 <= i < |stored| && stored[i].id == id;
        assert i > 0 ==> stored[1..][i - 1].id == id;
      }
      if Names(stored[1..], id) {
        var i :| 0 <= i < |stored[1..]| && stored[1..][i].id == id;
        assert stored[i + 1].id == id;
      }
    }
  }

  lemma {:induction false} UnnamedConcat(stored: seq<Preference>, a: seq<App>, b: seq<App>)
    ensures Unnamed(stored, a + b) == Unnamed(stored, a) + Unnamed(stored, b)
  {
    hide Names;
    if a == [] {
      assert a + b == b;
    } else {
      UnnamedConcat(stored, a[1..], b);
      assert (a + b)[1..] == a[1..] + b;
      B.Assoc(if Names(stored, a[0].id) then [] else [a[0]], Unnamed(stored, a[1..]), Unnamed(stored, b));
    }
  }

  /** A name that none of the apps has makes no difference. */
  lemma {:induction false} UnnamedSame(stored: seq<Preference>, apps: seq<App>)
    requires stored != [] && forall i :: 0 <= i < |apps| ==> apps[i].id != stored[0].id
    ensures Unnamed(stored, apps) == Unnamed(stored[1..], apps)
    decreases |apps|
  {
    hide Names;
    if apps != [] {
      FewerNames(stored);
      UnnamedSame(stored, apps[1..]);
    }
  }

  // --- the order is the one that is meant -----------------------------------------------------------

  predicate NoneNamed(apps: seq<App>, stored: seq<Preference>) {
    forall i :: 0 <= i < |apps| ==> !Names(stored, apps[i].id)
  }

  lemma WithoutLater(done: seq<App>, rest: seq<App>, j: nat)
    requires j < |rest|
    ensures Without(done + rest, |done| + j) == done + Without(rest, j)
  {
    assert (done + rest)[..|done| + j] == done + rest[..j];
    assert (done + rest)[|done| + j + 1..] == rest[j + 1..];
  }

  lemma MovedTo(apps: seq<App>, from: nat, a: seq<App>, b: seq<App>, y: App)
    requires from < |apps| && Without(apps, from) == a + b && |a| < |apps|
    ensures Moved(apps, from, |a|)[|a| := y] == a + [y] + b
  {
    hide Without;
    assert (a + b)[..|a|] == a && (a + b)[|a|..] == b;
  }

  lemma PlacedAt(apps: seq<App>, p: Preference, position: nat, current: nat)
    requires IndexOf(apps, p.id) == current && position < |apps|
    ensures Placed(apps, p, position) == Moved(apps, current, position)[position := With(apps[current], p)]
  {
    hide Moved, IndexOf;
  }

  /** The app at the front of what remains. */
  lemma {:induction false} PlacedBetween(done: seq<App>, rest: seq<App>, p: Preference)
    requires IndexOf(done, p.id) < 0 && IndexOf(rest, p.id) >= 0
    ensures var j := IndexOf(rest, p.id);
      Placed(done + rest, p, |done|) == done + [With(rest[j], p)] + Without(rest, j)
  {
    hide IndexOf, Without, Placed, Moved;
    var j := IndexOf(rest, p.id);
    FoundConcat(done, rest, p.id);
    PlacedAt(done + rest, p, |done|, |done| + j);
    WithoutLater(done, rest, j);
    MovedTo(done + rest, |done| + j, done, Without(rest, j), With(rest[j], p));
  }

  lemma {:induction false} AppliedSplits(stored: seq<Preference>, done: seq<App>, rest: seq<App>)
    requires UniqueIds(rest) && DistinctIds(stored) && NoneNamed(done, stored)
    ensures Applied(stored, done + rest, |done|) == done + Arranged(stored, rest)
    decreases |stored|
  {
    hide IndexOf, Names, Placed, Without, Unnamed, Known, Found;
    if stored == [] {
      NothingNamed(rest);
    } else {
      var p, later, i := stored[0], stored[1..], IndexOf(rest, stored[0].id);
      FewerNames(stored);
      assert forall k :: 0 <= k < |done| ==> Names(stored, p.id) && !Names(stored, done[k].id);
      NotIn(done, p.id);
      FoundConcat(done, rest, p.id);
      KnownSplits(stored, rest);
      if i < 0 {
        AppliedSplits(later, done, rest);
        IndexOfNone(rest, p.id);
        UnnamedSame(stored, rest);
      } else {
        var app := With(rest[i], p);
        PlacedBetween(done, rest, p);
        DistinctFollow(stored);
        assert (done + [app])[..|done|] == done;
        WithoutUnique(rest, i);
        AppliedSplits(later, done + [app], Without(rest, i));
        KnownWithout(later, rest, i);
        LeavesOut(stored, rest, i);
        Regroup(done, app, Known(later, rest), Unnamed(later, Without(rest, i)));
      }
    }
  }

  lemma {:induction false} KnownSplits(stored: seq<Preference>, apps: seq<App>)
    requires stored != []
    ensures var i := IndexOf(apps, stored[0].id);
      Known(stored, apps) == if i < 0 then Known(stored[1..], apps) else [With(apps[i], stored[0])] + Known(stored[1..], apps)
  {
    hide IndexOf;
    assert [] + Known(stored[1..], apps) == Known(stored[1..], apps);
  }

  lemma Regroup(done: seq<App>, app: App, known: seq<App>, unnamed: seq<App>)
    ensures done + [app] + (known + unnamed) == done + ([app] + known + unnamed)
  {
  }

  lemma NothingNamed(apps: seq<App>)
    ensures Unnamed([], apps) == apps && Known([], apps) + apps == apps
  {
    if apps != [] {
      NothingNamed(apps[1..]);
      assert !Names([], apps[0].id);
      assert apps == [apps[0]] + apps[1..];
    }
  }

  lemma NotIn(apps: seq<App>, id: string)
    requires forall i :: 0 <= i < |apps| ==> apps[i].id != id
    ensures IndexOf(apps, id) < 0
  {
    IndexOfFirst(apps, id, |apps|);
  }

  lemma DistinctFollow(stored: seq<Preference>)
    requires stored != [] && DistinctIds(stored)
    ensures DistinctIds(stored[1..]) && !Names(stored[1..], stored[0].id)
  {
  }

  lemma {:induction false} LeavesOut(stored: seq<Preference>, rest: seq<App>, i: nat)
    requires stored != [] && i < |rest| && UniqueIds(rest) && rest[i].id == stored[0].id
    ensures Unnamed(stored, rest) == Unnamed(stored[1..], Without(rest, i))
  {
    hide Names;
    var a, x, b := rest[..i], rest[i], rest[i + 1..];
    assert rest == a + ([x] + b);
    FewerNames(stored);
    UnnamedConcat(stored, a, [x] + b);
    UnnamedConcat(stored, [x], b);
    assert Unnamed(stored, [x]) == [];
    UnnamedSame(stored, a);
    UnnamedSame(stored, b);
    UnnamedConcat(stored[1..], a, b);
  }

  /** The stored apps come first, in stored order and with their settings, and the
      others keep the order they had. */
  lemma AppliedIsArranged(stored: seq<Preference>, apps: seq<App>)
    requires UniqueIds(apps) && DistinctIds(stored)
    ensures Applied(stored, apps, 0) == Arranged(stored, apps)
  {
    assert [] + apps == apps && [] + Arranged(stored, apps) == Arranged(stored, apps);
    AppliedSplits(stored, [], apps);
  }

  // --- nothing lost, nothing doubled ------------------------------------------------------------------

  /** An app but for the two settings the order restores. */
  function Bare(app: App): App {
    app.(enabled := false, seconds := 0)
  }

  function AllBare(apps: seq<App>): (r: seq<App>)
    ensures |r| == |apps|
  {
    seq(|apps|, i requires 0 <= i < |apps| => Bare(apps[i]))
  }

  lemma BareMoved(apps: seq<App>, from: nat, to: nat, p: Preference)
    requires from < |apps| && to < |apps|
    ensures AllBare(Moved(apps, from, to)[to := With(apps[from], p)]) == Moved(AllBare(apps), from, to)
  {
    var r, bare := Moved(apps, from, to), AllBare(apps);
    var left := Without(apps, from);
    assert AllBare(left) == Without(bare, from);
    assert AllBare(left[..to]) == AllBare(left)[..to] && AllBare(left[to..]) == AllBare(left)[to..];
    assert r[to := With(apps[from], p)] == left[..to] + [With(apps[from], p)] + left[to..];
  }

  lemma BareSame(apps: seq<App>, i: nat, p: Preference)
    requires i < |apps|
    ensures AllBare(apps[i := With(apps[i], p)]) == AllBare(apps)
  {
  }

  lemma PlacedKeeps(apps: seq<App>, p: Preference, position: nat)
    ensures multiset(AllBare(Placed(apps, p, position))) == multiset(AllBare(apps))
  {
    hide Moved, AllBare, IndexOf;
    var current := IndexOf(apps, p.id);
    if current >= 0 && position < |apps| {
      BareMoved(apps, current, position, p);
      MovedBag(AllBare(apps), current, position);
    } else if current >= 0 {
      BareSame(apps, current, p);
    }
  }

  /** Whatever the stored order says, every app stays once, with its content. */
  lemma {:induction false} AppliedKeeps(stored: seq<Preference>, apps: seq<App>, position: nat)
    ensures multiset(AllBare(Applied(stored, apps, position))) == multiset(AllBare(apps))
    decreases |stored|
  {
    hide Placed, AllBare, IndexOf;
    if stored != [] {
      PlacedKeeps(apps, stored[0], position);
      if IndexOf(apps, stored[0].id) < 0 {
        AppliedKeeps(stored[1..], apps, position);
      } else {
        AppliedKeeps(stored[1..], Placed(apps, stored[0], position), position + 1);
      }
    }
  }

  // --- applying twice -----------------------------------------------------------------------------------

  /** A stored app is found among the known ones, with its settings. */
  lemma {:induction false} FoundKnown(stored: seq<Preference>, apps: seq<App>, p: Preference)
    requires DistinctIds(stored)
    ensures Found(Known(stored, apps), p.id).Some? ==> Names(stored, p.id)
    ensures p in stored ==>
      Found(Known(stored, apps), p.id) == match Found(apps, p.id) { case None => None case Some(app) => Some(With(app, p)) }
    decreases |stored|
  {
    hide IndexOf, Names;
    if stored == [] {
      NotIn([], p.id);
    } else {
      var q, later := stored[0], stored[1..];
      var front := match Found(apps, q.id) { case None => [] case Some(app) => [With(app, q)] };
      FewerNames(stored);
      DistinctFollow(stored);
      FoundKnown(later, apps, p);
      FoundConcat(front, Known(later, apps), p.id);
      NotIn([], p.id);
      FoundHas(apps, q.id);
      if front != [] {
        FoundOne(front[0], p.id);
      }
      if p in stored && p != q {
        NamedIn(later, p);
      }
    }
  }

  lemma FoundHas(apps: seq<App>, id: string)
    ensures Found(apps, id).Some? ==> Found(apps, id).value.id == id
  {
  }

  lemma NamedIn(stored: seq<Preference>, p: Preference)
    requires p in stored
    ensures Names(stored, p.id)
  {
  }

  lemma {:induction false} KnownAgain(stored: seq<Preference>, done: seq<Preference>, apps: seq<App>, unnamed: seq<App>)
    requires DistinctIds(done) && forall p :: p in stored ==> p in done
    requires unnamed == Unnamed(done, apps)
    ensures Known(stored, Known(done, apps) + unnamed) == Known(stored, apps)
    decreases |stored|
  {
    hide IndexOf, Names, Unnamed;
    if stored != [] {
      var p := stored[0];
      KnownAgain(stored[1..], done, apps, unnamed);
      FoundKnown(done, apps, p);
      FoundConcat(Known(done, apps), unnamed, p.id);
      NamedIn(done, p);
      UnnamedHasNot(done, apps, p.id);
    }
  }

  lemma {:induction false} UnnamedHasNot(stored: seq<Preference>, apps: seq<App>, id: string)
    requires Names(stored, id)
    ensures Found(Unnamed(stored, apps), id) == None
  {
    hide IndexOf, Names;
    if apps == [] {
      NotIn([], id);
    } else {
      UnnamedHasNot(stored, apps[1..], id);
      var front := if Names(stored, apps[0].id) then [] else [apps[0]];
      FoundConcat(front, Unnamed(stored, apps[1..]), id);
      NotIn([], id);
      FoundOne(apps[0], id);
    }
  }

  lemma {:induction false} UnnamedAgain(stored: seq<Preference>, apps: seq<App>)
    ensures Unnamed(stored, Unnamed(stored, apps)) == Unnamed(stored, apps)
  {
    hide Names;
    if apps != [] {
      var later := Unnamed(stored, apps[1..]);
      UnnamedAgain(stored, apps[1..]);
      UnnamedOne(stored, apps[0]);
      UnnamedConcat(stored, [apps[0]], later);
      assert [] + later == later;
    }
  }

  lemma UnnamedOne(stored: seq<Preference>, app: App)
    ensures Unnamed(stored, [app]) == if Names(stored, app.id) then [] else [app]
  {
    hide Names;
    assert Unnamed(stored, [app][1..]) == [];
  }

  lemma {:induction false} KnownAreNamed(stored: seq<Preference>, all: seq<Preference>, apps: seq<App>)
    requires forall p :: p in stored ==> p in all
    ensures Unnamed(all, Known(stored, apps)) == []
    decreases |stored|
  {
    hide IndexOf, Names;
    if stored != [] {
      var q := stored[0];
      KnownAreNamed(stored[1..], all, apps);
      NamedIn(all, q);
      FoundHas(apps, q.id);
      if Found(apps, q.id).Some? {
        UnnamedConcat(all, [With(Found(apps, q.id).value, q)], Known(stored[1..], apps));
      } else {
        assert Known(stored, apps) == Known(stored[1..], apps);
      }
    }
  }

  /** Applying an order that is already there changes nothing. */
  lemma ArrangedTwice(stored: seq<Preference>, apps: seq<App>)
    requires DistinctIds(stored)
    ensures Arranged(stored, Arranged(stored, apps)) == Arranged(stored, apps)
  {
    hide IndexOf, Names, Known, Unnamed;
    var known, unnamed := Known(stored, apps), Unnamed(stored, apps);
    KnownAgain(stored, stored, apps, unnamed);
    UnnamedConcat(stored, known, unnamed);
    KnownAreNamed(stored, stored, apps);
    UnnamedAgain(stored, apps);
  }

  // --- when the stored order describes what it arranged --------------------------------------------------

  lemma {:induction false} RememberedConcat(a: seq<App>, b: seq<App>)
    ensures Remembered(a + b) == Remembered(a) + Remembered(b)
  {
    if a == [] {
      assert a + b == b;
    } else {
      RememberedConcat(a[1..], b);
      assert (a + b)[1..] == a[1..] + b;
      B.Assoc(Entry(a[0]), Remembered(a[1..]), Remembered(b));
    }
  }

  /** Every stored app is there, and is one that is stored. */
  predicate AllStay(stored: seq<Preference>, apps: seq<App>) {
    forall i :: 0 <= i < |stored| ==> Found(apps, stored[i].id).Some? && Found(apps, stored[i].id).value.source != Temporary
  }

  lemma {:induction false} RememberedKnown(stored: seq<Preference>, apps: seq<App>)
    ensures |Remembered(Known(stored, apps))| <= |stored|
    ensures Remembered(Known(stored, apps)) == stored <==> AllStay(stored, apps)
    ensures |Remembered(Known(stored, apps))| == |stored| <==> AllStay(stored, apps)
    decreases |stored|
  {
    hide IndexOf;
    if stored != [] {
      var q, later := stored[0], stored[1..];
      RememberedKnown(later, apps);
      FoundHas(apps, q.id);
      AllStaySplits(stored, apps);
      if Found(apps, q.id).Some? {
        var app := With(Found(apps, q.id).value, q);
        RememberedConcat([app], Known(later, apps));
        assert Remembered([app]) == if app.source == Temporary then [] else [q];
        assert stored == [q] + later;
      } else {
        assert Known(stored, apps) == Known(later, apps);
      }
    }
  }

  lemma AllStaySplits(stored: seq<Preference>, apps: seq<App>)
    requires stored != []
    ensures AllStay(stored, apps) <==>
      AllStay(stored[1..], apps) && Found(apps, stored[0].id).Some? && Found(apps, stored[0].id).value.source != Temporary
  {
    hide Found;
    if AllStay(stored[1..], apps) {
      forall i | 1 <= i < |stored| ensures Found(apps, stored[i].id).Some? && Found(apps, stored[i].id).value.source != Temporary {
        assert stored[1..][i - 1] == stored[i];
      }
    }
  }

  /** Every app that is to be stored is named. */
  ghost predicate AllStored(stored: seq<Preference>, apps: seq<App>) {
    forall i :: 0 <= i < |apps| ==> apps[i].source == Temporary || Names(stored, apps[i].id)
  }

  lemma {:induction false} RememberedUnnamed(stored: seq<Preference>, apps: seq<App>)
    ensures Remembered(Unnamed(stored, apps)) == [] <==> AllStored(stored, apps)
  {
    hide Names;
    if apps != [] {
      RememberedUnnamed(stored, apps[1..]);
      AllStoredSplits(stored, apps);
      RememberedConcat(if Names(stored, apps[0].id) then [] else [apps[0]], Unnamed(stored, apps[1..]));
    }
  }

  lemma AllStoredSplits(stored: seq<Preference>, apps: seq<App>)
    requires apps != []
    ensures AllStored(stored, apps) <==> AllStored(stored, apps[1..]) && (apps[0].source == Temporary || Names(stored, apps[0].id))
  {
    hide Names;
    if AllStored(stored, apps[1..]) {
      forall i | 1 <= i < |apps| ensures apps[i].source == Temporary || Names(stored, apps[i].id) {
        assert apps[1..][i - 1] == apps[i];
      }
    }
  }

  /** After it was applied the stored order describes the apps just when it names
      all of them that last, and nothing else; otherwise the host finds a
      difference again at its next look. */
  lemma ArrangedMatchesIff(stored: seq<Preference>, apps: seq<App>)
    requires DistinctIds(stored)
    ensures Matches(stored, Arranged(stored, apps)) <==> AllStay(stored, apps) && AllStored(stored, apps)
  {
    hide IndexOf, Names, Known, Unnamed, Found;
    var known, unnamed := Known(stored, apps), Unnamed(stored, apps);
    RememberedConcat(known, unnamed);
    RememberedKnown(stored, apps);
    RememberedUnnamed(stored, apps);
    if Remembered(unnamed) != [] && stored == Remembered(known) + Remembered(unnamed) {
      var p := Remembered(unnamed)[0];
      assert p == stored[|Remembered(known)|];
      NamedIn(stored, p);
      RememberedNamesNone(stored, apps);
      assert false;
    }
  }

  lemma {:induction false} RememberedNamesNone(stored: seq<Preference>, apps: seq<App>)
    ensures forall p :: p in Remembered(Unnamed(stored, apps)) ==> !Names(stored, p.id)
  {
    hide Names;
    if apps != [] {
      var front, later := if Names(stored, apps[0].id) then [] else [apps[0]], Unnamed(stored, apps[1..]);
      RememberedNamesNone(stored, apps[1..]);
      RememberedConcat(front, later);
      assert front != [] ==> Remembered(front) == Entry(apps[0]) + Remembered([]);
      assert forall p :: p in Remembered(front) ==> p.id == apps[0].id;
    }
  }

  // --- what reaches the store ----------------------------------------------------------------------------

  /** The apps, whether they have changed since the host last looked, the order in
      the settings, and the order in the settings that were saved last. */
  datatype Desk = Desk(apps: seq<App>, changed: bool, stored: seq<Preference>, saved: seq<Preference>)

  /** The host looks at its registry; saves says whether the settings can be saved. */
  function Look(d: Desk, normalBoot: bool, saves: bool): Desk {
    if d.changed then
      if !normalBoot then d.(changed := false)
      else
        var order := Remembered(d.apps);
        Desk(d.apps, false, order, if saves then order else d.saved)
    else if !normalBoot || d.stored == [] || Matches(d.stored, d.apps) then d
    else d.(apps := Applied(d.stored, d.apps, 0))
  }

  /** Besides looks: the registry changes, or somebody saves the settings, as they
      are or with another order in them, which they keep when the save fails. */
  datatype Event =
    | Looked(normalBoot: bool, saves: bool)
    | Rearranged(apps: seq<App>)
    | Resaved(saves: bool)
    | Reordered(order: seq<Preference>, saves: bool)

  function Happen(d: Desk, e: Event): Desk {
    match e
    case Looked(normalBoot, saves) => Look(d, normalBoot, saves)
    case Rearranged(apps) => d.(apps := apps, changed := true)
    case Resaved(saves) => if saves then d.(saved := d.stored) else d
    case Reordered(order, saves) => d.(stored := order, saved := if saves then order else d.saved)
  }

  function HappenAll(d: Desk, events: seq<Event>): Desk
    decreases |events|
  {
    if events == [] then d
    else Happen(HappenAll(d, events[..|events| - 1]), events[|events| - 1])
  }

  /** The settings are saved, and the save succeeds. */
  predicate Saves(d: Desk, e: Event) {
    match e
    case Looked(normalBoot, saves) => d.changed && normalBoot && saves
    case Rearranged(_) => false
    case Resaved(saves) => saves
    case Reordered(_, saves) => saves
  }

  /** The order in the settings becomes another one. */
  predicate Replaces(d: Desk, e: Event) {
    Happen(d, e).stored != d.stored
  }

  /** How many events there are up to the last save that succeeded. */
  function LastSave(d: Desk, events: seq<Event>): (n: nat)
    ensures n <= |events|
    decreases |events|
  {
    if events == [] then 0
    else
      var before := events[..|events| - 1];
      if Saves(HappenAll(d, before), events[|events| - 1]) then |events| else LastSave(d, before)
  }

  /** How many events there are up to the last that replaced the order. */
  function LastOrder(d: Desk, events: seq<Event>): (n: nat)
    ensures n <= |events|
    decreases |events|
  {
    if events == [] then 0
    else
      var before := events[..|events| - 1];
      if Replaces(HappenAll(d, before), events[|events| - 1]) then |events| else LastOrder(d, before)
  }

  lemma SavesOrKeeps(d: Desk, e: Event)
    ensures Happen(d, e).saved == if Saves(d, e) then Happen(d, e).stored else d.saved
  {
    hide Remembered, Applied, Matches;
  }

  /** What is saved is what the settings held at the last save that succeeded. */
  lemma {:induction false} SavedThen(d: Desk, events: seq<Event>)
    ensures var n := LastSave(d, events);
      HappenAll(d, events).saved == if n == 0 then d.saved else HappenAll(d, events[..n]).stored
    decreases |events|
  {
    hide Happen, Saves;
    if events != [] {
      var before, n := events[..|events| - 1], LastSave(d, events);
      SavesOrKeeps(HappenAll(d, before), events[|events| - 1]);
      if Saves(HappenAll(d, before), events[|events| - 1]) {
        assert events[..n] == events;
      } else {
        SavedThen(d, before);
        assert before[..n] == events[..n];
      }
    }
  }

  lemma {:induction false} OrderSince(d: Desk, events: seq<Event>, n: nat)
    requires LastOrder(d, events) <= n <= |events|
    ensures HappenAll(d, events[..n]).stored == HappenAll(d, events).stored
    decreases |events|
  {
    hide Happen;
    if n < |events| {
      var before := events[..|events| - 1];
      OrderSince(d, before, n);
      assert before[..n] == events[..n];
    } else {
      assert events[..n] == events;
    }
  }

  /** The order in the settings was not in them at any time before it was last
      put there. */
  predicate NeverHeldBefore(d: Desk, events: seq<Event>) {
    forall k: nat :: k < LastOrder(d, events) ==> HappenAll(d, events[..k]).stored != HappenAll(d, events).stored
  }

  /** From settings that are saved on: the order in the settings is the saved one
      when a save has succeeded since it was put there, the one of the event that
      put it there or a later one, and for an order never held before only then. */
  lemma {:induction false} OrderIsSavedIff(d: Desk, events: seq<Event>)
    requires d.saved == d.stored
    ensures var e := HappenAll(d, events);
      && (LastOrder(d, events) <= LastSave(d, events) ==> e.saved == e.stored)
      && (NeverHeldBefore(d, events) ==> (e.saved == e.stored <==> LastOrder(d, events) <= LastSave(d, events)))
  {
    hide Happen, Saves, Replaces;
    var n := LastSave(d, events);
    SavedThen(d, events);
    assert n == 0 ==> events[..n] == [];
    if LastOrder(d, events) <= n {
      OrderSince(d, events, n);
    }
  }

  /** An order that comes back to the saved one needs no save. */
  lemma {:induction false} ComesBack(d: Desk, order: seq<Preference>)
    requires d.saved == d.stored != order
    ensures var events := [Reordered(order, false), Reordered(d.stored, false)];
      HappenAll(d, events).saved == HappenAll(d, events).stored && LastSave(d, events) < LastOrder(d, events)
  {
    var first, second := Reordered(order, false), Reordered(d.stored, false);
    assert [first, second][..1] == [first] && [first][..0] == [];
    assert HappenAll(d, [first]) == Happen(HappenAll(d, []), first) == d.(stored := order);
    assert LastSave(d, [first]) == LastSave(d, []) == 0;
  }

  /** A look whose save fails is not made up for by later looks, whether or not
      those could save, as long as the apps do not change. */
  lemma {:induction false} FailedSaveIsNotRetried(d: Desk, looks: seq<Event>)
    requires !d.changed && forall i :: 0 <= i < |looks| ==> looks[i].Looked?
    ensures HappenAll(d, looks).saved == d.saved && HappenAll(d, looks).stored == d.stored && !HappenAll(d, looks).changed
    decreases |looks|
  {
    hide Remembered, Applied, Matches;
    if looks != [] {
      FailedSaveIsNotRetried(d, looks[..|looks| - 1]);
    }
  }

  /** But any other save of the settings makes up for it. */
  lemma OtherSaveCarriesOrder(d: Desk, order: seq<Preference>)
    requires d.changed && order == Remembered(d.apps) != d.saved
    ensures var failed := Look(d, true, false);
      failed.stored == order && failed.saved == d.saved && Happen(failed, Resaved(true)).saved == order
  {
  }

  // --- the host ------------------------------------------------------------------------------------------

  class Host {
    const registry: AppRegistry
    var stored: seq<Preference>
    var persistedRevision: nat
    /** The order in the settings that were saved last. */
    var saved: seq<Preference>

    constructor (registry: AppRegistry)
      ensures this.registry == registry && stored == [] && persistedRevision == registry.revision && saved == []
    {
      this.registry, stored, persistedRevision, saved := registry, [], registry.revision, [];
    }

    ghost function Now(): Desk
      reads this, registry
    {
      Desk(registry.apps, registry.revision != persistedRevision, stored, saved)
    }

    /** Walks the stored order, moving each app it names to the front of the rest. */
    method ApplyStoredAppOrder()
      requires registry.Valid()
      modifies registry
      ensures registry.Valid() && registry.apps == Applied(stored, old(registry.apps), 0)
    {
      hide Placed, IndexOf, UniqueIds;
      var position: nat := 0;
      assert stored[0..] == stored;
      for i := 0 to |stored|
        invariant registry.Valid() && position <= i
        invariant Applied(stored[i..], registry.apps, position) == Applied(stored, old(registry.apps), 0)
      {
        var p := stored[i];
        assert stored[i..][0] == p && stored[i..][1..] == stored[i + 1..];
        var found := registry.Position(p.id);
        if found < 0 {
          continue;
        }
        Place(p, position);
        position := position + 1;
      }
      assert stored[|stored|..] == [];
    }

    /** One turn of the walk, for an app that exists. It is looked up again after
        the move, which shifts the apps in between. */
    method Place(p: Preference, position: nat)
      requires registry.Valid() && IndexOf(registry.apps, p.id) >= 0
      modifies registry
      ensures registry.Valid() && registry.apps == Placed(old(registry.apps), p, position)
    {
      hide IndexOf, Moved;
      ghost var apps, current := registry.apps, IndexOf(registry.apps, p.id);
      ghost var to := if position < |apps| then position else current;
      ghost var between := if position < |apps| then Moved(apps, current, position) else apps;
      if position < |apps| {
        MovedUnique(apps, current, position);
        MovedPuts(apps, current, position);
      }
      StandsAt(between, to, p);
      var ignored := registry.MoveTo(p.id, position);
      var known := registry.SetEnabled(p.id, p.enabled);
      var at := registry.Position(p.id);
      if at >= 0 {
        registry.apps := registry.apps[at := registry.apps[at].(seconds := p.seconds)];
      }
    }

    method StoredOrderMatchesRegistry() returns (matches: bool)
      ensures matches <==> Matches(stored, registry.apps)
    {
      hide Remembered;
      var at: nat := 0;
      RememberedEnds(registry.apps);
      for i := 0 to |registry.apps|
        invariant at <= |stored|
        invariant stored[at..] == Remembered(registry.apps[i..]) <==> Matches(stored, registry.apps)
      {
        var app := registry.apps[i];
        RememberedStep(registry.apps, i);
        if app.source == Temporary {
          continue;
        }
        if at >= |stored| {
          return false;
        }
        assert stored[at..] == [stored[at]] + stored[at + 1..];
        if stored[at].id != app.id || stored[at].enabled != app.enabled || stored[at].seconds != app.seconds {
          return false;
        }
        at := at + 1;
      }
      matches := at == |stored|;
    }

    method RememberAppOrder()
      modifies this`stored
      ensures stored == Remembered(registry.apps) && Matches(stored, registry.apps)
    {
      hide Remembered;
      stored := [];
      RememberedEnds(registry.apps);
      for i := 0 to |registry.apps|
        invariant stored + Remembered(registry.apps[i..]) == Remembered(registry.apps)
      {
        var app := registry.apps[i];
        RememberedStep(registry.apps, i);
        if app.source == Temporary {
          continue;
        }
        B.Assoc(stored, [Preference(app.id, app.enabled, app.seconds)], Remembered(registry.apps[i + 1..]));
        stored := stored + [Preference(app.id, app.enabled, app.seconds)];
      }
    }

    /** A registry that changed is remembered and saved; settings that changed are
        applied. Nothing is written in safe mode, whose registry is not the user's.
        saves says whether the settings can be saved. */
    method PersistAppOrderIfChanged(normalBoot: bool, saves: bool)
      requires registry.Valid()
      modifies this, registry
      ensures registry.Valid() && persistedRevision == registry.revision
      ensures Now() == Look(old(Now()), normalBoot, saves)
    {
      if registry.revision != persistedRevision {
        persistedRevision := registry.revision;
        if !normalBoot {
          return;
        }
        RememberAppOrder();
        if saves {
          saved := stored;
        }
        return;
      }
      if !normalBoot || stored == [] {
        return;
      }
      var matches := StoredOrderMatchesRegistry();
      if matches {
        return;
      }
      ApplyStoredAppOrder();
      persistedRevision := registry.revision;
    }
  }

  lemma {:induction false} MovedPuts(apps: seq<App>, from: nat, to: nat)
    requires from < |apps| && to < |apps|
    ensures Moved(apps, from, to)[to] == apps[from]
  {
  }

  /** With unique ids an app is found where it stands, whatever its settings. */
  lemma {:induction false} StandsAt(apps: seq<App>, at: nat, p: Preference)
    requires at < |apps| && UniqueIds(apps) && apps[at].id == p.id
    ensures IndexOf(apps, p.id) == at
    ensures var enabled := apps[at := apps[at].(enabled := p.enabled)]; UniqueIds(enabled) && IndexOf(enabled, p.id) == at
    ensures apps[at := apps[at].(enabled := p.enabled)][at := apps[at].(enabled := p.enabled, seconds := p.seconds)]
         == apps[at := With(apps[at], p)] && UniqueIds(apps[at := With(apps[at], p)])
  {
    hide IndexOf;
    IndexOfFirst(apps, p.id, at);
    IndexOfFirst(apps[at := apps[at].(enabled := p.enabled)], p.id, at);
  }

  lemma {:induction false} RememberedStep(apps: seq<App>, i: nat)
    requires i < |apps|
    ensures Remembered(apps[i..]) == Entry(apps[i]) + Remembered(apps[i + 1..])
  {
    assert apps[i..][1..] == apps[i + 1..];
  }

  lemma {:induction false} RememberedEnds(apps: seq<App>)
    ensures Remembered(apps[|apps|..]) == [] && apps[0..] == apps
  {
  }
}
