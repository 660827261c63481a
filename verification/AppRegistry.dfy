/**
 The ordered collection of apps of firmware/src/app/AppRegistry.cpp. Positions
 are explicit, and looking round the ring of enabled apps never loops.
 */
module AppRegistry {
  import opened Basics

  const MAX_APPS: nat := 32
  const MAX_SCENE_BYTES: nat := 4096
  const MAX_ID_BYTES: nat := 64

  datatype Source = System | Local | Remote | Integration | Temporary

  /** look stands for name and built-in content, which the registry only carries. */
  datatype App = App(id: string, scene: string, look: string, seconds: int, enabled: bool, source: Source, expiresAt: nat)

  datatype PutResult = Added | Replaced | Full | InvalidId | SceneTooLarge

  predicate UniqueIds(apps: seq<App>) {
    forall i, j :: 0 <= i < j < |apps| ==> apps[i].id != apps[j].id
  }

  ghost predicate AllNamed(apps: seq<App>) {
    forall app :: app in apps ==> app.id != ""
  }

  function IndexOf(apps: seq<App>, id: string): (i: int)
    ensures -1 <= i < |apps|
    ensures i >= 0 ==> apps[i].id == id
  {
    if apps == [] then -1
    else if apps[0].id == id then 0
    else
      var i := IndexOf(apps[1..], id);
      if i < 0 then -1 else i + 1
  }

  /** The first app with an id is where looking it up leads. */
  lemma {:induction false} IndexOfFirst(apps: seq<App>, id: string, i: nat)
    requires i <= |apps| && forall j :: 0 <= j < i ==> apps[j].id != id
    requires i < |apps| ==> apps[i].id == id
    ensures IndexOf(apps, id) == if i < |apps| then i else -1
    decreases i
  {
    if i > 0 {
      IndexOfFirst(apps[1..], id, i - 1);
    }
  }

  lemma {:induction false} IndexOfNone(apps: seq<App>, id: string)
    requires IndexOf(apps, id) < 0
    ensures forall j :: 0 <= j < |apps| ==> apps[j].id != id
  {
    if apps != [] {
      IndexOfNone(apps[1..], id);
      assert apps == [apps[0]] + apps[1..];
    }
  }

  /** The app at from taken out and put in at to. */
  function Moved(apps: seq<App>, from: nat, to: nat): (r: seq<App>)
    requires from < |apps| && to < |apps|
    ensures |r| == |apps|
  {
    var rest := Without(apps, from);
    rest[..to] + [apps[from]] + rest[to..]
  }

  /** Moving shuffles; nothing is lost or doubled. */
  lemma MovedBag(apps: seq<App>, from: nat, to: nat)
    requires from < |apps| && to < |apps|
    ensures multiset(Moved(apps, from, to)) == multiset(apps)
  {
    var rest, app := Without(apps, from), apps[from];
    assert apps == apps[..from] + [app] + apps[from + 1..];
    assert rest == rest[..to] + rest[to..];
    BagOf(apps[..from], app, apps[from + 1..]);
    BagOf(rest[..to], app, rest[to..]);
  }

  lemma BagOf(before: seq<App>, app: App, after: seq<App>)
    ensures multiset(before + [app] + after) == multiset(before + after) + multiset{app}
  {
  }

  // --- the ring -------------------------------------------------------------------------------

  /** A position brought round into range. */
  function Wrapped(v: int, total: nat): int
    requires total > 0
  {
    TruncMod(TruncMod(v, total) + total, total)
  }

  lemma AtLeast(d: nat, total: nat)
    requires d >= 1
    ensures d * total >= total
  {
    assert d * total == (d - 1) * total + total;
  }

  lemma Whole(d: int, total: nat)
    requires total > 0 && 0 - total < d * total < total
    ensures d == 0
  {
    if d >= 1 {
      AtLeast(d, total);
    } else if d <= -1 {
      AtMost(d, total);
    }
  }

  lemma AtMost(d: int, total: nat)
    requires d <= -1
    ensures d * total <= 0 - total
  {
    AtLeast(-d, total);
    assert d * total == -(-d * total);
  }

  lemma RemainderIs(v: int, k: int, m: int, total: nat)
    requires total > 0 && 0 <= m < total && v == k * total + m
    ensures v % total == m
  {
    var k' := v / total;
    assert v == k' * total + v % total;
    assert (k' - k) * total == k' * total - k * total;
    Whole(k' - k, total);
  }

  lemma Divided(v: int, total: nat)
    requires total > 0
    ensures v == v / total * total + v % total && 0 <= v % total < total
  {
  }

  lemma WrappedIs(v: int, total: nat)
    requires total > 0
    ensures Wrapped(v, total) == v % total && 0 <= v % total < total
  {
    Divided(v, total);
    var m := v % total;
    if v >= 0 {
      RemainderIs(m + total, 1, m, total);
    } else {
      Divided(-v, total);
      var k, n := -v / total, -v % total;
      assert v == -k * total - n by {
        assert -k * total == -(k * total);
      }
      if n == 0 {
        RemainderIs(v, -k, 0, total);
        RemainderIs(total, 1, 0, total);
      } else {
        assert (-k - 1) * total == -k * total - total;
        RemainderIs(v, -k - 1, total - n, total);
        RemainderIs(total - n, 0, total - n, total);
      }
    }
  }

  /** The ring search: from from on in direction step, once round. */
  function Search(apps: seq<App>, from: int, direction: int, step: nat): (i: int)
    requires 1 <= step && direction in {1, -1}
    ensures -1 <= i < |apps|
    decreases |apps| + 1 - step
  {
    if step > |apps| then -1
    else
      WrappedIs(from + direction * step, |apps|);
      var candidate := Wrapped(from + direction * step, |apps|);
      if apps[candidate].enabled then candidate else Search(apps, from, direction, step + 1)
  }

  function NextEnabled(apps: seq<App>, from: int): int {
    Search(apps, from, 1, 1)
  }

  function PreviousEnabled(apps: seq<App>, from: int): int {
    Search(apps, from, -1, 1)
  }

  /** How many steps from from to i, going round in a direction: one to |apps|. */
  function Distance(from: int, i: int, direction: int, total: nat): (d: nat)
    requires total > 0
    ensures 1 <= d <= total
  {
    Divided(direction * (i - from) - 1, total);
    (direction * (i - from) - 1) % total + 1
  }

  lemma DistanceIs(from: int, i: int, direction: int, total: nat)
    requires total > 0
    ensures Distance(from, i, direction, total) == (direction * (i - from) - 1) % total + 1
  {
  }

  /** Going that far gets there, and no shorter way does. */
  lemma DistanceReaches(from: int, i: int, direction: int, total: nat, step: nat)
    requires direction in {1, -1} && 0 <= i < total && 1 <= step <= total
    ensures (from + direction * step) % total == i <==> step == Distance(from, i, direction, total)
  {
    hide Distance;
    DistanceIs(from, i, direction, total);
    if direction == 1 {
      StepsOn(i - from - 1, from + step, i, total, step);
    } else {
      StepsBack(from - i - 1, from - step, i, total, step);
    }
  }

  lemma StepsOn(g: int, at: int, i: int, total: nat, step: nat)
    requires 0 <= i < total && 1 <= step <= total && at - i == step - 1 - g
    ensures at % total == i <==> step == g % total + 1
  {
    var k, m, n := g / total, g % total, at / total;
    Divided(g, total);
    Divided(at, total);
    Apart(k * total, k, total);
    if step == m + 1 {
      Arrives(at, i, -k, total);
    } else if at % total == i {
      assert (n + k) * total == n * total + k * total;
      TooNear(step, m + 1, n + k, total);
    }
  }

  lemma StepsBack(g: int, at: int, i: int, total: nat, step: nat)
    requires 0 <= i < total && 1 <= step <= total && i - at == step - 1 - g
    ensures at % total == i <==> step == g % total + 1
  {
    var k, m, n := g / total, g % total, at / total;
    Divided(g, total);
    Divided(at, total);
    if step == m + 1 {
      Arrives(at, i, k, total);
    } else if at % total == i {
      assert (n - k) * total == n * total - k * total;
      TooNear(m + 1, step, n - k, total);
    }
  }

  lemma Apart(gap: int, k: int, total: nat)
    requires gap == k * total
    ensures gap == k * total && -gap == -k * total
  {
    assert -k * total == -(k * total);
  }

  lemma Arrives(at: int, i: int, k: int, total: nat)
    requires 0 <= i < total && at == k * total + i
    ensures at % total == i
  {
    RemainderIs(at, k, i, total);
  }

  /** Two steps round the ring that end in one place are the same. */
  lemma TooNear(a: nat, b: nat, k: int, total: nat)
    requires 1 <= a <= total && 1 <= b <= total && a - b == k * total
    ensures a == b
  {
    Whole(k, total);
  }

  /** What the search finds is enabled and nearer than any other enabled app; it
      finds nothing only when none is. */
  predicate IsNearest(apps: seq<App>, from: int, direction: int, found: int) {
    if found < 0 then forall i :: 0 <= i < |apps| ==> !apps[i].enabled
    else
      found < |apps| && apps[found].enabled
      && forall i :: 0 <= i < |apps| && apps[i].enabled ==>
           Distance(from, found, direction, |apps|) <= Distance(from, i, direction, |apps|)
  }

  lemma {:induction false} SearchNearest(apps: seq<App>, from: int, direction: int, step: nat)
    requires 1 <= step && direction in {1, -1}
    requires forall i :: 0 <= i < |apps| && apps[i].enabled ==> step <= Distance(from, i, direction, |apps|)
    ensures IsNearest(apps, from, direction, Search(apps, from, direction, step))
    decreases |apps| + 1 - step
  {
    hide Distance, Wrapped;
    if step <= |apps| {
      WrappedIs(from + direction * step, |apps|);
      var candidate := (from + direction * step) % |apps|;
      DistanceReaches(from, candidate, direction, |apps|, step);
      if !apps[candidate].enabled {
        forall i | 0 <= i < |apps| && apps[i].enabled ensures step + 1 <= Distance(from, i, direction, |apps|) {
          DistanceReaches(from, i, direction, |apps|, step);
        }
        SearchNearest(apps, from, direction, step + 1);
      }
    } else {
      forall i | 0 <= i < |apps| ensures !apps[i].enabled {
        assert Distance(from, i, direction, |apps|) <= |apps|;
      }
    }
  }

  /** The ring is walked in order: the next enabled app is the nearest one ahead,
      the previous one the nearest behind. */
  lemma RingNearest(apps: seq<App>, from: int)
    ensures IsNearest(apps, from, 1, NextEnabled(apps, from))
    ensures IsNearest(apps, from, -1, PreviousEnabled(apps, from))
  {
    SearchNearest(apps, from, 1, 1);
    SearchNearest(apps, from, -1, 1);
  }

  /** The app one is at after going on n times. */
  function Turn(apps: seq<App>, from: int, n: nat): int
    decreases n
  {
    if n == 0 then from else Turn(apps, NextEnabled(apps, from), n - 1)
  }

  /** Past an app on the way, the rest of the way is left. */
  lemma DistanceLeft(from: int, i: int, j: int, total: nat)
    requires 0 <= i < total && 0 <= j < total && Distance(from, i, 1, total) < Distance(from, j, 1, total)
    ensures Distance(i, j, 1, total) == Distance(from, j, 1, total) - Distance(from, i, 1, total)
  {
    hide Distance;
    var a, b := Distance(from, i, 1, total), Distance(from, j, 1, total);
    DistanceReaches(from, i, 1, total, a);
    DistanceReaches(from, j, 1, total, b);
    Divided(from + a, total);
    Divided(from + b, total);
    var k, l := (from + a) / total, (from + b) / total;
    assert i + (b - a) == (l - k) * total + j by {
      assert (l - k) * total == l * total - k * total;
    }
    RemainderIs(i + (b - a), l - k, j, total);
    DistanceReaches(i, j, 1, total, b - a);
  }

  /** Everybody enabled gets a turn: going on reaches each enabled app in no more
      turns than there are apps. */
  lemma {:induction false} EveryoneGetsATurn(apps: seq<App>, from: int, j: nat) returns (n: nat)
    requires j < |apps| && apps[j].enabled
    ensures 0 < n <= Distance(from, j, 1, |apps|) <= |apps| && Turn(apps, from, n) == j
    decreases Distance(from, j, 1, |apps|)
  {
    hide Distance, Search;
    RingNearest(apps, from);
    var next := NextEnabled(apps, from);
    if next == j {
      n := 1;
      assert Turn(apps, from, 1) == Turn(apps, next, 0);
    } else {
      SameDistance(from, next, j, |apps|);
      DistanceLeft(from, next, j, |apps|);
      n := EveryoneGetsATurn(apps, next, j);
      n := n + 1;
    }
  }

  /** Different places are different distances away. */
  lemma SameDistance(from: int, i: int, j: int, total: nat)
    requires 0 <= i < total && 0 <= j < total && i != j
    ensures Distance(from, i, 1, total) != Distance(from, j, 1, total)
  {
    hide Distance;
    DistanceReaches(from, i, 1, total, Distance(from, i, 1, total));
    DistanceReaches(from, j, 1, total, Distance(from, j, 1, total));
  }

  /** One way round and the other make the whole ring, or twice when there and
      back are the same place. */
  lemma WaysRound(i: int, j: int, total: nat)
    requires 0 <= i < total && 0 <= j < total
    ensures i == j ==> Distance(i, j, 1, total) == Distance(j, i, -1, total) == total
    ensures Distance(i, j, 1, total) == Distance(j, i, -1, total)
    ensures i < j ==> Distance(i, j, 1, total) == j - i
    ensures i > j ==> Distance(i, j, 1, total) == total + j - i
  {
    if i < j {
      RemainderIs(j - i - 1, 0, j - i - 1, total);
    } else {
      RemainderIs(j - i - 1, -1, total + j - i - 1, total);
    }
  }

  /** Going on and then back returns to where one was. */
  lemma PreviousUndoesNext(apps: seq<App>, i: nat)
    requires i < |apps| && apps[i].enabled
    ensures var next := NextEnabled(apps, i); next >= 0 && PreviousEnabled(apps, next) == i
  {
    hide Distance, Search;
    RingNearest(apps, i);
    var next := NextEnabled(apps, i);
    RingNearest(apps, next);
    var back := PreviousEnabled(apps, next);
    WaysRound(i, next, |apps|);
    WaysRound(back, next, |apps|);
    WaysRound(i, back, |apps|);
    WaysRound(back, i, |apps|);
  }

  // --- changes ------------------------------------------------------------------------------------

  function Put(apps: seq<App>, app: App): (seq<App>, PutResult) {
    if app.id == "" || |app.id| > MAX_ID_BYTES then (apps, InvalidId)
    else if |app.scene| > MAX_SCENE_BYTES then (apps, SceneTooLarge)
    else
      var existing := IndexOf(apps, app.id);
      if existing >= 0 then (apps[existing := app], Replaced)
      else if |apps| >= MAX_APPS then (apps, Full)
      else (apps + [app], Added)
  }

  /** The ids there are. */
  function Ids(apps: seq<App>): set<string> {
    set app | app in apps :: app.id
  }

  /** An app is taken exactly when its id and its scene fit and the ids there would then
      be do; it then is what its id finds, every other app stays where it was, and a new
      one comes last. */
  lemma {:induction false} PutAcceptedIff(apps: seq<App>, app: App)
    requires UniqueIds(apps) && |apps| <= MAX_APPS
    ensures var (t, r) := Put(apps, app);
      var fits := 0 < |app.id| <= MAX_ID_BYTES && |app.scene| <= MAX_SCENE_BYTES;
      && (r == Added || r == Replaced <==> fits && |Ids(apps) + {app.id}| <= MAX_APPS)
      && (r == Replaced <==> fits && app.id in Ids(apps))
      && (r == Added || r == Replaced ==>
            var at := if r == Added then |apps| else IndexOf(apps, app.id);
            && 0 <= at < |t| && t[at] == app && IndexOf(t, app.id) == at && Ids(t) == Ids(apps) + {app.id}
            && |t| == |apps| + (if r == Added then 1 else 0)
            && forall k :: 0 <= k < |apps| && k != at ==> t[k] == apps[k])
      && (r == InvalidId <==> !(0 < |app.id| <= MAX_ID_BYTES)) && (r != Added && r != Replaced ==> t == apps)
  {
    hide IndexOf;
    IdsCounted(apps);
    var at, t := IndexOf(apps, app.id), Put(apps, app).0;
    if at < 0 {
      IndexOfNone(apps, app.id);
      assert app.id !in Ids(apps);
      IndexOfFirst(apps + [app], app.id, |apps|);
      AddedIds(apps, app);
    } else {
      assert apps[at] in apps;
      assert Ids(apps) + {app.id} == Ids(apps);
      IndexOfFirst(apps[at := app], app.id, at);
      ReplacedIds(apps, at, app);
    }
  }

  lemma AddedIds(apps: seq<App>, app: App)
    ensures Ids(apps + [app]) == Ids(apps) + {app.id}
  {
    assert forall a :: a in apps + [app] <==> a in apps || a == app;
    forall id | id in Ids(apps) + {app.id} ensures id in Ids(apps + [app]) {
      if id == app.id {
        assert app in apps + [app];
      } else {
        var a :| a in apps && a.id == id;
        assert a in apps + [app];
      }
    }
  }

  lemma ReplacedIds(apps: seq<App>, i: nat, app: App)
    requires i < |apps| && apps[i].id == app.id
    ensures Ids(apps[i := app]) == Ids(apps)
  {
    forall id | id in Ids(apps) ensures id in Ids(apps[i := app]) {
      var k :| 0 <= k < |apps| && apps[k].id == id;
      assert apps[i := app][k].id == id;
    }
    forall id | id in Ids(apps[i := app]) ensures id in Ids(apps) {
      var k :| 0 <= k < |apps| && apps[i := app][k].id == id;
      assert apps[k].id == id;
    }
  }

  lemma {:induction false} IdsCounted(apps: seq<App>)
    requires UniqueIds(apps)
    ensures |Ids(apps)| == |apps|
  {
    if apps != [] {
      var front, last := apps[..|apps| - 1], apps[|apps| - 1];
      IdsCounted(front);
      assert apps == front + [last];
      AddedIds(front, last);
      assert last.id !in Ids(front);
    }
  }

  predicate Expired(app: App, now: nat) {
    app.source == Temporary && app.expiresAt != 0 && now >= app.expiresAt
  }

  /** The apps that have not run out, in order. */
  function Lasting(apps: seq<App>, now: nat): (r: seq<App>)
    ensures |r| <= |apps|
  {
    if apps == [] then [] else (if Expired(apps[0], now) then [] else [apps[0]]) + Lasting(apps[1..], now)
  }

  lemma {:induction false} LastingKept(apps: seq<App>, now: nat)
    requires UniqueIds(apps)
    ensures UniqueIds(Lasting(apps, now))
    ensures forall app :: app in Lasting(apps, now) <==> app in apps && !Expired(app, now)
  {
    if apps != [] {
      LastingKept(apps[1..], now);
      assert apps == [apps[0]] + apps[1..];
      var later := Lasting(apps[1..], now);
      forall j | 0 <= j < |later| ensures later[j].id != apps[0].id {
        assert later[j] in apps[1..];
      }
    }
  }

  lemma NothingLasts(now: nat)
    ensures Lasting([], now) == []
  {
  }

  /** One turn of expire, from the back. */
  lemma LastingStep(all: seq<App>, i: nat, tail: seq<App>, now: nat)
    requires 0 < i <= |all| && tail == Lasting(all[i..], now)
    ensures var apps := all[..i] + tail;
      && apps[i - 1] == all[i - 1] && apps[..i - 1] + apps[i..] == all[..i - 1] + tail
      && apps == all[..i - 1] + ([all[i - 1]] + tail)
    ensures Lasting(all[i - 1..], now) == if Expired(all[i - 1], now) then tail else [all[i - 1]] + tail
  {
    assert all[i - 1..] == [all[i - 1]] + all[i..];
    assert all[..i] == all[..i - 1] + [all[i - 1]];
  }

  class AppRegistry {
    var apps: seq<App>
    var revision: nat

    constructor ()
      ensures Valid() && apps == []
    {
      apps, revision := [], 0;
    }

    /** Ids are unique and not empty, and the registry is bounded. */
    ghost predicate Valid()
      reads this
    {
      UniqueIds(apps) && |apps| <= MAX_APPS && AllNamed(apps)
    }

    method PutApp(app: App) returns (r: PutResult)
      requires Valid()
      modifies this
      ensures Valid() && (apps, r) == Put(old(apps), app)
      ensures revision == if r == Added || r == Replaced then old(revision) + 1 else old(revision)
    {
      if app.id == "" || |app.id| > MAX_ID_BYTES {
        return InvalidId;
      }
      if |app.scene| > MAX_SCENE_BYTES {
        return SceneTooLarge;
      }
      var existing := Position(app.id);
      if existing >= 0 {
        apps := apps[existing := app];
        revision := revision + 1;
        return Replaced;
      }
      if |apps| >= MAX_APPS {
        return Full;
      }
      IndexOfNone(apps, app.id);
      apps := apps + [app];
      revision := revision + 1;
      return Added;
    }

    method Position(id: string) returns (i: int)
      ensures i == IndexOf(apps, id)
    {
      for k := 0 to |apps|
        invariant forall j :: 0 <= j < k ==> apps[j].id != id
      {
        if apps[k].id == id {
          IndexOfFirst(apps, id, k);
          return k;
        }
      }
      IndexOfFirst(apps, id, |apps|);
      return -1;
    }

    method Remove(id: string) returns (removed: bool)
      requires Valid()
      modifies this
      ensures Valid()
      ensures var i := IndexOf(old(apps), id);
        if i < 0 then !removed && apps == old(apps) && revision == old(revision)
        else removed && apps == Without(old(apps), i) && revision == old(revision) + 1
    {
      var index := Position(id);
      if index < 0 {
        return false;
      }
      WithoutUnique(apps, index);
      apps := apps[..index] + apps[index + 1..];
      revision := revision + 1;
      return true;
    }

    /** To an explicit position, the others shifting along. */
    method MoveTo(id: string, newIndex: int) returns (moved: bool)
      requires Valid()
      modifies this
      ensures Valid()
      ensures var i := IndexOf(old(apps), id);
        if i < 0 || newIndex < 0 || newIndex >= |old(apps)| then !moved && apps == old(apps) && revision == old(revision)
        else moved && apps == Moved(old(apps), i, newIndex)
             && revision == if i == newIndex then old(revision) else old(revision) + 1
    {
      var current := Position(id);
      if current < 0 || newIndex < 0 || newIndex >= |apps| {
        return false;
      }
      MovedUnique(apps, current, newIndex);
      MovedHas(apps, current, newIndex);
      if current == newIndex {
        MovedNowhere(apps, current);
        return true;
      }
      var app := apps[current];
      apps := apps[..current] + apps[current + 1..];
      apps := apps[..newIndex] + [app] + apps[newIndex..];
      revision := revision + 1;
      return true;
    }

    method SetEnabled(id: string, enabled: bool) returns (found: bool)
      requires Valid()
      modifies this
      ensures Valid()
      ensures var i := IndexOf(old(apps), id);
        if i < 0 then !found && apps == old(apps) && revision == old(revision)
        else found && apps == old(apps)[i := old(apps)[i].(enabled := enabled)]
             && revision == if old(apps)[i].enabled == enabled then old(revision) else old(revision) + 1
    {
      var i := Position(id);
      if i < 0 {
        return false;
      }
      if apps[i].enabled != enabled {
        apps := apps[i := apps[i].(enabled := enabled)];
        revision := revision + 1;
      } else {
        assert apps[i := apps[i]] == apps;
      }
      return true;
    }

    method Next(from: int) returns (found: int)
      ensures found == NextEnabled(apps, from)
    {
      if |apps| == 0 {
        return -1;
      }
      for step := 1 to |apps| + 1
        invariant Search(apps, from, 1, step) == NextEnabled(apps, from)
      {
        WrappedIs(from + step, |apps|);
        var candidate := Wrapped(from + step, |apps|);
        assert from + 1 * step == from + step;
        if apps[candidate].enabled {
          return candidate;
        }
      }
      return -1;
    }

    method Previous(from: int) returns (found: int)
      ensures found == PreviousEnabled(apps, from)
    {
      if |apps| == 0 {
        return -1;
      }
      for step := 1 to |apps| + 1
        invariant Search(apps, from, -1, step) == PreviousEnabled(apps, from)
      {
        WrappedIs(from - step, |apps|);
        var candidate := Wrapped(from - step, |apps|);
        assert from + -1 * step == from - step;
        if apps[candidate].enabled {
          return candidate;
        }
      }
      return -1;
    }

    /** Temporary apps whose time has passed go; the rest keep their order. */
    method Expire(now: nat) returns (removed: nat)
      requires Valid()
      modifies this
      ensures Valid() && apps == Lasting(old(apps), now) && removed == |old(apps)| - |apps|
      ensures revision == if removed > 0 then old(revision) + 1 else old(revision)
    {
      hide Lasting;
      LastingKept(apps, now);
      NothingLasts(now);
      removed := 0;
      var i := |apps|;
      ghost var all := apps;
      assert apps[..i] == apps && all[i..] == [];
      while i > 0
        invariant 0 <= i <= |all| && removed + |apps| == |all| && i <= |apps|
        invariant apps == all[..i] + Lasting(all[i..], now) && revision == old(revision)
      {
        LastingStep(all, i, Lasting(all[i..], now), now);
        if Expired(apps[i - 1], now) {
          apps := apps[..i - 1] + apps[i..];
          removed := removed + 1;
        }
        i := i - 1;
      }
      assert all[0..] == all;
      if removed > 0 {
        revision := revision + 1;
      }
    }
  }

  lemma WithoutUnique(apps: seq<App>, i: nat)
    requires i < |apps| && UniqueIds(apps)
    ensures UniqueIds(Without(apps, i)) && forall k :: 0 <= k < |apps| - 1 ==> Without(apps, i)[k].id != apps[i].id
  {
    var rest := Without(apps, i);
    forall k | 0 <= k < |rest| ensures rest[k] == if k < i then apps[k] else apps[k + 1] {
    }
  }

  lemma InsertedUnique(rest: seq<App>, to: nat, app: App)
    requires to <= |rest| && UniqueIds(rest) && forall k :: 0 <= k < |rest| ==> rest[k].id != app.id
    ensures UniqueIds(rest[..to] + [app] + rest[to..])
  {
    var r := rest[..to] + [app] + rest[to..];
    forall k | 0 <= k < |r| ensures r[k] == if k < to then rest[k] else if k == to then app else rest[k - 1] {
    }
  }

  lemma MovedUnique(apps: seq<App>, from: nat, to: nat)
    requires from < |apps| && to < |apps| && UniqueIds(apps)
    ensures UniqueIds(Moved(apps, from, to))
  {
    hide UniqueIds;
    WithoutUnique(apps, from);
    InsertedUnique(Without(apps, from), to, apps[from]);
  }

  lemma MovedHas(apps: seq<App>, from: nat, to: nat)
    requires from < |apps| && to < |apps|
    ensures forall app :: app in Moved(apps, from, to) ==> app in apps
  {
  }

  lemma MovedNowhere(apps: seq<App>, i: nat)
    requires i < |apps|
    ensures Moved(apps, i, i) == apps
  {
  }
}
