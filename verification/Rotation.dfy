/**
 The rotation of firmware/src/app/Carousel.cpp as functions on its state and the
 apps there are. Carousel runs the same steps on an object.
 */
module Rotation {
  import opened Basics
  import opened AppRegistry

  datatype Config = Config(autoAdvance: bool, defaultSeconds: int)

  datatype State = State(activeId: string, lastIndex: int, activeSince: nat, paused: bool, pinnedId: string)

  const FRESH := State("", -1, 0, false, "")

  function DurationMillis(app: App, config: Config): nat {
    var seconds := if app.seconds > 0 then app.seconds else config.defaultSeconds;
    (if seconds <= 0 then 1 else seconds) * 1000
  }

  predicate EnabledAt(apps: seq<App>, i: int) {
    0 <= i < |apps| && apps[i].enabled
  }

  /** Shows the app at an index, or nothing when there is none. */
  function Activated(s: State, apps: seq<App>, index: int, now: nat): State {
    if 0 <= index < |apps| then s.(activeId := apps[index].id, lastIndex := index, activeSince := now)
    else s.(activeId := "", lastIndex := -1, activeSince := now)
  }

  /** Where what is shown stands. */
  function Place(s: State, apps: seq<App>): (i: int)
    ensures -1 <= i < |apps|
  {
    if s.activeId == "" then -1 else IndexOf(apps, s.activeId)
  }

  function Dwell(s: State, now: nat): nat {
    if now < s.activeSince then 0 else now - s.activeSince
  }

  /** A tick, once the apps whose time is over are gone. */
  function Tick(s: State, apps: seq<App>, config: Config, now: nat): State {
    var pinned := IndexOf(apps, s.pinnedId);
    if s.pinnedId != "" && EnabledAt(apps, pinned) then
      if s.activeId != s.pinnedId then Activated(s, apps, pinned, now) else s
    else Rotate(s.(pinnedId := ""), apps, config, now)
  }

  /** A tick with nothing pinned. */
  function Rotate(s: State, apps: seq<App>, config: Config, now: nat): State {
    var current := Place(s, apps);
    if !EnabledAt(apps, current) then
      Activated(s, apps, NextEnabled(apps, if s.lastIndex >= 0 then s.lastIndex - 1 else -1), now)
    else if s.paused || !config.autoAdvance then s
    else if Dwell(s, now) >= DurationMillis(apps[current], config) then Activated(s, apps, NextEnabled(apps, current), now)
    else s
  }

  function Next(s: State, apps: seq<App>, now: nat): State {
    Activated(s.(pinnedId := ""), apps, NextEnabled(apps, Place(s, apps)), now)
  }

  function Previous(s: State, apps: seq<App>, now: nat): State {
    var from := Place(s, apps);
    Activated(s.(pinnedId := ""), apps, PreviousEnabled(apps, if from >= 0 then from else 0), now)
  }

  function Pin(s: State, apps: seq<App>, id: string, now: nat): (State, bool) {
    var i := IndexOf(apps, id);
    if !EnabledAt(apps, i) then (s, false) else (Activated(s.(pinnedId := id), apps, i, now), true)
  }

  function Jump(s: State, apps: seq<App>, id: string, now: nat): (State, bool) {
    var i := IndexOf(apps, id);
    if !EnabledAt(apps, i) then (s, false) else (Activated(s.(pinnedId := ""), apps, i, now), true)
  }

  // --- what is shown -----------------------------------------------------------------------------

  predicate AnyEnabled(apps: seq<App>) {
    exists i :: 0 <= i < |apps| && apps[i].enabled
  }

  /** An enabled app is shown when there is one, and nothing otherwise. */
  predicate Settled(s: State, apps: seq<App>) {
    if AnyEnabled(apps) then s.activeId != "" && EnabledAt(apps, IndexOf(apps, s.activeId)) else s.activeId == ""
  }

  ghost predicate Named(apps: seq<App>) {
    UniqueIds(apps) && AllNamed(apps)
  }

  lemma {:induction false} ActivatedAt(s: State, apps: seq<App>, i: nat, now: nat)
    requires Named(apps) && i < |apps|
    ensures var t := Activated(s, apps, i, now);
      t.activeId == apps[i].id != "" && IndexOf(apps, t.activeId) == i && Place(t, apps) == i
  {
    hide IndexOf;
    IndexOfFirst(apps, apps[i].id, i);
    assert apps[i] in apps;
  }

  lemma {:induction false} NextSettles(s: State, apps: seq<App>, from: int, now: nat)
    requires Named(apps)
    ensures Settled(Activated(s, apps, NextEnabled(apps, from), now), apps)
    ensures Settled(Activated(s, apps, PreviousEnabled(apps, from), now), apps)
  {
    hide IndexOf, Search, Distance;
    RingNearest(apps, from);
    if AnyEnabled(apps) {
      ActivatedAt(s, apps, NextEnabled(apps, from), now);
      ActivatedAt(s, apps, PreviousEnabled(apps, from), now);
    }
  }

  /** Whatever was shown, pinned or removed before, a tick settles what is shown. */
  lemma {:induction false} TickSettles(s: State, apps: seq<App>, config: Config, now: nat)
    requires Named(apps)
    ensures Settled(Tick(s, apps, config, now), apps)
  {
    hide IndexOf, Search;
    var pinned := IndexOf(apps, s.pinnedId);
    if s.pinnedId != "" && EnabledAt(apps, pinned) {
      ActivatedAt(s, apps, pinned, now);
    } else {
      var current := Place(s, apps);
      NextSettles(s.(pinnedId := ""), apps, if s.lastIndex >= 0 then s.lastIndex - 1 else -1, now);
      NextSettles(s.(pinnedId := ""), apps, current, now);
    }
  }

  /** So do the two buttons. */
  lemma {:induction false} ButtonsSettle(s: State, apps: seq<App>, now: nat)
    requires Named(apps)
    ensures Settled(Next(s, apps, now), apps) && Settled(Previous(s, apps, now), apps)
  {
    hide IndexOf, Search;
    var from := Place(s, apps);
    NextSettles(s.(pinnedId := ""), apps, from, now);
    NextSettles(s.(pinnedId := ""), apps, if from >= 0 then from else 0, now);
  }

  /** One button undoes the other. */
  lemma {:induction false} PreviousUndoes(s: State, apps: seq<App>, now: nat, later: nat)
    requires Named(apps) && s.activeId != "" && EnabledAt(apps, IndexOf(apps, s.activeId))
    ensures Previous(Next(s, apps, now), apps, later).activeId == s.activeId
  {
    hide IndexOf, Search;
    var i := Place(s, apps);
    PreviousUndoesNext(apps, i);
    ActivatedAt(s.(pinnedId := ""), apps, NextEnabled(apps, i), now);
  }

  // --- turns --------------------------------------------------------------------------------------

  /** Ticks one after the other, while the apps stay as they are. */
  function TickAll(s: State, apps: seq<App>, config: Config, times: seq<nat>): State
    decreases |times|
  {
    if times == [] then s else TickAll(Tick(s, apps, config, times[0]), apps, config, times[1..])
  }

  /** Nothing holds the rotation back. */
  predicate Rotates(s: State, apps: seq<App>, config: Config) {
    s.pinnedId == "" && !s.paused && config.autoAdvance && EnabledAt(apps, Place(s, apps))
  }

  /** A tick before what is shown has had its time, and only such a tick, changes nothing. */
  lemma {:induction false} HeldUntilThen(s: State, apps: seq<App>, config: Config, now: nat)
    requires Rotates(s, apps, config)
    ensures Tick(s, apps, config, now) == s <==> Dwell(s, now) < DurationMillis(apps[Place(s, apps)], config)
  {
    hide IndexOf, Search, NextEnabled;
    var t := Activated(s.(pinnedId := ""), apps, NextEnabled(apps, Place(s, apps)), now);
    assert t.activeSince == now;
  }

  lemma {:induction false} TickTurns(s: State, apps: seq<App>, config: Config, now: nat)
    requires Named(apps) && Rotates(s, apps, config)
    requires Dwell(s, now) >= DurationMillis(apps[Place(s, apps)], config)
    ensures var t := Tick(s, apps, config, now);
      && Rotates(t, apps, config) && Place(t, apps) == NextEnabled(apps, Place(s, apps))
      && t.activeSince == now && t.activeId == apps[Place(t, apps)].id
  {
    hide IndexOf, Search, Distance;
    var i := Place(s, apps);
    RingNearest(apps, i);
    assert NextEnabled(apps, i) >= 0;
    ActivatedAt(s, apps, NextEnabled(apps, i), now);
  }

  /** How long an app is to be shown: its own time, when it has one, else the time set
      for all, and a second when neither is set. */
  function SecondsFor(own: int, common: int): nat {
    if own > 0 then own else if common > 0 then common else 1
  }

  predicate AllBefore(times: seq<nat>, end: nat) {
    forall i :: 0 <= i < |times| ==> times[i] < end
  }

  lemma {:induction false} HeldThroughout(s: State, apps: seq<App>, config: Config, times: seq<nat>)
    requires Rotates(s, apps, config)
    requires AllBefore(times, s.activeSince + DurationMillis(apps[Place(s, apps)], config))
    ensures TickAll(s, apps, config, times) == s
    decreases |times|
  {
    hide Rotates, Place, DurationMillis, Tick;
    if times != [] {
      HeldUntilThen(s, apps, config, times[0]);
      DurationPositive(apps, s, config);
      HeldThroughout(s, apps, config, times[1..]);
    }
  }

  lemma DurationPositive(apps: seq<App>, s: State, config: Config)
    requires Rotates(s, apps, config)
    ensures Place(s, apps) >= 0 && DurationMillis(apps[Place(s, apps)], config) > 0
  {
    hide IndexOf;
  }

  /** An app that a tick has brought up stays through all ticks before its seconds are
      over, counted from that tick, and the first one from then on brings up the next. */
  lemma {:induction false} ShownForItsSeconds(s: State, apps: seq<App>, config: Config, up: nat, i: nat, times: seq<nat>, now: nat)
    requires Named(apps) && Rotates(s, apps, config)
    requires Tick(s, apps, config, up) != s && i == Place(Tick(s, apps, config, up), apps)
    requires AllBefore(times, up + SecondsFor(apps[i].seconds, config.defaultSeconds) * 1000)
    ensures var t := Tick(s, apps, config, up); var v := Tick(TickAll(t, apps, config, times), apps, config, now);
      && TickAll(t, apps, config, times) == t
      && if now < up + SecondsFor(apps[i].seconds, config.defaultSeconds) * 1000 then v == t
         else v != t && Place(v, apps) == NextEnabled(apps, i)
  {
    hide Rotates, Place, Tick, TickAll, NextEnabled, AllBefore;
    HeldUntilThen(s, apps, config, up) by { assert Rotates(s, apps, config); }
    var t := Tick(s, apps, config, up);
    TickTurns(s, apps, config, up);
    HeldThroughout(t, apps, config, times);
    HeldUntilThen(t, apps, config, now);
    if now >= up + SecondsFor(apps[i].seconds, config.defaultSeconds) * 1000 {
      TickTurns(t, apps, config, now);
    }
  }

  /** Time does not go back, and ticks come at most gap apart. */
  predicate Regular(start: nat, gap: nat, times: seq<nat>)
    decreases |times|
  {
    times == [] || (start <= times[0] <= start + gap && Regular(times[0], gap, times[1..]))
  }

  /** The ring of apps, cut open before i. */
  function Around(apps: seq<App>, i: nat): (ring: seq<App>)
    requires i <= |apps|
    ensures |ring| == |apps|
  {
    apps[i..] + apps[..i]
  }

  /** How long some apps are shown together. */
  function TotalDwell(apps: seq<App>, config: Config): nat {
    if apps == [] then 0 else DurationMillis(apps[0], config) + TotalDwell(apps[1..], config)
  }

  lemma {:induction false} TotalConcat(a: seq<App>, b: seq<App>, config: Config)
    ensures TotalDwell(a + b, config) == TotalDwell(a, config) + TotalDwell(b, config)
  {
    hide DurationMillis;
    if a == [] {
      assert a + b == b;
    } else {
      TotalConcat(a[1..], b, config);
      assert (a + b)[1..] == a[1..] + b;
    }
  }

  /** Once round is everybody, wherever one starts. */
  lemma {:induction false} OnceRound(apps: seq<App>, i: nat, n: nat, config: Config)
    requires i <= |apps| && n <= |apps|
    ensures TotalDwell(Around(apps, i)[..n], config) <= TotalDwell(Around(apps, i), config) == TotalDwell(apps, config)
  {
    hide TotalDwell;
    var ring := Around(apps, i);
    TotalConcat(ring[..n], ring[n..], config);
    assert ring[..n] + ring[n..] == ring;
    TotalConcat(apps[i..], apps[..i], config);
    TotalConcat(apps[..i], apps[i..], config);
    assert apps[..i] + apps[i..] == apps;
  }

  /** How long the apps from i on are shown, n of them. */
  function Way(apps: seq<App>, i: nat, n: nat, config: Config): nat
    requires i <= |apps| && n <= |apps|
  {
    TotalDwell(Around(apps, i)[..n], config)
  }

  lemma {:induction false} RingStep(apps: seq<App>, i: nat, next: nat, e: nat, n: nat)
    requires i < |apps| && next < |apps| && e == Distance(i, next, 1, |apps|) < n <= |apps|
    ensures Around(apps, next)[..n - e] == Around(apps, i)[e..n]
  {
    hide Distance, Around;
    WaysRound(i, next, |apps|);
    var ring, turned := Around(apps, i), Around(apps, next);
    forall d | 0 <= d < n - e ensures turned[d] == ring[e + d] {
      AroundAt(apps, next, d);
      AroundAt(apps, i, e + d);
    }
  }

  lemma AroundAt(apps: seq<App>, i: nat, d: nat)
    requires i <= |apps| && d < |apps|
    ensures Around(apps, i)[d] == apps[if i + d < |apps| then i + d else i + d - |apps|]
  {
  }

  /** Going on takes off at least the app one leaves. */
  lemma {:induction false} WayShortens(apps: seq<App>, i: nat, next: nat, e: nat, n: nat, config: Config)
    requires i < |apps| && next < |apps| && e == Distance(i, next, 1, |apps|) < n <= |apps|
    ensures Way(apps, i, n, config) >= DurationMillis(apps[i], config) + Way(apps, next, n - e, config)
  {
    hide Distance, DurationMillis, TotalDwell;
    var ring := Around(apps, i);
    RingStep(apps, i, next, e, n);
    TotalConcat(ring[..e], ring[e..n], config);
    assert ring[..e] + ring[e..n] == ring[..n];
    TotalConcat([ring[0]], ring[1..e], config);
    assert [ring[0]] + ring[1..e] == ring[..e];
    TotalOne(ring[0], config);
  }

  lemma TotalOne(app: App, config: Config)
    ensures TotalDwell([app], config) == DurationMillis(app, config)
  {
    hide DurationMillis;
    assert [app][1..] == [];
    assert TotalDwell([], config) == 0;
  }

  /** How late n changes may come, each on the first tick that finds it due. */
  function Lateness(n: nat, gap: nat): nat {
    n * gap
  }

  /** The time by which j comes up: what is shown may keep the panel to the end of
      its time, and so may every app on the way, and each change may be a tick late. */
  function Deadline(s: State, apps: seq<App>, config: Config, j: nat, last: nat, gap: nat): int
    requires EnabledAt(apps, Place(s, apps)) && j < |apps|
  {
    var i := Place(s, apps); var n := Distance(i, j, 1, |apps|);
    Max(last, s.activeSince + DurationMillis(apps[i], config))
      - DurationMillis(apps[i], config) + Way(apps, i, n, config) + Lateness(n, gap)
  }

  /** A tick that comes too early for a change does not move the deadline. */
  lemma {:induction false} EarlyTick(s: State, apps: seq<App>, config: Config, j: nat, last: nat, gap: nat, now: nat)
    requires Named(apps) && Rotates(s, apps, config) && j < |apps| && s.activeSince <= last <= now
    requires Dwell(s, now) < DurationMillis(apps[Place(s, apps)], config)
    ensures Tick(s, apps, config, now) == s
    ensures now < Deadline(s, apps, config, j, now, gap) == Deadline(s, apps, config, j, last, gap)
  {
    hide IndexOf, Search, Distance, DurationMillis, Place, TotalDwell, Tick;
    HeldUntilThen(s, apps, config, now);
    var i := Place(s, apps); var n := Distance(i, j, 1, |apps|);
    WayAtLeast(apps, i, n, config);
  }

  lemma {:induction false} WayAtLeast(apps: seq<App>, i: nat, n: nat, config: Config)
    requires i < |apps| && 1 <= n <= |apps|
    ensures Way(apps, i, n, config) >= DurationMillis(apps[i], config) > 0
  {
    var ring := Around(apps, i)[..n];
    assert ring[0] == apps[i];
  }

  /** A tick that changes what is shown to another app than j moves it forward. */
  lemma {:induction false} LateTick(s: State, apps: seq<App>, config: Config, j: nat, last: nat, gap: nat, now: nat)
    requires Named(apps) && Rotates(s, apps, config) && j < |apps| && apps[j].enabled
    requires s.activeSince <= last <= now <= last + gap
    requires Dwell(s, now) >= DurationMillis(apps[Place(s, apps)], config)
    ensures now <= Deadline(s, apps, config, j, last, gap)
    ensures var t := Tick(s, apps, config, now);
      && Rotates(t, apps, config) && t.activeSince == now && t.activeId == apps[Place(t, apps)].id
      && (Place(t, apps) != j ==> now < Deadline(t, apps, config, j, now, gap) <= Deadline(s, apps, config, j, last, gap))
  {
    hide IndexOf, Search, Distance, DurationMillis, Place, Way, Tick, NextEnabled, Named, IsNearest, Deadline;
    TickTurns(s, apps, config, now);
    var t := Tick(s, apps, config, now);
    LateDeadline(s, apps, config, j, last, gap, now);
    if Place(t, apps) != j {
      TurnDeadline(s, t, apps, config, j, last, gap, now);
    }
  }

  lemma LateDeadline(s: State, apps: seq<App>, config: Config, j: nat, last: nat, gap: nat, now: nat)
    requires Rotates(s, apps, config) && j < |apps| && s.activeSince <= last <= now <= last + gap
    ensures now <= Deadline(s, apps, config, j, last, gap)
  {
    hide IndexOf, Distance, DurationMillis, Place, Way, Named, Lateness;
    var i := Place(s, apps);
    var n := Distance(i, j, 1, |apps|);
    WayAtLeast(apps, i, n, config);
    OneStep(n, gap);
  }

  /** The app left behind takes its time off the deadline. */
  lemma TurnDeadline(s: State, t: State, apps: seq<App>, config: Config, j: nat, last: nat, gap: nat, now: nat)
    requires Rotates(s, apps, config) && Rotates(t, apps, config) && j < |apps| && apps[j].enabled
    requires Place(t, apps) == NextEnabled(apps, Place(s, apps)) != j && t.activeSince == now
    requires s.activeSince <= last <= now <= last + gap
    ensures now < Deadline(t, apps, config, j, now, gap) <= Deadline(s, apps, config, j, last, gap)
  {
    hide IndexOf, Search, Distance, DurationMillis, Place, Way, NextEnabled, Named, Lateness;
    var i, next := Place(s, apps), Place(t, apps);
    var n, e := Distance(i, j, 1, |apps|), Distance(i, next, 1, |apps|);
    NearerFirst(apps, i, next, j);
    WayShortens(apps, i, next, e, n, config);
    WayAtLeast(apps, next, n - e, config);
    MoreSteps(n, e, gap);
  }

  /** What comes next comes no later than any other enabled app. */
  lemma NearerFirst(apps: seq<App>, i: nat, next: nat, j: nat)
    requires i < |apps| && next == NextEnabled(apps, i) < |apps| && j < |apps| && apps[j].enabled && next != j
    ensures var n, e := Distance(i, j, 1, |apps|), Distance(i, next, 1, |apps|);
      e < n && Distance(next, j, 1, |apps|) == n - e
  {
    hide Search, Distance;
    RingNearest(apps, i);
    SameDistance(i, next, j, |apps|);
    DistanceLeft(i, next, j, |apps|);
  }

  lemma MoreSteps(n: nat, e: nat, gap: nat)
    requires 1 <= e <= n
    ensures Lateness(n - e, gap) + gap <= Lateness(n, gap)
  {
    Steps(1, e, gap);
    assert (n - e) * gap + e * gap == n * gap;
  }

  lemma OneStep(n: nat, gap: nat)
    requires n >= 1
    ensures Lateness(n, gap) >= gap
  {
    Steps(1, n, gap);
  }

  lemma Steps(a: nat, b: nat, gap: nat)
    requires a <= b
    ensures Lateness(a, gap) <= Lateness(b, gap)
  {
  }

  /** Ticks that go on to its deadline find j on the panel by then. */
  lemma {:induction false} ShownByDeadline(s: State, apps: seq<App>, config: Config, times: seq<nat>, j: nat, last: nat, gap: nat)
    returns (k: nat)
    requires Named(apps) && Rotates(s, apps, config) && j < |apps| && apps[j].enabled
    requires s.activeSince <= last && Regular(last, gap, times)
    requires times != [] && times[|times| - 1] >= Deadline(s, apps, config, j, last, gap)
    ensures 0 < k <= |times| && times[k - 1] <= Deadline(s, apps, config, j, last, gap)
    ensures TickAll(s, apps, config, times[..k]).activeId == apps[j].id
    decreases |times|
  {
    hide IndexOf, Search, Distance, DurationMillis, Place, Deadline, Tick, NextEnabled;
    var now := times[0];
    var t := Tick(s, apps, config, now);
    if Dwell(s, now) < DurationMillis(apps[Place(s, apps)], config) {
      EarlyTick(s, apps, config, j, last, gap, now);
      k := ShownByDeadline(s, apps, config, times[1..], j, now, gap);
      k := k + 1;
      TickAllPrefix(s, apps, config, times, k);
    } else {
      LateTick(s, apps, config, j, last, gap, now);
      if Place(t, apps) == j {
        k := 1;
        TickAllOne(s, apps, config, times);
      } else {
        k := ShownByDeadline(t, apps, config, times[1..], j, now, gap);
        k := k + 1;
        TickAllPrefix(s, apps, config, times, k);
      }
    }
  }

  lemma TickAllPrefix(s: State, apps: seq<App>, config: Config, times: seq<nat>, k: nat)
    requires 0 < k <= |times|
    ensures TickAll(s, apps, config, times[..k]) == TickAll(Tick(s, apps, config, times[0]), apps, config, times[1..][..k - 1])
  {
    hide Tick;
    assert times[..k][1..] == times[1..][..k - 1];
  }

  lemma TickAllOne(s: State, apps: seq<App>, config: Config, times: seq<nat>)
    requires times != []
    ensures TickAll(s, apps, config, times[..1]) == Tick(s, apps, config, times[0])
  {
    hide Tick;
    TickAllPrefix(s, apps, config, times, 1);
  }

  /** With nothing pinned or paused and ticks at most gap apart, every enabled app
      is on the panel at a tick no later than all apps' times together and one gap
      for each app. */
  lemma {:induction false} EveryAppIsShown(s: State, apps: seq<App>, config: Config, times: seq<nat>, j: nat, last: nat, gap: nat)
    returns (k: nat)
    requires Named(apps) && Rotates(s, apps, config) && j < |apps| && apps[j].enabled
    requires s.activeSince <= last && Regular(last, gap, times)
    requires times != [] && times[|times| - 1] >= last + TotalDwell(apps, config) + |apps| * gap
    ensures 0 < k <= |times| && times[k - 1] <= last + TotalDwell(apps, config) + |apps| * gap
    ensures TickAll(s, apps, config, times[..k]).activeId == apps[j].id
  {
    hide IndexOf, Search, Distance, DurationMillis, Place, Tick, TickAll, TotalDwell;
    var i := Place(s, apps); var n := Distance(i, j, 1, |apps|);
    OnceRound(apps, i, n, config);
    Steps(n, |apps|, gap);
    k := ShownByDeadline(s, apps, config, times, j, last, gap);
  }

  // --- apps that go ---------------------------------------------------------------------------------

  /** Where an app stands once the one at i is gone. */
  function Closed(k: int, i: int): int {
    if k < i then k else k - 1
  }

  /** From the place before a gap the others are as far as they were from what was there. */
  lemma SameWay(i: nat, k: nat, total: nat)
    requires i < total && k < total && k != i
    ensures total > 1 && Distance(i, k, 1, total) == Distance(i - 1, Closed(k, i), 1, total - 1)
  {
    hide Distance;
    var d := if k > i then k - i else total + k - i;
    assert (i + d) % total == k && (i - 1 + d) % (total - 1) == Closed(k, i) by {
      if k > i {
        RemainderIs(i + d, 0, k, total);
        RemainderIs(i - 1 + d, 0, k - 1, total - 1);
      } else {
        RemainderIs(i + d, 1, k, total);
        RemainderIs(i - 1 + d, 1, k, total - 1);
      }
    }
    DistanceReaches(i, k, 1, total, d);
    DistanceReaches(i - 1, Closed(k, i), 1, total - 1, d);
  }

  /** The ring closes over the gap: the next app stays the next. */
  lemma {:induction false} RingCloses(apps: seq<App>, i: nat, next: nat)
    requires i < |apps| && i != next < |apps| && NextEnabled(apps, i) == next
    ensures NextEnabled(Without(apps, i), i - 1) == Closed(next, i)
  {
    hide Search, Distance;
    var rest := Without(apps, i);
    RingNearest(apps, i);
    RingNearest(rest, i - 1);
    forall k | 0 <= k < |apps| && k != i
      ensures rest[Closed(k, i)] == apps[k] && Distance(i, k, 1, |apps|) == Distance(i - 1, Closed(k, i), 1, |rest|)
    {
      SameWay(i, k, |apps|);
    }
    var found := NextEnabled(rest, i - 1);
    assert rest[Closed(next, i)].enabled;
    var was := if found < i then found else found + 1;
    assert Closed(was, i) == found && rest[found] == apps[was];
    if was != next {
      SameDistance(i, was, next, |apps|);
    }
  }

  /** Taking out the app that is shown leads to the one that was next in the ring,
      not back to the start, provided the app is where it was when it came up. */
  lemma {:induction false} RemovalAdvances(s: State, apps: seq<App>, config: Config, i: nat, next: nat, now: nat)
    requires Named(apps) && i < |apps| && s.activeId == apps[i].id && s.pinnedId == ""
    requires s.lastIndex == i && i != next < |apps| && NextEnabled(apps, i) == next
    ensures Tick(s, Without(apps, i), config, now).activeId == apps[next].id
  {
    hide IndexOf, NextEnabled;
    RingCloses(apps, i, next);
    GoneIsUnknown(apps, i);
  }

  /** In general, whatever the position noted when the app that is gone came up, the
      nearest enabled app from that position on is next. */
  lemma {:induction false} GoneResumes(s: State, apps: seq<App>, config: Config, now: nat)
    requires Named(apps) && AnyEnabled(apps) && s.pinnedId == "" && !EnabledAt(apps, Place(s, apps))
    ensures var t := Tick(s, apps, config, now); var from := if s.lastIndex >= 0 then s.lastIndex - 1 else -1;
      && IsNearest(apps, from, 1, t.lastIndex) && t.lastIndex >= 0
      && Place(t, apps) == t.lastIndex && t.activeId == apps[t.lastIndex].id && t.activeSince == now
  {
    hide IndexOf, Search, Distance;
    var from := if s.lastIndex >= 0 then s.lastIndex - 1 else -1;
    RingNearest(apps, from);
    ActivatedAt(s, apps, NextEnabled(apps, from), now);
  }

  /** So the neighbour is next, wherever the app stood when it was taken out, exactly
      when no other enabled app is the nearest from the position noted. */
  lemma {:induction false} RemovalAdvancesIff(s: State, apps: seq<App>, config: Config, i: nat, next: nat, now: nat)
    requires Named(apps) && i < |apps| && s.activeId == apps[i].id && s.pinnedId == ""
    requires i != next < |apps| && NextEnabled(apps, i) == next
    ensures Tick(s, Without(apps, i), config, now).activeId == apps[next].id
       <==> IsNearest(Without(apps, i), if s.lastIndex >= 0 then s.lastIndex - 1 else -1, 1, Closed(next, i))
  {
    hide IndexOf, Search, Distance;
    var rest, from := Without(apps, i), if s.lastIndex >= 0 then s.lastIndex - 1 else -1;
    WithoutUnique(apps, i);
    GoneIsUnknown(apps, i);
    RingNearest(apps, i);
    assert rest[Closed(next, i)] == apps[next];
    forall app | app in rest ensures app in apps {
    }
    GoneResumes(s, rest, config, now);
    var found := Tick(s, rest, config, now).lastIndex;
    if found != Closed(next, i) {
      SameDistance(from, found, Closed(next, i), |rest|);
    }
  }

  /** An app that was moved along after it came up is followed by another one: the
      first of four came up at the front, was moved to the third place, and is
      taken out there. */
  lemma {:induction false} MovedThenRemoved(a: App, b: App, c: App, d: App, config: Config, now: nat)
    requires a.enabled && b.enabled && c.enabled && d.enabled && Named([b, c, a, d])
    ensures var apps, s := [b, c, a, d], State(a.id, 0, 0, false, "");
      && NextEnabled(apps, 2) == 3
      && Tick(s, Without(apps, 2), config, now).activeId == b.id != d.id
  {
    hide IndexOf;
    var apps, s := [b, c, a, d], State(a.id, 0, 0, false, "");
    WrappedIs(3, 4);
    WrappedIs(0, 3);
    assert Without(apps, 2) == [b, c, d];
    GoneIsUnknown(apps, 2);
    assert apps[0].id != apps[3].id;
  }

  lemma {:induction false} GoneIsUnknown(apps: seq<App>, i: nat)
    requires UniqueIds(apps) && i < |apps|
    ensures IndexOf(Without(apps, i), apps[i].id) == -1
  {
    hide IndexOf;
    WithoutUnique(apps, i);
    IndexOfFirst(Without(apps, i), apps[i].id, |apps| - 1);
  }

  /** What is pinned stays on the panel through any ticks that find it enabled. */
  lemma {:induction false} PinnedStays(s: State, apps: seq<App>, config: Config, times: seq<nat>)
    requires s.pinnedId != "" && s.activeId == s.pinnedId && EnabledAt(apps, IndexOf(apps, s.pinnedId))
    ensures TickAll(s, apps, config, times) == s
    decreases |times|
  {
    hide IndexOf, Rotate;
    if times != [] {
      PinnedStays(s, apps, config, times[1..]);
    }
  }
}
