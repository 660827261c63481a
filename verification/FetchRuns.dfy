/**
 The fetch schedule over whole runs: one fetch at a time, each answer to the feed
 that asked, and no due feed passed over.
 */
module FetchRuns {
  import opened Basics
  import opened ScriptFetch

  // --- in every run -----------------------------------------------------------------------------

  predicate DistinctFeeds(feeds: seq<Feed>) {
    forall i, j :: 0 <= i < j < |feeds| ==> feeds[i].script != feeds[j].script || feeds[i].url != feeds[j].url
  }

  predicate Paced(feeds: seq<Feed>) {
    forall i :: 0 <= i < |feeds| ==> MIN_INTERVAL <= feeds[i].interval <= MAX_INTERVAL
  }

  ghost predicate FewPerScript(feeds: seq<Feed>) {
    |feeds| <= MAX_FEEDS && forall script :: CountOf(feeds, script) <= MAX_FEEDS_PER_SCRIPT
  }

  /** running names a feed, and the client is fetching that feed's URL; when
      running names none the client is at rest. */
  predicate OneFetch(s: State) {
    -1 <= s.running < |s.feeds|
    && (if s.running >= 0 then s.hasClient && s.http == Busy(s.feeds[s.running].url) else s.http == Quiet)
  }

  /** running names a feed or none, and feeds are distinct, paced and bounded. */
  ghost predicate Scheduled(s: State) {
    -1 <= s.running < |s.feeds| && DistinctFeeds(s.feeds) && Paced(s.feeds) && FewPerScript(s.feeds)
  }

  ghost predicate Sound(s: State) {
    OneFetch(s) && Scheduled(s)
  }

  datatype Op =
    | Followed(script: string, url: string, usable: bool, interval: nat)
    | Forgotten(script: string)
    | Ticked(input: Input)
    | NetworkSet(up: bool)
    | ClientSet(present: bool)

  function Apply(s: State, op: Op): State {
    match op
    case Followed(script, url, usable, interval) => Follow(s, script, url, usable, interval).0
    case Forgotten(script) => Forget(s, script)
    case Ticked(input) => Tick(s, input)
    case NetworkSet(up) => s.(networkUp := up)
    case ClientSet(present) => SetClient(s, present)
  }

  function Run(s: State, ops: seq<Op>): State
    decreases |ops|
  {
    if ops == [] then s else Run(Apply(s, ops[0]), ops[1..])
  }

  lemma {:induction false} CountUpdated(feeds: seq<Feed>, i: nat, f: Feed, script: string)
    requires i < |feeds| && f.script == feeds[i].script
    ensures CountOf(feeds[i := f], script) == CountOf(feeds, script)
    decreases |feeds|
  {
    var n := |feeds| - 1;
    if i < n {
      CountUpdated(feeds[..n], i, f, script);
      assert feeds[i := f][..n] == feeds[..n][i := f];
    } else {
      assert feeds[i := f][..n] == feeds[..n];
    }
  }

  /** A feed that keeps its script, its URL and its pace. */
  predicate SameFeed(f: Feed, g: Feed) {
    f.script == g.script && f.url == g.url && MIN_INTERVAL <= f.interval <= MAX_INTERVAL
  }

  lemma FeedUpdated(feeds: seq<Feed>, i: nat, f: Feed)
    requires i < |feeds| && DistinctFeeds(feeds) && Paced(feeds) && FewPerScript(feeds) && SameFeed(f, feeds[i])
    ensures DistinctFeeds(feeds[i := f]) && Paced(feeds[i := f]) && FewPerScript(feeds[i := f])
  {
    var updated := feeds[i := f];
    forall script ensures CountOf(updated, script) <= MAX_FEEDS_PER_SCRIPT {
      CountUpdated(feeds, i, f, script);
    }
  }

  lemma {:induction false} OthersKept(feeds: seq<Feed>, script: string)
    requires DistinctFeeds(feeds) && Paced(feeds)
    ensures DistinctFeeds(Others(feeds, script)) && Paced(Others(feeds, script))
    ensures forall f :: f in Others(feeds, script) ==> f in feeds
  {
    if feeds != [] {
      var front, last := feeds[..|feeds| - 1], feeds[|feeds| - 1];
      OthersKept(front, script);
      var kept := Others(front, script);
      forall i | 0 <= i < |kept| ensures kept[i].script != last.script || kept[i].url != last.url {
        assert kept[i] in front;
      }
    }
  }

  lemma {:induction false} OthersCount(feeds: seq<Feed>, script: string, other: string)
    ensures CountOf(Others(feeds, script), other) == if other == script then 0 else CountOf(feeds, other)
  {
    if feeds != [] {
      var front, last := feeds[..|feeds| - 1], feeds[|feeds| - 1];
      OthersCount(front, script, other);
      CountSnoc(Others(front, script), last, other);
    }
  }

  lemma TickSound(s: State, t: Input)
    requires Sound(s)
    ensures Sound(Tick(s, t))
  {
    hide Scheduled, DueFrom, Settled;
    TickScheduled(s, t);
  }

  lemma TickScheduled(s: State, t: Input)
    requires Scheduled(s)
    ensures Scheduled(Tick(s, t))
  {
    hide DistinctFeeds, Paced, FewPerScript, DueFrom, Settled;
    if s.hasClient {
      var c := Collect(s.(now := t.now), t.now, t.answer);
      if s.running >= 0 {
        SettledSame(s.feeds, s.running, t);
        FeedUpdated(s.feeds, s.running, Settled(s.feeds[s.running], t.now, t.answer));
      }
      var due := Due(c.feeds, t.now);
      if due.Some? && t.refusal.Some? {
        PacedAt(c.feeds, due.value);
        var reason := t.refusal.value;
        FeedUpdated(c.feeds, due.value, c.feeds[due.value].(failure := if reason == "" then "cannot fetch" else reason,
                                                           due := t.now + FAILURE_BACKOFF));
      }
    }
  }

  lemma PacedAt(feeds: seq<Feed>, i: nat)
    requires Paced(feeds) && i < |feeds|
    ensures SameFeed(feeds[i], feeds[i])
  {
  }

  lemma SettledSame(feeds: seq<Feed>, i: nat, t: Input)
    requires Paced(feeds) && i < |feeds|
    ensures SameFeed(Settled(feeds[i], t.now, t.answer), feeds[i]) && Settled(feeds[i], t.now, t.answer).due > t.now
  {
  }

  lemma FollowSound(s: State, script: string, url: string, usable: bool, interval: nat)
    requires Sound(s)
    ensures Sound(Follow(s, script, url, usable, interval).0)
  {
    hide CountOf, Scheduled;
    FollowScheduled(s, script, url, usable, interval);
  }

  lemma FollowScheduled(s: State, script: string, url: string, usable: bool, interval: nat)
    requires Scheduled(s)
    ensures Scheduled(Follow(s, script, url, usable, interval).0)
  {
    hide CountOf;
    var found := Find(s.feeds, script, url);
    if found.Some? {
      FeedUpdated(s.feeds, found.value, s.feeds[found.value].(interval := Clamped(interval)));
    } else {
      var added := Feed(script, url, Clamped(interval), 0, "", 0, "", 0, false);
      if CountOf(s.feeds, script) < MAX_FEEDS_PER_SCRIPT {
        var longer := s.feeds + [added];
        forall other ensures CountOf(longer, other) <= MAX_FEEDS_PER_SCRIPT {
          CountSnoc(s.feeds, added, other);
        }
      }
    }
  }

  /** A feed can be followed exactly when it already is, or there is room for one more of
      its script and in all; it then has the pace asked for, within the limits, and no
      other feed is touched. */
  lemma FollowTakenIff(s: State, script: string, url: string, usable: bool, interval: nat)
    requires Scheduled(s)
    ensures var (t, ok) := Follow(s, script, url, usable, interval);
      && (ok <==>
            && script != "" && usable
            && (Find(s.feeds, script, url).Some? || (CountOf(s.feeds, script) < MAX_FEEDS_PER_SCRIPT && |s.feeds| < MAX_FEEDS)))
      && (!ok ==> t == s)
      && (ok ==>
            var at := Find(t.feeds, script, url);
            && at.Some? && t.feeds[at.value].interval == Max(MIN_INTERVAL, Min(MAX_INTERVAL, if interval == 0 then DEFAULT_INTERVAL else interval))
            && forall f: Feed :: f.script != script || f.url != url ==> (f in t.feeds <==> f in s.feeds))
  {
    hide CountOf, FewPerScript, Paced;
    var found := Find(s.feeds, script, url);
    var t := Follow(s, script, url, usable, interval).0;
    if found.Some? {
      FindsIt(t.feeds, script, url, found.value);
      ChangedOne(s.feeds, found.value, t.feeds[found.value]);
    } else if t != s {
      FindsIt(t.feeds, script, url, |s.feeds|);
    }
  }

  lemma FindsIt(feeds: seq<Feed>, script: string, url: string, i: nat)
    requires i < |feeds| && feeds[i].script == script && feeds[i].url == url
    requires forall j :: 0 <= j < |feeds| && j != i ==> feeds[j].script != script || feeds[j].url != url
    ensures Find(feeds, script, url) == Some(i)
  {
    hide Find;
  }

  lemma ChangedOne(feeds: seq<Feed>, i: nat, g: Feed)
    requires i < |feeds| && g.script == feeds[i].script && g.url == feeds[i].url
    ensures forall f: Feed :: f.script != g.script || f.url != g.url ==> (f in feeds[i := g] <==> f in feeds)
  {
    forall f: Feed | f.script != g.script || f.url != g.url ensures f in feeds[i := g] <==> f in feeds {
      if f in feeds {
        var j :| 0 <= j < |feeds| && feeds[j] == f;
        assert feeds[i := g][j] == f;
      }
    }
  }

  lemma CountSnoc(feeds: seq<Feed>, f: Feed, script: string)
    ensures CountOf(feeds + [f], script) == CountOf(feeds, script) + if f.script == script then 1 else 0
  {
    assert (feeds + [f])[..|feeds|] == feeds;
  }

  lemma {:induction false} OthersAll(feeds: seq<Feed>, script: string)
    requires |Others(feeds, script)| == |feeds|
    ensures Others(feeds, script) == feeds
  {
    if feeds != [] {
      OthersAll(feeds[..|feeds| - 1], script);
      assert feeds == feeds[..|feeds| - 1] + [feeds[|feeds| - 1]];
    }
  }

  lemma ForgetSound(s: State, script: string)
    requires Sound(s)
    ensures Sound(Forget(s, script)) && CountOf(Forget(s, script).feeds, script) == 0
  {
    hide CountOf, Others, Scheduled;
    ForgetScheduled(s, script);
    if |Others(s.feeds, script)| == |s.feeds| {
      OthersAll(s.feeds, script);
    }
  }

  lemma ForgetScheduled(s: State, script: string)
    requires Scheduled(s)
    ensures Scheduled(Forget(s, script)) && CountOf(Forget(s, script).feeds, script) == 0
  {
    hide CountOf, Others;
    OthersKept(s.feeds, script);
    var kept := Others(s.feeds, script);
    forall other ensures CountOf(kept, other) <= MAX_FEEDS_PER_SCRIPT && (other == script ==> CountOf(kept, other) == 0) {
      OthersCount(s.feeds, script, other);
    }
    if |kept| == |s.feeds| {
      OthersAll(s.feeds, script);
    }
  }

  lemma OpScheduled(s: State, op: Op)
    requires Scheduled(s)
    ensures Scheduled(Apply(s, op))
  {
    hide Tick, Follow, Forget, FewPerScript, DistinctFeeds;
    match op {
      case Followed(script, url, usable, interval) => FollowScheduled(s, script, url, usable, interval);
      case Forgotten(script) => ForgetScheduled(s, script);
      case Ticked(input) => TickScheduled(s, input);
      case NetworkSet(_) =>
      case ClientSet(_) =>
    }
  }

  /** In every run running names a feed or none, and feeds stay distinct, paced and
      bounded, however they come and go and whenever the client is exchanged. */
  lemma {:induction false} RunScheduled(s: State, ops: seq<Op>)
    requires Scheduled(s)
    ensures Scheduled(Run(s, ops))
    decreases |ops|
  {
    hide Apply, Scheduled;
    if ops != [] {
      OpScheduled(s, ops[0]);
      RunScheduled(Apply(s, ops[0]), ops[1..]);
    }
  }

  /** The client is not exchanged while it is fetching. */
  predicate Undisturbed(s: State, op: Op) {
    op.ClientSet? ==> s.running < 0
  }

  predicate AllUndisturbed(s: State, ops: seq<Op>)
    decreases |ops|
  {
    ops == [] || (Undisturbed(s, ops[0]) && AllUndisturbed(Apply(s, ops[0]), ops[1..]))
  }

  lemma OpSound(s: State, op: Op)
    requires Sound(s) && Undisturbed(s, op)
    ensures Sound(Apply(s, op))
  {
    hide Tick, Follow, Forget, FewPerScript, DistinctFeeds;
    match op {
      case Followed(script, url, usable, interval) => FollowSound(s, script, url, usable, interval);
      case Forgotten(script) => ForgetSound(s, script);
      case Ticked(input) => TickSound(s, input);
      case NetworkSet(_) =>
      case ClientSet(_) =>
    }
  }

  /** What the client is fetching is moreover what running names, as long as the
      client is only exchanged between fetches. */
  lemma {:induction false} RunSound(s: State, ops: seq<Op>)
    requires Sound(s) && AllUndisturbed(s, ops)
    ensures Sound(Run(s, ops))
    decreases |ops|
  {
    hide Apply, Sound, Undisturbed;
    if ops != [] {
      OpSound(s, ops[0]);
      RunSound(Apply(s, ops[0]), ops[1..]);
    }
  }

  /** That is needed: a client set during a fetch does not fetch what running names. */
  lemma SetClientSoundIff(s: State, present: bool)
    requires Sound(s)
    ensures Sound(SetClient(s, present)) <==> s.running < 0
  {
    hide DistinctFeeds, Paced, FewPerScript;
  }

  /** But the next tick of the new client, which has nothing to say, gives the feed
      up until it is due again, and the schedule is sound once more. */
  lemma SetClientRecovers(s: State, t: Input)
    requires Sound(s) && s.running >= 0 && t.answer == Gone
    ensures Sound(Tick(SetClient(s, true), t))
  {
    hide DistinctFeeds, Paced, FewPerScript, Settled, Begin;
    TickSound(s, t);
    assert Collect(SetClient(s, true).(now := t.now), t.now, t.answer) == Collect(s.(now := t.now), t.now, t.answer);
  }

  // --- the clients that were exchanged ------------------------------------------------------------

  /** A fetcher, and the URLs that clients it had before are still fetching. */
  datatype World = World(fetcher: State, left: seq<string>)

  /** The fetcher does something, or a client it had before comes to an end. */
  datatype Event = Did(op: Op) | Ended(i: nat)

  function Happened(w: World, e: Event): World {
    match e
    case Did(op) =>
      var http := w.fetcher.http;
      World(Apply(w.fetcher, op), if op.ClientSet? && http.Busy? then w.left + [http.url] else w.left)
    case Ended(i) => if i < |w.left| then w.(left := Without(w.left, i)) else w
  }

  function AllHappened(w: World, events: seq<Event>): World
    decreases |events|
  {
    if events == [] then w else AllHappened(Happened(w, events[0]), events[1..])
  }

  function InFlight(w: World): nat {
    |w.left| + if w.fetcher.http.Busy? then 1 else 0
  }

  predicate Calm(w: World, events: seq<Event>)
    decreases |events|
  {
    events == [] ||
    ((events[0].Did? ==> Undisturbed(w.fetcher, events[0].op)) && Calm(Happened(w, events[0]), events[1..]))
  }

  /** At most one fetch is in flight, the ones of earlier clients counted, in every
      run that exchanges the client between fetches only. */
  lemma {:induction false} OneInFlight(w: World, events: seq<Event>)
    requires Sound(w.fetcher) && w.left == [] && Calm(w, events)
    ensures var v := AllHappened(w, events); Sound(v.fetcher) && v.left == [] && InFlight(v) <= 1
    decreases |events|
  {
    hide Sound, Happened, Undisturbed, InFlight;
    if events == [] {
      SoundFlies(w);
    } else {
      HappenedSound(w, events[0]);
      OneInFlight(Happened(w, events[0]), events[1..]);
    }
  }

  lemma SoundFlies(w: World)
    requires Sound(w.fetcher) && w.left == []
    ensures InFlight(w) <= 1 && (w.fetcher.running < 0 ==> !w.fetcher.http.Busy?)
  {
    hide Scheduled;
  }

  lemma HappenedSound(w: World, e: Event)
    requires Sound(w.fetcher) && w.left == [] && (e.Did? ==> Undisturbed(w.fetcher, e.op))
    ensures Sound(Happened(w, e).fetcher) && Happened(w, e).left == []
  {
    hide Apply, Sound;
    SoundFlies(w);
    if e.Did? {
      OpSound(w.fetcher, e.op);
    }
  }

  /** A tick asks the client for a feed, and the client takes the request. */
  predicate Asks(s: State, t: Input) {
    Begun(s, t).Some? && t.refusal == None
  }

  /** After an exchange two are in flight at once exactly when the old client was
      fetching and the next tick asks the new one for a feed. */
  lemma ExchangeDoublesIff(w: World, present: bool, t: Input)
    requires Sound(w.fetcher) && w.left == []
    ensures var v := Happened(w, Did(ClientSet(present)));
      InFlight(Happened(v, Did(Ticked(t)))) > 1 <==> w.fetcher.running >= 0 && Asks(v.fetcher, t)
  {
    hide Scheduled, DueFrom, Settled;
  }

  // --- fairness -----------------------------------------------------------------------------------

  /** What the scan finds is due, and no feed has been due longer. */
  predicate IsLongest(feeds: seq<Feed>, now: nat, b: Option<nat>) {
    match b
    case None => forall j :: 0 <= j < |feeds| ==> feeds[j].due > now
    case Some(i) => i < |feeds| && feeds[i].due <= now && forall j :: 0 <= j < |feeds| ==> feeds[i].due <= feeds[j].due
  }

  lemma {:induction false} DueFinds(feeds: seq<Feed>, now: nat, i: nat, best: Option<nat>)
    requires i <= |feeds| && IsLongest(feeds[..i], now, best)
    ensures IsLongest(feeds, now, DueFrom(feeds, now, i, best))
    decreases |feeds| - i
  {
    if i < |feeds| {
      var next := if feeds[i].due <= now && (best == None || feeds[i].due < feeds[best.value].due) then Some(i) else best;
      assert feeds[..i + 1] == feeds[..i] + [feeds[i]];
      DueFinds(feeds, now, i + 1, next);
    } else {
      assert feeds[..i] == feeds;
    }
  }

  lemma DueIsLongest(feeds: seq<Feed>, now: nat)
    ensures IsLongest(feeds, now, Due(feeds, now))
  {
    DueFinds(feeds, now, 0, None);
  }

  /** The feed a tick asks the client for, if it asks at all. */
  function Begun(s: State, t: Input): (f: Option<nat>)
    ensures f.Some? ==> f.value < |s.feeds|
  {
    if !s.hasClient then None
    else
      var c := Collect(s.(now := t.now), t.now, t.answer);
      if c.running < 0 && c.networkUp then Due(c.feeds, t.now) else None
  }

  function Ticks(s: State, inputs: seq<Input>): State
    decreases |inputs|
  {
    if inputs == [] then s else Ticks(Tick(s, inputs[0]), inputs[1..])
  }

  /** The feeds asked for, in order. */
  function Asked(s: State, inputs: seq<Input>): seq<nat>
    decreases |inputs|
  {
    if inputs == [] then []
    else (match Begun(s, inputs[0]) case None => [] case Some(i) => [i]) + Asked(Tick(s, inputs[0]), inputs[1..])
  }

  /** Time does not go back, from start on. */
  predicate Forward(start: nat, inputs: seq<Input>)
    decreases |inputs|
  {
    inputs == [] || (inputs[0].now >= start && Forward(inputs[0].now, inputs[1..]))
  }

  /** g cannot be asked for before f: it is being fetched, or is due later. */
  predicate Behind(s: State, f: nat, g: nat)
    requires f < |s.feeds| && g < |s.feeds|
  {
    g == s.running || s.feeds[g].due > s.feeds[f].due
  }

  /** f is due and waits. */
  predicate Waits(s: State, f: nat, time: nat) {
    -1 <= s.running < |s.feeds| && f < |s.feeds| && s.feeds[f].due <= time && s.running != f && Paced(s.feeds)
  }

  /** A tick leaves f waiting or asks for it; what was behind f stays behind, and
      what is asked for instead of f was not behind it and is now. */
  lemma TickWaits(s: State, t: Input, f: nat, time: nat)
    requires Waits(s, f, time) && t.now >= time && Begun(s, t) != Some(f)
    ensures var u := Tick(s, t); Waits(u, f, t.now) && |u.feeds| == |s.feeds| && u.feeds[f] == s.feeds[f]
    ensures var u := Tick(s, t); forall g :: 0 <= g < |s.feeds| && Behind(s, f, g) ==> Behind(u, f, g)
    ensures var u := Tick(s, t); Begun(s, t).Some? ==>
      var g := Begun(s, t).value; g < |s.feeds| && !Behind(s, f, g) && g != f && Behind(u, f, g)
    ensures Begun(s, t) == None && s.hasClient && s.networkUp ==> s.running >= 0 && Tick(s, t).running == s.running && !TimedOut(s, t.now)
  {
    hide DueFrom, Settled;
    var c := Collect(s.(now := t.now), t.now, t.answer);
    if s.running >= 0 {
      SettledSame(s.feeds, s.running, t);
    }
    DueIsLongest(c.feeds, t.now);
  }

  lemma AskedSplits(s: State, inputs: seq<Input>, f: nat)
    requires inputs != [] && f !in Asked(s, inputs)
    ensures var later := Asked(Tick(s, inputs[0]), inputs[1..]);
      && f !in later && Begun(s, inputs[0]) != Some(f)
      && Asked(s, inputs) == match Begun(s, inputs[0]) { case None => later case Some(i) => [i] + later }
  {
    hide Tick, Begun;
    var later := Asked(Tick(s, inputs[0]), inputs[1..]);
    assert [] + later == later;
  }

  lemma {:induction false} AskedNotBehind(s: State, inputs: seq<Input>, f: nat, time: nat)
    requires Waits(s, f, time) && Forward(time, inputs) && f !in Asked(s, inputs)
    ensures var q := Asked(s, inputs); forall i :: 0 <= i < |q| ==> q[i] < |s.feeds| && q[i] != f && !Behind(s, f, q[i])
    ensures var q := Asked(s, inputs); forall i, j :: 0 <= i < j < |q| ==> q[i] != q[j]
    decreases |inputs|
  {
    hide Tick, Begun, Behind, Waits;
    if inputs != [] {
      var t, u := inputs[0], Tick(s, inputs[0]);
      var q, later := Asked(s, inputs), Asked(u, inputs[1..]);
      AskedSplits(s, inputs, f);
      TickWaits(s, t, f, time);
      WaitsInRange(s, f, time);
      AskedNotBehind(u, inputs[1..], f, t.now);
      forall i | 0 <= i < |later| ensures later[i] < |s.feeds| && later[i] != f && !Behind(s, f, later[i]) {
        assert !Behind(u, f, later[i]);
      }
    }
  }

  lemma WaitsInRange(s: State, f: nat, time: nat)
    requires Waits(s, f, time)
    ensures f < |s.feeds|
  {
  }

  /** How many of the first n feeds may still be asked for before f. */
  function Ahead(s: State, f: nat, n: nat): (k: nat)
    requires f < |s.feeds| && n <= |s.feeds|
    ensures k <= if f < n then n - 1 else n
  {
    if n == 0 then 0 else Ahead(s, f, n - 1) + (if n - 1 == f || Behind(s, f, n - 1) then 0 else 1)
  }

  lemma {:induction false} AheadShrinks(s: State, u: State, f: nat, n: nat, g: Option<nat>)
    requires f < |s.feeds| == |u.feeds| && n <= |s.feeds|
    requires forall x :: 0 <= x < |s.feeds| && Behind(s, f, x) ==> Behind(u, f, x)
    requires g.Some? ==> g.value < |s.feeds| && g.value != f && !Behind(s, f, g.value) && Behind(u, f, g.value)
    ensures Ahead(u, f, n) <= Ahead(s, f, n) - (if g.Some? && g.value < n then 1 else 0)
  {
    hide Behind;
    if n > 0 {
      AheadShrinks(s, u, f, n - 1, g);
    }
  }

  /** How many feeds may still be asked for before f. */
  function Rivals(s: State, f: nat): (k: nat)
    requires f < |s.feeds|
    ensures k < |s.feeds|
  {
    Ahead(s, f, |s.feeds|)
  }

  lemma TickRivals(s: State, t: Input, f: nat, time: nat)
    requires Waits(s, f, time) && t.now >= time && Begun(s, t) != Some(f)
    ensures Waits(Tick(s, t), f, t.now)
    ensures Rivals(Tick(s, t), f) <= Rivals(s, f) - (if Begun(s, t).Some? then 1 else 0)
  {
    hide Tick, Begun, Behind;
    TickWaits(s, t, f, time);
    AheadShrinks(s, Tick(s, t), f, |s.feeds|, Begun(s, t));
  }

  lemma {:induction false} AskedBounded(s: State, inputs: seq<Input>, f: nat, time: nat)
    requires Waits(s, f, time) && Forward(time, inputs) && f !in Asked(s, inputs)
    ensures |Asked(s, inputs)| <= Rivals(s, f)
    decreases |inputs|
  {
    hide Tick, Begun, Waits, Rivals;
    if inputs != [] {
      AskedSplits(s, inputs, f);
      TickRivals(s, inputs[0], f, time);
      AskedBounded(Tick(s, inputs[0]), inputs[1..], f, inputs[0].now);
    }
  }

  /** Once a feed is due, no other is asked for twice before it is, so that it
      waits for fewer fetches than there are feeds. */
  lemma NobodyTwiceBefore(s: State, inputs: seq<Input>, f: nat, time: nat)
    requires Waits(s, f, time) && Forward(time, inputs) && f !in Asked(s, inputs)
    ensures var q := Asked(s, inputs); forall i, j :: 0 <= i < j < |q| ==> q[i] != q[j]
    ensures |Asked(s, inputs)| < |s.feeds|
  {
    AskedNotBehind(s, inputs, f, time);
    AskedBounded(s, inputs, f, time);
  }

  // --- and it waits only so long ---------------------------------------------------------------------

  /** Ticks come at most gap apart, with the network up. */
  predicate Regular(start: nat, gap: nat, inputs: seq<Input>)
    decreases |inputs|
  {
    inputs == [] || (start <= inputs[0].now <= start + gap && Regular(inputs[0].now, gap, inputs[1..]))
  }

  /** The time by which f is asked for: the fetch that runs may take its full
      time, and so may one more for every rival. */
  function Deadline(s: State, f: nat, last: nat, gap: nat): nat
    requires f < |s.feeds|
  {
    (if s.running >= 0 then s.startedAt + FETCH_TIMEOUT else last) + gap + Rivals(s, f) * (FETCH_TIMEOUT + gap)
  }

  /** The fetch that runs has not had its full time yet. */
  predicate InTime(s: State, last: nat) {
    s.running >= 0 ==> s.startedAt <= last < s.startedAt + FETCH_TIMEOUT
  }

  lemma TickKeepsTime(s: State, t: Input, f: nat, last: nat, gap: nat)
    requires Waits(s, f, last) && last <= t.now <= last + gap && Begun(s, t) != Some(f)
    requires s.hasClient && s.networkUp && InTime(s, last)
    ensures var u := Tick(s, t);
      && Waits(u, f, t.now) && u.hasClient && u.networkUp && InTime(u, t.now)
      && t.now <= Deadline(u, f, t.now, gap) <= Deadline(s, f, last, gap)
  {
    hide Tick, Begun, Rivals, Waits;
    var u := Tick(s, t);
    TickRivals(s, t, f, last);
    TickWaits(s, t, f, last);
    TickRunning(s, t);
    WaitsInRange(s, f, last);
    WaitsInRange(u, f, t.now);
    DeadlineKept(s, u, f, last, t.now, gap, Begun(s, t).Some?);
  }

  /** A fetch that began uses up one rival's share of the time; otherwise the
      one that runs goes on. */
  lemma DeadlineKept(s: State, u: State, f: nat, last: nat, now: nat, gap: nat, begun: bool)
    requires f < |s.feeds| && f < |u.feeds| && last <= now <= last + gap && InTime(s, last)
    requires Rivals(u, f) + (if begun then 1 else 0) <= Rivals(s, f)
    requires if begun then u.running < 0 || u.startedAt == now else u.running == s.running >= 0 && u.startedAt == s.startedAt
    ensures now <= Deadline(u, f, now, gap) || now >= s.startedAt + FETCH_TIMEOUT
    ensures Deadline(u, f, now, gap) <= Deadline(s, f, last, gap)
  {
    hide Rivals;
    var step := FETCH_TIMEOUT + gap;
    if begun {
      FewerSteps(Rivals(u, f), Rivals(s, f), step);
    } else {
      MoreSteps(Rivals(u, f), Rivals(s, f), step);
    }
  }

  lemma TickRunning(s: State, t: Input)
    requires s.hasClient && s.networkUp
    ensures Tick(s, t).hasClient && Tick(s, t).networkUp
    ensures var u := Tick(s, t); u.running < 0 || u.startedAt == if Begun(s, t).Some? then t.now else s.startedAt
  {
    hide DueFrom, Settled;
  }

  lemma FewerSteps(a: nat, b: nat, step: nat)
    requires a < b
    ensures a * step + step <= b * step
  {
    assert (a + 1) * step <= b * step;
  }

  lemma MoreSteps(a: nat, b: nat, step: nat)
    requires a <= b
    ensures a * step <= b * step
  {
  }

  lemma {:induction false} AskedInTime(s: State, inputs: seq<Input>, f: nat, last: nat, gap: nat)
    requires Waits(s, f, last) && Regular(last, gap, inputs) && f !in Asked(s, inputs)
    requires s.hasClient && s.networkUp && InTime(s, last)
    ensures inputs != [] ==> inputs[|inputs| - 1].now <= Deadline(s, f, last, gap)
    decreases |inputs|
  {
    hide Tick, Begun, Waits, Deadline, InTime, Asked;
    if inputs != [] {
      var now, later := inputs[0].now, inputs[1..];
      AskedSplits(s, inputs, f);
      TickKeepsTime(s, inputs[0], f, last, gap);
      assert later != [] ==> inputs[|inputs| - 1] == later[|later| - 1];
      AskedInTime(Tick(s, inputs[0]), later, f, now, gap);
    }
  }

  /** With the network up and ticks at most gap apart, a due feed is asked for
      before each feed could have taken its full time once, whatever the client
      answers or fails to answer. */
  lemma EveryDueFeedIsReached(s: State, inputs: seq<Input>, f: nat, last: nat, gap: nat)
    requires Waits(s, f, last) && Regular(last, gap, inputs)
    requires s.hasClient && s.networkUp && InTime(s, last)
    requires inputs != [] && inputs[|inputs| - 1].now > last + |s.feeds| * (FETCH_TIMEOUT + gap)
    ensures f in Asked(s, inputs)
  {
    hide Tick, Begun, Asked;
    if f !in Asked(s, inputs) {
      AskedInTime(s, inputs, f, last, gap);
      FewerSteps(Rivals(s, f), |s.feeds|, FETCH_TIMEOUT + gap);
    }
  }
}
