/**
 What a script is told about its feeds, from what the client has answered over a
 whole run: the last good body, when it came, and how the last fetch ended.
 */
module FetchBodies {
  import opened Basics
  import opened ScriptFetch
  import opened FetchRuns

  /** The client was asked for a feed at this time. */
  datatype Request = Request(script: string, url: string, at: nat)

  datatype Arrival = Arrival(body: string, at: nat)

  /** What the operations so far leave to say about one feed: the request that is
      out, whoever it is for, the feed's last good body, and how its last fetch
      ended. time is the time of the last tick. */
  datatype Account = Account(out: Option<Request>, good: Option<Arrival>, status: int, failure: string, time: nat)

  const NOTHING_YET := Account(None, None, 0, "", 0)

  /** The request is over: the client says so, or it has taken too long. */
  predicate Over(r: Request, t: Input) {
    t.answer != StillRunning || t.now < r.at || t.now - r.at >= FETCH_TIMEOUT
  }

  predicate Owns(feeds: seq<Feed>, script: string) {
    exists i :: 0 <= i < |feeds| && feeds[i].script == script
  }

  function OutAfter(out: Option<Request>, s: State, t: Input): Option<Request> {
    if !s.hasClient then out
    else
      match Begun(s, t)
      case Some(i) => if t.refusal == None then Some(Request(s.feeds[i].script, s.feeds[i].url, t.now)) else None
      case None => if out.Some? && Over(out.value, t) then None else out
  }

  /** The request that is out after one more operation. Dropping any feed drops it. */
  function OutThen(out: Option<Request>, s: State, op: Op): Option<Request> {
    match op
    case Ticked(t) => OutAfter(out, s, t)
    case Forgotten(script) => if Owns(s.feeds, script) then None else out
    case _ => out
  }

  /** How a fetch ended. */
  function Ended(a: Account, t: Input): Account {
    match t.answer
    case StillRunning => a.(status := 0, failure := "timed out")
    case Failed(reason) => a.(status := 0, failure := if reason == "" then "fetch failed" else reason)
    case Gone => a
    case Done(status, body) =>
      var b := a.(status := status, failure := "");
      if 200 <= status <= 299 then b.(good := Some(Arrival(body, t.now))) else b
  }

  /** The request that is out was for this feed, and is over. */
  predicate Answers(a: Account, s: State, t: Input, script: string, url: string) {
    s.hasClient && a.out.Some? && a.out.value.script == script && a.out.value.url == url && Over(a.out.value, t)
  }

  /** The client is asked for this feed, and refuses. */
  predicate Refuses(s: State, t: Input, script: string, url: string) {
    t.refusal.Some? && Begun(s, t).Some? &&
    var f := s.feeds[Begun(s, t).value]; f.script == script && f.url == url
  }

  function Then(a: Account, s: State, op: Op, script: string, url: string): Account {
    var out := OutThen(a.out, s, op);
    match op
    case Forgotten(gone) => if gone == script then Account(out, None, 0, "", a.time) else a.(out := out)
    case Ticked(t) =>
      var b := if Answers(a, s, t, script, url) then Ended(a, t) else a;
      var c := if !Refuses(s, t, script, url) then b
               else b.(failure := if t.refusal.value == "" then "cannot fetch" else t.refusal.value);
      c.(out := out, time := t.now)
    case _ => a.(out := out)
  }

  function AccountFrom(a: Account, s: State, ops: seq<Op>, script: string, url: string): Account
    decreases |ops|
  {
    if ops == [] then a else AccountFrom(Then(a, s, ops[0], script, url), Apply(s, ops[0]), ops[1..], script, url)
  }

  /** What the operations of a run leave to say about a feed. */
  function AccountOf(ops: seq<Op>, script: string, url: string): Account {
    AccountFrom(NOTHING_YET, FRESH, ops, script, url)
  }

  // --- the fetcher keeps the account -----------------------------------------------------------

  predicate IsFor(f: Feed, script: string, url: string) {
    f.script == script && f.url == url
  }

  /** The feed says what the account says. */
  predicate Tells(f: Feed, a: Account) {
    && f.status == a.status && f.failure == a.failure && (f.seen <==> a.good.Some?)
    && (f.seen ==> f.body == a.good.value.body && f.arrivedAt == a.good.value.at)
  }

  predicate Blank(a: Account) {
    a.good == None && a.status == 0 && a.failure == ""
  }

  predicate IsOut(s: State, out: Option<Request>) {
    if s.running < 0 then out == None
    else s.running < |s.feeds| && out == Some(Request(s.feeds[s.running].script, s.feeds[s.running].url, s.startedAt))
  }

  /** Feeds for this script and URL say what the account says; without one there is
      nothing to say. */
  predicate Told(feeds: seq<Feed>, a: Account, script: string, url: string) {
    && (forall i :: 0 <= i < |feeds| && IsFor(feeds[i], script, url) ==> Tells(feeds[i], a))
    && ((forall i :: 0 <= i < |feeds| ==> !IsFor(feeds[i], script, url)) ==> Blank(a))
  }

  ghost predicate Keeps(s: State, a: Account, script: string, url: string) {
    Scheduled(s) && s.now == a.time && IsOut(s, a.out) && Told(s.feeds, a, script, url)
  }

  /** One feed is changed; the account of that feed changes with it. */
  lemma UpdateTold(feeds: seq<Feed>, i: nat, f: Feed, a: Account, b: Account, script: string, url: string)
    requires Told(feeds, a, script, url) && DistinctFeeds(feeds) && i < |feeds| && f.script == feeds[i].script && f.url == feeds[i].url
    requires if IsFor(f, script, url) then Tells(feeds[i], a) ==> Tells(f, b) else SameWords(a, b)
    ensures Told(feeds[i := f], b, script, url)
  {
    var after := feeds[i := f];
    if IsFor(f, script, url) {
      assert IsFor(feeds[i], script, url);
      forall j | 0 <= j < |after| && IsFor(after[j], script, url) ensures Tells(after[j], b) {
        assert j == i by { OneFeed(feeds, i, j, script, url); }
      }
      assert IsFor(after[i], script, url);
    } else {
      forall j | 0 <= j < |feeds| ensures IsFor(after[j], script, url) == IsFor(feeds[j], script, url) {
      }
    }
  }

  predicate SameWords(a: Account, b: Account) {
    a.good == b.good && a.status == b.status && a.failure == b.failure
  }

  lemma OneFeed(feeds: seq<Feed>, i: nat, j: nat, script: string, url: string)
    requires DistinctFeeds(feeds) && i < |feeds| && j < |feeds|
    requires IsFor(feeds[i], script, url) && IsFor(feeds[j], script, url)
    ensures i == j
  {
  }

  lemma SameTold(feeds: seq<Feed>, a: Account, b: Account, script: string, url: string)
    requires Told(feeds, a, script, url) && SameWords(a, b)
    ensures Told(feeds, b, script, url)
  {
  }

  lemma ScheduledDistinct(s: State)
    requires Scheduled(s)
    ensures DistinctFeeds(s.feeds) && Paced(s.feeds) && -1 <= s.running < |s.feeds|
  {
    hide FewPerScript;
  }

  /** What an answer leaves, after the fetch that it ends. */
  function Heard(a: Account, s: State, t: Input, script: string, url: string): Account {
    if Answers(a, s, t, script, url) then Ended(a, t) else a
  }

  lemma CollectTold(s: State, t: Input, a: Account, script: string, url: string)
    requires Keeps(s, a, script, url) && s.hasClient
    ensures var c := Collect(s.(now := t.now), t.now, t.answer); var b := Heard(a, s, t, script, url);
      && Told(c.feeds, b, script, url) && DistinctFeeds(c.feeds) && |c.feeds| == |s.feeds|
      && (forall i :: 0 <= i < |c.feeds| ==> c.feeds[i].script == s.feeds[i].script && c.feeds[i].url == s.feeds[i].url)
      && IsOut(c, if a.out.Some? && Over(a.out.value, t) then None else a.out)
  {
    hide FewPerScript, Told, DistinctFeeds, Paced;
    if s.running >= 0 && Over(a.out.value, t) {
      var i, f := s.running, Settled(s.feeds[s.running], t.now, t.answer);
      SettledSame(s.feeds, i, t);
      FeedUpdated(s.feeds, i, f);
      EndedTells(s.feeds[i], a, t);
      UpdateTold(s.feeds, i, f, a, Heard(a, s, t, script, url), script, url);
    }
  }

  lemma EndedTells(f: Feed, a: Account, t: Input)
    ensures Tells(f, a) ==> Tells(Settled(f, t.now, t.answer), Ended(a, t))
  {
  }

  lemma RefusedTells(f: Feed, a: Account, reason: string, due: nat)
    ensures Tells(f, a) ==> Tells(f.(failure := reason, due := due), a.(failure := reason))
    ensures SameWords(a, a)
  {
  }

  /** A tick without a client changes the clock only. */
  lemma IdleTick(s: State, t: Input, a: Account, script: string, url: string)
    requires Keeps(s, a, script, url) && !s.hasClient
    ensures Keeps(Tick(s, t), Then(a, s, Ticked(t), script, url), script, url)
  {
    hide FewPerScript, DistinctFeeds, Paced, Told;
    SameTold(s.feeds, a, Then(a, s, Ticked(t), script, url), script, url);
  }

  lemma OutKept(s: State, t: Input, a: Account, script: string, url: string)
    requires Keeps(s, a, script, url) && s.hasClient
    ensures IsOut(Tick(s, t), OutAfter(a.out, s, t)) && Tick(s, t).now == t.now
    ensures t.refusal == None || Begun(s, t) == None ==> Tick(s, t).feeds == Collect(s.(now := t.now), t.now, t.answer).feeds
  {
    hide Scheduled, Told, DistinctFeeds, Collect, Due, Ended, Tells, Heard, FewPerScript;
    CollectTold(s, t, a, script, url);
    var c := Collect(s.(now := t.now), t.now, t.answer);
    assert c.now == t.now && c.hasClient by { CollectNow(s, t); }
    var due := Begun(s, t);
    if due.Some? {
      assert c.feeds[due.value].script == s.feeds[due.value].script;
    }
  }

  lemma CollectNow(s: State, t: Input)
    ensures var c := Collect(s.(now := t.now), t.now, t.answer);
      c.now == t.now && c.hasClient == s.hasClient && c.networkUp == s.networkUp
  {
  }

  lemma TickKeeps(s: State, t: Input, a: Account, script: string, url: string)
    requires Keeps(s, a, script, url)
    ensures Keeps(Tick(s, t), Then(a, s, Ticked(t), script, url), script, url)
  {
    hide Scheduled, Told, DistinctFeeds, Collect, Due, SameWords, Ended, Tells;
    TickScheduled(s, t);
    if !s.hasClient {
      IdleTick(s, t, a, script, url);
    } else {
      CollectTold(s, t, a, script, url);
      OutKept(s, t, a, script, url);
      var c, b := Collect(s.(now := t.now), t.now, t.answer), Heard(a, s, t, script, url);
      var due, after := Begun(s, t), Then(a, s, Ticked(t), script, url);
      if due.Some? && t.refusal.Some? {
        var f := c.feeds[due.value];
        var reason := if t.refusal.value == "" then "cannot fetch" else t.refusal.value;
        var d := if Refuses(s, t, script, url) then b.(failure := reason) else b;
        RefusedTells(f, b, reason, t.now + FAILURE_BACKOFF);
        UpdateTold(c.feeds, due.value, f.(failure := reason, due := t.now + FAILURE_BACKOFF), b, d, script, url);
        assert after == d.(out := after.out, time := t.now);
        SameTold(Tick(s, t).feeds, d, after, script, url);
      } else {
        assert after == b.(out := after.out, time := t.now);
        SameTold(c.feeds, b, after, script, url);
      }
    }
  }

  lemma FollowKeeps(s: State, a: Account, script: string, url: string, of: string, at: string, usable: bool, interval: nat)
    requires Keeps(s, a, script, url)
    ensures var op := Followed(of, at, usable, interval); Keeps(Apply(s, op), Then(a, s, op, script, url), script, url)
  {
    hide Told, DistinctFeeds, Paced, FewPerScript, CountOf, Tells, Clamped;
    FollowScheduled(s, of, at, usable, interval);
    var found := Find(s.feeds, of, at);
    if found.Some? {
      PaceTells(s.feeds[found.value], a, Clamped(interval));
      UpdateTold(s.feeds, found.value, s.feeds[found.value].(interval := Clamped(interval)), a, a, script, url);
    } else {
      AddTold(s.feeds, Feed(of, at, Clamped(interval), 0, "", 0, "", 0, false), a, script, url);
    }
  }

  lemma PaceTells(f: Feed, a: Account, interval: nat)
    ensures (Tells(f, a) ==> Tells(f.(interval := interval), a)) && SameWords(a, a)
  {
  }

  /** A new feed has nothing to say, and nobody had for its script and URL. */
  lemma AddTold(feeds: seq<Feed>, f: Feed, a: Account, script: string, url: string)
    requires Told(feeds, a, script, url) && forall i :: 0 <= i < |feeds| ==> !IsFor(feeds[i], f.script, f.url)
    requires !f.seen && f.status == 0 && f.failure == ""
    ensures Told(feeds + [f], a, script, url)
  {
    var longer := feeds + [f];
    assert longer[|feeds|] == f;
    if IsFor(f, script, url) {
      assert Blank(a);
    } else {
      forall i | 0 <= i < |feeds| ensures longer[i] == feeds[i] {
      }
    }
  }

  /** Just the feeds of other scripts are left. */
  lemma {:induction false} OthersAre(feeds: seq<Feed>, script: string)
    ensures forall f :: f in Others(feeds, script) <==> f in feeds && f.script != script
    ensures |Others(feeds, script)| == |feeds| <==> !Owns(feeds, script)
  {
    if feeds != [] {
      var front, last := feeds[..|feeds| - 1], feeds[|feeds| - 1];
      OthersAre(front, script);
      assert feeds == front + [last];
      OwnsSnoc(front, last, script);
    }
  }

  lemma OwnsSnoc(feeds: seq<Feed>, f: Feed, script: string)
    ensures Owns(feeds + [f], script) <==> Owns(feeds, script) || f.script == script
  {
    var longer := feeds + [f];
    assert longer[|feeds|] == f;
    if Owns(feeds, script) {
      var i :| 0 <= i < |feeds| && feeds[i].script == script;
      assert longer[i].script == script;
    }
  }

  lemma OthersTold(feeds: seq<Feed>, gone: string, a: Account, b: Account, script: string, url: string)
    requires Told(feeds, a, script, url)
    requires if gone == script then Blank(b) else SameWords(a, b)
    ensures Told(Others(feeds, gone), b, script, url)
  {
    hide Others;
    var kept := Others(feeds, gone);
    OthersAre(feeds, gone);
    forall i | 0 <= i < |kept| && IsFor(kept[i], script, url) ensures Tells(kept[i], b) {
      assert kept[i] in feeds && kept[i].script != gone;
    }
    if gone != script && forall i :: 0 <= i < |kept| ==> !IsFor(kept[i], script, url) {
      forall i | 0 <= i < |feeds| ensures !IsFor(feeds[i], script, url) {
        if feeds[i].script != gone {
          assert feeds[i] in kept;
        }
      }
    }
  }

  lemma ForgetKeeps(s: State, a: Account, script: string, url: string, gone: string)
    requires Keeps(s, a, script, url)
    ensures var op := Forgotten(gone); Keeps(Apply(s, op), Then(a, s, op, script, url), script, url)
  {
    hide Told, DistinctFeeds, Paced, FewPerScript, CountOf, Tells, Others, Owns;
    ForgetScheduled(s, gone);
    OthersAre(s.feeds, gone);
    OthersTold(s.feeds, gone, a, Then(a, s, Forgotten(gone), script, url), script, url);
    if |Others(s.feeds, gone)| == |s.feeds| {
      OthersAll(s.feeds, gone);
      NobodyOwns(s.feeds, gone);
    }
  }

  lemma NobodyOwns(feeds: seq<Feed>, script: string)
    requires !Owns(feeds, script)
    ensures forall i :: 0 <= i < |feeds| ==> feeds[i].script != script
  {
  }

  lemma OpKeeps(s: State, a: Account, op: Op, script: string, url: string)
    requires Keeps(s, a, script, url)
    ensures Keeps(Apply(s, op), Then(a, s, op, script, url), script, url)
  {
    match op {
      case Followed(of, at, usable, interval) => FollowKeeps(s, a, script, url, of, at, usable, interval);
      case Forgotten(gone) => ForgetKeeps(s, a, script, url, gone);
      case Ticked(t) => TickKeeps(s, t, a, script, url);
      case _ => SetKeeps(s, a, op, script, url);
    }
  }

  lemma SetKeeps(s: State, a: Account, op: Op, script: string, url: string)
    requires Keeps(s, a, script, url) && (op.NetworkSet? || op.ClientSet?)
    ensures Keeps(Apply(s, op), Then(a, s, op, script, url), script, url)
  {
    hide Told, DistinctFeeds, Paced, FewPerScript;
    SameTold(s.feeds, a, Then(a, s, op, script, url), script, url);
  }

  lemma {:induction false} RunKeeps(s: State, a: Account, ops: seq<Op>, script: string, url: string)
    requires Keeps(s, a, script, url)
    ensures Keeps(Run(s, ops), AccountFrom(a, s, ops, script, url), script, url)
    decreases |ops|
  {
    hide Apply, Then, Keeps;
    if ops != [] {
      OpKeeps(s, a, ops[0], script, url);
      RunKeeps(Apply(s, ops[0]), Then(a, s, ops[0], script, url), ops[1..], script, url);
    }
  }

  /** What a script is told is what the account says. */
  predicate SaysSo(s: State, a: Account, script: string, url: string) {
    && BodyOf(s, script, url) == (match a.good case None => None case Some(g) => Some(g.body))
    && StatusOf(s, script, url) == a.status && FailureOf(s, script, url) == a.failure
    && AgeOf(s, script, url) == (match a.good case None => -1 case Some(g) => if a.time < g.at then 0 else a.time - g.at)
  }

  lemma ToldSays(s: State, a: Account, script: string, url: string)
    requires Keeps(s, a, script, url)
    ensures SaysSo(s, a, script, url)
  {
    hide Find, Scheduled;
    var found := Find(s.feeds, script, url);
    if found.Some? {
      assert IsFor(s.feeds[found.value], script, url);
    } else {
      assert forall i :: 0 <= i < |s.feeds| ==> !IsFor(s.feeds[i], script, url);
    }
  }

  /** In every run, for every script and URL, followed or not: the body told is that of
      the last answer between 200 and 299 that ended a request for this feed, and none
      before the first; its age counts from that tick. The status and the failure are
      those of the last request for it that ended or was refused. Timeouts, failures,
      other statuses and what other feeds were answered change neither the body nor its
      age, and nothing is told once the script has been forgotten. */
  lemma FeedsTell(ops: seq<Op>, script: string, url: string)
    ensures SaysSo(Run(FRESH, ops), AccountOf(ops, script, url), script, url)
  {
    hide Run, AccountFrom, Keeps, SaysSo;
    assert Keeps(FRESH, NOTHING_YET, script, url) by { FreshKeeps(script, url); }
    RunKeeps(FRESH, NOTHING_YET, ops, script, url);
    ToldSays(Run(FRESH, ops), AccountOf(ops, script, url), script, url);
  }

  lemma FreshKeeps(script: string, url: string)
    ensures Keeps(FRESH, NOTHING_YET, script, url)
  {
  }

  /** And the fetcher waits for an answer exactly to the request that is out. */
  lemma WaitsForRequest(ops: seq<Op>)
    ensures IsOut(Run(FRESH, ops), AccountOf(ops, "", "").out)
  {
    hide Run, AccountFrom, Scheduled, Told, IsOut;
    assert Keeps(FRESH, NOTHING_YET, "", "") by { FreshKeeps("", ""); }
    RunKeeps(FRESH, NOTHING_YET, ops, "", "");
  }
}
