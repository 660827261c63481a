/**
 The fetch schedule of firmware/src/net/ScriptFetcher.cpp as functions on its
 state: feeds with due times and one HTTP client that fetches one URL at a time.
 What the client answers is given with each tick. ScriptFetcher runs the same
 steps on an object.
 */
module ScriptFetch {
  import opened Basics

  const MAX_FEEDS_PER_SCRIPT: nat := 2
  const MAX_FEEDS: nat := 32
  const FETCH_TIMEOUT: nat := 20000
  const FAILURE_BACKOFF: nat := 120000
  const MIN_INTERVAL: nat := 30000
  const DEFAULT_INTERVAL: nat := 300000
  const MAX_INTERVAL: nat := 21600000

  datatype Feed = Feed(script: string, url: string, interval: nat, due: nat, body: string, status: int,
                       failure: string, arrivedAt: nat, seen: bool)

  /** The client, and what it was asked for. */
  datatype Http = Quiet | Busy(url: string)

  datatype State = State(feeds: seq<Feed>, running: int, startedAt: nat, started: nat, now: nat,
                         networkUp: bool, hasClient: bool, http: Http)

  /** What the client says when it is polled. */
  datatype Answer = StillRunning | Done(status: int, body: string) | Failed(reason: string) | Gone

  /** A tick: the time, the answer to a poll, and why a new request is refused, if it is. */
  datatype Input = Input(now: nat, answer: Answer, refusal: Option<string>)

  const FRESH := State([], -1, 0, 0, 0, false, false, Quiet)

  function Find(feeds: seq<Feed>, script: string, url: string): (i: Option<nat>)
    ensures i.Some? ==> i.value < |feeds| && feeds[i.value].script == script && feeds[i.value].url == url
    ensures i.None? ==> forall j :: 0 <= j < |feeds| ==> !(feeds[j].script == script && feeds[j].url == url)
  {
    if feeds == [] then None
    else if feeds[0].script == script && feeds[0].url == url then Some(0)
    else
      match Find(feeds[1..], script, url)
      case None => None
      case Some(i) => Some(i + 1)
  }

  function CountOf(feeds: seq<Feed>, script: string): nat {
    if feeds == [] then 0
    else CountOf(feeds[..|feeds| - 1], script) + (if feeds[|feeds| - 1].script == script then 1 else 0)
  }

  function Clamped(interval: nat): nat {
    var i := if interval == 0 then DEFAULT_INTERVAL else interval;
    if i < MIN_INTERVAL then MIN_INTERVAL else if i > MAX_INTERVAL then MAX_INTERVAL else i
  }

  /** usable says whether the URL is one the device will fetch. */
  function Follow(s: State, script: string, url: string, usable: bool, interval: nat): (State, bool) {
    if script == "" || !usable then (s, false)
    else
      match Find(s.feeds, script, url)
      case Some(i) => (s.(feeds := s.feeds[i := s.feeds[i].(interval := Clamped(interval))]), true)
      case None =>
        if CountOf(s.feeds, script) >= MAX_FEEDS_PER_SCRIPT || |s.feeds| >= MAX_FEEDS then (s, false)
        else (s.(feeds := s.feeds + [Feed(script, url, Clamped(interval), 0, "", 0, "", 0, false)]), true)
  }

  /** The feeds of other scripts, in order. */
  function Others(feeds: seq<Feed>, script: string): (r: seq<Feed>)
    ensures |r| <= |feeds|
  {
    if feeds == [] then []
    else if feeds[|feeds| - 1].script == script then Others(feeds[..|feeds| - 1], script)
    else Others(feeds[..|feeds| - 1], script) + [feeds[|feeds| - 1]]
  }

  function Abandoned(s: State): State {
    s.(running := -1, http := if s.hasClient then Quiet else s.http)
  }

  function Forget(s: State, script: string): State {
    var t := if 0 <= s.running < |s.feeds| && s.feeds[s.running].script == script then Abandoned(s) else s;
    var kept := Others(t.feeds, script);
    if |kept| != |t.feeds| then Abandoned(t.(feeds := kept)) else t
  }

  /** Another client, or none. A new client is at rest; what the old one was doing
      is left to it. */
  function SetClient(s: State, present: bool): State {
    s.(hasClient := present, http := Quiet)
  }

  /** A fetch that has run too long. Time is unsigned: a clock that went back
      makes it look older than it is. */
  predicate TimedOut(s: State, now: nat) {
    now < s.startedAt || now - s.startedAt >= FETCH_TIMEOUT
  }

  /** The feed once its fetch is over. */
  function Settled(feed: Feed, now: nat, answer: Answer): Feed {
    match answer
    case StillRunning => feed.(failure := "timed out", status := 0, due := now + FAILURE_BACKOFF)
    case Done(status, body) =>
      var f := feed.(status := status, failure := "", due := now + feed.interval);
      if 200 <= status < 300 then f.(body := body, arrivedAt := now, seen := true) else f
    case Failed(reason) =>
      feed.(failure := if reason == "" then "fetch failed" else reason, status := 0, due := now + FAILURE_BACKOFF)
    case Gone => feed.(due := now + feed.interval)
  }

  function Collect(s: State, now: nat, answer: Answer): State {
    if s.running < 0 then s
    else if s.running >= |s.feeds| then s.(running := -1, http := Quiet)
    else if answer == StillRunning && !TimedOut(s, now) then s
    else s.(feeds := s.feeds[s.running := Settled(s.feeds[s.running], now, answer)], running := -1, http := Quiet)
  }

  /** The scan for the feed due longest, from i on. */
  function DueFrom(feeds: seq<Feed>, now: nat, i: nat, best: Option<nat>): (b: Option<nat>)
    requires best.Some? ==> best.value < |feeds|
    ensures b.Some? ==> b.value < |feeds|
    decreases |feeds| - i
  {
    if i >= |feeds| then best
    else if feeds[i].due <= now && (best == None || feeds[i].due < feeds[best.value].due) then DueFrom(feeds, now, i + 1, Some(i))
    else DueFrom(feeds, now, i + 1, best)
  }

  function Due(feeds: seq<Feed>, now: nat): (b: Option<nat>)
    ensures b.Some? ==> b.value < |feeds|
  {
    DueFrom(feeds, now, 0, None)
  }

  function Begin(s: State, now: nat, refusal: Option<string>): State {
    match Due(s.feeds, now)
    case None => s
    case Some(i) =>
      match refusal
      case Some(reason) =>
        s.(feeds := s.feeds[i := s.feeds[i].(failure := if reason == "" then "cannot fetch" else reason,
                                             due := now + FAILURE_BACKOFF)],
           http := Quiet)
      case None => s.(running := i, startedAt := now, started := s.started + 1, http := Busy(s.feeds[i].url))
  }

  function Tick(s: State, t: Input): State {
    var u := s.(now := t.now);
    if !s.hasClient then u
    else
      var c := Collect(u, t.now, t.answer);
      if c.running < 0 && c.networkUp then Begin(c, t.now, t.refusal) else c
  }

  // --- what a script is told ------------------------------------------------------------------

  /** What was last fetched with success, if anything was. */
  function BodyOf(s: State, script: string, url: string): Option<string> {
    match Find(s.feeds, script, url)
    case None => None
    case Some(i) => if s.feeds[i].seen then Some(s.feeds[i].body) else None
  }

  function StatusOf(s: State, script: string, url: string): int {
    match Find(s.feeds, script, url)
    case None => 0
    case Some(i) => s.feeds[i].status
  }

  function FailureOf(s: State, script: string, url: string): string {
    match Find(s.feeds, script, url)
    case None => ""
    case Some(i) => s.feeds[i].failure
  }

  /** How old the body is, at the time of the last tick; -1 when there is none. */
  function AgeOf(s: State, script: string, url: string): int {
    match Find(s.feeds, script, url)
    case None => -1
    case Some(i) =>
      var f := s.feeds[i];
      if !f.seen then -1 else if s.now < f.arrivedAt then 0 else s.now - f.arrivedAt
  }
}
