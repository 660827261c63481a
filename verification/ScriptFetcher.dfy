/** ScriptFetcher of firmware/src/net/ScriptFetcher.cpp: the steps of ScriptFetch on fields. */
module ScriptFetcher {
  import opened Basics
  import opened ScriptFetch

  class ScriptFetcher {
    var feeds: seq<Feed>
    var running: int
    var startedAt: nat
    var started: nat
    var clock: nat
    var networkUp: bool
    var hasClient: bool
    var http: Http

    constructor ()
      ensures Now() == FRESH
    {
      feeds, running, startedAt, started, clock := [], -1, 0, 0, 0;
      networkUp, hasClient, http := false, false, Quiet;
    }

    function Now(): State
      reads this
    {
      State(feeds, running, startedAt, started, clock, networkUp, hasClient, http)
    }

    method FindFeed(script: string, url: string) returns (found: Option<nat>)
      ensures found == Find(feeds, script, url)
    {
      ghost var whole := Find(feeds, script, url);
      assert feeds[0..] == feeds;
      for i := 0 to |feeds|
        invariant match Find(feeds[i..], script, url)
                  case None => whole == None
                  case Some(k) => whole == Some(i + k)
      {
        if feeds[i].script == script && feeds[i].url == url {
          return Some(i);
        }
        assert feeds[i..][1..] == feeds[i + 1..];
      }
      return None;
    }

    /** usable says whether the URL is one the device will fetch. */
    method Follow(script: string, url: string, usable: bool, interval: nat) returns (ok: bool)
      modifies this`feeds
      ensures (Now(), ok) == ScriptFetch.Follow(old(Now()), script, url, usable, interval)
    {
      hide Find;
      if script == "" {
        return false;
      }
      if !usable {
        return false;
      }
      var pace := interval;
      if pace == 0 {
        pace := DEFAULT_INTERVAL;
      }
      if pace < MIN_INTERVAL {
        pace := MIN_INTERVAL;
      }
      if pace > MAX_INTERVAL {
        pace := MAX_INTERVAL;
      }
      var held := FindFeed(script, url);
      if held.Some? {
        feeds := feeds[held.value := feeds[held.value].(interval := pace)];
        return true;
      }
      var mine := 0;
      for i := 0 to |feeds|
        invariant mine == CountOf(feeds[..i], script)
      {
        assert feeds[..i + 1][..i] == feeds[..i];
        if feeds[i].script == script {
          mine := mine + 1;
        }
      }
      assert feeds[..|feeds|] == feeds;
      if mine >= MAX_FEEDS_PER_SCRIPT || |feeds| >= MAX_FEEDS {
        return false;
      }
      feeds := feeds + [Feed(script, url, pace, 0, "", 0, "", 0, false)];
      return true;
    }

    /** Given once at start-up; a client that is replaced later is not told. */
    method SetClient(present: bool)
      modifies this`hasClient, this`http
      ensures Now() == ScriptFetch.SetClient(old(Now()), present)
    {
      hasClient := present;
      http := Quiet;
    }

    /** Drop whatever is in flight. */
    method Abandon()
      modifies this`running, this`http
      ensures Now() == Abandoned(old(Now()))
    {
      if hasClient {
        http := Quiet;
      }
      running := -1;
    }

    /** The other scripts' feeds moved up, in order, to where write then is. */
    method MoveUp(script: string) returns (moved: seq<Feed>, write: nat)
      ensures write <= |feeds| == |moved| && moved[..write] == Others(feeds, script)
    {
      moved, write := feeds, 0;
      for read := 0 to |feeds|
        invariant |moved| == |feeds| && write <= read
        invariant moved[..write] == Others(feeds[..read], script) && moved[read..] == feeds[read..]
      {
        assert feeds[..read + 1][..read] == feeds[..read];
        assert moved[read] == moved[read..][0] == feeds[read];
        if feeds[read].script != script {
          moved := moved[write := moved[read]];
          write := write + 1;
        }
      }
      assert feeds[..|feeds|] == feeds;
    }

    method Forget(script: string)
      requires -1 <= running
      modifies this
      ensures Now() == ScriptFetch.Forget(old(Now()), script)
    {
      if 0 <= running < |feeds| && feeds[running].script == script {
        Abandon();
      }
      var moved, write := MoveUp(script);
      if write != |feeds| {
        feeds := moved[..write];
        Abandon();
      }
    }

    method Tick(now: nat, answer: Answer, refusal: Option<string>)
      requires -1 <= running
      modifies this
      ensures Now() == ScriptFetch.Tick(old(Now()), Input(now, answer, refusal))
    {
      hide ScriptFetch.Collect, ScriptFetch.Begin;
      clock := now;
      if !hasClient {
        return;
      }
      Collect(now, answer);
      if running < 0 && networkUp {
        Start(now, refusal);
      }
    }

    method Collect(now: nat, answer: Answer)
      requires hasClient && -1 <= running
      modifies this`feeds, this`running, this`http
      ensures Now() == ScriptFetch.Collect(old(Now()), now, answer) && -1 <= running
    {
      if running < 0 {
        return;
      }
      if running >= |feeds| {
        running := -1;
        http := Quiet;
        return;
      }
      var feed := feeds[running];
      match answer {
        case StillRunning =>
          if now >= startedAt && now - startedAt < FETCH_TIMEOUT {
            return;
          }
          feed := feed.(failure := "timed out", status := 0, due := now + FAILURE_BACKOFF);
        case Done(status, body) =>
          feed := feed.(status := status, failure := "");
          if feed.status >= 200 && feed.status < 300 {
            feed := feed.(body := body, arrivedAt := now, seen := true);
          }
          feed := feed.(due := now + feed.interval);
        case Failed(reason) =>
          feed := feed.(failure := reason);
          if feed.failure == "" {
            feed := feed.(failure := "fetch failed");
          }
          feed := feed.(status := 0, due := now + FAILURE_BACKOFF);
        case Gone =>
          feed := feed.(due := now + feed.interval);
      }
      feeds := feeds[running := feed];
      http := Quiet;
      running := -1;
    }

    method Start(now: nat, refusal: Option<string>)
      modifies this
      ensures Now() == ScriptFetch.Begin(old(Now()), now, refusal)
    {
      var best: Option<nat> := None;
      for i := 0 to |feeds|
        invariant best.Some? ==> best.value < |feeds|
        invariant DueFrom(feeds, now, i, best) == Due(feeds, now) && Now() == old(Now())
      {
        var feed := feeds[i];
        if feed.due <= now {
          if best == None || feed.due < feeds[best.value].due {
            best := Some(i);
          }
        }
      }
      if best == None {
        return;
      }
      var i := best.value;
      if refusal.Some? {
        var reason := if refusal.value == "" then "cannot fetch" else refusal.value;
        feeds := feeds[i := feeds[i].(failure := reason, due := now + FAILURE_BACKOFF)];
        http := Quiet;
        return;
      }
      http := Busy(feeds[i].url);
      running := i;
      startedAt := now;
      started := started + 1;
    }

    method Body(script: string, url: string) returns (body: Option<string>)
      ensures body == BodyOf(Now(), script, url)
    {
      var held := FindFeed(script, url);
      if held == None || !feeds[held.value].seen {
        return None;
      }
      return Some(feeds[held.value].body);
    }

    method Status(script: string, url: string) returns (status: int)
      ensures status == StatusOf(Now(), script, url)
    {
      var held := FindFeed(script, url);
      return if held == None then 0 else feeds[held.value].status;
    }

    method Failure(script: string, url: string) returns (failure: string)
      ensures failure == FailureOf(Now(), script, url)
    {
      var held := FindFeed(script, url);
      return if held == None then "" else feeds[held.value].failure;
    }

    method Age(script: string, url: string) returns (age: int)
      ensures age == AgeOf(Now(), script, url)
    {
      var held := FindFeed(script, url);
      if held == None || !feeds[held.value].seen {
        return -1;
      }
      if clock < feeds[held.value].arrivedAt {
        return 0;
      }
      return clock - feeds[held.value].arrivedAt;
    }
  }
}
