/**
 How long a notification stays on the panel: its own time, counted from when it
 came up or was last refreshed, however it came up.
 */
module NotificationTimes {
  import opened Basics
  import opened Notifications
  import opened NotificationRuns

  function ShownId(s: Queue): Option<string> {
    if s.active.Some? then Some(s.active.value.id) else None
  }

  /** The id a note is known by: its own, or its number. */
  function NameOf(s: Queue, n: Note): string {
    Stamped(s, n, 0).id
  }

  /** The operation is a new version of what is shown. */
  predicate Refreshes(s: Queue, op: Op) {
    op.Pushed? && Acceptable(op.note) && ShownId(s) == Some(NameOf(s, op.note))
  }

  function TimeOf(op: Op): nat {
    match op
    case Pushed(_, now) => now
    case Ticked(now) => now
    case Dismissed(_, now) => now
    case AllDismissed(now) => now
    case Cleared => 0
  }

  /** since, or the time of the operation when it brings up or refreshes a note. */
  function SinceThen(s: Queue, since: nat, op: Op): nat {
    if ShownId(Apply(s, op)) != ShownId(s) || Refreshes(s, op) then TimeOf(op) else since
  }

  function SinceFrom(s: Queue, since: nat, ops: seq<Op>): nat
    decreases |ops|
  {
    if ops == [] then since else SinceFrom(Apply(s, ops[0]), SinceThen(s, since, ops[0]), ops[1..])
  }

  /** When what is shown after a run came up or was last refreshed. */
  function Since(ops: seq<Op>): nat {
    SinceFrom(EMPTY, 0, ops)
  }

  /** A note's time on the panel is over, had it come up at since. */
  predicate HadItsTime(n: Note, since: nat, now: nat) {
    !n.hold && now >= since + n.seconds * 1000
  }

  /** Neither shown nor waiting. */
  predicate Absent(s: Queue, id: string) {
    ShownId(s) != Some(id) && forall i :: 0 <= i < |s.queued| ==> s.queued[i].id != id
  }

  /** Every note is to be shown for some time. */
  predicate Lasting(q: seq<Note>) {
    forall i :: 0 <= i < |q| ==> q[i].seconds >= 1
  }

  predicate Counts(s: Queue, since: nat) {
    && Sound(s) && Lasting(s.queued)
    && (s.active.Some? ==> s.active.value.seconds >= 1 && s.active.value.startedAt == since)
  }

  // --- what is shown counts from when it came up ------------------------------------------------

  lemma LastingWithout(q: seq<Note>, i: nat)
    requires Lasting(q) && i < |q|
    ensures Lasting(Without(q, i))
  {
    var r := Without(q, i);
    forall j | 0 <= j < |r| ensures r[j].seconds >= 1 {
      assert r[j] == if j < i then q[j] else q[j + 1];
    }
  }

  predicate NobodyNamed(q: seq<Note>, id: string) {
    forall i :: 0 <= i < |q| ==> q[i].id != id
  }

  lemma {:induction false} LastingInsisting(q: seq<Note>, id: string)
    ensures Lasting(q) ==> Lasting(Insisting(q))
    ensures NobodyNamed(q, id) ==> NobodyNamed(Insisting(q), id)
  {
    if q != [] {
      LastingInsisting(q[..|q| - 1], id);
    }
  }

  lemma NobodyWithout(q: seq<Note>, i: nat, id: string)
    requires NobodyNamed(q, id) && i < |q|
    ensures NobodyNamed(Without(q, i), id)
  {
    var r := Without(q, i);
    forall j | 0 <= j < |r| ensures r[j].id != id {
      assert r[j] == if j < i then q[j] else q[j + 1];
    }
  }

  /** Whoever comes up next is not the one that leaves, and starts now. */
  lemma PromoteBestCounts(s: Queue, gone: string, now: nat)
    requires Lasting(s.queued) && s.active == None && NobodyNamed(s.queued, gone)
    ensures var t := PromoteBest(s, now);
      && Lasting(t.queued) && NobodyNamed(t.queued, gone)
      && (t.active.Some? ==> t.active.value.id != gone && t.active.value.seconds >= 1 && t.active.value.startedAt == now)
  {
    hide Best, Without;
    if s.queued != [] {
      LastingWithout(s.queued, Best(s.queued));
      NobodyWithout(s.queued, Best(s.queued), gone);
    }
  }

  /** The id that is shown, or one that nobody has. */
  function Leaving(s: Queue): (id: string)
    requires Sound(s)
    ensures NobodyNamed(s.queued, id) && (s.active.Some? ==> id == s.active.value.id)
  {
    if s.active.Some? then s.active.value.id else ""
  }

  lemma TickCounts(s: Queue, since: nat, now: nat)
    requires Counts(s, since)
    ensures var t := Tick(s, now); Sound(t) ==> Counts(t, SinceThen(s, since, Ticked(now)))
  {
    hide Sound, PromoteBest, Over, Best, Without;
    var id := Leaving(s);
    PromoteBestCounts(s.(active := None), id, now);
    if s.queued != [] {
      LastingWithout(s.queued, Best(s.queued));
      assert s.queued[Best(s.queued)].id != id;
    }
    if s.active == None {
      NobodyWaits(s);
      assert PromoteBest(s, now) == s by { PromoteNobody(s, now); }
    }
  }

  lemma NobodyWaits(s: Queue)
    requires Sound(s) && s.active == None
    ensures s.queued == []
  {
  }

  lemma PromoteNobody(s: Queue, now: nat)
    requires s.queued == []
    ensures PromoteBest(s, now) == s
  {
  }

  lemma PushCounts(s: Queue, since: nat, note: Note, now: nat)
    requires Counts(s, since)
    ensures var t := Push(s, note, now).0; Sound(t) ==> Counts(t, SinceThen(s, since, Pushed(note, now)))
  {
    hide Sound, Acceptable, Admit, Numerals.DecimalNat;
    var n := Stamped(s, note, now);
    if ShownId(s) != Some(n.id) {
      AdmitCounts(s.(nextSequence := s.nextSequence + 1), n.(sequence := s.nextSequence), now);
    }
  }

  /** A new note comes up now, or what is shown stays. */
  lemma AdmitCounts(s: Queue, n: Note, now: nat)
    requires Lasting(s.queued) && n.seconds >= 1 && (s.active.Some? ==> s.active.value.seconds >= 1)
    ensures var t := Admit(s, n, now).0;
      Lasting(t.queued) && ((t.active == s.active && s.active.Some?) || t.active == Some(n.(startedAt := now)))
  {
    hide Worst, Without;
    if |s.queued| >= MAX_QUEUED {
      LastingWithout(s.queued, Worst(s.queued));
    }
  }

  lemma LeaveCounts(s: Queue, since: nat, op: Op)
    requires Counts(s, since) && (op.Dismissed? || op.AllDismissed?)
    ensures var t := Apply(s, op); Sound(t) ==> Counts(t, SinceThen(s, since, op))
  {
    hide Sound, PromoteBest, Without, Find, Insisting;
    var id := Leaving(s);
    LastingInsisting(s.queued, id);
    var q := if op.AllDismissed? then Insisting(s.queued) else s.queued;
    PromoteBestCounts(s.(active := None, queued := q), id, op.now);
    if op.Dismissed? && Find(s.queued, op.id).Some? {
      LastingWithout(s.queued, Find(s.queued, op.id).value);
    }
  }

  lemma OpCounts(s: Queue, since: nat, op: Op)
    requires Counts(s, since)
    ensures Counts(Apply(s, op), SinceThen(s, since, op))
  {
    hide Sound, Push, Tick, Dismiss, DismissAll, SinceThen, Lasting;
    OpSound(s, op);
    match op {
      case Pushed(note, now) => PushCounts(s, since, note, now);
      case Ticked(now) => TickCounts(s, since, now);
      case Cleared => assert Lasting([]) by { NothingLasts(); }
      case _ => LeaveCounts(s, since, op);
    }
  }

  lemma NothingLasts()
    ensures Lasting([])
  {
  }

  lemma {:induction false} RunCounts(s: Queue, since: nat, ops: seq<Op>)
    requires Counts(s, since)
    ensures Counts(Run(s, ops), SinceFrom(s, since, ops))
    decreases |ops|
  {
    hide Apply, Counts, SinceThen;
    if ops != [] {
      OpCounts(s, since, ops[0]);
      RunCounts(Apply(s, ops[0]), SinceThen(s, since, ops[0]), ops[1..]);
    }
  }

  // --- its time on the panel ---------------------------------------------------------------------

  /** Somebody who waits has a higher priority than n. */
  predicate Outranked(q: seq<Note>, n: Note) {
    exists i :: 0 <= i < |q| && q[i].priority > n.priority
  }

  lemma BestOutranks(q: seq<Note>, n: Note)
    requires Distinct(q)
    ensures q != [] && q[Best(q)].priority > n.priority <==> Outranked(q, n)
  {
    hide BestFrom;
    if q != [] {
      BestRanks(q, 1, 0);
    }
  }

  /** What a tick does to the note that is shown. */
  predicate Decides(s: Queue, n: Note, since: nat, now: nat) {
    var t := Tick(s, now);
    if HadItsTime(n, since, now) then Absent(t, n.id)
    else if Outranked(s.queued, n) then t.active.Some? && t.active.value.priority > n.priority && n in t.queued
    else t.active == Some(n)
  }

  lemma TickDecides(s: Queue, since: nat, now: nat)
    requires Counts(s, since) && s.active.Some?
    ensures Decides(s, s.active.value, since, now)
  {
    hide Sound, PromoteBest, Best, Without;
    var n := s.active.value;
    PromoteBestCounts(s.(active := None), Leaving(s), now);
    SoundDistinct(s);
    BestOutranks(s.queued, n);
    OverIff(s, since, now);
    if !Over(s, now) && Outranked(s.queued, n) {
      var u := Promote(s, Best(s.queued), now).queued;
      assert (u + [n])[|u|] == n;
    }
  }

  lemma SoundDistinct(s: Queue)
    requires Sound(s)
    ensures Distinct(s.queued)
  {
  }

  lemma OverIff(s: Queue, since: nat, now: nat)
    requires Counts(s, since) && s.active.Some?
    ensures Over(s, now) <==> HadItsTime(s.active.value, since, now)
  {
    hide Sound, Lasting;
  }

  /** An operation that neither refreshes, dismisses nor outranks n, nor comes when
      its time is over. */
  predicate Leaves(s: Queue, n: Note, since: nat, op: Op) {
    match op
    case Pushed(note, _) => Acceptable(note) ==> NameOf(s, note) != n.id && note.priority <= n.priority
    case Ticked(now) => !HadItsTime(n, since, now)
    case Dismissed(id, _) => id != n.id || !n.dismissible
    case AllDismissed(_) => !n.dismissible
    case Cleared => false
  }

  predicate AllLeave(s: Queue, n: Note, since: nat, ops: seq<Op>)
    decreases |ops|
  {
    ops == [] || (Leaves(s, n, since, ops[0]) && AllLeave(Apply(s, ops[0]), n, since, ops[1..]))
  }

  lemma LeftAlone(s: Queue, since: nat, op: Op)
    requires Counts(s, since) && s.active.Some? && !Outranked(s.queued, s.active.value) && Leaves(s, s.active.value, since, op)
    ensures var t := Apply(s, op); t.active == s.active && !Outranked(t.queued, s.active.value) && SinceThen(s, since, op) == since
  {
    hide Sound, Tick, Push, Insisting, Without, Lasting, Outranked;
    var n := s.active.value;
    match op {
      case Pushed(note, now) => PushLeaves(s, since, note, now);
      case Ticked(now) => TickLeaves(s, since, now);
      case Dismissed(id, _) =>
        if Find(s.queued, id).Some? {
          OutrankedWithout(s.queued, Find(s.queued, id).value, n);
        }
      case AllDismissed(_) => OutrankedInsisting(s.queued, n);
    }
  }

  lemma TickLeaves(s: Queue, since: nat, now: nat)
    requires Counts(s, since) && s.active.Some? && !Outranked(s.queued, s.active.value) && !HadItsTime(s.active.value, since, now)
    ensures Tick(s, now) == s
  {
    hide Sound, Best, Without, Outranked;
    SoundDistinct(s);
    BestOutranks(s.queued, s.active.value);
    OverIff(s, since, now);
  }

  lemma PushLeaves(s: Queue, since: nat, note: Note, now: nat)
    requires s.active.Some? && !Outranked(s.queued, s.active.value) && Leaves(s, s.active.value, since, Pushed(note, now))
    ensures var t := Push(s, note, now).0; t.active == s.active && !Outranked(t.queued, s.active.value)
  {
    hide Acceptable, Worst, Without, Numerals.DecimalNat;
    if |s.queued| >= MAX_QUEUED {
      OutrankedWithout(s.queued, Worst(s.queued), s.active.value);
    }
  }

  lemma OutrankedWithout(q: seq<Note>, i: nat, n: Note)
    requires i < |q| && !Outranked(q, n)
    ensures !Outranked(Without(q, i), n)
  {
    var r := Without(q, i);
    forall j | 0 <= j < |r| ensures r[j].priority <= n.priority {
      assert r[j] == if j < i then q[j] else q[j + 1];
    }
  }

  lemma {:induction false} OutrankedInsisting(q: seq<Note>, n: Note)
    requires !Outranked(q, n)
    ensures !Outranked(Insisting(q), n)
  {
    if q != [] {
      OutrankedInsisting(q[..|q| - 1], n);
    }
  }

  lemma {:induction false} AllLeftAlone(s: Queue, since: nat, ops: seq<Op>)
    requires Counts(s, since) && s.active.Some? && !Outranked(s.queued, s.active.value)
    requires AllLeave(s, s.active.value, since, ops)
    ensures var t := Run(s, ops); t.active == s.active && !Outranked(t.queued, s.active.value) && Counts(t, since)
    decreases |ops|
  {
    hide Apply, Counts, Outranked, Leaves, SinceThen;
    if ops != [] {
      LeftAlone(s, since, ops[0]);
      OpCounts(s, since, ops[0]);
      AllLeftAlone(Apply(s, ops[0]), since, ops[1..]);
    }
  }

  lemma {:induction false} RunOn(s: Queue, ops: seq<Op>, more: seq<Op>)
    ensures Run(s, ops + more) == Run(Run(s, ops), more)
    decreases |ops|
  {
    hide Apply;
    if ops == [] {
      assert [] + more == more;
    } else {
      RunOn(Apply(s, ops[0]), ops[1..], more);
      assert (ops + more)[1..] == ops[1..] + more;
    }
  }

  /** Whatever has happened before, a tick takes the shown note off the panel and out
      of the queue exactly when its time since it came up or was last refreshed is
      over; otherwise it stays, or waits behind somebody of higher priority. */
  lemma TickEndsTime(ops: seq<Op>, now: nat)
    ensures var s := Run(EMPTY, ops); s.active.Some? ==> Decides(s, s.active.value, Since(ops), now)
  {
    hide Run, Counts, Decides, SinceFrom;
    NothingCounts();
    RunCounts(EMPTY, 0, ops);
    if Run(EMPTY, ops).active.Some? {
      TickDecides(Run(EMPTY, ops), Since(ops), now);
    }
  }

  lemma NothingCounts()
    ensures Counts(EMPTY, 0)
  {
  }

  /** In every run, a note that came up or was refreshed, by whatever operation, and
      is neither refreshed, dismissed nor outranked afterwards, is still what is shown
      after every later operation and every tick before its time is over, and is gone
      after the first tick from then on unless it holds. */
  lemma NoteHasItsTime(ops: seq<Op>, more: seq<Op>, now: nat)
    requires var s := Run(EMPTY, ops);
      s.active.Some? && !Outranked(s.queued, s.active.value) && AllLeave(s, s.active.value, Since(ops), more)
    ensures var n := Run(EMPTY, ops).active.value; var s := Run(EMPTY, ops + more);
      && s.active == Some(n)
      && if HadItsTime(n, Since(ops), now) then Absent(Tick(s, now), n.id) else Tick(s, now).active == Some(n)
  {
    hide Run, Counts, SinceFrom, Tick, AllLeave, Outranked, Absent, HadItsTime;
    NothingCounts();
    RunCounts(EMPTY, 0, ops);
    RunOn(EMPTY, ops, more);
    AllLeftAlone(Run(EMPTY, ops), Since(ops), more);
    TickDecides(Run(EMPTY, ops + more), Since(ops), now);
  }
}
