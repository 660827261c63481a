/** NotificationQueue of firmware/src/notify/Notifications.cpp: the steps of Notifications on fields. */
module NotificationQueue {
  import opened Basics
  import opened Notifications
  import opened Numerals

  class NotificationQueue {
    var queued: seq<Note>
    var current: Note
    var hasActive: bool
    var nextSequence: nat
    var dropped: nat

    constructor ()
      ensures Now() == EMPTY
    {
      queued, hasActive, nextSequence, dropped := [], false, 1, 0;
      current := Note("", "", 1, 5, false, true, "", 0, 0, 0);
    }

    function Now(): Queue
      reads this
    {
      Queue(queued, if hasActive then Some(current) else None, nextSequence, dropped)
    }

    function Pending(): nat
      reads this
    {
      |queued|
    }

    /** -1 when nobody waits. */
    method BestQueuedIndex() returns (best: int)
      ensures if queued == [] then best == -1 else best == Best(queued)
    {
      if queued == [] {
        return -1;
      }
      var b: nat := 0;
      for i := 1 to |queued|
        invariant b < |queued| && BestFrom(queued, i, b) == Best(queued)
      {
        if RanksAhead(queued[i], queued[b]) {
          b := i;
        }
      }
      return b;
    }

    method WorstQueuedIndex() returns (worst: int)
      ensures if queued == [] then worst == -1 else worst == Worst(queued)
    {
      if queued == [] {
        return -1;
      }
      var w: nat := 0;
      for i := 1 to |queued|
        invariant w < |queued| && WorstFrom(queued, i, w) == Worst(queued)
      {
        if RanksAhead(queued[w], queued[i]) {
          w := i;
        }
      }
      return w;
    }

    method PromoteAt(i: nat, now: nat)
      requires i < |queued|
      modifies this
      ensures Now() == Promote(old(Now()), i, now)
    {
      current := queued[i];
      queued := queued[..i] + queued[i + 1..];
      current := current.(startedAt := now);
      hasActive := true;
    }

    method PromoteNext(now: nat)
      modifies this
      ensures Now() == PromoteBest(old(Now()), now)
    {
      var best := BestQueuedIndex();
      if best >= 0 {
        PromoteAt(best, now);
      }
    }

    method FindQueued(id: string) returns (found: Option<nat>)
      ensures found == Find(queued, id)
    {
      for i := 0 to |queued|
        invariant forall j :: 0 <= j < i ==> queued[j].id != id
      {
        if queued[i].id == id {
          return Some(i);
        }
      }
      return None;
    }

    /** What push fills in first. */
    method Stamp(given: Note, now: nat) returns (n: Note)
      ensures n == Stamped(Now(), given, now)
    {
      n := given;
      if n.seconds < 1 {
        n := n.(seconds := 1);
      }
      n := n.(enqueuedAt := now);
      if n.id == "" {
        n := n.(id := "n" + DecimalNat(nextSequence));
      }
    }

    method Push(given: Note, now: nat) returns (r: PushResult)
      modifies this
      ensures (Now(), r) == Notifications.Push(old(Now()), given, now)
    {
      hide Admit, Find, Stamped;
      if given.text == "" || |given.text| > MAX_TEXT_BYTES || |given.id| > MAX_ID_BYTES {
        return Invalid;
      }
      var n := Stamp(given, now);
      if hasActive && current.id == n.id {
        current := n.(sequence := current.sequence, startedAt := now);
        return Replaced;
      }
      var found := FindQueued(n.id);
      if found.Some? {
        var i := found.value;
        queued := queued[i := n.(sequence := queued[i].sequence)];
        return Replaced;
      }
      n := n.(sequence := nextSequence);
      nextSequence := nextSequence + 1;
      r := Take(n, now);
    }

    /** The end of push, for a note that is new. */
    method Take(n: Note, now: nat) returns (r: PushResult)
      modifies this
      ensures (Now(), r) == Admit(old(Now()), n, now)
    {
      hide WorstFrom;
      if !hasActive {
        current := n.(startedAt := now);
        hasActive := true;
        return Shown;
      }
      if n.priority > current.priority {
        var displaced := current;
        current := n.(startedAt := now);
        queued := queued + [displaced];
        return Shown;
      }
      if |queued| >= MAX_QUEUED {
        var worst := WorstQueuedIndex();
        if worst < 0 || !RanksAhead(n, queued[worst]) {
          dropped := dropped + 1;
          return DroppedLowPriority;
        }
        queued := queued[..worst] + queued[worst + 1..];
        dropped := dropped + 1;
      }
      queued := queued + [n];
      return PushResult.Queued;
    }

    /** True when what is shown changed. */
    method Tick(now: nat) returns (changed: bool)
      modifies this
      ensures Now() == Notifications.Tick(old(Now()), now)
      ensures changed == ((if old(hasActive) then old(current).id else "") != (if hasActive then current.id else ""))
    {
      hide Best;
      var before := if hasActive then current.id else "";
      if hasActive && !current.hold {
        var elapsed := if now < current.startedAt then 0 else now - current.startedAt;
        if elapsed >= current.seconds * 1000 {
          hasActive := false;
        }
      }
      if !hasActive {
        PromoteNext(now);
      } else {
        var best := BestQueuedIndex();
        if best >= 0 && queued[best].priority > current.priority {
          var displaced := current;
          PromoteAt(best, now);
          queued := queued + [displaced];
        }
      }
      var after := if hasActive then current.id else "";
      changed := before != after;
    }

    method Dismiss(id: string, now: nat) returns (ok: bool)
      modifies this
      ensures (Now(), ok) == Notifications.Dismiss(old(Now()), id, now)
    {
      hide Find, PromoteBest;
      if hasActive && current.id == id {
        if !current.dismissible {
          return false;
        }
        hasActive := false;
        PromoteNext(now);
        return true;
      }
      var found := FindQueued(id);
      if found.Some? {
        var i := found.value;
        if !queued[i].dismissible {
          return false;
        }
        queued := queued[..i] + queued[i + 1..];
        return true;
      }
      return false;
    }

    method DismissActive(now: nat) returns (ok: bool)
      modifies this
      ensures old(hasActive) ==> (Now(), ok) == Notifications.Dismiss(old(Now()), old(current).id, now)
      ensures !old(hasActive) ==> !ok && Now() == old(Now())
    {
      if !hasActive {
        return false;
      }
      ok := Dismiss(current.id, now);
    }

    method DismissAll(now: nat) returns (removed: nat)
      modifies this
      ensures Now() == Notifications.DismissAll(old(Now()), now)
      ensures removed == |old(queued)| - |Insisting(old(queued))| + (if old(hasActive) && old(current).dismissible then 1 else 0)
    {
      hide PromoteBest;
      removed := 0;
      var kept := [];
      for i := 0 to |queued|
        invariant queued == old(queued) && Now() == old(Now())
        invariant kept == Insisting(queued[..i]) && removed + |kept| == i
      {
        assert queued[..i + 1][..i] == queued[..i];
        if queued[i].dismissible {
          removed := removed + 1;
        } else {
          kept := kept + [queued[i]];
        }
      }
      assert queued[..|queued|] == queued;
      queued := kept;
      if hasActive && current.dismissible {
        hasActive := false;
        removed := removed + 1;
        PromoteNext(now);
      }
    }

    method Clear()
      modifies this
      ensures Now() == Notifications.Clear(old(Now()))
    {
      queued, hasActive, dropped := [], false, 0;
    }
  }
}
