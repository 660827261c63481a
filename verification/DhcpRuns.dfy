/**
 What the DHCP client keeps in every run, whatever replies arrive and whatever
 its clock does.
 */
module DhcpRuns {
  import opened Basics
  import opened Dhcp

  datatype Event =
    | Started(seed: nat, now: nat)
    | Stopped
    | Ticked(now: nat)
    | Received(parsed: Option<Reply>, now: nat)
    | Preferring(address: nat)
    | FlagsTaken

  function Apply(c: Client, e: Event): Client {
    match e
    case Started(seed, now) => Start(c, seed, now)
    case Stopped => Stop(c)
    case Ticked(now) => Tick(c, now).0
    case Received(parsed, now) => Receive(c, parsed, now)
    case Preferring(address) => c.(preferred := address)
    case FlagsTaken => c.(acquired := false, lost := false)
  }

  function Run(c: Client, events: seq<Event>): Client
    decreases |events|
  {
    if events == [] then c else Run(Apply(c, events[0]), events[1..])
  }

  predicate IsAsking(c: Client) {
    c.phase == Selecting || c.phase == Requesting || c.phase == Renewing || c.phase == Rebinding
  }

  /** Selecting and Requesting hold no lease, the other phases but Idle a real
      one; a lease without end stays bound; deadlines are in order; retries are
      between four seconds and a minute apart, and an offer is asked for at most
      four times. */
  predicate Sound(c: Client) {
    && (c.phase == Selecting || c.phase == Requesting ==> c.lease == NO_LEASE && !c.infinite)
    && (Holds(c) ==> c.lease.address != 0 && c.lease.leaseSeconds != 0 && c.infinite == (c.lease.leaseSeconds == INFINITE_LEASE))
    && (c.phase == Renewing || c.phase == Rebinding ==> !c.infinite)
    && c.renewAt <= c.rebindAt <= c.expireAt
    && FIRST_RETRY <= c.retry <= MAX_RETRY
    && (c.phase == Requesting ==> c.attempts <= MAX_REQUEST_ATTEMPTS && c.offered.address != 0)
    && (c.phase != Idle ==> c.xid != 0)
  }

  lemma AdoptSound(c: Client, l: Lease, now: nat)
    requires Sound(c) && c.phase != Idle && l.leaseSeconds != 0 && l.address != 0
    ensures Grantable(Filled(l)) && Sound(Adopt(c, Filled(l), now))
  {
    FilledGrantable(l);
  }

  function Forward(from: nat, to: nat): nat {
    if to > from then to - from else 0
  }

  // --- the parts of a tick --------------------------------------------------------------------

  /** The same lease, held with the same end. */
  predicate SameLease(c: Client, d: Client) {
    d.lease == c.lease && d.infinite == c.infinite && d.renewAt == c.renewAt && d.expireAt == c.expireAt
  }

  lemma ClockReadSound(c: Client, now: nat)
    requires Sound(c)
    ensures var d := ClockRead(c, now);
      && Sound(d) && d.lastTick == now && d.phase == c.phase && d.lease == c.lease && d.infinite == c.infinite
      && (d.expireAt == 0 || d.expireAt - now == c.expireAt - c.lastTick - Forward(c.lastTick, now))
  {
  }

  lemma BeginSound(c: Client, phase: Phase, now: nat)
    requires Sound(c)
    requires phase == Selecting ==> c.lease == NO_LEASE && !c.infinite
    requires phase == Renewing || phase == Rebinding ==> Holds(c) && !c.infinite
    requires phase in {Selecting, Renewing, Rebinding}
    ensures var d := Begin(c, phase, now);
      Sound(d) && SameLease(c, d) && d.phase == phase && d.lastTick == c.lastTick && d.rebindAt == c.rebindAt && d.nextSend == now
  {
    hide NextRandom;
  }

  lemma AgedSound(c: Client, now: nat)
    requires Sound(c) && !(c.phase == Bound && (c.infinite || now < c.renewAt))
    ensures var d := Aged(c, now);
      && Sound(d) && d.phase != Bound && d.lastTick == c.lastTick && (c.phase != Idle ==> d.phase != Idle)
      && (Holds(d) ==> SameLease(c, d) && Holds(c) && now < d.expireAt)
      && (d == c || d.nextSend == now)
  {
    hide Begin;
    if c.phase == Bound {
      BeginSound(c, Renewing, now);
    } else if c.phase == Renewing && now >= c.rebindAt {
      BeginSound(c, Rebinding, now);
    }
    var d := if c.phase == Bound then Begin(c, Renewing, now)
             else if c.phase == Renewing && now >= c.rebindAt then Begin(c, Rebinding, now)
             else c;
    DroppedSound(d, now);
  }

  lemma DroppedSound(c: Client, now: nat)
    requires Sound(c)
    ensures forall lost :: var d := EnterSelecting(DropLease(c).(lost := lost), now);
      Sound(d) && d.phase == Selecting && d.lastTick == c.lastTick && d.nextSend == now && d.lease == NO_LEASE && d.lost == lost
  {
    hide NextRandom;
  }

  lemma ResignedSound(c: Client, now: nat)
    requires Sound(c)
    ensures var d := Resigned(c, now);
      && Sound(d) && d.lastTick == c.lastTick && (Holds(d) ==> d == c) && (c.phase != Requesting ==> d == c)
      && (c.phase == Requesting ==> IsAsking(d)) && (d == c || d.nextSend == now)
      && (d.phase == Requesting ==> d.attempts < MAX_REQUEST_ATTEMPTS)
  {
    hide NextRandom;
  }

  lemma SentSound(c: Client, now: nat)
    requires Sound(c) && c.phase != Bound && (c.phase == Requesting ==> c.attempts < MAX_REQUEST_ATTEMPTS)
    ensures var d := Sent(c, now).0;
      && Sound(d) && d.lastTick == c.lastTick && Holds(d) == Holds(c) && SameLease(c, d) && d.phase != Bound
      && (c.phase != Idle ==> d.phase != Idle)
  {
    hide Begin, Compose;
    if c.phase == Renewing {
      BeginSound(c, Rebinding, now);
    }
  }

  /** What a tick does to a lease: it keeps it to its end or drops it. */
  lemma TickSound(c: Client, now: nat)
    requires Sound(c)
    ensures var d := Tick(c, now).0;
      && Sound(d) && (c.phase != Idle ==> d.phase != Idle && d.lastTick == now) && (c.phase == Idle ==> d == c)
      && (Holds(d) ==> Holds(c) && SameLease(ClockRead(c, now), d))
      && (Holds(d) && !d.infinite ==> now < d.expireAt && (d.phase == Bound ==> now < d.renewAt))
  {
    hide Sound, ClockRead, Aged, Resigned, Sent;
    if c.phase != Idle {
      var d := ClockRead(c, now);
      ClockReadSound(c, now);
      if d.phase == Bound && (d.infinite || now < d.renewAt) {
        InOrder(d);
      } else {
        AgedSound(d, now);
        ResignedSound(Aged(d, now), now);
        SentSound(Resigned(Aged(d, now), now), now);
      }
    }
  }

  lemma InOrder(c: Client)
    requires Sound(c)
    ensures c.renewAt <= c.expireAt
  {
  }

  lemma EventSound(c: Client, e: Event)
    requires Sound(c)
    ensures Sound(Apply(c, e))
  {
    hide NextRandom, Compose, Adopt, Filled, Tick;
    match e {
      case Ticked(now) => TickSound(c, now);
      case Received(parsed, now) =>
        if parsed.Some? && parsed.value.lease.leaseSeconds != 0 {
          FilledGrantable(parsed.value.lease);
          if parsed.value.lease.address != 0 && c.phase != Idle {
            AdoptSound(c, parsed.value.lease, now);
          }
        }
        FilledZero(parsed);
      case _ =>
    }
  }

  lemma FilledZero(parsed: Option<Reply>)
    ensures parsed.Some? ==> Filled(parsed.value.lease).address == parsed.value.lease.address
    ensures parsed.Some? ==> Filled(parsed.value.lease).leaseSeconds == parsed.value.lease.leaseSeconds
  {
  }

  /** Every reachable client is sound. */
  lemma {:induction false} RunSound(c: Client, events: seq<Event>)
    requires Sound(c)
    ensures Sound(Run(c, events))
    decreases |events|
  {
    hide Apply, Sound;
    if events != [] {
      EventSound(c, events[0]);
      RunSound(Apply(c, events[0]), events[1..]);
    }
  }

  /** Seeds are words. */
  predicate Seeded(events: seq<Event>) {
    forall i :: 0 <= i < |events| && events[i].Started? ==> events[i].seed < TWO_TO_32
  }

  /** The id in use is the one the generator drew last. */
  predicate Drawn(c: Client) {
    c.rng < TWO_TO_32 && (c.phase != Idle ==> c.xid == XidOf(c.rng))
  }

  lemma BeginDrawn(c: Client, phase: Phase, now: nat)
    ensures Drawn(Begin(c, phase, now)) && Drawn(EnterSelecting(c, now))
  {
    hide NextRandom, XidOf;
  }

  lemma AgedDrawn(c: Client, now: nat)
    requires Drawn(c)
    ensures Drawn(Aged(c, now)) && Drawn(Resigned(c, now))
  {
    hide Begin, EnterSelecting, XidOf;
    BeginDrawn(c, Renewing, now);
    BeginDrawn(c, Rebinding, now);
    var d := if c.phase == Bound then Begin(c, Renewing, now)
             else if c.phase == Renewing && now >= c.rebindAt then Begin(c, Rebinding, now)
             else c;
    BeginDrawn(DropLease(d).(lost := true), Selecting, now);
  }

  lemma SentDrawn(c: Client, now: nat)
    requires Drawn(c)
    ensures Drawn(Sent(c, now).0)
  {
    hide Begin, XidOf, Compose;
    BeginDrawn(c, Rebinding, now);
  }

  lemma TickDrawn(c: Client, now: nat)
    requires Drawn(c)
    ensures Drawn(Tick(c, now).0)
  {
    hide Aged, Resigned, Sent, XidOf;
    var d := ClockRead(c, now);
    AgedDrawn(d, now);
    AgedDrawn(Aged(d, now), now);
    SentDrawn(Resigned(Aged(d, now), now), now);
  }

  lemma EventDrawn(c: Client, e: Event)
    requires Drawn(c) && (e.Started? ==> e.seed < TWO_TO_32)
    ensures Drawn(Apply(c, e))
  {
    hide Filled, Adopt, Tick, EnterSelecting, XidOf;
    match e {
      case Ticked(now) => TickDrawn(c, now);
      case Started(seed, now) =>
        BeginDrawn(c.(rng := if seed == 0 then 1 else seed, lease := NO_LEASE, offered := NO_LEASE, infinite := false,
                      acquired := false, lost := false, lastTick := now), Selecting, now);
      case Received(parsed, now) => ReceiveDrawn(c, parsed, now);
      case _ =>
    }
  }

  lemma ReceiveDrawn(c: Client, parsed: Option<Reply>, now: nat)
    requires Drawn(c)
    ensures Drawn(Receive(c, parsed, now))
  {
    hide Filled, EnterSelecting, XidOf, RenewMillis, RebindMillis;
    BeginDrawn(DropLease(c).(lost := c.lost || c.lease.address != 0), Selecting, now);
  }

  lemma {:induction false} RunDrawn(c: Client, events: seq<Event>)
    requires Drawn(c) && Seeded(events)
    ensures Drawn(Run(c, events))
    decreases |events|
  {
    hide Apply, Drawn;
    if events != [] {
      EventDrawn(c, events[0]);
      RunDrawn(Apply(c, events[0]), events[1..]);
    }
  }

  /** In every run, a transaction begun by a client that is running has another id
      than the one before it: the generator has no fixed point, and no step of it
      mistakes zero's stand-in for its neighbour. Only a restart, which seeds the
      generator anew, may repeat an id. */
  lemma TransactionsDiffer(events: seq<Event>, phase: Phase, now: nat)
    requires Seeded(events) && Run(NEW_CLIENT, events).phase != Idle
    ensures var c := Run(NEW_CLIENT, events); Begin(c, phase, now).xid != c.xid
  {
    hide Run, NextRandom;
    RunDrawn(NEW_CLIENT, events);
    IdsDiffer(Run(NEW_CLIENT, events).rng);
  }

  lemma IdsDiffer(rng: nat)
    requires rng < TWO_TO_32
    ensures XidOf(NextRandom(rng)) != XidOf(rng)
  {
    var sum := rng * 1664525 + 1013904223;
    var wraps := sum / TWO_TO_32;
    assert sum == wraps * TWO_TO_32 + NextRandom(rng);
    ParityClash(rng * 832262, wraps * 0x8000_0000);
  }

  /** And it may: starting again from the same seed gives the same id. */
  lemma RestartRepeats(c: Client, d: Client, seed: nat, now: nat, later: nat)
    ensures Start(c, seed, now).xid == Start(d, seed, later).xid
  {
    hide NextRandom;
  }

  lemma ParityClash(a: nat, b: nat)
    ensures 2 * a + 1013904223 != 2 * b
  {
  }

  // --- no lease outlives its time ------------------------------------------------------------

  /** No tick leaves a client with a lease whose time is up. */
  lemma NothingExpiredAfterTick(events: seq<Event>, now: nat)
    ensures var c := Tick(Run(NEW_CLIENT, events), now).0;
      Holds(c) && !c.infinite ==> now < c.expireAt && (c.phase == Bound ==> now < c.renewAt)
  {
    var c := Run(NEW_CLIENT, events);
    RunSound(NEW_CLIENT, events);
    TickSound(c, now);
  }

  /** A client with the time its lease has been charged: how far the clock read
      by ticks has gone forward since the grant, a grant at a time the ticks have
      not reached yet starting in credit. opening is the charge at the first tick
      after the grant. */
  datatype Ledger = Ledger(client: Client, used: int, opening: Option<int>)

  const UNUSED := Ledger(NEW_CLIENT, 0, None)

  function Charge(l: Ledger, e: Event): Ledger {
    var c, d := l.client, Apply(l.client, e);
    match e
    case Ticked(now) =>
      var used := if c.phase == Idle then l.used else l.used + Forward(c.lastTick, now);
      Ledger(d, used, if l.opening == None && c.phase != Idle then Some(used) else l.opening)
    case Received(_, now) =>
      if d.phase == Bound && c.phase != Bound then Ledger(d, c.lastTick - now, None) else Ledger(d, l.used, l.opening)
    case _ => Ledger(d, l.used, l.opening)
  }

  function ChargeAll(l: Ledger, events: seq<Event>): Ledger
    decreases |events|
  {
    if events == [] then l else ChargeAll(Charge(l, events[0]), events[1..])
  }

  /** What is left of a lease is what was granted less what it was charged. */
  predicate Paid(l: Ledger) {
    var c := l.client;
    && Sound(c) && (Holds(c) && !c.infinite ==> c.expireAt - c.lastTick == Millis(c.lease.leaseSeconds) - l.used)
    && (l.opening.Some? ==> l.opening.value <= l.used)
  }

  lemma ChargePaid(l: Ledger, e: Event)
    requires Paid(l)
    ensures Paid(Charge(l, e))
  {
    hide Tick, Sound, Receive, ClockRead;
    EventSound(l.client, e);
    match e {
      case Ticked(now) =>
        TickSound(l.client, now);
        ClockReadSound(l.client, now);
      case Received(parsed, now) => ReceivePaid(l, parsed, now);
      case Started(_, _) => StartHoldsNothing(l.client, e);
      case _ =>
    }
  }

  lemma StartHoldsNothing(c: Client, e: Event)
    requires e.Started?
    ensures !Holds(Apply(c, e))
  {
    hide NextRandom;
  }

  /** A reply grants a lease from its own time on, or changes no deadline. */
  lemma ReceivePaid(l: Ledger, parsed: Option<Reply>, now: nat)
    requires Paid(l)
    ensures var c := Receive(l.client, parsed, now); var used := if c.phase == Bound && l.client.phase != Bound then l.client.lastTick - now else l.used;
      Holds(c) && !c.infinite ==> c.expireAt - c.lastTick == Millis(c.lease.leaseSeconds) - used
  {
    hide NextRandom, Filled, RenewMillis, RebindMillis;
    FilledZero(parsed);
  }

  lemma {:induction false} ChargeAllPaid(l: Ledger, events: seq<Event>)
    requires Paid(l)
    ensures Paid(ChargeAll(l, events)) && ChargeAll(l, events).client == Run(l.client, events)
    decreases |events|
  {
    hide Paid, Apply;
    if events != [] {
      ChargePaid(l, events[0]);
      ChargeAllPaid(Charge(l, events[0]), events[1..]);
    }
  }

  /** Over a whole run, with a clock that may step back at any time, a lease that
      is still held after a tick has been charged less than it was granted. */
  lemma LeaseNeverOutlived(events: seq<Event>, now: nat)
    ensures var l := ChargeAll(UNUSED, events + [Ticked(now)]);
      && l.client == Run(NEW_CLIENT, events + [Ticked(now)])
      && (Holds(l.client) && !l.client.infinite ==> l.used < Millis(l.client.lease.leaseSeconds))
  {
    hide Charge, Apply;
    var start := UNUSED;
    ChargeAllPaid(start, events + [Ticked(now)]);
    ChargeConcat(start, events, [Ticked(now)]);
    ChargeAllPaid(start, events);
    var before := ChargeAll(start, events);
    assert ChargeAll(before, [Ticked(now)]) == ChargeAll(Charge(before, Ticked(now)), []);
    TickChargedLess(before, now);
  }

  lemma TickChargedLess(l: Ledger, now: nat)
    requires Paid(l)
    ensures var m := Charge(l, Ticked(now));
      Holds(m.client) && !m.client.infinite ==> m.used < Millis(m.client.lease.leaseSeconds)
  {
    hide Tick, Sound;
    ChargePaid(l, Ticked(now));
    TickSound(l.client, now);
  }

  lemma {:induction false} ChargeConcat(l: Ledger, a: seq<Event>, b: seq<Event>)
    ensures ChargeAll(l, a + b) == ChargeAll(ChargeAll(l, a), b)
    decreases |a|
  {
    hide Charge;
    if a == [] {
      assert a + b == b;
    } else {
      ChargeConcat(Charge(l, a[0]), a[1..], b);
      assert (a + b)[1..] == a[1..] + b;
    }
  }

  /** The first tick after a grant opens the account: with what the clock has gone
      forward since the grant, or in credit when the grant was read at a time later
      than the ticks on both sides of it, a step back that no tick sees. */
  lemma OpeningIs(l: Ledger, parsed: Option<Reply>, at: nat, now: nat)
    requires l.client.phase != Bound && Receive(l.client, parsed, at).phase == Bound
    ensures Charge(Charge(l, Received(parsed, at)), Ticked(now)).opening == Some(Max(l.client.lastTick, now) - at)
  {
    hide Tick, Filled, RenewMillis, RebindMillis, NextRandom;
  }

  /** Over whole runs, however often the clock steps back: the time the ticks have
      seen go by since that first one, and the time a lease that is held has left,
      come to more than was granted exactly when the account was opened in credit,
      and then to more by that credit. */
  lemma LengthenedIff(events: seq<Event>)
    ensures var l := ChargeAll(UNUSED, events); var c := l.client;
      && c == Run(NEW_CLIENT, events)
      && (Holds(c) && !c.infinite && l.opening.Some? ==>
            var lived := l.used - l.opening.value + (c.expireAt - c.lastTick);
            && l.used >= l.opening.value
            && (lived > Millis(c.lease.leaseSeconds) <==> l.opening.value < 0)
            && lived == Millis(c.lease.leaseSeconds) - l.opening.value)
  {
    hide Charge, Apply;
    ChargeAllPaid(UNUSED, events);
  }

  lemma OfferedFirst(seed: nat, xid: nat, l: Lease)
    requires l.address != 0 && seed != 0 && xid == XidOf(NextRandom(seed))
    ensures var c := ChargeAll(UNUSED, [Started(seed, 0), Ticked(0), Received(Some(Reply(Offer, xid, l)), 0)]).client;
      c.phase == Requesting && c.xid == xid && c.lastTick == 0 && c.lease == NO_LEASE
  {
    hide NextRandom, Filled, Charge, Compose;
    var offer := Received(Some(Reply(Offer, xid, l)), 0);
    var events := [Started(seed, 0), Ticked(0), offer];
    assert events[1..] == [Ticked(0), offer] && events[1..][1..] == [offer] && [offer][1..] == [];
    ChargeAllPaid(UNUSED, events);
    FilledZero(Some(Reply(Offer, xid, l)));
    var c := Start(NEW_CLIENT, seed, 0);
    assert c.xid == xid && c.phase == Selecting && c.nextSend == 0 && c.lease == NO_LEASE && c.lastTick == 0;
    var d := Tick(c, 0).0;
    assert d == ScheduleRetry(c, 0);
    assert d.phase == Selecting && d.xid == xid && d.lastTick == 0 && d.lease == NO_LEASE;
    assert Run(NEW_CLIENT, events) == Run(c, [Ticked(0), offer]) == Run(d, [offer]);
    assert Run(d, [offer]) == Run(Apply(d, offer), []);
  }

  lemma GrantedLate(m: Ledger, xid: nat, l: Lease)
    requires m.client.phase == Requesting && m.client.xid == xid && m.client.lastTick == 0
    requires l.address != 0 && 0 < l.leaseSeconds < INFINITE_LEASE
    ensures var ack := Received(Some(Reply(Ack, xid, l)), 100); var t := ChargeAll(m, [ack, Ticked(50)]);
      t.client.phase == Bound && !t.client.infinite && t.client.lease.leaseSeconds == l.leaseSeconds && t.opening == Some(-50)
  {
    hide Filled, RenewMillis, RebindMillis;
    var parsed := Some(Reply(Ack, xid, l));
    var ack := Received(parsed, 100);
    assert [ack, Ticked(50)][1..] == [Ticked(50)] && [Ticked(50)][1..] == [];
    FilledZero(parsed);
    OpeningIs(m, parsed, 100, 50);
  }

  /** It does happen: a grant read at 100 between ticks at 0 and 50 is good for
      fifty milliseconds more than it says. */
  lemma LateGrantLengthens(seed: nat, l: Lease) returns (events: seq<Event>)
    requires seed != 0 && l.address != 0 && 0 < l.leaseSeconds < INFINITE_LEASE
    ensures var m := ChargeAll(UNUSED, events); var c := m.client;
      && Holds(c) && !c.infinite && c.lease.leaseSeconds == l.leaseSeconds && m.opening == Some(-50)
      && m.used - m.opening.value + (c.expireAt - c.lastTick) == Millis(l.leaseSeconds) + 50
  {
    hide NextRandom, Filled, RenewMillis, RebindMillis, Charge, Apply;
    var xid := XidOf(NextRandom(seed));
    var first := [Started(seed, 0), Ticked(0), Received(Some(Reply(Offer, xid, l)), 0)];
    var ack := Received(Some(Reply(Ack, xid, l)), 100);
    events := first + [ack, Ticked(50)];
    ChargeConcat(UNUSED, first, [ack, Ticked(50)]);
    OfferedFirst(seed, xid, l);
    GrantedLate(ChargeAll(UNUSED, first), xid, l);
    LengthenedIff(events);
  }

  // --- it never gives up ------------------------------------------------------------------------

  function TimeOf(e: Event, before: nat): nat {
    match e
    case Started(_, now) => now
    case Ticked(now) => now
    case Received(_, now) => now
    case _ => before
  }

  /** The time of the last event, events being in order of time from start on. */
  function LastTime(start: nat, events: seq<Event>): nat
    decreases |events|
  {
    if events == [] then start else LastTime(TimeOf(events[0], start), events[1..])
  }

  predicate InOrderFrom(start: nat, events: seq<Event>)
    decreases |events|
  {
    events == [] || (TimeOf(events[0], start) >= start && InOrderFrom(TimeOf(events[0], start), events[1..]))
  }

  predicate Prompt(c: Client, time: nat) {
    Sound(c) && c.lastTick <= time && (IsAsking(c) ==> c.nextSend <= time + MAX_RETRY)
  }

  lemma AgedPrompt(c: Client, now: nat)
    requires Prompt(c, now) && c.phase != Idle && !(c.phase == Bound && (c.infinite || now < c.renewAt)) && now >= c.lastTick
    ensures var d := Resigned(Aged(c, now), now); IsAsking(d) && Prompt(d, now) && (d.nextSend <= c.nextSend || d.nextSend == now)
    ensures var d := Resigned(Aged(c, now), now); d.phase == Requesting ==> d.attempts < MAX_REQUEST_ATTEMPTS
  {
    hide Aged, Resigned;
    AgedSound(c, now);
    ResignedSound(Aged(c, now), now);
  }

  lemma SentPrompt(c: Client, now: nat)
    requires Prompt(c, now) && IsAsking(c) && (c.phase == Requesting ==> c.attempts < MAX_REQUEST_ATTEMPTS)
    ensures Prompt(Sent(c, now).0, now)
    ensures Sent(c, now).1.Some? <==> now >= c.nextSend
  {
    hide NextRandom;
    SentSound(c, now);
  }

  lemma TickPrompt(c: Client, time: nat, now: nat)
    requires Prompt(c, time) && now >= time
    ensures Prompt(Tick(c, now).0, now)
    ensures IsAsking(c) && now >= time + MAX_RETRY ==> Tick(c, now).1.Some?
  {
    hide Aged, Resigned, Sent;
    if c.phase != Idle {
      var d := ClockRead(c, now);
      if !(d.phase == Bound && (d.infinite || now < d.renewAt)) {
        AgedPrompt(d, now);
        SentPrompt(Resigned(Aged(d, now), now), now);
      }
    }
  }

  lemma EventPrompt(c: Client, time: nat, e: Event)
    requires Prompt(c, time) && TimeOf(e, time) >= time
    ensures Prompt(Apply(c, e), TimeOf(e, time))
  {
    hide Tick, NextRandom, Filled, RenewMillis, RebindMillis;
    EventSound(c, e);
    if e.Ticked? {
      TickPrompt(c, time, e.now);
    }
  }

  lemma {:induction false} RunPrompt(c: Client, start: nat, events: seq<Event>)
    requires Prompt(c, start) && InOrderFrom(start, events)
    ensures Prompt(Run(c, events), LastTime(start, events))
    decreases |events|
  {
    hide Prompt, Apply;
    if events != [] {
      EventPrompt(c, start, events[0]);
      RunPrompt(Apply(c, events[0]), TimeOf(events[0], start), events[1..]);
    }
  }

  /** While the clock only goes forward, a client that is asking asks again at
      the first tick a minute after the last event, however long it has been
      unanswered. */
  lemma AlwaysAsksAgain(events: seq<Event>, now: nat)
    requires InOrderFrom(0, events) && now >= LastTime(0, events) + MAX_RETRY
    requires IsAsking(Run(NEW_CLIENT, events))
    ensures Tick(Run(NEW_CLIENT, events), now).1.Some?
  {
    RunPrompt(NEW_CLIENT, 0, events);
    TickPrompt(Run(NEW_CLIENT, events), LastTime(0, events), now);
  }
}
