/**
 What the packets of the DHCP client say and when they go out, told from the
 events of a run: who offered what under which id, what was granted and by whom,
 and what the clock has read.
 */
module DhcpPackets {
  import opened Basics
  import opened Dhcp
  import opened DhcpRuns

  /** An offer as it was made: under which id, of what, by whom. */
  datatype Terms = Terms(xid: nat, address: nat, server: nat)

  /** What the events so far leave to say. preferred is the address last asked for
      or granted, offer the offer last accepted, address and server the last grant
      and whom to renew it with, begun the time the transaction began, due the time
      its next packet is due and tries how many have gone out since the client last
      changed its question; clock is the time last read. A clock that steps back
      takes begun and due with it. */
  datatype Memory = Memory(preferred: nat, offer: Terms, address: nat, server: nat,
                           begun: nat, due: nat, tries: nat, clock: nat)

  const NOTHING := Memory(0, Terms(0, 0, 0), 0, 0, 0, 0, 0, 0)

  /** The wait after a packet that n went before: 4, 8, 16, 32 seconds, and then a minute. */
  function Interval(n: nat): nat {
    if n == 0 then 4000 else if n == 1 then 8000 else if n == 2 then 16000 else if n == 3 then 32000 else 60000
  }

  predicate Answers(c: Client, parsed: Option<Reply>, kind: Kind) {
    parsed.Some? && parsed.value.xid == c.xid && parsed.value.kind == kind
  }

  predicate Accepts(c: Client, parsed: Option<Reply>) {
    c.phase == Selecting && Answers(c, parsed, Offer) && parsed.value.lease.address != 0
  }

  predicate Asks(c: Client) {
    c.phase == Requesting || c.phase == Renewing || c.phase == Rebinding
  }

  predicate Grants(c: Client, parsed: Option<Reply>) {
    Asks(c) && Answers(c, parsed, Ack) && parsed.value.lease.address != 0 && parsed.value.lease.leaseSeconds != 0
  }

  predicate Refuses(c: Client, parsed: Option<Reply>) {
    Asks(c) && Answers(c, parsed, Nak)
  }

  /** A transaction begins. */
  function Anew(m: Memory, now: nat): Memory {
    m.(begun := now, due := now, tries := 0)
  }

  function ReplyNoted(m: Memory, c: Client, parsed: Option<Reply>, now: nat): Memory {
    if Accepts(c, parsed) then
      var l := parsed.value.lease;
      m.(offer := Terms(c.xid, l.address, l.server), due := now, tries := 0)
    else if Grants(c, parsed) then
      var l := parsed.value.lease;
      m.(preferred := l.address, address := l.address,
         server := if l.server != 0 then l.server else if c.phase == Requesting then m.offer.server else m.server)
    else if Refuses(c, parsed) then Anew(m, now)
    else m
  }

  function Stepped(m: Memory, now: nat): Memory {
    if now >= m.clock then m.(clock := now)
    else m.(begun := Minus(m.begun, m.clock - now), due := Minus(m.due, m.clock - now), clock := now)
  }

  /** A client whose phase a tick changes has begun a transaction. */
  function Turned(m: Memory, before: Phase, after: Phase, now: nat): Memory {
    if after != before then Anew(m, now) else m
  }

  predicate IsDue(m: Memory, d: Client, now: nat) {
    IsAsking(d) && now >= m.due
  }

  /** One packet more has gone out. */
  function Tried(m: Memory, now: nat): Memory {
    m.(due := now + Interval(m.tries), tries := m.tries + 1)
  }

  /** Before what is due goes out. */
  function TurnNoted(m: Memory, c: Client, d: Client, now: nat): Memory {
    Turned(Stepped(m, now), c.phase, d.phase, now)
  }

  function TickNoted(m: Memory, c: Client, d: Client, now: nat): Memory {
    if c.phase == Idle then m
    else
      var t := TurnNoted(m, c, d, now);
      if IsDue(t, d, now) then Tried(t, now) else t
  }

  function Noted(m: Memory, c: Client, e: Event): Memory {
    match e
    case Started(_, now) => Anew(m.(clock := now), now)
    case Ticked(now) => TickNoted(m, c, Apply(c, e), now)
    case Received(parsed, now) => ReplyNoted(m, c, parsed, now)
    case Preferring(address) => m.(preferred := address)
    case _ => m
  }

  function Recalled(m: Memory, c: Client, events: seq<Event>): Memory
    decreases |events|
  {
    if events == [] then m else Recalled(Noted(m, c, events[0]), Apply(c, events[0]), events[1..])
  }

  /** What the events of a run from a new client leave to say. */
  function Memo(events: seq<Event>): Memory {
    Recalled(NOTHING, NEW_CLIENT, events)
  }

  /** What a packet must say (table 5 of RFC 2131): the id of the transaction and
      how long it has lasted, and by phase the question and whom it goes to. */
  predicate Says(p: Packet, phase: Phase, xid: nat, m: Memory, now: nat) {
    && p.xid == xid && p.seconds == Min(Minus(now, m.begun) / 1000, 65535)
    && match phase
       case Selecting =>
         && p.kind == Discover && p.broadcast && p.destination == BROADCAST
         && p.requestedAddress == m.preferred && p.serverAddress == 0 && p.clientAddress == 0
       case Requesting =>
         && p.kind == Request && p.broadcast && p.destination == BROADCAST && m.offer.xid == xid
         && p.requestedAddress == m.offer.address && p.serverAddress == m.offer.server && p.clientAddress == 0
       case Renewing =>
         && p.kind == Request && !p.broadcast && p.destination == m.server != 0
         && p.requestedAddress == 0 && p.serverAddress == 0 && p.clientAddress == m.address
       case Rebinding =>
         && p.kind == Request && p.broadcast && p.destination == BROADCAST
         && p.requestedAddress == 0 && p.serverAddress == 0 && p.clientAddress == m.address
       case _ => false
  }

  // --- the client remembers it -----------------------------------------------------------------

  predicate Timely(c: Client, m: Memory) {
    && c.retry == Interval(c.attempts) && (c.phase != Idle ==> c.lastTick == m.clock)
    && (IsAsking(c) ==> c.transactionStart == m.begun && c.nextSend == m.due && c.attempts == m.tries)
  }

  predicate Agrees(c: Client, m: Memory) {
    && c.preferred == m.preferred
    && (c.phase == Requesting ==>
          m.offer.xid == c.xid && m.offer.address == c.offered.address && m.offer.server == c.offered.server)
    && (Holds(c) ==> c.lease.address == m.address && c.lease.server == m.server && c.offered.server == 0)
  }

  predicate Remembers(c: Client, m: Memory) {
    Sound(c) && Timely(c, m) && Agrees(c, m)
  }

  lemma BeginRemembers(c: Client, phase: Phase, now: nat, m: Memory)
    requires Remembers(c, m) && c.phase != Idle && Sound(Begin(c, phase, now))
    requires phase == Selecting || ((phase == Renewing || phase == Rebinding) && Holds(c))
    ensures Remembers(Begin(c, phase, now), Anew(m, now)) && Begin(c, phase, now).phase == phase
  {
    hide NextRandom, Sound;
  }

  lemma SelectRemembers(c: Client, now: nat, m: Memory)
    requires c.preferred == m.preferred && c.lastTick == m.clock && Sound(EnterSelecting(c, now))
    ensures Remembers(EnterSelecting(c, now), Anew(m, now)) && EnterSelecting(c, now).phase == Selecting
  {
    hide NextRandom, Sound;
  }

  lemma MemoryOf(c: Client, m: Memory)
    requires Remembers(c, m)
    ensures Sound(c) && c.preferred == m.preferred && (c.phase != Idle ==> c.lastTick == m.clock)
    ensures IsAsking(c) ==> c.nextSend == m.due
  {
    hide Sound, Interval;
  }

  lemma ClockRemembers(c: Client, m: Memory, now: nat)
    requires Remembers(c, m) && c.phase != Idle
    ensures Remembers(ClockRead(c, now), Stepped(m, now)) && ClockRead(c, now).phase == c.phase
  {
    hide Sound, Interval;
    ClockReadSound(c, now);
  }

  /** c has come this far in a tick of a client that was in phase before. */
  predicate Led(before: Phase, c: Client, m: Memory, now: nat) {
    Remembers(c, Turned(m, before, c.phase, now)) && before != Idle
    && (c.phase == Renewing ==> before != Rebinding) && (c.phase == Requesting ==> before == Requesting)
  }

  lemma AgedLed(c: Client, m: Memory, now: nat)
    requires Remembers(c, m) && c.phase != Idle && !(c.phase == Bound && (c.infinite || now < c.renewAt))
    ensures Led(c.phase, Aged(c, now), m, now) && IsAsking(Aged(c, now))
  {
    hide Begin, EnterSelecting, Remembers, Anew;
    MemoryOf(c, m);
    AgedSound(c, now);
    var d := if c.phase == Bound then Begin(c, Renewing, now)
             else if c.phase == Renewing && now >= c.rebindAt then Begin(c, Rebinding, now)
             else c;
    if c.phase == Bound {
      BeginSound(c, Renewing, now);
      BeginRemembers(c, Renewing, now, m);
    } else if c.phase == Renewing && now >= c.rebindAt {
      BeginSound(c, Rebinding, now);
      BeginRemembers(c, Rebinding, now, m);
    }
    var t := Turned(m, c.phase, d.phase, now);
    assert Remembers(d, t);
    MemoryOf(d, t);
    DroppedSound(d, now);
    SelectRemembers(DropLease(d).(lost := true), now, t);
    AnewOnce(m, now);
  }

  lemma AnewOnce(m: Memory, now: nat)
    ensures Anew(Anew(m, now), now) == Anew(m, now)
  {
  }

  lemma ResignedLed(before: Phase, c: Client, m: Memory, now: nat)
    requires Led(before, c, m, now) && IsAsking(c)
    ensures var d := Resigned(c, now); Led(before, d, m, now) && IsAsking(d)
    ensures Resigned(c, now).phase == Requesting ==> c.phase == Requesting
  {
    hide EnterSelecting, Remembers, Anew;
    var t := Turned(m, before, c.phase, now);
    MemoryOf(c, t);
    ResignedSound(c, now);
    if c.phase == Requesting && c.attempts >= MAX_REQUEST_ATTEMPTS {
      SelectRemembers(c, now, t);
      AnewOnce(m, now);
    }
  }

  lemma SentLed(before: Phase, c: Client, m: Memory, now: nat)
    requires Led(before, c, m, now) && IsAsking(c) && (c.phase == Requesting ==> c.attempts < MAX_REQUEST_ATTEMPTS)
    ensures var (d, packet) := Sent(c, now); var t := Turned(m, before, d.phase, now);
      && Remembers(d, if IsDue(t, d, now) then Tried(t, now) else t)
      && (packet.Some? <==> IsDue(t, d, now))
      && (packet.Some? ==> Says(packet.value, d.phase, d.xid, t, now))
  {
    hide Begin, Compose, ScheduleRetry, Remembers, Anew, Says, Tried;
    var t := Turned(m, before, c.phase, now);
    MemoryOf(c, t);
    SentSound(c, now);
    if now >= c.nextSend {
      if c.phase == Renewing && c.lease.server == 0 {
        BeginSound(c, Rebinding, now);
        BeginRemembers(c, Rebinding, now, t);
        AnewOnce(m, now);
        SentOut(Begin(c, Rebinding, now), Anew(m, now), now);
      } else {
        SentOut(c, t, now);
      }
    }
  }

  lemma SentOut(c: Client, m: Memory, now: nat)
    requires Remembers(c, m) && IsAsking(c) && now >= c.nextSend && (c.phase == Requesting ==> c.attempts < MAX_REQUEST_ATTEMPTS)
    requires c.phase == Renewing ==> c.lease.server != 0
    ensures var d := ScheduleRetry(c, now); var packet := Compose(c, if c.phase == Selecting then Discover else Request, now);
      && d.phase == c.phase && now >= m.due && Remembers(d, Tried(m, now))
      && packet.Some? && Says(packet.value, d.phase, d.xid, m, now)
  {
  }

  lemma TickRemembers(c: Client, m: Memory, now: nat)
    requires Remembers(c, m)
    ensures var (d, packet) := Tick(c, now); var t := TurnNoted(m, c, d, now);
      && Remembers(d, TickNoted(m, c, d, now))
      && (packet.Some? <==> c.phase != Idle && IsDue(t, d, now))
      && (packet.Some? ==> Says(packet.value, d.phase, d.xid, t, now))
  {
    hide ClockRead, Aged, Resigned, Sent, Remembers, Stepped, Says, Anew, Tried, Sound;
    if c.phase != Idle {
      var d, s := ClockRead(c, now), Stepped(m, now);
      ClockRemembers(c, m, now);
      MemoryOf(d, s);
      if !(d.phase == Bound && (d.infinite || now < d.renewAt)) {
        AgedLed(d, s, now);
        var a := Aged(d, now);
        MemoryOf(a, Turned(s, c.phase, a.phase, now));
        ResignedSound(a, now);
        ResignedLed(c.phase, a, s, now);
        SentLed(c.phase, Resigned(a, now), s, now);
      }
    }
  }

  lemma ReplyRemembers(c: Client, m: Memory, parsed: Option<Reply>, now: nat)
    requires Remembers(c, m)
    ensures Remembers(Receive(c, parsed, now), ReplyNoted(m, c, parsed, now))
  {
    hide Sound, EnterSelecting, Filled, RenewMillis, RebindMillis, Grantable;
    EventSound(c, Received(parsed, now));
    FilledServer(parsed);
    if Refuses(c, parsed) && c.phase != Idle {
      DroppedSound(c, now);
      SelectRemembers(DropLease(c).(lost := c.lost || c.lease.address != 0), now, m);
    }
    NothingHeld(c);
  }

  lemma FilledServer(parsed: Option<Reply>)
    ensures parsed.Some? ==> Filled(parsed.value.lease).server == parsed.value.lease.server
    ensures parsed.Some? ==> Filled(parsed.value.lease).address == parsed.value.lease.address
    ensures parsed.Some? ==> Filled(parsed.value.lease).leaseSeconds == parsed.value.lease.leaseSeconds
    ensures parsed.Some? && parsed.value.lease.leaseSeconds != 0 ==> Grantable(Filled(parsed.value.lease))
  {
    if parsed.Some? && parsed.value.lease.leaseSeconds != 0 {
      FilledGrantable(parsed.value.lease);
    }
  }

  lemma NothingHeld(c: Client)
    requires Sound(c)
    ensures c.phase == Requesting ==> c.lease == NO_LEASE
  {
  }

  lemma EventRemembers(c: Client, m: Memory, e: Event)
    requires Remembers(c, m)
    ensures Remembers(Apply(c, e), Noted(m, c, e))
  {
    hide Tick, TickNoted, Receive, ReplyNoted, Remembers, Anew, EnterSelecting;
    EventSound(c, e) by { MemoryOf(c, m); }
    match e {
      case Ticked(now) => TickRemembers(c, m, now);
      case Received(parsed, now) => ReplyRemembers(c, m, parsed, now);
      case Started(seed, now) => StartRemembers(c, m, seed, now);
      case _ => QuietRemembers(c, m, e);
    }
  }

  lemma StartRemembers(c: Client, m: Memory, seed: nat, now: nat)
    requires Remembers(c, m)
    ensures Remembers(Start(c, seed, now), Anew(m.(clock := now), now))
  {
    hide NextRandom;
  }

  lemma QuietRemembers(c: Client, m: Memory, e: Event)
    requires Remembers(c, m) && (e.Stopped? || e.Preferring? || e.FlagsTaken?)
    ensures Remembers(Apply(c, e), Noted(m, c, e))
  {
  }

  lemma {:induction false} RunRemembers(c: Client, m: Memory, events: seq<Event>)
    requires Remembers(c, m)
    ensures Remembers(Run(c, events), Recalled(m, c, events))
    decreases |events|
  {
    hide Apply, Noted, Remembers;
    if events != [] {
      EventRemembers(c, m, events[0]);
      RunRemembers(Apply(c, events[0]), Noted(m, c, events[0]), events[1..]);
    }
  }

  // --- what goes out ---------------------------------------------------------------------------

  /** In every run, whatever replies arrive and whatever the clock does, a tick
      sends a packet exactly when one is due: at once when a transaction begins or
      an offer is accepted, and then 4, 8, 16, 32 and every 60 seconds after the one
      before. It carries the id of the transaction and its age, and asks what the
      events before it leave to ask: for the preferred address of anybody, for the
      offer last accepted under that id of whoever made it, or to keep what was
      granted, of the server it is renewed with alone or in the end of everybody. */
  lemma PacketsSay(events: seq<Event>, now: nat)
    ensures var c := Run(NEW_CLIENT, events); var (d, packet) := Tick(c, now); var m := TurnNoted(Memo(events), c, d, now);
      && (packet.Some? <==> c.phase != Idle && IsAsking(d) && now >= m.due)
      && (packet.Some? ==> Says(packet.value, d.phase, d.xid, m, now))
  {
    hide Run, Tick, TurnNoted, Says, Recalled;
    RunRemembers(NEW_CLIENT, NOTHING, events);
    TickRemembers(Run(NEW_CLIENT, events), Memo(events), now);
  }

  /** An offer that was asked for four times in vain is given up at the next tick,
      and before that it is not. */
  lemma OfferGivenUpIff(events: seq<Event>, now: nat)
    requires Run(NEW_CLIENT, events).phase == Requesting
    ensures var d := Tick(Run(NEW_CLIENT, events), now).0;
      if Memo(events).tries >= MAX_REQUEST_ATTEMPTS then d.phase == Selecting else d.phase == Requesting
  {
    hide Run, Compose, NextRandom, Recalled;
    RunRemembers(NEW_CLIENT, NOTHING, events);
  }
}
