/**
 The platform's loop around the DHCP client, Tc002Dhcp::tick in
 firmware/src/platform/tc002/Tc002Dhcp.cpp: when the network interface shows the
 client's lease, and exactly when it does not; and that no lease the client holds
 there lives longer than it was granted for.
 */
module DhcpPolls {
  import opened Basics
  import opened Dhcp
  import opened DhcpRuns

  /** What the network interface is set to. */
  datatype Interface = Interface(address: nat, mask: nat)

  function InterfaceOf(l: Lease): Interface {
    Interface(l.address, l.mask)
  }

  function Drain(c: Client, replies: seq<Option<Reply>>, now: nat): Client
    decreases |replies|
  {
    if replies == [] then c else Drain(Receive(c, replies[0], now), replies[1..], now)
  }

  /** One turn of the platform's loop: take in what arrived, tick, then set the
      interface if a lease was acquired and clear it if one was lost. */
  function Poll(c: Client, shown: Interface, replies: seq<Option<Reply>>, now: nat): (Client, Interface) {
    if c.phase == Idle then (c, shown)
    else
      var d := Tick(Drain(c, replies, now), now).0;
      var configured := if d.acquired then InterfaceOf(d.lease) else shown;
      (d.(acquired := false, lost := false), if d.lost then Interface(0, 0) else configured)
  }

  predicate Shown(c: Client, shown: Interface) {
    Sound(c) && !c.acquired && !c.lost && shown == InterfaceOf(c.lease)
  }

  // --- what a batch of replies comes to ------------------------------------------------------------

  predicate Answers(reply: Option<Reply>, xid: nat, kind: Kind) {
    reply.Some? && reply.value.xid == xid && reply.value.kind == kind
  }

  /** An acknowledgement that can be adopted. */
  predicate Grants(reply: Option<Reply>, xid: nat) {
    Answers(reply, xid, Ack) && reply.value.lease.address != 0 && reply.value.lease.leaseSeconds != 0
  }

  predicate Offers(reply: Option<Reply>, xid: nat) {
    Answers(reply, xid, Offer) && reply.value.lease.address != 0
  }

  /** The lease time that replies grant to a client without a lease that asks under
      xid: an offer, then an acknowledgement, a refusal in between beginning again
      under the id drawn next. */
  function Granting(xid: nat, rng: nat, requesting: bool, replies: seq<Option<Reply>>): Option<nat>
    decreases |replies|
  {
    if replies == [] then None
    else if !requesting then Granting(xid, rng, Offers(replies[0], xid), replies[1..])
    else if Grants(replies[0], xid) then Some(replies[0].value.lease.leaseSeconds)
    else if Answers(replies[0], xid, Nak) then Granting(XidOf(NextRandom(rng)), NextRandom(rng), false, replies[1..])
    else Granting(xid, rng, true, replies[1..])
  }

  /** The lease time that replies grant after refusing, before anything else, the
      renewal that is being asked for under xid. */
  function RefusedThenGranted(xid: nat, rng: nat, replies: seq<Option<Reply>>): Option<nat>
    decreases |replies|
  {
    if replies == [] || Grants(replies[0], xid) then None
    else if Answers(replies[0], xid, Nak) then Granting(XidOf(NextRandom(rng)), NextRandom(rng), false, replies[1..])
    else RefusedThenGranted(xid, rng, replies[1..])
  }

  /** The batch holds a refusal of the renewal and then a whole new grant, which
      lasts longer than the clock has stepped back since the last tick. */
  predicate RegrantedAtOnce(c: Client, replies: seq<Option<Reply>>, now: nat) {
    (c.phase == Renewing || c.phase == Rebinding) &&
    match RefusedThenGranted(c.xid, c.rng, replies)
    case None => false
    case Some(seconds) => seconds == INFINITE_LEASE || Millis(seconds) > Minus(c.lastTick, now)
  }

  // --- what the drain does -------------------------------------------------------------------------

  /** A client that was granted a lease at a time, and reports it. */
  predicate JustGranted(c: Client, seconds: nat, now: nat) {
    && c.phase == Bound && c.acquired && c.lease.address != 0 && c.lease.leaseSeconds == seconds
    && (if seconds == INFINITE_LEASE then c.infinite else !c.infinite && c.expireAt == now + Millis(seconds) && c.renewAt > now)
  }

  /** Nothing reaches a bound client. */
  lemma {:induction false} BoundDrain(c: Client, replies: seq<Option<Reply>>, now: nat)
    requires c.phase == Bound
    ensures Drain(c, replies, now) == c
    decreases |replies|
  {
    hide Filled;
    if replies != [] {
      BoundDrain(c, replies[1..], now);
    }
  }

  /** One reply to a client that has no lease. */
  lemma SeekingReceive(c: Client, reply: Option<Reply>, now: nat)
    requires Sound(c) && (c.phase == Selecting || c.phase == Requesting) && !c.acquired
    ensures var d := Receive(c, reply, now); Sound(d) && d.lastTick == c.lastTick && d.lost == c.lost
    ensures var d := Receive(c, reply, now);
      if c.phase == Requesting && Grants(reply, c.xid) then JustGranted(d, reply.value.lease.leaseSeconds, now)
      else if c.phase == Requesting && Answers(reply, c.xid, Nak) then
        d.phase == Selecting && !d.acquired && d.rng == NextRandom(c.rng) && d.xid == XidOf(d.rng)
      else
        && !d.acquired && d.rng == c.rng && d.xid == c.xid
        && d.phase == if c.phase == Requesting || Offers(reply, c.xid) then Requesting else Selecting
  {
    hide NextRandom, Filled, RenewMillis, RebindMillis;
    EventSound(c, Received(reply, now));
    FilledZero(reply);
    if reply.Some? && reply.value.lease.leaseSeconds != 0 {
      FilledGrantable(reply.value.lease);
      CarriedTimers(c, Filled(reply.value.lease));
    }
  }

  lemma {:induction false} SeekingDrain(c: Client, replies: seq<Option<Reply>>, now: nat)
    requires Sound(c) && (c.phase == Selecting || c.phase == Requesting) && !c.acquired
    ensures var d := Drain(c, replies, now); Sound(d) && d.lastTick == c.lastTick && d.lost == c.lost
    ensures var d := Drain(c, replies, now);
      match Granting(c.xid, c.rng, c.phase == Requesting, replies)
      case None => (d.phase == Selecting || d.phase == Requesting) && !d.acquired
      case Some(seconds) => JustGranted(d, seconds, now)
    decreases |replies|
  {
    hide Receive, NextRandom, XidOf, Sound, Grants, Offers, Answers;
    if replies != [] {
      SeekingReceive(c, replies[0], now);
      var d := Receive(c, replies[0], now);
      if d.phase == Bound {
        BoundDrain(d, replies[1..], now);
      } else {
        SeekingDrain(d, replies[1..], now);
      }
    }
  }

  /** One reply to a client that is renewing its lease. */
  lemma RenewingReceive(c: Client, reply: Option<Reply>, now: nat)
    requires Sound(c) && (c.phase == Renewing || c.phase == Rebinding) && !c.acquired && !c.lost
    ensures var d := Receive(c, reply, now); Sound(d) && d.lastTick == c.lastTick
    ensures var d := Receive(c, reply, now);
      if Grants(reply, c.xid) then
        d.phase == Bound && !d.lost && (d.acquired <==> SettingsOf(d.lease) != SettingsOf(c.lease))
      else if Answers(reply, c.xid, Nak) then
        d.phase == Selecting && !d.acquired && d.lost && d.rng == NextRandom(c.rng) && d.xid == XidOf(d.rng)
      else d == c
  {
    hide NextRandom, Filled, RenewMillis, RebindMillis;
    EventSound(c, Received(reply, now));
    FilledZero(reply);
  }

  /** The flags say how the lease has changed: lost means there is none now. */
  predicate Accounted(c: Client, d: Client) {
    && Sound(d) && d.phase != Idle && d.lastTick == c.lastTick
    && (if d.lost then d.lease == NO_LEASE && !d.acquired else d.acquired || SettingsOf(d.lease) == SettingsOf(c.lease))
  }

  lemma {:induction false} RenewingDrain(c: Client, replies: seq<Option<Reply>>, now: nat)
    requires Sound(c) && (c.phase == Renewing || c.phase == Rebinding) && !c.acquired && !c.lost
    ensures var d := Drain(c, replies, now);
      match RefusedThenGranted(c.xid, c.rng, replies)
      case None => Accounted(c, d)
      case Some(seconds) => Sound(d) && d.lastTick == c.lastTick && JustGranted(d, seconds, now) && d.lost
    decreases |replies|
  {
    hide Receive, NextRandom, XidOf, Grants, Answers, Granting, Drain;
    DrainUnfolds(c, replies, now);
    if replies != [] {
      RenewingReceive(c, replies[0], now);
      var d := Receive(c, replies[0], now);
      if d.phase == Bound {
        BoundDrain(d, replies[1..], now);
      } else if d.phase == Selecting {
        SeekingDrain(d, replies[1..], now);
      } else {
        RenewingDrain(d, replies[1..], now);
      }
    }
  }

  lemma DrainUnfolds(c: Client, replies: seq<Option<Reply>>, now: nat)
    ensures Drain(c, replies, now) == if replies == [] then c else Drain(Receive(c, replies[0], now), replies[1..], now)
  {
    hide Receive;
  }

  // --- and the tick after it ------------------------------------------------------------------------

  /** The flags a tick raises: a lease it drops is reported lost. */
  lemma TickFlags(c: Client, now: nat)
    requires Sound(c) && c.phase != Idle
    ensures var d := Tick(c, now).0;
      d.acquired == c.acquired && (if d.lease == c.lease then d.lost == c.lost else d.lease == NO_LEASE && d.lost)
  {
    hide Aged, Resigned, Sent, Sound;
    var d := ClockRead(c, now);
    ClockReadSound(c, now);
    AgedFlags(d, now);
    LaterFlags(Aged(d, now), now);
    LaterFlags(Resigned(Aged(d, now), now), now);
  }

  lemma AgedFlags(c: Client, now: nat)
    requires Sound(c)
    ensures var d := Aged(c, now);
      d.acquired == c.acquired && (if d.lease == c.lease then d.lost == c.lost else d.lease == NO_LEASE && d.lost)
  {
    hide NextRandom;
  }

  lemma LaterFlags(c: Client, now: nat)
    ensures var d := Resigned(c, now); d.lease == c.lease && d.acquired == c.acquired && d.lost == c.lost
    ensures var d := Sent(c, now).0; d.lease == c.lease && d.acquired == c.acquired && d.lost == c.lost
  {
    hide NextRandom, Compose;
  }

  /** A lease granted just before a tick is dropped by it exactly when the clock has
      stepped back by as much as the lease lasts. */
  lemma GrantTicked(c: Client, seconds: nat, now: nat)
    requires Sound(c) && JustGranted(c, seconds, now)
    ensures Tick(c, now).0.lease == if seconds == INFINITE_LEASE || Millis(seconds) > Minus(c.lastTick, now) then c.lease else NO_LEASE
  {
    hide NextRandom, Resigned, Sent;
    var d := ClockRead(c, now);
    LaterFlags(Aged(d, now), now);
    LaterFlags(Resigned(Aged(d, now), now), now);
  }

  /** A turn shows the lease when the flags account for what the replies did. */
  lemma AccountedShows(c: Client, d: Client, shown: Interface, now: nat)
    requires Shown(c, shown) && Accounted(c, d)
    ensures var e := Tick(d, now).0; var configured := if e.acquired then InterfaceOf(e.lease) else shown;
      Shown(e.(acquired := false, lost := false), if e.lost then Interface(0, 0) else configured)
  {
    hide Tick;
    TickSound(d, now);
    TickFlags(d, now);
  }

  /** A turn after which a lease that was lost and granted again is still held
      does not: the interface is cleared last. */
  lemma RegrantedHides(c: Client, d: Client, shown: Interface, seconds: nat, now: nat)
    requires Sound(d) && JustGranted(d, seconds, now) && d.lost
    ensures var e := Tick(d, now).0;
      Shown(e.(acquired := false, lost := false), Interface(0, 0))
      <==> !(seconds == INFINITE_LEASE || Millis(seconds) > Minus(d.lastTick, now))
    ensures Tick(d, now).0.lost
  {
    hide Tick;
    TickSound(d, now);
    TickFlags(d, now);
    GrantTicked(d, seconds, now);
  }

  /** Turn after turn the interface shows the client's lease, or nothing when it
      has none, except exactly after a turn whose replies refuse a renewal and
      grant a new lease in one batch, the new lease outlasting any step back of
      the clock: then the client is bound and the interface cleared. */
  lemma {:induction false} PollShowsIff(c: Client, shown: Interface, replies: seq<Option<Reply>>, now: nat)
    requires Shown(c, shown)
    ensures var (d, shown') := Poll(c, shown, replies, now); Shown(d, shown') <==> !RegrantedAtOnce(c, replies, now)
  {
    hide Drain, Tick, Sound, RefusedThenGranted, Granting;
    var d := Drain(c, replies, now);
    match c.phase {
      case Idle =>
      case Bound =>
        BoundDrain(c, replies, now);
        AccountedShows(c, d, shown, now);
      case Selecting | Requesting =>
        SeekingDrain(c, replies, now);
        SeekingAccounted(c, d, now);
        AccountedShows(c, d, shown, now);
      case Renewing | Rebinding =>
        RenewingDrain(c, replies, now);
        match RefusedThenGranted(c.xid, c.rng, replies) {
          case None => AccountedShows(c, d, shown, now);
          case Some(seconds) => RegrantedHides(c, d, shown, seconds, now);
        }
    }
  }

  lemma SeekingAccounted(c: Client, d: Client, now: nat)
    requires Sound(c) && (c.phase == Selecting || c.phase == Requesting) && !c.lost
    requires Sound(d) && d.lastTick == c.lastTick && !d.lost
    requires d.acquired || d.phase == Selecting || d.phase == Requesting
    requires d.phase != Idle
    ensures Accounted(c, d)
  {
  }

  /** No reply answers a transaction the client would only begin now. */
  predicate AnswersSent(c: Client, replies: seq<Option<Reply>>) {
    forall i :: 0 <= i < |replies| && replies[i].Some? ==> replies[i].value.xid != XidOf(NextRandom(c.rng))
  }

  /** In particular the interface shows the lease when nobody answers a question
      before it is sent. */
  lemma {:induction false} PollShows(c: Client, shown: Interface, replies: seq<Option<Reply>>, now: nat)
    requires Shown(c, shown) && AnswersSent(c, replies)
    ensures var (d, shown') := Poll(c, shown, replies, now); Shown(d, shown')
  {
    hide Poll, Shown, NextRandom, XidOf;
    PollShowsIff(c, shown, replies, now);
    SentNotRegranted(c.xid, c.rng, replies);
  }

  lemma {:induction false} SentNotRegranted(xid: nat, rng: nat, replies: seq<Option<Reply>>)
    requires forall i :: 0 <= i < |replies| && replies[i].Some? ==> replies[i].value.xid != XidOf(NextRandom(rng))
    ensures Granting(XidOf(NextRandom(rng)), NextRandom(rng), false, replies) == None
    ensures RefusedThenGranted(xid, rng, replies) == None
    decreases |replies|
  {
    hide NextRandom, XidOf;
    if replies != [] {
      SentNotRegranted(xid, rng, replies[1..]);
    }
  }

  /** It does happen: a server that refuses a renewal and answers the next two
      questions before they are sent. */
  lemma EarlyAnswersUnshown(c: Client, shown: Interface, l: Lease, now: nat) returns (replies: seq<Option<Reply>>)
    requires Shown(c, shown) && c.phase == Renewing && now >= c.lastTick
    requires l.address != 0 && l.leaseSeconds == INFINITE_LEASE
    ensures var (d, shown') := Poll(c, shown, replies, now);
      d.phase == Bound && d.lease.address == l.address && shown' == Interface(0, 0)
  {
    hide NextRandom;
    var xid := XidOf(NextRandom(c.rng));
    var nak, offer, ack := Some(Reply(Nak, c.xid, NO_LEASE)), Some(Reply(Offer, xid, l)), Some(Reply(Ack, xid, l));
    replies := [nak, offer, ack];
    var refused := Receive(c, nak, now);
    var requesting := Receive(refused, offer, now);
    var granted := Receive(requesting, ack, now);
    assert Drain(c, replies, now) == Drain(refused, [offer, ack], now);
    assert Drain(refused, [offer, ack], now) == Drain(requesting, [ack], now);
    assert Drain(requesting, [ack], now) == Drain(granted, [], now) == granted;
  }

  // --- no lease outlives its grant -----------------------------------------------------------------------

  /** What the platform does with its client: begins again, ends, or takes a turn.
      The replies of a turn and its tick carry one reading of the clock. */
  datatype Turn =
    | Begun(preferred: nat, seed: nat, now: nat)
    | Ended
    | Polled(replies: seq<Option<Reply>>, now: nat)

  function Arrivals(replies: seq<Option<Reply>>, now: nat): seq<Event> {
    if replies == [] then [] else [Received(replies[0], now)] + Arrivals(replies[1..], now)
  }

  function EventsOf(c: Client, t: Turn): seq<Event> {
    match t
    case Begun(preferred, seed, now) => [Stopped, Preferring(preferred), Started(seed, now)]
    case Ended => [Stopped]
    case Polled(replies, now) => if c.phase == Idle then [] else Arrivals(replies, now) + [Ticked(now), FlagsTaken]
  }

  function Taken(l: Ledger, t: Turn): Ledger {
    ChargeAll(l, EventsOf(l.client, t))
  }

  function TakenAll(l: Ledger, turns: seq<Turn>): Ledger
    decreases |turns|
  {
    if turns == [] then l else TakenAll(Taken(l, turns[0]), turns[1..])
  }

  /** These are the turns of the loop above. */
  lemma {:induction false} TurnIsPoll(l: Ledger, shown: Interface, replies: seq<Option<Reply>>, now: nat)
    ensures Taken(l, Polled(replies, now)).client == Poll(l.client, shown, replies, now).0
  {
    hide Tick, Charge, Drain;
    if l.client.phase != Idle {
      var after := [Ticked(now), FlagsTaken];
      ChargeConcat(l, Arrivals(replies, now), after);
      ArrivalsDrain(l, replies, now);
      TickAndFlags(ChargeAll(l, Arrivals(replies, now)), now);
    }
  }

  lemma {:induction false} ArrivalsDrain(l: Ledger, replies: seq<Option<Reply>>, now: nat)
    ensures ChargeAll(l, Arrivals(replies, now)).client == Drain(l.client, replies, now)
    decreases |replies|
  {
    hide Receive;
    if replies != [] {
      var m := Charge(l, Received(replies[0], now));
      ArrivalsDrain(m, replies[1..], now);
      assert Arrivals(replies, now)[1..] == Arrivals(replies[1..], now);
    }
  }

  lemma TickAndFlags(l: Ledger, now: nat)
    ensures var m := ChargeAll(l, [Ticked(now), FlagsTaken]); var t := Charge(l, Ticked(now));
      m == t.(client := t.client.(acquired := false, lost := false)) && t.client == Tick(l.client, now).0
  {
    hide Tick;
    var events := [Ticked(now), FlagsTaken];
    assert events[1..] == [FlagsTaken] && events[1..][1..] == [];
    var t := Charge(l, Ticked(now));
    assert ChargeAll(l, events) == ChargeAll(t, [FlagsTaken]) == ChargeAll(Charge(t, FlagsTaken), []);
  }

  /** Between turns no account stands in credit, and a lease that is held has one. */
  predicate Square(l: Ledger) {
    && Paid(l) && (Holds(l.client) ==> l.opening.Some?)
    && match l.opening case None => l.used >= 0 case Some(opening) => opening >= 0
  }

  /** Within a turn, before its tick, a grant may have been read ahead of the last tick. */
  predicate Turning(l: Ledger, now: nat) {
    && Paid(l) && l.client.phase != Idle
    && match l.opening case None => l.used >= 0 || l.used == l.client.lastTick - now case Some(opening) => opening >= 0
  }

  lemma {:induction false} ArrivalsTurn(l: Ledger, replies: seq<Option<Reply>>, now: nat)
    requires Turning(l, now)
    ensures Turning(ChargeAll(l, Arrivals(replies, now)), now)
    decreases |replies|
  {
    hide Receive, Paid, Turning;
    if replies != [] {
      var e := Received(replies[0], now);
      ArrivalTurns(l, replies[0], now);
      ArrivalsTurn(Charge(l, e), replies[1..], now);
      assert Arrivals(replies, now)[1..] == Arrivals(replies[1..], now);
    }
  }

  lemma ArrivalTurns(l: Ledger, reply: Option<Reply>, now: nat)
    requires Turning(l, now)
    ensures Turning(Charge(l, Received(reply, now)), now)
  {
    hide Paid;
    ChargePaid(l, Received(reply, now));
    ReceiveKeepsTick(l.client, reply, now);
  }

  lemma ReceiveKeepsTick(c: Client, reply: Option<Reply>, now: nat)
    ensures Receive(c, reply, now).lastTick == c.lastTick
    ensures c.phase != Idle ==> Receive(c, reply, now).phase != Idle
  {
    hide Filled, NextRandom, RenewMillis, RebindMillis;
  }

  /** The tick that ends a turn squares the account. */
  lemma TickSquares(l: Ledger, now: nat)
    requires Turning(l, now)
    ensures Square(ChargeAll(l, [Ticked(now), FlagsTaken]))
  {
    hide Tick, Sound;
    TickAndFlags(l, now);
    ChargePaid(l, Ticked(now));
    ChargePaid(Charge(l, Ticked(now)), FlagsTaken);
  }

  lemma {:induction false} TurnSquares(l: Ledger, t: Turn)
    requires Square(l)
    ensures Square(Taken(l, t))
  {
    hide Paid, Charge;
    match t {
      case Polled(replies, now) =>
        if l.client.phase != Idle {
          ChargeConcat(l, Arrivals(replies, now), [Ticked(now), FlagsTaken]);
          ArrivalsTurn(l, replies, now);
          TickSquares(ChargeAll(l, Arrivals(replies, now)), now);
        }
      case _ => HoldsNothingAfter(l, t);
    }
  }

  lemma HoldsNothingAfter(l: Ledger, t: Turn)
    requires Square(l) && !t.Polled?
    ensures Square(Taken(l, t))
  {
    hide Paid, Start, Stop;
    var events := EventsOf(l.client, t);
    ChargeAllPaid(l, events);
    var ended := Charge(l, Stopped);
    StopHoldsNothing(l.client);
    if t.Begun? {
      var asking, begun := Preferring(t.preferred), Started(t.seed, t.now);
      assert events[1..] == [asking, begun] && [asking, begun][1..] == [begun] && [begun][1..] == [];
      var m := Charge(ended, asking);
      assert ChargeAll(l, events) == ChargeAll(m, [begun]) == ChargeAll(Charge(m, begun), []);
      StartHoldsNothing(m.client, begun);
    } else {
      assert events[1..] == [];
      assert ChargeAll(l, events) == ChargeAll(ended, []);
    }
  }

  lemma StopHoldsNothing(c: Client)
    ensures !Holds(Stop(c))
  {
  }

  /** However often the clock steps back, no lease the platform's client holds lives
      longer than it was granted for: the time the ticks have seen go by since the
      first after the grant, and the time it has left, never come to more. */
  lemma {:induction false} TurnsNeverLengthen(turns: seq<Turn>)
    ensures var l := TakenAll(UNUSED, turns); var c := l.client;
      && (l.opening.Some? ==> l.opening.value >= 0)
      && (Holds(c) ==> l.opening.Some?)
      && (Holds(c) && !c.infinite ==>
            l.used - l.opening.value + (c.expireAt - c.lastTick) <= Millis(c.lease.leaseSeconds))
  {
    hide Taken, TakenAll, Square;
    UnusedSquare();
    TakenAllSquare(UNUSED, turns);
    SquareHolds(TakenAll(UNUSED, turns));
  }

  lemma UnusedSquare()
    ensures Square(UNUSED)
  {
  }

  lemma SquareHolds(l: Ledger)
    requires Square(l)
    ensures Holds(l.client) ==> l.opening.Some?
    ensures l.opening.Some? ==> l.opening.value >= 0
    ensures Holds(l.client) && !l.client.infinite ==>
      l.used - l.opening.value + (l.client.expireAt - l.client.lastTick) <= Millis(l.client.lease.leaseSeconds)
  {
    hide Sound;
  }

  lemma {:induction false} TakenAllSquare(l: Ledger, turns: seq<Turn>)
    requires Square(l)
    ensures Square(TakenAll(l, turns))
    decreases |turns|
  {
    hide Taken, Square;
    if turns != [] {
      TurnSquares(l, turns[0]);
      TakenAllSquare(Taken(l, turns[0]), turns[1..]);
    }
  }

  // --- the flags of a grant ------------------------------------------------------------------------------

  /** A grant never touches the flag for a lost lease, and raises the one for an
      acquired lease exactly when the settings change. */
  lemma GrantFlags(c: Client, parsed: Option<Reply>, now: nat)
    requires c.phase != Bound && Receive(c, parsed, now).phase == Bound
    ensures var d := Receive(c, parsed, now);
      d.lost == c.lost && (d.acquired <==> c.acquired || SettingsOf(d.lease) != SettingsOf(c.lease))
  {
    hide NextRandom, Filled, RenewMillis, RebindMillis;
  }

  /** So a renewal onto a different address raises one flag, not both. */
  lemma RenewalRaisesOne(c: Client, granted: Lease, now: nat)
    requires (c.phase == Renewing || c.phase == Rebinding) && !c.acquired && !c.lost
    requires granted.address != 0 && granted.leaseSeconds != 0 && granted.address != c.lease.address
    ensures var d := Receive(c, Some(Reply(Ack, c.xid, granted)), now); d.acquired && !d.lost && d.lease.address == granted.address
  {
    hide NextRandom, RenewMillis, RebindMillis;
  }
}
