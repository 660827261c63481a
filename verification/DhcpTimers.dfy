/**
 When a lease is renewed, rebound and given up, by how much of it has been used.
 */
module DhcpTimers {
  import opened Basics
  import opened Dhcp
  import opened DhcpRuns

  /** The timers a server gives are the ones kept, when they make sense; a server
      that gives none is asked again after half the lease, and everybody after
      seven eighths of it (section 4.4.5 of RFC 2131). */
  lemma TimersGiven(l: Lease)
    requires 60 <= l.leaseSeconds < INFINITE_LEASE
    ensures MIN_RENEW_INTERVAL <= Millis(l.renewSeconds) && l.renewSeconds < l.rebindSeconds < l.leaseSeconds ==>
      RenewMillis(Filled(l)) == Millis(l.renewSeconds) && RebindMillis(Filled(l)) == Millis(l.rebindSeconds)
    ensures l.renewSeconds == 0 && l.rebindSeconds == 0 ==>
      RenewMillis(Filled(l)) == Millis(l.leaseSeconds / 2) && RebindMillis(Filled(l)) == Millis(l.leaseSeconds / 8 * 7)
  {
  }

  predicate Finite(c: Client) {
    Holds(c) && !c.infinite
  }

  /** There is time to renew the lease before it ends. */
  predicate Renewable(l: Lease) {
    RenewMillis(l) <= Millis(l.leaseSeconds)
  }

  /** A deadline stands where the total less what has been used says, or is long past. */
  predicate Stands(at: nat, lastTick: nat, total: nat, used: int) {
    at - lastTick == total - used || (at == 0 && total <= used)
  }

  /** The deadlines of a lease stand where its use says. */
  predicate Timed(l: Ledger) {
    var c := l.client;
    && Paid(l) && (c.phase == Renewing ==> c.lease.server != 0)
    && (Finite(c) ==> Renewable(c.lease) && RenewMillis(c.lease) < RebindMillis(c.lease) < Millis(c.lease.leaseSeconds))
    && (Finite(c) && c.phase == Bound ==> Stands(c.renewAt, c.lastTick, RenewMillis(c.lease), l.used))
    && (Finite(c) ==> Stands(c.rebindAt, c.lastTick, RebindMillis(c.lease), l.used))
  }

  /** What has been used once a tick has read its clock. */
  function UsedAt(l: Ledger, now: nat): int {
    l.used + Forward(l.client.lastTick, now)
  }

  lemma StandsMoves(at: nat, lastTick: nat, total: nat, used: int, now: nat)
    requires Stands(at, lastTick, total, used)
    ensures var stepped := if now >= lastTick then 0 else lastTick - now;
      Stands(Minus(at, stepped), now, total, used + Forward(lastTick, now))
  {
  }

  /** Where a tick leads a lease that ends, by what has been used of it. */
  function PhaseByUse(c: Client, used: int): Phase
    requires Renewable(c.lease)
  {
    if used >= Millis(c.lease.leaseSeconds) then Selecting
    else if c.phase == Bound then
      if used < RenewMillis(c.lease) then Bound else if c.lease.server == 0 then Rebinding else Renewing
    else if c.phase == Renewing && used < RebindMillis(c.lease) then Renewing
    else Rebinding
  }

  lemma ClockReadStands(l: Ledger, now: nat)
    requires Timed(l) && Finite(l.client)
    ensures var c := ClockRead(l.client, now); var used := UsedAt(l, now);
      && c.phase == l.client.phase && c.lease == l.client.lease && !c.infinite && c.lastTick == now
      && (c.phase == Bound ==> Stands(c.renewAt, now, RenewMillis(c.lease), used))
      && Stands(c.rebindAt, now, RebindMillis(c.lease), used)
      && Stands(c.expireAt, now, Millis(c.lease.leaseSeconds), used)
  {
    hide RenewMillis, RebindMillis, Sound, Stands, Paid, Millis;
    var c := l.client;
    PaidStands(l);
    if c.phase == Bound {
      StandsMoves(c.renewAt, c.lastTick, RenewMillis(c.lease), l.used, now);
    }
    StandsMoves(c.rebindAt, c.lastTick, RebindMillis(c.lease), l.used, now);
    StandsMoves(c.expireAt, c.lastTick, Millis(c.lease.leaseSeconds), l.used, now);
  }

  lemma PaidStands(l: Ledger)
    requires Paid(l) && Finite(l.client)
    ensures var c := l.client; Stands(c.expireAt, c.lastTick, Millis(c.lease.leaseSeconds), l.used)
  {
    hide Sound, Millis;
  }

  lemma BegunIs(c: Client, phase: Phase, now: nat)
    ensures var d := Begin(c, phase, now);
      d.phase == phase && d.lease == c.lease && d.infinite == c.infinite && d.nextSend == now && d.lastTick == c.lastTick
      && d.renewAt == c.renewAt && d.rebindAt == c.rebindAt && d.expireAt == c.expireAt
  {
  }

  lemma SelectingIs(c: Client, now: nat)
    ensures EnterSelecting(c, now).phase == Selecting
  {
  }

  lemma TickByUse(l: Ledger, now: nat)
    requires Timed(l) && Finite(l.client)
    ensures var d := Tick(l.client, now).0;
      d.phase == PhaseByUse(l.client, UsedAt(l, now)) && (Holds(d) ==> d.rebindAt == ClockRead(l.client, now).rebindAt)
  {
    hide ClockRead, RenewMillis, RebindMillis, Millis, Begin, EnterSelecting, Sound, Compose, ScheduleRetry;
    var c := ClockRead(l.client, now);
    ClockReadStands(l, now);
    if !(c.phase == Bound && now < c.renewAt) {
      AgedByUse(l, c, now);
      SentByUse(Resigned(Aged(c, now), now), now);
    }
  }

  lemma AgedByUse(l: Ledger, c: Client, now: nat)
    requires Timed(l) && Finite(l.client) && c == ClockRead(l.client, now) && !(c.phase == Bound && now < c.renewAt)
    ensures var d := Resigned(Aged(c, now), now); var to := PhaseByUse(l.client, UsedAt(l, now));
      if to == Selecting then d.phase == Selecting
      else
        && d.lease == c.lease && d.rebindAt == c.rebindAt && d.phase == (if c.phase == Bound then Renewing else to)
        && to != Bound && (c.phase == Bound ==> d.nextSend == now)
        && (c.phase != Bound && d.phase == Renewing ==> c.lease.server != 0)
  {
    hide RenewMillis, RebindMillis, Millis, Begin, EnterSelecting, Sound, ClockRead, Paid;
    ClockReadStands(l, now);
    BegunIs(c, Renewing, now);
    BegunIs(c, Rebinding, now);
    var d := if c.phase == Bound then Begin(c, Renewing, now)
             else if c.phase == Renewing && now >= c.rebindAt then Begin(c, Rebinding, now)
             else c;
    SelectingIs(DropLease(d).(lost := true), now);
  }

  lemma SentByUse(c: Client, now: nat)
    ensures var d := Sent(c, now).0;
      && d.phase == (if c.phase == Renewing && c.lease.server == 0 && now >= c.nextSend then Rebinding else c.phase)
      && d.rebindAt == c.rebindAt
  {
    hide Begin, Compose;
    BegunIs(c, Rebinding, now);
  }

  lemma ChargeTimed(l: Ledger, e: Event)
    requires Timed(l)
    ensures Timed(Charge(l, e))
  {
    hide Tick, Sound, Receive, ClockRead, Paid, RenewMillis, RebindMillis, Start;
    ChargePaid(l, e);
    PaidSound(l);
    PaidSound(Charge(l, e));
    match e {
      case Ticked(now) => TickTimed(l, now);
      case Received(parsed, now) => ReceiveTimed(l, parsed, now);
      case Started(_, _) => StartHoldsNothing(l.client, e);
      case _ =>
    }
  }

  lemma TickTimed(l: Ledger, now: nat)
    requires Timed(l) && Paid(Charge(l, Ticked(now)))
    ensures Timed(Charge(l, Ticked(now)))
  {
    hide Tick, Sound, ClockRead, Paid, RenewMillis, RebindMillis, Stands;
    PaidSound(l);
    PaidSound(Charge(l, Ticked(now)));
    TickSound(l.client, now);
    ClockReadSound(l.client, now);
    if Finite(l.client) {
      TickByUse(l, now);
      ClockReadStands(l, now);
      var d := Tick(l.client, now).0;
      assert Holds(d) ==> d.lease == l.client.lease;
      assert d.phase == Renewing ==> d.lease.server != 0;
    } else {
      assert !Finite(Tick(l.client, now).0);
    }
  }

  lemma PaidSound(l: Ledger)
    requires Paid(l)
    ensures Sound(l.client) && (l.client.phase == Renewing || l.client.phase == Rebinding ==> !l.client.infinite)
    ensures Holds(l.client) ==> (l.client.infinite <==> l.client.lease.leaseSeconds == INFINITE_LEASE)
  {
  }

  lemma ReceiveTimed(l: Ledger, parsed: Option<Reply>, now: nat)
    requires Timed(l) && Paid(Charge(l, Received(parsed, now)))
    ensures Timed(Charge(l, Received(parsed, now)))
  {
    hide Sound, Filled, RenewMillis, RebindMillis, Paid, EnterSelecting, Adopt, Grantable, Stands, Renewable;
    FilledZero(parsed);
    SelectingIs(DropLease(l.client).(lost := l.client.lost || l.client.lease.address != 0), now);
    if parsed.Some? && parsed.value.lease.leaseSeconds != 0 {
      AdoptTimed(l.client, parsed.value.lease, now);
    }
  }

  lemma AdoptTimed(c: Client, l: Lease, now: nat)
    requires l.leaseSeconds != 0
    ensures Grantable(Filled(l))
    ensures var d := Adopt(c, Filled(l), now);
      && d.phase == Bound && d.lastTick == c.lastTick
      && (!d.infinite ==>
            && Renewable(d.lease) && RenewMillis(d.lease) < RebindMillis(d.lease) < Millis(d.lease.leaseSeconds)
            && Stands(d.renewAt, d.lastTick, RenewMillis(d.lease), c.lastTick - now)
            && Stands(d.rebindAt, d.lastTick, RebindMillis(d.lease), c.lastTick - now))
  {
    hide Filled, RenewMillis, RebindMillis;
    FilledGrantable(l);
    if l.leaseSeconds != INFINITE_LEASE {
      CarriedSame(c, Filled(l));
    }
  }

  lemma CarriedSame(c: Client, l: Lease)
    requires Renewable(l)
    ensures var m := Carried(c, l); Renewable(m) && m.leaseSeconds == l.leaseSeconds && RenewMillis(m) == RenewMillis(l) && RebindMillis(m) == RebindMillis(l)
  {
  }

  lemma {:induction false} ChargeAllTimed(l: Ledger, events: seq<Event>)
    requires Timed(l)
    ensures Timed(ChargeAll(l, events))
    decreases |events|
  {
    hide Timed, Charge;
    if events != [] {
      ChargeTimed(l, events[0]);
      ChargeAllTimed(Charge(l, events[0]), events[1..]);
    }
  }

  /** A tick at now leads on as the lease's use says. */
  predicate FollowsUse(l: Ledger, now: nat) {
    var c := l.client;
    Finite(c) ==>
      && Renewable(c.lease) && RenewMillis(c.lease) < RebindMillis(c.lease) < Millis(c.lease.leaseSeconds)
      && Tick(c, now).0.phase == PhaseByUse(c, UsedAt(l, now))
  }

  /** In every run, with a clock that may step back at any time, a tick leaves a
      lease that ends alone until its renewal time has been used; the server it came
      from is then asked until the rebinding time has been used, or everybody when it
      is not known; from then on everybody is asked; and the lease is given up exactly
      when all of it has been used. */
  lemma LeaseFollowsUse(events: seq<Event>, now: nat)
    ensures var l := ChargeAll(UNUSED, events); l.client == Run(NEW_CLIENT, events) && FollowsUse(l, now)
  {
    hide Charge, Apply, Tick, RenewMillis, RebindMillis, PhaseByUse, Sound, Paid;
    var l := ChargeAll(UNUSED, events);
    UnusedTimed();
    ChargeAllPaid(UNUSED, events);
    ChargeAllTimed(UNUSED, events);
    if Finite(l.client) {
      TickByUse(l, now);
    }
  }

  lemma UnusedTimed()
    ensures Timed(UNUSED) && Paid(UNUSED)
  {
  }
}
