/**
 The DHCP client of firmware/src/net/DhcpClient.cpp as functions on its state:
 what a tick, a reply, a start and a stop do. Times are milliseconds. DhcpClient
 runs the same steps on an object.
 */
module Dhcp {
  import opened Basics

  const FIRST_RETRY: nat := 4000
  const MAX_RETRY: nat := 60000
  const MAX_REQUEST_ATTEMPTS: nat := 4
  const MIN_RENEW_INTERVAL: nat := 30000
  const INFINITE_LEASE: nat := 0xFFFF_FFFF
  const BROADCAST: nat := 0xFFFF_FFFF

  datatype Phase = Idle | Selecting | Requesting | Bound | Renewing | Rebinding

  datatype Kind = Discover | Offer | Request | Ack | Nak | OtherKind

  datatype Lease = Lease(address: nat, mask: nat, router: nat, dns: nat, server: nat,
                         leaseSeconds: nat, renewSeconds: nat, rebindSeconds: nat)

  const NO_LEASE := Lease(0, 0, 0, 0, 0, 0, 0, 0)

  /** A reply as its options spell it, before the timers it lacks are filled in. */
  datatype Reply = Reply(kind: Kind, xid: nat, lease: Lease)

  datatype Packet = Packet(kind: Kind, xid: nat, seconds: nat, requestedAddress: nat, serverAddress: nat,
                           clientAddress: nat, broadcast: bool, destination: nat)

  datatype Client = Client(
    phase: Phase,
    lease: Lease,
    offered: Lease,
    xid: nat,
    rng: nat,
    preferred: nat,
    transactionStart: nat,
    nextSend: nat,
    retry: nat,
    attempts: nat,
    renewAt: nat,
    rebindAt: nat,
    expireAt: nat,
    infinite: bool,
    lastTick: nat,
    acquired: bool,
    lost: bool)

  const NEW_CLIENT := Client(Idle, NO_LEASE, NO_LEASE, 0, 1, 0, 0, 0, FIRST_RETRY, 0, 0, 0, 0, false, 0, false, false)

  function Minus(value: nat, amount: nat): nat {
    if value > amount then value - amount else 0
  }

  function Millis(seconds: nat): nat {
    seconds * 1000
  }

  // --- the message's timers ---------------------------------------------------------------

  /** The timers a lease gets when the server left them out or made no sense of them. */
  function Filled(l: Lease): Lease {
    if l.leaseSeconds == 0 || l.leaseSeconds == INFINITE_LEASE then l
    else
      var renew := if l.renewSeconds == 0 || l.renewSeconds >= l.leaseSeconds then l.leaseSeconds / 2 else l.renewSeconds;
      var rebind :=
        if l.rebindSeconds == 0 || l.rebindSeconds >= l.leaseSeconds || l.rebindSeconds <= renew then l.leaseSeconds / 8 * 7
        else l.rebindSeconds;
      l.(renewSeconds := renew, rebindSeconds := rebind)
  }

  // --- transactions -------------------------------------------------------------------------

  function NextRandom(rng: nat): (next: nat)
    ensures next < TWO_TO_32
  {
    (rng * 1664525 + 1013904223) % TWO_TO_32
  }

  function XidOf(rng: nat): nat {
    if rng == 0 then 1 else rng
  }

  function Begin(c: Client, phase: Phase, now: nat): Client {
    var rng := NextRandom(c.rng);
    c.(phase := phase, rng := rng, xid := XidOf(rng), transactionStart := now, nextSend := now,
       retry := FIRST_RETRY, attempts := 0)
  }

  function EnterSelecting(c: Client, now: nat): Client {
    Begin(c.(offered := NO_LEASE), Selecting, now)
  }

  function ScheduleRetry(c: Client, now: nat): Client {
    c.(attempts := c.attempts + 1, nextSend := now + c.retry,
       retry := if c.retry * 2 > MAX_RETRY then MAX_RETRY else c.retry * 2)
  }

  function DropLease(c: Client): Client {
    c.(lease := NO_LEASE, infinite := false, renewAt := 0, rebindAt := 0, expireAt := 0)
  }

  // --- granting -------------------------------------------------------------------------------

  /** Values a renewal leaves out stay what they were. */
  function Carried(c: Client, granted: Lease): Lease {
    granted.(
      mask := if granted.mask == 0 then c.lease.mask else granted.mask,
      router := if granted.router == 0 then c.lease.router else granted.router,
      dns := if granted.dns == 0 then c.lease.dns else granted.dns,
      server := if granted.server != 0 then granted.server
                else if c.lease.server != 0 then c.lease.server else c.offered.server)
  }

  function RenewMillis(l: Lease): nat {
    var lease, renew := Millis(l.leaseSeconds), Millis(l.renewSeconds);
    if renew < MIN_RENEW_INTERVAL then (if MIN_RENEW_INTERVAL < lease / 2 then MIN_RENEW_INTERVAL else lease / 2)
    else renew
  }

  function RebindMillis(l: Lease): nat
    requires RenewMillis(l) <= Millis(l.leaseSeconds)
  {
    var lease, renew, rebind := Millis(l.leaseSeconds), RenewMillis(l), Millis(l.rebindSeconds);
    if rebind <= renew || rebind >= lease then renew + (lease - renew) / 2 else rebind
  }

  /** What the interface is configured with. */
  datatype Settings = Settings(address: nat, mask: nat, router: nat, dns: nat)

  function SettingsOf(l: Lease): Settings {
    Settings(l.address, l.mask, l.router, l.dns)
  }

  /** A finite lease must leave time to renew it before it ends. */
  predicate Grantable(l: Lease) {
    l.leaseSeconds == INFINITE_LEASE || RenewMillis(l) <= Millis(l.leaseSeconds)
  }

  function Adopt(c: Client, granted: Lease, now: nat): Client
    requires Grantable(granted)
  {
    var next := Carried(c, granted);
    var infinite := next.leaseSeconds == INFINITE_LEASE;
    c.(lease := next, preferred := next.address, offered := NO_LEASE, phase := Bound,
       attempts := 0, retry := FIRST_RETRY, infinite := infinite,
       renewAt := if infinite then 0 else now + RenewMillis(next),
       rebindAt := if infinite then 0 else now + RebindMillis(next),
       expireAt := if infinite then 0 else now + Millis(next.leaseSeconds),
       acquired := c.acquired || SettingsOf(next) != SettingsOf(c.lease))
  }

  // --- what goes out ----------------------------------------------------------------------------

  function Compose(c: Client, kind: Kind, now: nat): Option<Packet> {
    var elapsed := Minus(now, c.transactionStart) / 1000;
    var seconds := if elapsed > 65535 then 65535 else elapsed;
    match c.phase
    case Selecting => Some(Packet(kind, c.xid, seconds, c.preferred, 0, 0, true, BROADCAST))
    case Requesting => Some(Packet(kind, c.xid, seconds, c.offered.address, c.offered.server, 0, true, BROADCAST))
    case Renewing => Some(Packet(kind, c.xid, seconds, 0, 0, c.lease.address, false, c.lease.server))
    case Rebinding => Some(Packet(kind, c.xid, seconds, 0, 0, c.lease.address, true, BROADCAST))
    case _ => None
  }

  // --- steps ---------------------------------------------------------------------------------------

  function Start(c: Client, seed: nat, now: nat): Client {
    EnterSelecting(c.(rng := if seed == 0 then 1 else seed, lease := NO_LEASE, offered := NO_LEASE, infinite := false,
                      acquired := false, lost := false, lastTick := now), now)
  }

  function Stop(c: Client): Client {
    c.(phase := Idle, offered := NO_LEASE)
  }

  /** The deadlines moved back with a clock that stepped back. */
  function ClockRead(c: Client, now: nat): Client {
    if now >= c.lastTick then c.(lastTick := now)
    else
      var stepped := c.lastTick - now;
      c.(transactionStart := Minus(c.transactionStart, stepped), nextSend := Minus(c.nextSend, stepped),
         renewAt := Minus(c.renewAt, stepped), rebindAt := Minus(c.rebindAt, stepped),
         expireAt := Minus(c.expireAt, stepped), lastTick := now)
  }

  /** On to renewing or rebinding when that is due, and back to selecting when
      the lease is over. */
  function Aged(c: Client, now: nat): Client {
    var d := if c.phase == Bound then Begin(c, Renewing, now)
             else if c.phase == Renewing && now >= c.rebindAt then Begin(c, Rebinding, now)
             else c;
    if (d.phase == Renewing || d.phase == Rebinding) && now >= d.expireAt
    then EnterSelecting(DropLease(d).(lost := true), now) else d
  }

  /** An offer nobody confirms is given up. */
  function Resigned(c: Client, now: nat): Client {
    if c.phase == Requesting && c.attempts >= MAX_REQUEST_ATTEMPTS then EnterSelecting(c, now) else c
  }

  function Sent(c: Client, now: nat): (Client, Option<Packet>) {
    if now < c.nextSend then (c, None)
    else
      var d := if c.phase == Renewing && c.lease.server == 0 then Begin(c, Rebinding, now) else c;
      (ScheduleRetry(d, now), Compose(d, if d.phase == Selecting then Discover else Request, now))
  }

  function Tick(c: Client, now: nat): (Client, Option<Packet>) {
    if c.phase == Idle then (c, None)
    else
      var d := ClockRead(c, now);
      if d.phase == Bound && (d.infinite || now < d.renewAt) then (d, None)
      else Sent(Resigned(Aged(d, now), now), now)
  }

  function Receive(c: Client, parsed: Option<Reply>, now: nat): Client {
    if c.phase == Idle || parsed == None || parsed.value.xid != c.xid then c
    else
      var reply, lease := parsed.value, Filled(parsed.value.lease);
      if c.phase == Selecting then
        if reply.kind == Offer && lease.address != 0 then
          c.(offered := lease, phase := Requesting, attempts := 0, retry := FIRST_RETRY, nextSend := now)
        else c
      else if c.phase == Bound then c
      else if reply.kind == Ack then
        if lease.address == 0 || lease.leaseSeconds == 0 then c
        else FilledGrantable(parsed.value.lease); Adopt(c, lease, now)
      else if reply.kind == Nak then
        EnterSelecting(DropLease(c).(lost := c.lost || c.lease.address != 0), now)
      else c
  }

  /** Carrying values over leaves the timers alone. */
  lemma CarriedTimers(c: Client, l: Lease)
    ensures Carried(c, l).leaseSeconds == l.leaseSeconds && Carried(c, l).address == l.address
    ensures RenewMillis(Carried(c, l)) == RenewMillis(l)
  {
  }

  /** Filled in, the timers of a lease leave time before its end. */
  lemma FilledGrantable(l: Lease)
    requires l.leaseSeconds != 0
    ensures Grantable(Filled(l)) && Filled(l).leaseSeconds == l.leaseSeconds && Filled(l).address == l.address
    ensures l.leaseSeconds != INFINITE_LEASE ==>
      && 0 < RenewMillis(Filled(l)) < RebindMillis(Filled(l)) < Millis(l.leaseSeconds)
      && (RenewMillis(Filled(l)) >= MIN_RENEW_INTERVAL || RenewMillis(Filled(l)) == Millis(l.leaseSeconds) / 2)
  {
  }

  function RemainingSeconds(c: Client, now: nat): nat {
    if !Holds(c) then 0
    else if c.infinite then INFINITE_LEASE
    else if now >= c.expireAt then 0
    else (c.expireAt - now) / 1000
  }

  predicate Holds(c: Client) {
    c.phase == Bound || c.phase == Renewing || c.phase == Rebinding
  }
}
