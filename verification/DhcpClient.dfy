/** DhcpClient of firmware/src/net/DhcpClient.cpp: the steps of Dhcp on fields. */
module DhcpClient {
  import opened Basics
  import opened Dhcp
  import R = DhcpRuns

  class DhcpClient {
    var phase: Phase
    var held: Lease
    var offered: Lease
    var xid: nat
    var rng: nat
    var preferred: nat
    var transactionStart: nat
    var nextSend: nat
    var retry: nat
    var attempts: nat
    var renewAt: nat
    var rebindAt: nat
    var expireAt: nat
    var infinite: bool
    var lastTick: nat
    var acquired: bool
    var lost: bool

    constructor ()
      ensures Now() == NEW_CLIENT
    {
      phase, held, offered, xid, rng, preferred := Idle, NO_LEASE, NO_LEASE, 0, 1, 0;
      transactionStart, nextSend, retry, attempts := 0, 0, FIRST_RETRY, 0;
      renewAt, rebindAt, expireAt, infinite, lastTick := 0, 0, 0, false, 0;
      acquired, lost := false, false;
    }

    function Now(): Client
      reads this
    {
      Client(phase, held, offered, xid, rng, preferred, transactionStart, nextSend, retry, attempts,
             renewAt, rebindAt, expireAt, infinite, lastTick, acquired, lost)
    }

    /** The linear congruential generator draws the next transaction's id. */
    method DrawXid()
      modifies this`rng, this`xid
      ensures Now() == old(Now()).(rng := NextRandom(old(rng)), xid := XidOf(NextRandom(old(rng))))
    {
      rng := (rng * 1664525 + 1013904223) % TWO_TO_32;
      xid := if rng == 0 then 1 else rng;
    }

    method BeginTransaction(next: Phase, now: nat)
      modifies this
      ensures Now() == Begin(old(Now()), next, now)
    {
      hide NextRandom, XidOf;
      DrawXid();
      phase, transactionStart, nextSend, retry, attempts := next, now, now, FIRST_RETRY, 0;
    }

    method Select(now: nat)
      modifies this
      ensures Now() == EnterSelecting(old(Now()), now)
    {
      offered := NO_LEASE;
      BeginTransaction(Selecting, now);
    }

    method Retry(now: nat)
      modifies this
      ensures Now() == ScheduleRetry(old(Now()), now)
    {
      attempts := attempts + 1;
      nextSend := now + retry;
      retry := retry * 2;
      if retry > MAX_RETRY {
        retry := MAX_RETRY;
      }
    }

    method Drop()
      modifies this
      ensures Now() == DropLease(old(Now()))
    {
      held, infinite := NO_LEASE, false;
      renewAt, rebindAt, expireAt := 0, 0, 0;
    }

    method ForgetLeases()
      modifies `held, `offered
      ensures Now() == old(Now()).(lease := NO_LEASE, offered := NO_LEASE)
    {
      held, offered := NO_LEASE, NO_LEASE;
    }

    method SetUp(seed: nat, now: nat)
      modifies `rng, `infinite, `acquired, `lost, `lastTick
      ensures Now() == old(Now()).(rng := seed, infinite := false, acquired := false, lost := false, lastTick := now)
    {
      rng, infinite, acquired, lost, lastTick := seed, false, false, false, now;
    }

    method Start(seed: nat, now: nat)
      modifies this
      ensures Now() == Dhcp.Start(old(Now()), seed, now)
    {
      hide EnterSelecting;
      ForgetLeases();
      SetUp(if seed == 0 then 1 else seed, now);
      Select(now);
    }

    method Stop()
      modifies this
      ensures Now() == Dhcp.Stop(old(Now()))
    {
      phase := Idle;
      offered := NO_LEASE;
    }

    /** What the lease says, with what it leaves out carried over. */
    method Carry(granted: Lease) returns (next: Lease)
      ensures next == Carried(Now(), granted)
    {
      next := granted;
      if next.mask == 0 {
        next := next.(mask := held.mask);
      }
      if next.router == 0 {
        next := next.(router := held.router);
      }
      if next.dns == 0 {
        next := next.(dns := held.dns);
      }
      if next.server == 0 {
        next := next.(server := if held.server != 0 then held.server else offered.server);
      }
    }

    method Timers(l: Lease) returns (renewMillis: nat, rebindMillis: nat)
      requires RenewMillis(l) <= Millis(l.leaseSeconds)
      ensures renewMillis == RenewMillis(l) && rebindMillis == RebindMillis(l)
    {
      var leaseMillis := Millis(l.leaseSeconds);
      renewMillis := Millis(l.renewSeconds);
      if renewMillis < MIN_RENEW_INTERVAL {
        var half := leaseMillis / 2;
        renewMillis := if MIN_RENEW_INTERVAL < half then MIN_RENEW_INTERVAL else half;
      }
      rebindMillis := Millis(l.rebindSeconds);
      if rebindMillis <= renewMillis || rebindMillis >= leaseMillis {
        rebindMillis := renewMillis + (leaseMillis - renewMillis) / 2;
      }
    }

    method Grant(granted: Lease, now: nat)
      requires Grantable(granted)
      modifies this
      ensures Now() == Adopt(old(Now()), granted, now)
    {
      hide Carried, RenewMillis, RebindMillis, Millis;
      CarriedTimers(Now(), granted);
      var next := Carry(granted);
      var changed := next.address != held.address || next.mask != held.mask
                     || next.router != held.router || next.dns != held.dns;
      Hold(next);
      SetDeadlines(next, now);
      acquired := acquired || changed;
    }

    method Hold(l: Lease)
      modifies `held, `preferred, `offered, `phase, `attempts, `retry
      ensures Now() == old(Now()).(lease := l, preferred := l.address, offered := NO_LEASE, phase := Bound,
                                   attempts := 0, retry := FIRST_RETRY)
    {
      held, preferred, offered := l, l.address, NO_LEASE;
      phase, attempts, retry := Bound, 0, FIRST_RETRY;
    }

    method SetDeadlines(l: Lease, now: nat)
      requires Grantable(l)
      modifies `infinite, `renewAt, `rebindAt, `expireAt
      ensures var forever := l.leaseSeconds == INFINITE_LEASE;
        Now() == old(Now()).(infinite := forever,
                             renewAt := if forever then 0 else now + RenewMillis(l),
                             rebindAt := if forever then 0 else now + RebindMillis(l),
                             expireAt := if forever then 0 else now + Millis(l.leaseSeconds))
    {
      hide RenewMillis, RebindMillis, Millis;
      infinite := l.leaseSeconds == INFINITE_LEASE;
      if infinite {
        renewAt, rebindAt, expireAt := 0, 0, 0;
      } else {
        var renewMillis, rebindMillis := Timers(l);
        renewAt, rebindAt, expireAt := now + renewMillis, now + rebindMillis, now + Millis(l.leaseSeconds);
      }
    }

    /** A clock that steps back takes the deadlines with it. */
    method ReadClock(now: nat)
      modifies this
      ensures Now() == ClockRead(old(Now()), now)
    {
      if now < lastTick {
        var stepped := lastTick - now;
        transactionStart := Minus(transactionStart, stepped);
        nextSend := Minus(nextSend, stepped);
        renewAt := Minus(renewAt, stepped);
        rebindAt := Minus(rebindAt, stepped);
        expireAt := Minus(expireAt, stepped);
      }
      lastTick := now;
    }

    /** The part of tick that moves on when a deadline has passed. */
    method Age(now: nat)
      requires phase == Bound ==> now >= renewAt
      modifies this
      ensures Now() == Aged(old(Now()), now)
    {
      hide Begin, EnterSelecting;
      if phase == Bound {
        BeginTransaction(Renewing, now);
      } else if phase == Renewing && now >= rebindAt {
        BeginTransaction(Rebinding, now);
      }
      if (phase == Renewing || phase == Rebinding) && now >= expireAt {
        Drop();
        lost := true;
        Select(now);
      }
    }

    /** The packet to send, if one is due. */
    method Tick(now: nat) returns (packet: Option<Packet>)
      modifies this
      ensures (Now(), packet) == Dhcp.Tick(old(Now()), now)
    {
      hide Aged, ClockRead, EnterSelecting, Sent;
      if phase == Idle {
        return None;
      }
      ReadClock(now);
      if phase == Bound && (infinite || now < renewAt) {
        return None;
      }
      Age(now);
      if phase == Requesting && attempts >= MAX_REQUEST_ATTEMPTS {
        Select(now);
      }
      packet := Send(now);
    }

    /** The end of tick: what is due goes out. */
    method Send(now: nat) returns (packet: Option<Packet>)
      modifies this
      ensures (Now(), packet) == Sent(old(Now()), now)
    {
      hide Begin, ScheduleRetry, Compose;
      if now < nextSend {
        return None;
      }
      if phase == Renewing && held.server == 0 {
        BeginTransaction(Rebinding, now);
      }
      packet := Build(if phase == Selecting then Discover else Request, now);
      Retry(now);
    }

    /** What to send in this phase, if anything. */
    method Build(kind: Kind, now: nat) returns (packet: Option<Packet>)
      ensures packet == Compose(Now(), kind, now)
    {
      var elapsed := Minus(now, transactionStart) / 1000;
      var seconds := if elapsed > 65535 then 65535 else elapsed;
      var request := Packet(kind, xid, seconds, 0, 0, 0, false, 0);
      match phase {
        case Selecting =>
          request := request.(requestedAddress := preferred, broadcast := true, destination := BROADCAST);
        case Requesting =>
          request := request.(requestedAddress := offered.address, serverAddress := offered.server);
          request := request.(broadcast := true, destination := BROADCAST);
        case Renewing =>
          request := request.(clientAddress := held.address, broadcast := false, destination := held.server);
        case Rebinding =>
          request := request.(clientAddress := held.address, broadcast := true, destination := BROADCAST);
        case _ =>
          return None;
      }
      packet := Some(request);
    }

    /** parsed is what reading the packet gave; none when it was no reply. */
    method Receive(parsed: Option<Reply>, now: nat)
      modifies this
      ensures Now() == Dhcp.Receive(old(Now()), parsed, now)
    {
      hide EnterSelecting, Adopt, Filled, Grantable;
      if phase == Idle {
        return;
      }
      if parsed == None {
        return;
      }
      var reply := parsed.value;
      if reply.xid != xid {
        return;
      }
      var lease := Filled(reply.lease);
      if phase == Selecting {
        if reply.kind == Offer && lease.address != 0 {
          TakeOffer(lease, now);
        }
      } else if phase == Requesting || phase == Renewing || phase == Rebinding {
        if reply.kind == Ack {
          R.FilledZero(parsed);
          if lease.address == 0 || lease.leaseSeconds == 0 {
            return;
          }
          FilledGrantable(reply.lease);
          Grant(lease, now);
        } else if reply.kind == Nak {
          TakeRefusal(now);
        }
      }
    }

    method TakeOffer(lease: Lease, now: nat)
      modifies `offered, `phase, `attempts, `retry, `nextSend
      ensures Now() == old(Now()).(offered := lease, phase := Requesting, attempts := 0, retry := FIRST_RETRY, nextSend := now)
    {
      offered, phase := lease, Requesting;
      attempts, retry, nextSend := 0, FIRST_RETRY, now;
    }

    method TakeRefusal(now: nat)
      modifies this
      ensures Now() == EnterSelecting(DropLease(old(Now())).(lost := old(lost) || old(held).address != 0), now)
    {
      hide EnterSelecting;
      var hadOne := held.address != 0;
      Drop();
      if hadOne {
        lost := true;
      }
      Select(now);
    }

    /** True once after a lease was granted; reading it clears it. */
    method TakeAcquired() returns (was: bool)
      modifies this`acquired
      ensures was == old(acquired) && !acquired
    {
      was := acquired;
      acquired := false;
    }

    method TakeLost() returns (was: bool)
      modifies this`lost
      ensures was == old(lost) && !lost
    {
      was := lost;
      lost := false;
    }
  }
}
