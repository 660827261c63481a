/** What the notification queue keeps in every run, and in which runs it stays small. */
module NotificationRuns {
  import opened Basics
  import opened Notifications
  import opened Numerals

  datatype Op =
    | Pushed(note: Note, now: nat)
    | Ticked(now: nat)
    | Dismissed(id: string, now: nat)
    | AllDismissed(now: nat)
    | Cleared

  function Apply(s: Queue, op: Op): Queue {
    match op
    case Pushed(note, now) => Push(s, note, now).0
    case Ticked(now) => Tick(s, now)
    case Dismissed(id, now) => Dismiss(s, id, now).0
    case AllDismissed(now) => DismissAll(s, now)
    case Cleared => Clear(s)
  }

  function Run(s: Queue, ops: seq<Op>): Queue
    decreases |ops|
  {
    if ops == [] then s else Run(Apply(s, ops[0]), ops[1..])
  }

  // --- lists of notes -------------------------------------------------------------------------

  predicate Apart(a: Note, b: Note) {
    a.sequence != b.sequence && a.id != b.id
  }

  predicate Separate(q: seq<Note>, n: Note) {
    forall i :: 0 <= i < |q| ==> Apart(q[i], n)
  }

  predicate Distinct(q: seq<Note>) {
    forall i, j :: 0 <= i < j < |q| ==> Apart(q[i], q[j])
  }

  predicate Numbered(q: seq<Note>, next: nat) {
    forall i :: 0 <= i < |q| ==> q[i].sequence < next
  }

  lemma TakenOut(q: seq<Note>, i: nat, next: nat)
    requires i < |q| && Distinct(q) && Numbered(q, next)
    ensures Distinct(Without(q, i)) && Separate(Without(q, i), q[i]) && Numbered(Without(q, i), next)
    ensures forall n :: Separate(q, n) ==> Separate(Without(q, i), n)
  {
    var r := Without(q, i);
    forall j | 0 <= j < |r| ensures r[j] == if j < i then q[j] else q[j + 1] {
    }
  }

  lemma {:induction false} InsistingKept(q: seq<Note>, next: nat)
    requires Distinct(q) && Numbered(q, next)
    ensures Distinct(Insisting(q)) && Numbered(Insisting(q), next)
    ensures forall n :: Separate(q, n) ==> Separate(Insisting(q), n)
    ensures forall i :: 0 <= i < |Insisting(q)| ==> !Insisting(q)[i].dismissible
  {
    if q != [] {
      var front, last := q[..|q| - 1], q[|q| - 1];
      InsistingKept(front, next);
      assert Separate(front, last);
      assert forall n :: Separate(q, n) ==> Separate(front, n) && Apart(last, n);
    }
  }

  // --- ranking ------------------------------------------------------------------------------

  /** All but best rank behind it. */
  predicate IsBest(q: seq<Note>, best: nat) {
    best < |q| && forall j :: 0 <= j < |q| && j != best ==> RanksAhead(q[best], q[j])
  }

  predicate IsWorst(q: seq<Note>, worst: nat) {
    worst < |q| && forall j :: 0 <= j < |q| && j != worst ==> RanksAhead(q[j], q[worst])
  }

  lemma {:induction false} BestRanks(q: seq<Note>, i: nat, best: nat)
    requires best < i <= |q| && Distinct(q)
    requires forall j :: 0 <= j < i && j != best ==> RanksAhead(q[best], q[j])
    ensures IsBest(q, BestFrom(q, i, best))
    decreases |q| - i
  {
    if i < |q| {
      BestRanks(q, i + 1, if RanksAhead(q[i], q[best]) then i else best);
    }
  }

  lemma {:induction false} WorstRanks(q: seq<Note>, i: nat, worst: nat)
    requires worst < i <= |q| && Distinct(q)
    requires forall j :: 0 <= j < i && j != worst ==> RanksAhead(q[j], q[worst])
    ensures IsWorst(q, WorstFrom(q, i, worst))
    decreases |q| - i
  {
    if i < |q| {
      WorstRanks(q, i + 1, if RanksAhead(q[worst], q[i]) then i else worst);
    }
  }

  // --- in every run ----------------------------------------------------------------------------

  /** Ids and sequence numbers are distinct, numbers to come are new, and nobody
      waits while nothing is shown. */
  predicate Sound(s: Queue) {
    && Distinct(s.queued) && Numbered(s.queued, s.nextSequence)
    && (s.active.Some? ==> Separate(s.queued, s.active.value) && s.active.value.sequence < s.nextSequence)
    && (s.active == None ==> s.queued == [])
  }

  /** Nobody waiting has a higher priority than what is shown. */
  predicate Settled(s: Queue) {
    s.active.Some? ==> forall i :: 0 <= i < |s.queued| ==> s.queued[i].priority <= s.active.value.priority
  }

  /** Sound but for a note that has just left the panel. */
  predicate Waiting(s: Queue) {
    s.active == None && Distinct(s.queued) && Numbered(s.queued, s.nextSequence)
  }

  lemma PromoteBestSound(s: Queue, now: nat)
    requires Waiting(s)
    ensures Sound(PromoteBest(s, now)) && Settled(PromoteBest(s, now))
  {
    hide BestFrom;
    if s.queued != [] {
      BestRanks(s.queued, 1, 0);
      TakenOut(s.queued, Best(s.queued), s.nextSequence);
    }
  }

  lemma TickSound(s: Queue, now: nat)
    requires Sound(s)
    ensures Sound(Tick(s, now)) && Settled(Tick(s, now))
  {
    hide BestFrom;
    var t := if Over(s, now) then s.(active := None) else s;
    if t.active == None {
      PromoteBestSound(t, now);
    } else if t.queued != [] {
      BestRanks(t.queued, 1, 0);
      TakenOut(t.queued, Best(t.queued), t.nextSequence);
    }
  }

  lemma EnqueueSound(s: Queue, n: Note)
    requires Sound(s) && s.active.Some? && n.sequence < s.nextSequence && Separate(s.queued, n) && Apart(s.active.value, n)
    ensures Sound(Enqueue(s, n).0)
  {
    hide WorstFrom;
    if |s.queued| >= MAX_QUEUED {
      TakenOut(s.queued, Worst(s.queued), s.nextSequence);
    }
  }

  lemma PushSound(s: Queue, given: Note, now: nat)
    requires Sound(s)
    ensures Sound(Push(s, given, now).0)
  {
    hide Admit, Stamped, Acceptable, Sound;
    var n := Stamped(s, given, now);
    if s.active.Some? && s.active.value.id == n.id {
      RefreshSound(s, n, now);
    } else if Find(s.queued, n.id) == None {
      AdmitSound(s, n.(sequence := s.nextSequence), now);
    } else {
      UpdateSound(s, n);
    }
  }

  lemma RefreshSound(s: Queue, n: Note, now: nat)
    requires Sound(s) && s.active.Some? && s.active.value.id == n.id
    ensures Sound(s.(active := Some(n.(sequence := s.active.value.sequence, startedAt := now))))
  {
  }

  lemma UpdateSound(s: Queue, n: Note)
    requires Sound(s) && Find(s.queued, n.id).Some?
    ensures var i := Find(s.queued, n.id).value;
      i < |s.queued| && Sound(s.(queued := s.queued[i := n.(sequence := s.queued[i].sequence)]))
  {
  }

  lemma AdmitSound(s: Queue, n: Note, now: nat)
    requires Sound(s) && n.sequence == s.nextSequence && Find(s.queued, n.id) == None
    requires s.active.Some? ==> s.active.value.id != n.id
    ensures Sound(Admit(s.(nextSequence := s.nextSequence + 1), n, now).0)
  {
    hide Enqueue;
    assert Separate(s.queued, n);
    if s.active.Some? && n.priority <= s.active.value.priority {
      EnqueueSound(s.(nextSequence := s.nextSequence + 1), n);
    }
  }

  lemma OpSound(s: Queue, op: Op)
    requires Sound(s)
    ensures Sound(Apply(s, op))
  {
    hide Push, PromoteBest, Tick;
    match op {
      case Pushed(note, now) => PushSound(s, note, now);
      case Ticked(now) => TickSound(s, now);
      case Dismissed(id, now) =>
        PromoteBestSoundIf(s.(active := None), now);
        var found := Find(s.queued, id);
        if found.Some? {
          TakenOut(s.queued, found.value, s.nextSequence);
        }
      case AllDismissed(now) =>
        InsistingKept(s.queued, s.nextSequence);
        PromoteBestSoundIf(s.(active := None, queued := Insisting(s.queued)), now);
      case Cleared =>
    }
  }

  lemma PromoteBestSoundIf(s: Queue, now: nat)
    ensures Waiting(s) ==> Sound(PromoteBest(s, now))
  {
    if Waiting(s) {
      PromoteBestSound(s, now);
    }
  }

  /** Numbers only go up, so that none is given out twice. */
  lemma NumbersRise(s: Queue, op: Op)
    ensures Apply(s, op).nextSequence >= s.nextSequence
  {
    hide Best, Worst, Find, Insisting, Without, Acceptable;
  }

  /** In every run ids and sequence numbers stay distinct, no number is given out
      again, and nobody waits while nothing is shown. */
  lemma {:induction false} RunSound(s: Queue, ops: seq<Op>)
    requires Sound(s)
    ensures Sound(Run(s, ops)) && Run(s, ops).nextSequence >= s.nextSequence
    decreases |ops|
  {
    hide Apply, Sound;
    if ops != [] {
      NumbersRise(s, ops[0]);
      OpSound(s, ops[0]);
      RunSound(Apply(s, ops[0]), ops[1..]);
    }
  }

  /** After any run a tick leaves nobody waiting who outranks what is shown. */
  lemma TickSettles(ops: seq<Op>, now: nat)
    ensures Settled(Tick(Run(EMPTY, ops), now))
  {
    RunSound(EMPTY, ops);
    TickSound(Run(EMPTY, ops), now);
  }

  // --- what an overflow drops -----------------------------------------------------------------------

  lemma TakenOutBag(q: seq<Note>, i: nat)
    requires i < |q|
    ensures multiset(q) == multiset(Without(q, i)) + multiset{q[i]}
  {
    assert q == q[..i] + [q[i]] + q[i + 1..];
  }

  /** When the queue is full, what is dropped ranks behind all that stay. */
  lemma OverflowDropsLast(s: Queue, n: Note) returns (out: Note)
    requires Sound(s) && s.active.Some? && |s.queued| >= MAX_QUEUED
    requires Separate(s.queued, n) && forall i :: 0 <= i < |s.queued| ==> s.queued[i].sequence < n.sequence
    ensures var (t, r) := Enqueue(s, n);
      && multiset(t.queued) + multiset{out} == multiset(s.queued) + multiset{n}
      && (forall i :: 0 <= i < |t.queued| ==> RanksAhead(t.queued[i], out))
      && (r == DroppedLowPriority <==> out == n) && t.dropped == s.dropped + 1
  {
    hide WorstFrom, Without;
    var q, worst := s.queued, Worst(s.queued);
    WorstRanks(q, 1, 0);
    if !RanksAhead(n, q[worst]) {
      out := n;
      forall i | 0 <= i < |q| ensures RanksAhead(q[i], n) {
        assert i != worst ==> RanksAhead(q[i], q[worst]);
      }
    } else {
      out := q[worst];
      WorstGone(q, worst);
    }
  }

  lemma WorstGone(q: seq<Note>, worst: nat)
    requires worst < |q| && IsWorst(q, worst)
    ensures var r := Without(q, worst);
      && (forall i :: 0 <= i < |r| ==> RanksAhead(r[i], q[worst]))
      && multiset(q) == multiset(r) + multiset{q[worst]}
  {
    TakenOutBag(q, worst);
    var r := Without(q, worst);
    forall i | 0 <= i < |r| ensures RanksAhead(r[i], q[worst]) {
      assert r[i] == if i < worst then q[i] else q[i + 1];
    }
  }

  // --- how many can wait -------------------------------------------------------------------------------

  /** How many have at most priority b. */
  function AtMost(q: seq<Note>, b: nat): (n: nat)
    ensures n <= |q|
  {
    if q == [] then 0 else AtMost(q[..|q| - 1], b) + Low(q[|q| - 1], b)
  }

  function Low(n: Note, b: nat): nat {
    if n.priority <= b then 1 else 0
  }

  lemma {:induction false} AtMostConcat(p: seq<Note>, q: seq<Note>, b: nat)
    ensures AtMost(p + q, b) == AtMost(p, b) + AtMost(q, b)
  {
    if q == [] {
      assert p + q == p;
    } else {
      AtMostConcat(p, q[..|q| - 1], b);
      assert (p + q)[..|p + q| - 1] == p + q[..|q| - 1];
    }
  }

  lemma AtMostSplit(q: seq<Note>, i: nat, b: nat)
    requires i < |q|
    ensures AtMost(q, b) == AtMost(Without(q, i), b) + Low(q[i], b)
  {
    hide AtMost;
    AtMostOne(q[i], b);
    AtMostConcat(q[..i] + [q[i]], q[i + 1..], b);
    AtMostConcat(q[..i], [q[i]], b);
    AtMostConcat(q[..i], q[i + 1..], b);
    assert q == q[..i] + [q[i]] + q[i + 1..];
  }

  lemma AtMostUpdated(q: seq<Note>, i: nat, n: Note, b: nat)
    requires i < |q|
    ensures AtMost(q[i := n], b) <= AtMost(q, b) + Drop(q[i].priority, n.priority)
  {
    hide AtMost;
    AtMostSplit(q, i, b);
    AtMostSplit(q[i := n], i, b);
    assert Without(q[i := n], i) == Without(q, i);
  }

  lemma AtMostOne(n: Note, b: nat)
    ensures AtMost([n], b) == Low(n, b)
  {
    assert [n][..0] == [];
  }

  lemma {:induction false} AtMostAll(q: seq<Note>, b: nat)
    requires forall i :: 0 <= i < |q| ==> q[i].priority <= b
    ensures AtMost(q, b) == |q|
  {
    if q != [] {
      AtMostAll(q[..|q| - 1], b);
    }
  }

  lemma {:induction false} AtMostInsisting(q: seq<Note>, b: nat)
    ensures AtMost(Insisting(q), b) <= AtMost(q, b) && |Insisting(q)| <= |q|
  {
    if q != [] {
      AtMostInsisting(q[..|q| - 1], b);
      AtMostConcat(Insisting(q[..|q| - 1]), [q[|q| - 1]], b);
      AtMostOne(q[|q| - 1], b);
    }
  }

  function Drop(from: nat, to: nat): nat {
    if from > to then from - to else 0
  }

  /** By how much an operation lowers the priority of what is shown or waits: only a
      refresh does. */
  function LoweredBy(s: Queue, op: Op): nat {
    if !op.Pushed? || !Acceptable(op.note) then 0
    else
      var id := Stamped(s, op.note, op.now).id;
      if s.active.Some? && s.active.value.id == id then Drop(s.active.value.priority, op.note.priority)
      else
        match Find(s.queued, id)
        case None => 0
        case Some(i) => Drop(s.queued[i].priority, op.note.priority)
  }

  function AllLowered(s: Queue, ops: seq<Op>): nat
    decreases |ops|
  {
    if ops == [] then 0 else LoweredBy(s, ops[0]) + AllLowered(Apply(s, ops[0]), ops[1..])
  }

  /** How many refreshes lower something. */
  function Lowerings(s: Queue, ops: seq<Op>): nat
    decreases |ops|
  {
    if ops == [] then 0 else (if LoweredBy(s, ops[0]) > 0 then 1 else 0) + Lowerings(Apply(s, ops[0]), ops[1..])
  }

  /** Refreshes never lower a priority. */
  predicate NeverLowers(s: Queue, ops: seq<Op>) {
    AllLowered(s, ops) == 0
  }

  /** The pushes the queue does not check leave one more waiting for each priority
      something has been preempted at, and one more for each step a priority was
      lowered by. */
  predicate Fits(s: Queue, lowered: nat) {
    && (s.active.Some? ==> |s.queued| <= MAX_QUEUED + s.active.value.priority + lowered)
    && forall b: nat :: b <= 3 ==> AtMost(s.queued, b) <= MAX_QUEUED + 1 + b + lowered
  }

  lemma PromoteBestFits(s: Queue, lowered: nat, now: nat)
    requires Waiting(s) && forall b: nat :: b <= 3 ==> AtMost(s.queued, b) <= MAX_QUEUED + 1 + b + lowered
    ensures Fits(PromoteBest(s, now), lowered)
  {
    hide BestFrom, AtMost;
    if s.queued != [] {
      var best := Best(s.queued);
      BestRanks(s.queued, 1, 0);
      AtMostAll(s.queued, s.queued[best].priority);
      forall b: nat | b <= 3 ensures AtMost(Without(s.queued, best), b) <= MAX_QUEUED + 1 + b + lowered {
        AtMostSplit(s.queued, best, b);
      }
    }
  }

  lemma TickFits(s: Queue, lowered: nat, now: nat)
    requires Sound(s) && Fits(s, lowered)
    ensures Fits(Tick(s, now), lowered)
  {
    hide BestFrom, AtMost;
    var t := if Over(s, now) then s.(active := None) else s;
    if t.active == None {
      PromoteBestFits(t, lowered, now);
    } else if t.queued != [] && t.queued[Best(t.queued)].priority > t.active.value.priority {
      var best := Best(t.queued);
      var rest := Without(t.queued, best);
      forall b: nat | b <= 3 ensures AtMost(rest + [t.active.value], b) <= MAX_QUEUED + 1 + b + lowered {
        AtMostSplit(t.queued, best, b);
        AtMostConcat(rest, [t.active.value], b);
        AtMostOne(t.active.value, b);
      }
    }
  }

  lemma AdmitFits(s: Queue, lowered: nat, n: Note, now: nat)
    requires Fits(s, lowered) && (s.active == None ==> s.queued == [])
    requires Distinct(s.queued) && forall i :: 0 <= i < |s.queued| ==> s.queued[i].sequence < n.sequence
    ensures Fits(Admit(s, n, now).0, lowered)
  {
    hide WorstFrom, AtMost;
    if s.active.Some? {
      var a := s.active.value;
      forall b: nat | b <= 3 ensures AtMost(Admit(s, n, now).0.queued, b) <= MAX_QUEUED + 1 + b + lowered {
        AtMostConcat(s.queued, [a], b);
        AtMostConcat(s.queued, [n], b);
        AtMostOne(a, b);
        AtMostOne(n, b);
        if |s.queued| >= MAX_QUEUED {
          var worst := Worst(s.queued);
          AtMostSplit(s.queued, worst, b);
          AtMostConcat(Without(s.queued, worst), [n], b);
        }
      }
    }
  }

  lemma OpFits(s: Queue, before: nat, op: Op, lowered: nat)
    requires Sound(s) && Fits(s, before) && lowered == before + LoweredBy(s, op)
    ensures Fits(Apply(s, op), lowered)
  {
    hide AtMost, Tick, PromoteBest, Admit;
    match op {
      case Pushed(given, now) =>
        var n := Stamped(s, given, now);
        if Acceptable(given) && !(s.active.Some? && s.active.value.id == n.id) {
          var found := Find(s.queued, n.id);
          if found.Some? {
            var i := found.value;
            var m := n.(sequence := s.queued[i].sequence);
            var q := s.queued[i := m];
            forall b: nat | b <= 3 ensures AtMost(q, b) <= MAX_QUEUED + 1 + b + lowered {
              AtMostUpdated(s.queued, i, m, b);
            }
          } else {
            AdmitFits(s.(nextSequence := s.nextSequence + 1), lowered, n.(sequence := s.nextSequence), now);
          }
        }
      case Ticked(now) => TickFits(s, lowered, now);
      case Dismissed(id, now) =>
        PromoteBestFits(s.(active := None), lowered, now);
        var found := Find(s.queued, id);
        if found.Some? {
          forall b: nat | b <= 3 ensures AtMost(Without(s.queued, found.value), b) <= MAX_QUEUED + 1 + b + lowered {
            AtMostSplit(s.queued, found.value, b);
          }
        }
      case AllDismissed(now) =>
        InsistingKept(s.queued, s.nextSequence);
        forall b: nat | b <= 3 ensures AtMost(Insisting(s.queued), b) <= MAX_QUEUED + 1 + b + lowered {
          AtMostInsisting(s.queued, b);
        }
        AtMostInsisting(s.queued, 3);
        PromoteBestFits(s.(active := None, queued := Insisting(s.queued)), lowered, now);
      case Cleared =>
    }
  }

  lemma {:induction false} RunFits(s: Queue, before: nat, ops: seq<Op>)
    requires Sound(s) && Fits(s, before)
    ensures Sound(Run(s, ops)) && Fits(Run(s, ops), before + AllLowered(s, ops))
    decreases |ops|
  {
    hide Apply, Sound, Fits, LoweredBy;
    if ops != [] {
      var lowered := before + LoweredBy(s, ops[0]);
      OpSound(s, ops[0]);
      OpFits(s, before, ops[0], lowered);
      RunFits(Apply(s, ops[0]), lowered, ops[1..]);
    }
  }

  /** In every run at most three more wait than the queue holds, and one more for
      each step a refresh lowered a priority by, for all that preemption does not
      look at the queue's size. */
  lemma WaitingMeasured(ops: seq<Op>)
    ensures |Run(EMPTY, ops).queued| <= MAX_QUEUED + 3 + AllLowered(EMPTY, ops)
    ensures |Run(EMPTY, ops).queued| <= MAX_QUEUED + 3 + 3 * Lowerings(EMPTY, ops)
  {
    hide Run, AllLowered, Lowerings, LoweredBy, Apply;
    RunFits(EMPTY, 0, ops);
    LoweredAtMost(EMPTY, ops);
  }

  lemma {:induction false} LoweredAtMost(s: Queue, ops: seq<Op>)
    ensures AllLowered(s, ops) <= 3 * Lowerings(s, ops)
    decreases |ops|
  {
    hide Apply, Find, Acceptable, Stamped;
    if ops != [] {
      LoweredAtMost(Apply(s, ops[0]), ops[1..]);
    }
  }

  /** So no more than three more, as long as no refresh lowers a priority. */
  lemma WaitingBounded(ops: seq<Op>)
    requires NeverLowers(EMPTY, ops)
    ensures |Run(EMPTY, ops).queued| <= MAX_QUEUED + 3
  {
    hide Run, AllLowered, Lowerings;
    WaitingMeasured(ops);
  }

  // --- that measure is met ------------------------------------------------------------------------------

  function Fresh(k: nat, p: Priority): Note {
    Note(DecimalNat(k), "text", p, 5, false, true, "", 0, 0, 0)
  }

  /** No number above k written out is this id. */
  ghost predicate Below(id: string, k: nat) {
    forall j: nat :: j > k ==> id != DecimalNat(j)
  }

  /** Something of priority a is shown, m wait, and no number above k is an id. */
  ghost predicate Stands(s: Queue, k: nat, a: Priority, m: nat) {
    && s.active.Some? && s.active.value.priority == a && Below(s.active.value.id, k) && |s.queued| == m
    && forall i :: 0 <= i < m ==> Below(s.queued[i].id, k)
  }

  /** The numbers that fit in an id. */
  const MAX_NUMBER: nat := Power10(MAX_ID_BYTES) - 1

  lemma {:induction false} NameFits(k: nat)
    requires k <= MAX_NUMBER
    ensures 0 < |DecimalNat(k)| <= MAX_ID_BYTES
    ensures forall j: nat :: j != k ==> DecimalNat(j) != DecimalNat(k)
  {
    hide DecimalNat, NatOf, Power10;
    DecimalNatLength(k, MAX_ID_BYTES);
    DecimalNatReads(k);
    forall j: nat | j != k ensures DecimalNat(j) != DecimalNat(k) {
      DecimalNatReads(j);
    }
  }

  lemma {:induction false} FreshPush(s: Queue, k: nat, a: Priority, m: nat, p: Priority)
    requires Stands(s, k, a, m) && k < MAX_NUMBER && (p > a || m < MAX_QUEUED)
    ensures var op := Pushed(Fresh(k + 1, p), 0); var t := Apply(s, op);
      && LoweredBy(s, op) == 0 && Stands(t, k + 1, if p > a then p else a, m + 1)
      && (p > a ==> t.active.value.id == DecimalNat(k + 1))
  {
    hide Worst, DecimalNat;
    NameFits(k + 1);
    assert Find(s.queued, DecimalNat(k + 1)) == None;
  }

  lemma {:induction false} RunSnoc(s: Queue, ops: seq<Op>, op: Op)
    ensures Run(s, ops + [op]) == Apply(Run(s, ops), op)
    ensures AllLowered(s, ops + [op]) == AllLowered(s, ops) + LoweredBy(Run(s, ops), op)
    decreases |ops|
  {
    hide Apply, LoweredBy;
    if ops == [] {
      assert [] + [op] == [op];
      assert Run(s, [op]) == Run(Apply(s, op), [op][1..]);
      assert AllLowered(s, [op]) == LoweredBy(s, op) + AllLowered(Apply(s, op), [op][1..]);
    } else {
      RunSnoc(Apply(s, ops[0]), ops[1..], op);
      assert (ops + [op])[1..] == ops[1..] + [op];
    }
  }

  /** A run that has lowered priorities by w in all and stands so. */
  ghost predicate Reaches(ops: seq<Op>, w: nat, k: nat, a: Priority, m: nat) {
    AllLowered(EMPTY, ops) == w && Stands(Run(EMPTY, ops), k, a, m)
  }

  /** One more note. */
  lemma {:induction false} Another(ops: seq<Op>, w: nat, k: nat, a: Priority, m: nat, p: Priority) returns (more: seq<Op>)
    requires Reaches(ops, w, k, a, m) && k < MAX_NUMBER && (p > a || m < MAX_QUEUED)
    ensures Reaches(more, w, k + 1, if p > a then p else a, m + 1)
    ensures p > a ==> Run(EMPTY, more).active.value.id == DecimalNat(k + 1)
  {
    hide Apply, LoweredBy, Run, AllLowered, DecimalNat;
    var op := Pushed(Fresh(k + 1, p), 0);
    FreshPush(Run(EMPTY, ops), k, a, m, p);
    RunSnoc(EMPTY, ops, op);
    more := ops + [op];
  }

  lemma {:induction false} FillUp(m: nat) returns (ops: seq<Op>)
    requires m <= MAX_QUEUED
    ensures Reaches(ops, 0, m + 1, 0, m)
  {
    hide Apply, Run, AllLowered, Stands, DecimalNat;
    RoomForNames();
    if m == 0 {
      ops := [Pushed(Fresh(1, 0), 0)];
      FirstPush();
    } else {
      ops := FillUp(m - 1);
      ops := Another(ops, 0, m, 0, m - 1, 0);
    }
  }

  lemma RoomForNames()
    ensures MAX_NUMBER >= 99
  {
    Power10Mono(2, MAX_ID_BYTES);
    assert Power10(2) == 100;
  }

  lemma {:induction false} FirstPush()
    ensures Reaches([Pushed(Fresh(1, 0), 0)], 0, 1, 0, 0)
  {
    hide DecimalNat;
    var op := Pushed(Fresh(1, 0), 0);
    RoomForNames();
    NameFits(1);
    RunSnoc(EMPTY, [], op);
    assert [] + [op] == [op];
    assert Find(EMPTY.queued, DecimalNat(1)) == None;
  }

  lemma {:induction false} Lowering(s: Queue, k: nat, m: nat)
    requires Stands(s, k, 1, m) && s.active.value.id == DecimalNat(k) && 0 < k <= MAX_NUMBER
    ensures var op := Pushed(Fresh(k, 0), 0); LoweredBy(s, op) == 1 && Stands(Apply(s, op), k, 0, m)
  {
    hide DecimalNat;
    NameFits(k);
  }

  /** Raising a note above the shown one and lowering it again, w times, makes w
      more wait. */
  lemma {:induction false} Pump(w: nat) returns (ops: seq<Op>)
    requires MAX_QUEUED + 1 + w <= MAX_NUMBER
    ensures Reaches(ops, w, MAX_QUEUED + 1 + w, 0, MAX_QUEUED + w)
  {
    hide Apply, Run, AllLowered, LoweredBy, DecimalNat;
    if w == 0 {
      ops := FillUp(MAX_QUEUED);
    } else {
      ops := Pump(w - 1);
      var k := MAX_QUEUED + w;
      ops := Another(ops, w - 1, k, 0, k - 1, 1);
      Lowering(Run(EMPTY, ops), k + 1, k);
      RunSnoc(EMPTY, ops, Pushed(Fresh(k + 1, 0), 0));
      ops := ops + [Pushed(Fresh(k + 1, 0), 0)];
    }
  }

  /** The measure is exact: for every amount of lowering, as far as numbers go that
      fit in an id, there is a run with so many waiting. */
  lemma {:induction false} LoweringOverfills(w: nat) returns (ops: seq<Op>)
    requires MAX_QUEUED + 4 + w <= MAX_NUMBER
    ensures AllLowered(EMPTY, ops) == w && |Run(EMPTY, ops).queued| == MAX_QUEUED + 3 + w
  {
    hide Apply, Run, AllLowered, LoweredBy, DecimalNat;
    ops := Pump(w);
    var k := MAX_QUEUED + w;
    ops := Another(ops, w, k + 1, 0, k, 1);
    ops := Another(ops, w, k + 2, 1, k + 1, 2);
    ops := Another(ops, w, k + 3, 2, k + 2, 3);
  }

  /** In particular three more than the queue holds come to wait without any. */
  lemma BoundIsMet() returns (ops: seq<Op>)
    ensures NeverLowers(EMPTY, ops) && |Run(EMPTY, ops).queued| == MAX_QUEUED + 3
  {
    hide Run, AllLowered;
    RoomForNames();
    ops := LoweringOverfills(0);
  }

  // --- nothing gets lost ---------------------------------------------------------------------------------

  /** Notes but for when they were last put on the panel. */
  function Bag(q: seq<Note>): multiset<Note> {
    if q == [] then multiset{} else Bag(q[..|q| - 1]) + multiset{q[|q| - 1].(startedAt := 0)}
  }

  function Kept(s: Queue): multiset<Note> {
    Bag(s.queued) + (if s.active.Some? then multiset{s.active.value.(startedAt := 0)} else multiset{})
  }

  lemma BagSnoc(q: seq<Note>, n: Note)
    ensures Bag(q + [n]) == Bag(q) + multiset{n.(startedAt := 0)}
  {
    assert (q + [n])[..|q|] == q;
  }

  lemma {:induction false} BagConcat(p: seq<Note>, q: seq<Note>)
    ensures Bag(p + q) == Bag(p) + Bag(q)
  {
    hide Bag;
    if q == [] {
      BagNothing();
      assert p + q == p;
    } else {
      var front, last := q[..|q| - 1], q[|q| - 1];
      BagConcat(p, front);
      BagSnoc(front, last);
      BagSnoc(p + front, last);
      assert front + [last] == q && p + front + [last] == p + q;
    }
  }

  lemma BagNothing()
    ensures Bag([]) == multiset{}
  {
  }

  lemma BagOne(n: Note)
    ensures Bag([n]) == multiset{n.(startedAt := 0)}
  {
    assert [n][..0] == [];
  }

  lemma BagSplit(q: seq<Note>, i: nat)
    requires i < |q|
    ensures Bag(q) == Bag(Without(q, i)) + multiset{q[i].(startedAt := 0)}
  {
    hide Bag;
    BagOne(q[i]);
    BagConcat(q[..i] + [q[i]], q[i + 1..]);
    BagConcat(q[..i], [q[i]]);
    BagConcat(q[..i], q[i + 1..]);
    assert q == q[..i] + [q[i]] + q[i + 1..];
  }

  /** A tick loses the shown note when its time is over, and nothing else, however
      notes make way for each other. */
  lemma TickKeeps(s: Queue, now: nat)
    ensures Kept(s) == Kept(Tick(s, now)) + (if Over(s, now) then multiset{s.active.value.(startedAt := 0)} else multiset{})
  {
    hide Bag, Best;
    var t := if Over(s, now) then s.(active := None) else s;
    if t.queued != [] {
      BagSplit(t.queued, Best(t.queued));
      if t.active.Some? {
        BagConcat(Without(t.queued, Best(t.queued)), [t.active.value]);
        BagOne(t.active.value);
      }
    }
  }

  /** n is the note that was given, to be shown for at least a second. */
  predicate Carries(n: Note, given: Note, now: nat) {
    && n.text == given.text && n.priority == given.priority && n.seconds == (if given.seconds < 1 then 1 else given.seconds)
    && n.hold == given.hold && n.dismissible == given.dismissible && n.look == given.look
    && n.enqueuedAt == now && n.startedAt == 0 && (given.id != "" ==> n.id == given.id)
  }

  /** n takes the place of the note of its id, under that one's number. */
  predicate Replaces(s: Queue, t: Queue, n: Note, was: Note) {
    && was.id == n.id && was.sequence == n.sequence && t.dropped == s.dropped
    && Kept(t) + multiset{was} == Kept(s) + multiset{n}
  }

  /** n comes in, at the cost of the notes out at most. */
  predicate ComesIn(s: Queue, t: Queue, n: Note, out: multiset<Note>) {
    && Kept(t) + out == Kept(s) + multiset{n}
    && |out| == t.dropped - s.dropped <= 1 && (out != multiset{} ==> |s.queued| >= MAX_QUEUED)
  }

  /** A push adds just the note it was given, under a number of its own or in place of
      the note of its id; it loses that one, or one from a full queue, and nothing
      else. */
  lemma PushKeeps(s: Queue, given: Note, now: nat) returns (n: Note, was: Note, out: multiset<Note>)
    ensures var (t, r) := Push(s, given, now);
      match r
      case Invalid => t == s && !Acceptable(given)
      case DroppedLowPriority => Kept(t) == Kept(s) && t.dropped == s.dropped + 1
      case Replaced => Carries(n, given, now) && Replaces(s, t, n, was)
      case _ => Carries(n, given, now) && n.sequence == s.nextSequence && ComesIn(s, t, n, out)
  {
    hide Kept, Find, Stamped, Acceptable, Carries, Replaces, ComesIn, Admit;
    var m := Stamped(s, given, now);
    StampedCarries(s, given, now);
    out := multiset{};
    n, was := m, m;
    if s.active.Some? && s.active.value.id == m.id {
      n, was := RefreshKeeps(s, m, now);
    } else if Find(s.queued, m.id).Some? {
      n, was := UpdateKeeps(s, m, Find(s.queued, m.id).value);
    } else {
      out := AdmitKeeps(s.(nextSequence := s.nextSequence + 1), m.(sequence := s.nextSequence), now);
      n := m.(sequence := s.nextSequence, startedAt := 0);
      CountsAlike(s, Push(s, given, now).0, n, out);
    }
  }

  lemma CountsAlike(s: Queue, t: Queue, n: Note, out: multiset<Note>)
    ensures var u := s.(nextSequence := s.nextSequence + 1); Kept(u) == Kept(s) && (ComesIn(u, t, n, out) ==> ComesIn(s, t, n, out))
  {
    hide Bag;
  }

  lemma StampedCarries(s: Queue, given: Note, now: nat)
    ensures forall number: nat :: Carries(Stamped(s, given, now).(sequence := number, startedAt := 0), given, now)
  {
    hide DecimalNat;
  }

  lemma RefreshKeeps(s: Queue, m: Note, now: nat) returns (n: Note, was: Note)
    requires s.active.Some? && s.active.value.id == m.id
    ensures n == m.(sequence := s.active.value.sequence, startedAt := 0)
    ensures Replaces(s, s.(active := Some(m.(sequence := s.active.value.sequence, startedAt := now))), n, was)
  {
    hide Bag;
    n, was := m.(sequence := s.active.value.sequence, startedAt := 0), s.active.value.(startedAt := 0);
  }

  lemma UpdateKeeps(s: Queue, m: Note, i: nat) returns (n: Note, was: Note)
    requires i < |s.queued| && s.queued[i].id == m.id
    ensures n == m.(sequence := s.queued[i].sequence, startedAt := 0)
    ensures Replaces(s, s.(queued := s.queued[i := m.(sequence := s.queued[i].sequence)]), n, was)
  {
    hide Bag;
    n, was := m.(sequence := s.queued[i].sequence, startedAt := 0), s.queued[i].(startedAt := 0);
    var u := m.(sequence := s.queued[i].sequence);
    BagUpdate(s.queued, i, u);
    var shown := if s.active.Some? then multiset{s.active.value.(startedAt := 0)} else multiset{};
    var t := s.(queued := s.queued[i := u]);
    assert Kept(t) == Bag(s.queued[i := u]) + shown && Kept(s) == Bag(s.queued) + shown;
    assert u.(startedAt := 0) == n;
    assert Bag(s.queued[i := u]) + multiset{was} == Bag(s.queued) + multiset{n};
    assert Kept(t) + multiset{was} == (Bag(s.queued[i := u]) + multiset{was}) + shown;
    assert Kept(s) + multiset{n} == (Bag(s.queued) + multiset{n}) + shown;
  }

  lemma BagUpdate(q: seq<Note>, i: nat, n: Note)
    requires i < |q|
    ensures Bag(q[i := n]) + multiset{q[i].(startedAt := 0)} == Bag(q) + multiset{n.(startedAt := 0)}
  {
    hide Bag;
    BagSplit(q, i);
    BagSplit(q[i := n], i);
    assert Without(q[i := n], i) == Without(q, i);
  }

  lemma AdmitKeeps(s: Queue, n: Note, now: nat) returns (out: multiset<Note>)
    ensures var (t, r) := Admit(s, n, now);
      if r == DroppedLowPriority then Kept(t) == Kept(s) && t.dropped == s.dropped + 1
      else (r == Shown || r == PushResult.Queued) && ComesIn(s, t, n.(startedAt := 0), out)
  {
    hide Bag, Enqueue;
    out := multiset{};
    if s.active.Some? {
      if n.priority > s.active.value.priority {
        BagSnoc(s.queued, s.active.value);
      } else {
        out := EnqueueKeeps(s, n);
      }
    }
  }

  lemma EnqueueKeeps(s: Queue, n: Note) returns (out: multiset<Note>)
    ensures var (t, r) := Enqueue(s, n);
      if r == DroppedLowPriority then Kept(t) == Kept(s) && t.dropped == s.dropped + 1
      else r == PushResult.Queued && ComesIn(s, t, n.(startedAt := 0), out)
  {
    hide Bag, Worst, Without;
    out := multiset{};
    if |s.queued| >= MAX_QUEUED {
      var worst := Worst(s.queued);
      BagSplit(s.queued, worst);
      BagSnoc(Without(s.queued, worst), n);
      out := multiset{s.queued[worst].(startedAt := 0)};
    } else {
      BagSnoc(s.queued, n);
    }
  }

  /** Somebody coming up from the queue loses nobody. */
  lemma PromoteBestKeeps(s: Queue, now: nat)
    requires s.active == None
    ensures Kept(PromoteBest(s, now)) == Bag(s.queued)
  {
    hide Bag, Best, Without;
    if s.queued != [] {
      BagSplit(s.queued, Best(s.queued));
    }
  }

  /** A dismissal takes away the note of that id, shown or waiting, if there is one and it
      may be dismissed, and nothing else. */
  lemma DismissTakes(s: Queue, id: string, now: nat) returns (n: Note)
    requires Sound(s)
    ensures var (t, ok) := Dismiss(s, id, now);
      if ok then n.id == id && n.dismissible && Kept(s) == Kept(t) + multiset{n}
      else t == s && forall m: Note :: m in Kept(s) && m.id == id ==> !m.dismissible
  {
    hide Bag, PromoteBest, Without, Find, DecimalNat;
    n := Note("", "", 0, 1, false, true, "", 0, 0, 0);
    var found := Find(s.queued, id);
    if s.active.Some? && s.active.value.id == id {
      n := s.active.value.(startedAt := 0);
      PromoteBestKeeps(s.(active := None), now);
      NobodyElse(s.queued, id);
    } else if found.Some? {
      n := s.queued[found.value].(startedAt := 0);
      BagSplit(s.queued, found.value);
      TakenOut(s.queued, found.value, s.nextSequence);
      NobodyElse(Without(s.queued, found.value), id);
    } else {
      NobodyElse(s.queued, id);
    }
  }

  lemma {:induction false} NobodyElse(q: seq<Note>, id: string)
    ensures (forall i :: 0 <= i < |q| ==> q[i].id != id) ==> forall m: Note :: m in Bag(q) ==> m.id != id
  {
    if q != [] {
      NobodyElse(q[..|q| - 1], id);
    }
  }

  lemma {:induction false} InsistingBag(q: seq<Note>, m: Note)
    ensures Bag(Insisting(q))[m] == if m.dismissible then 0 else Bag(q)[m]
  {
    if q != [] {
      InsistingBag(q[..|q| - 1], m);
      BagSnoc(Insisting(q[..|q| - 1]), q[|q| - 1]);
    }
  }

  /** Dismissing all leaves just the notes that may not be dismissed. */
  lemma DismissAllTakes(s: Queue, now: nat, m: Note)
    ensures Kept(DismissAll(s, now))[m] == if m.dismissible then 0 else Kept(s)[m]
  {
    hide Bag, PromoteBest, Insisting;
    InsistingBag(s.queued, m);
    PromoteBestKeeps(s.(active := None, queued := Insisting(s.queued)), now);
  }
}
