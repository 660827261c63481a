/**
 The notification queue of firmware/src/notify/Notifications.cpp as functions on
 its state: what is shown, what waits, and who makes way. NotificationQueue runs
 the same steps on an object.
 */
module Notifications {
  import opened Basics
  import opened Numerals

  const MAX_QUEUED: nat := 16
  const MAX_TEXT_BYTES: nat := 256
  const MAX_ID_BYTES: nat := 64

  /** Informational, normal, important, urgent. */
  type Priority = p: nat | p <= 3

  /** look stands for color, sound and icon, which the queue only carries. */
  datatype Note = Note(id: string, text: string, priority: Priority, seconds: int, hold: bool, dismissible: bool,
                       look: string, enqueuedAt: nat, startedAt: nat, sequence: nat)

  datatype Queue = Queue(queued: seq<Note>, active: Option<Note>, nextSequence: nat, dropped: nat)

  const EMPTY := Queue([], None, 1, 0)

  datatype PushResult = Shown | Queued | Replaced | DroppedLowPriority | Invalid

  predicate RanksAhead(a: Note, b: Note) {
    if a.priority != b.priority then a.priority > b.priority else a.sequence < b.sequence
  }

  /** The scan for what is to be shown next, from i on. */
  function BestFrom(q: seq<Note>, i: nat, best: nat): (b: nat)
    requires best < |q|
    ensures b < |q|
    decreases |q| - i
  {
    if i >= |q| then best else BestFrom(q, i + 1, if RanksAhead(q[i], q[best]) then i else best)
  }

  function WorstFrom(q: seq<Note>, i: nat, worst: nat): (w: nat)
    requires worst < |q|
    ensures w < |q|
    decreases |q| - i
  {
    if i >= |q| then worst else WorstFrom(q, i + 1, if RanksAhead(q[worst], q[i]) then i else worst)
  }

  function Best(q: seq<Note>): (b: nat)
    requires q != []
    ensures b < |q|
  {
    BestFrom(q, 1, 0)
  }

  function Worst(q: seq<Note>): (w: nat)
    requires q != []
    ensures w < |q|
  {
    WorstFrom(q, 1, 0)
  }

  function Promote(s: Queue, i: nat, now: nat): Queue
    requires i < |s.queued|
  {
    s.(active := Some(s.queued[i].(startedAt := now)), queued := Without(s.queued, i))
  }

  /** The best of those waiting, if anyone waits. */
  function PromoteBest(s: Queue, now: nat): Queue {
    if s.queued == [] then s else Promote(s, Best(s.queued), now)
  }

  function Find(q: seq<Note>, id: string): (i: Option<nat>)
    ensures i.Some? ==> i.value < |q| && q[i.value].id == id && forall j :: 0 <= j < i.value ==> q[j].id != id
    ensures i.None? ==> forall j :: 0 <= j < |q| ==> q[j].id != id
  {
    if q == [] then None
    else if q[0].id == id then Some(0)
    else
      match Find(q[1..], id)
      case None => None
      case Some(i) => Some(i + 1)
  }

  predicate Acceptable(n: Note) {
    n.text != "" && |n.text| <= MAX_TEXT_BYTES && |n.id| <= MAX_ID_BYTES
  }

  /** A note with what the queue fills in. */
  function Stamped(s: Queue, n: Note, now: nat): Note {
    n.(seconds := if n.seconds < 1 then 1 else n.seconds, enqueuedAt := now,
       id := if n.id == "" then "n" + DecimalNat(s.nextSequence) else n.id)
  }

  /** A new note when something is already shown and the note does not preempt it. */
  function Enqueue(s: Queue, n: Note): (Queue, PushResult) {
    if |s.queued| >= MAX_QUEUED then
      var worst := Worst(s.queued);
      if !RanksAhead(n, s.queued[worst]) then (s.(dropped := s.dropped + 1), DroppedLowPriority)
      else (s.(queued := Without(s.queued, worst) + [n], dropped := s.dropped + 1), Queued)
    else (s.(queued := s.queued + [n]), Queued)
  }

  /** A new note, by the rules for what is shown and what waits. */
  function Admit(s: Queue, n: Note, now: nat): (Queue, PushResult) {
    var shown := Some(n.(startedAt := now));
    if s.active == None then (s.(active := shown), Shown)
    else if n.priority > s.active.value.priority then
      (s.(active := shown, queued := s.queued + [s.active.value]), Shown)
    else Enqueue(s, n)
  }

  function Push(s: Queue, given: Note, now: nat): (Queue, PushResult) {
    if !Acceptable(given) then (s, Invalid)
    else
      var n := Stamped(s, given, now);
      if s.active.Some? && s.active.value.id == n.id then
        (s.(active := Some(n.(sequence := s.active.value.sequence, startedAt := now))), Replaced)
      else
        match Find(s.queued, n.id)
        case Some(i) => (s.(queued := s.queued[i := n.(sequence := s.queued[i].sequence)]), Replaced)
        case None => Admit(s.(nextSequence := s.nextSequence + 1), n.(sequence := s.nextSequence), now)
  }

  function Elapsed(s: Queue, now: nat): nat {
    if s.active == None || now < s.active.value.startedAt then 0 else now - s.active.value.startedAt
  }

  /** The shown note has had its time. */
  predicate Over(s: Queue, now: nat) {
    s.active.Some? && !s.active.value.hold && Elapsed(s, now) >= s.active.value.seconds * 1000
  }

  function Tick(s: Queue, now: nat): Queue {
    var t := if Over(s, now) then s.(active := None) else s;
    if t.active == None then PromoteBest(t, now)
    else if t.queued != [] && t.queued[Best(t.queued)].priority > t.active.value.priority then
      var u := Promote(t, Best(t.queued), now);
      u.(queued := u.queued + [t.active.value])
    else t
  }

  function Dismiss(s: Queue, id: string, now: nat): (Queue, bool) {
    if s.active.Some? && s.active.value.id == id then
      if !s.active.value.dismissible then (s, false) else (PromoteBest(s.(active := None), now), true)
    else
      match Find(s.queued, id)
      case None => (s, false)
      case Some(i) => if !s.queued[i].dismissible then (s, false) else (s.(queued := Without(s.queued, i)), true)
  }

  /** Those that insist on being seen. */
  function Insisting(q: seq<Note>): seq<Note> {
    if q == [] then []
    else if q[|q| - 1].dismissible then Insisting(q[..|q| - 1])
    else Insisting(q[..|q| - 1]) + [q[|q| - 1]]
  }

  function DismissAll(s: Queue, now: nat): Queue {
    var t := s.(queued := Insisting(s.queued));
    if t.active.Some? && t.active.value.dismissible then PromoteBest(t.(active := None), now) else t
  }

  function Clear(s: Queue): Queue {
    s.(queued := [], active := None, dropped := 0)
  }
}
