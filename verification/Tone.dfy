/**
 The tone generator of firmware/src/audio/Tone.cpp: a tone is a finite stream of
 samples, and filling a buffer takes the next of them.
 */
module Tone {
  import opened Basics

  const SINE_STEPS: nat := 64
  /** The table by quarters. */
  const RISING: seq<int> := [0, 98, 195, 290, 383, 471, 556, 634, 707, 773, 831, 882, 924, 957, 981, 995]
  const FALLING: seq<int> := [1000, 995, 981, 957, 924, 882, 831, 773, 707, 634, 556, 471, 383, 290, 195, 98]
  const SINKING: seq<int> := [0, -98, -195, -290, -383, -471, -556, -634, -707, -773, -831, -882, -924, -957, -981, -995]
  const CLIMBING: seq<int> := [-1000, -995, -981, -957, -924, -882, -831, -773, -707, -634, -556, -471, -383, -290, -195, -98]

  /** The sine of a circle in 64 steps, in thousandths. */
  const SINE: seq<int> := RISING + FALLING + SINKING + CLIMBING

  const AMPLITUDE: nat := 9000
  const RAMP_SAMPLES: nat := 48
  const LONGEST_MILLIS: nat := 10000

  /** A tone in progress; phases are fixed point, 16 bits of fraction, in 32 bits. */
  datatype State = State(sampleRate: int, remaining: nat, total: nat, phase: nat, phaseStep: nat,
                         volume: nat, gain: nat)

  function Clamp(v: int, high: nat): nat {
    if v < 0 then 0 else if v > high then high else v
  }

  function SamplesOf(sampleRate: int, millis: int): nat
    requires sampleRate > 0 && millis > 0
  {
    sampleRate / 1000 * Min(millis, LONGEST_MILLIS)
  }

  function Started(t: State, frequency: int, millis: int, gain: int): State {
    if frequency <= 0 || millis <= 0 || t.sampleRate <= 0 then t.(remaining := 0)
    else
      var heard := Min(frequency, t.sampleRate / 2);
      var total := SamplesOf(t.sampleRate, millis);
      State(t.sampleRate, total, total, 0, heard * SINE_STEPS * 65536 / t.sampleRate % TWO_TO_32,
            t.volume, Clamp(gain, 1000))
  }

  function Level(t: State): nat {
    AMPLITUDE * t.volume / 100 * t.gain / 1000
  }

  function Ramp(t: State): nat {
    Min(RAMP_SAMPLES, t.total / 4)
  }

  /** The sample due: the sine at this phase, faded at either end. */
  function Sample(t: State): int {
    var value := TruncDiv(SINE[t.phase / 65536 % SINE_STEPS] * Level(t), 1000);
    var done, left := t.total - t.remaining, t.remaining;
    if Ramp(t) == 0 then value
    else if done < Ramp(t) then TruncDiv(value * done, Ramp(t))
    else if left < Ramp(t) then TruncDiv(value * left, Ramp(t))
    else value
  }

  function Advanced(t: State): State
    requires t.remaining > 0
  {
    t.(remaining := t.remaining - 1, phase := (t.phase + t.phaseStep) % TWO_TO_32)
  }

  /** All samples of a tone from where it stands. */
  function Stream(t: State): (s: seq<int>)
    ensures |s| == t.remaining
    decreases t.remaining
  {
    if t.remaining == 0 then [] else [Sample(t)] + Stream(Advanced(t))
  }

  function AdvancedBy(t: State, n: nat): State
    requires n <= t.remaining
    decreases n
  {
    if n == 0 then t else AdvancedBy(Advanced(t), n - 1)
  }

  lemma {:induction false} AdvancedStream(t: State, n: nat)
    requires n <= t.remaining
    ensures var u := AdvancedBy(t, n); Stream(t)[n..] == Stream(u) && u.remaining == t.remaining - n
    ensures var u := AdvancedBy(t, n);
      u.total == t.total && u.volume == t.volume && u.gain == t.gain && u.phaseStep == t.phaseStep && u.sampleRate == t.sampleRate
    ensures n < t.remaining ==> Stream(t)[n] == Sample(AdvancedBy(t, n)) && AdvancedBy(t, n + 1) == Advanced(AdvancedBy(t, n))
    decreases n
  {
    hide Sample;
    if n > 0 {
      AdvancedStream(Advanced(t), n - 1);
      assert Stream(t)[n..] == Stream(Advanced(t))[n - 1..];
    }
  }

  class ToneGenerator {
    const sampleRate: int
    var left: nat
    var total: nat
    var phase: nat
    var phaseStep: nat
    var volume: nat
    var gain: nat

    constructor (sampleRate: int)
      ensures Now() == State(sampleRate, 0, 0, 0, 0, 60, 1000)
    {
      this.sampleRate := sampleRate;
      left, total, phase, phaseStep, volume, gain := 0, 0, 0, 0, 60, 1000;
    }

    function Now(): State
      reads this
    {
      State(sampleRate, left, total, phase, phaseStep, volume, gain)
    }

    method Start(frequency: int, millis: int, gain: int)
      modifies this
      ensures Now() == Started(old(Now()), frequency, millis, gain)
    {
      if frequency <= 0 || millis <= 0 || sampleRate <= 0 {
        left := 0;
        return;
      }
      this.gain := if gain < 0 then 0 else if gain > 1000 then 1000 else gain;
      var highest := sampleRate / 2;
      var heard := if frequency > highest then highest else frequency;
      phaseStep := heard * SINE_STEPS * 65536 / sampleRate % TWO_TO_32;
      phase := 0;
      var longest := if millis > LONGEST_MILLIS then LONGEST_MILLIS else millis;
      total := sampleRate / 1000 * longest;
      left := total;
    }

    method Stop()
      modifies this`left
      ensures Now() == old(Now()).(remaining := 0)
    {
      left := 0;
    }

    /** The sample i places on. */
    method SampleAfter(i: nat, level: nat, ramp: nat) returns (value: int)
      requires i < left && level == Level(Now()) && ramp == Ramp(Now())
      ensures value == Sample(Now().(remaining := left - i))
    {
      var index := phase / 65536 % SINE_STEPS;
      value := TruncDiv(SINE[index] * level, 1000);
      if ramp > 0 {
        var done, toGo := total - left + i, left - i;
        if done < ramp {
          value := TruncDiv(value * done, ramp);
        } else if toGo < ramp {
          value := TruncDiv(value * toGo, ramp);
        }
      }
    }

    /** The next samples go into the buffer from offset at on, and silence after
        them if the tone ends first. */
    method Fill(samples: array<int>, at: nat, count: nat) returns (written: nat)
      requires at + count <= samples.Length
      modifies this`left, this`phase, samples
      ensures written == if old(left) < count then old(left) else count
      ensures Now() == AdvancedBy(old(Now()), written)
      ensures samples[..at + written] == old(samples[..at]) + old(Stream(Now()))[..written]
      ensures forall i :: at + written <= i < at + count ==> samples[i] == 0
    {
      hide Stream, AdvancedBy, Sample, Level, Ramp;
      ghost var start := Now();
      written := if left < count then left else count;
      var level := AMPLITUDE * volume / 100 * gain / 1000;
      var ramp := if RAMP_SAMPLES > total / 4 then total / 4 else RAMP_SAMPLES;
      StandsAt(start);
      FixedFor(start);
      for i := 0 to written
        invariant left == start.remaining && Now().(remaining := left - i) == AdvancedBy(start, i)
        invariant samples[..at + i] == old(samples[..at]) + Stream(start)[..i]
      {
        SampleNext(start, i);
        var value := SampleAfter(i, level, ramp);
        samples[at + i] := value;
        phase := (phase + phaseStep) % TWO_TO_32;
      }
      left := left - written;
      Silence(samples, at + written, count - written);
    }
  }

  method Silence(samples: array<int>, at: nat, n: nat)
    requires at + n <= samples.Length
    modifies samples
    ensures samples[..at] == old(samples[..at])
    ensures forall i :: at <= i < at + n ==> samples[i] == 0
  {
    for i := 0 to n
      invariant samples[..at] == old(samples[..at])
      invariant forall k :: at <= k < at + i ==> samples[k] == 0
    {
      samples[at + i] := 0;
    }
  }

  /** The i-th sample from here, and the tone it stands at. */
  lemma SampleNext(t: State, i: nat)
    requires i < t.remaining
    ensures Stream(t)[..i + 1] == Stream(t)[..i] + [Sample(AdvancedBy(t, i))]
    ensures var u := AdvancedBy(t, i);
      u.remaining == t.remaining - i && AdvancedBy(t, i + 1) == Advanced(u) && Level(u) == Level(t) && Ramp(u) == Ramp(t)
  {
    hide Stream, AdvancedBy, Sample, Advanced;
    AdvancedStream(t, i);
  }

  lemma StandsAt(t: State)
    ensures AdvancedBy(t, 0) == t
  {
  }

  /** Level and ramp are fixed for a tone. */
  lemma FixedFor(t: State)
    ensures Level(t) == AMPLITUDE * t.volume / 100 * t.gain / 1000
    ensures Ramp(t) == if RAMP_SAMPLES > t.total / 4 then t.total / 4 else RAMP_SAMPLES
    ensures forall n: nat, p: nat ::
      var u := t.(remaining := n, phase := p); Level(u) == Level(t) && Ramp(u) == Ramp(t)
  {
  }

  // --- its pitch and its ends ---------------------------------------------------------------------

  /** One cycle of the sine, in phase. */
  const CYCLE: nat := SINE_STEPS * 65536

  lemma WrapsOn(a: nat, step: nat)
    ensures (a % TWO_TO_32 + step) % TWO_TO_32 == (a + step) % TWO_TO_32
  {
    var q, r := a / TWO_TO_32, a % TWO_TO_32;
    assert a + step == (r + step) + q * TWO_TO_32;
    WrapsOff(r + step, q);
  }

  lemma {:induction false} WrapsOff(a: nat, q: nat)
    ensures (a + q * TWO_TO_32) % TWO_TO_32 == a % TWO_TO_32
  {
    if q > 0 {
      WrapsOff(a, q - 1);
    }
  }

  lemma {:induction false} PhaseAfter(t: State, n: nat)
    requires n <= t.remaining && t.phase < TWO_TO_32
    ensures AdvancedBy(t, n).phase == (t.phase + n * t.phaseStep) % TWO_TO_32
    decreases n
  {
    if n > 0 {
      var u := Advanced(t);
      PhaseAfter(u, n - 1);
      WrapsOn(t.phase + t.phaseStep, (n - 1) * t.phaseStep);
      assert t.phaseStep + (n - 1) * t.phaseStep == n * t.phaseStep;
    }
  }

  /** The highest frequency a sample rate can carry, or the one asked for. */
  function Heard(frequency: int, sampleRate: int): int {
    Min(frequency, sampleRate / 2)
  }

  lemma StepFits(heard: int, sampleRate: int)
    requires 0 <= heard <= sampleRate / 2 && sampleRate > 0
    ensures var step := heard * SINE_STEPS * 65536 / sampleRate;
      0 <= step < TWO_TO_32 && sampleRate * step <= heard * CYCLE < sampleRate * step + sampleRate
  {
    var all := heard * SINE_STEPS * 65536;
    assert all == heard * CYCLE;
    var step := all / sampleRate;
    assert all == sampleRate * step + all % sampleRate;
    assert 2 * heard * CYCLE <= sampleRate * CYCLE by { Scaled(2 * heard, sampleRate, CYCLE); }
    if step > CYCLE {
      Scaled(CYCLE + 1, step, sampleRate);
      assert false;
    }
  }

  lemma StepIs(t: State, frequency: int, millis: int, gain: int)
    requires frequency > 0 && millis > 0 && t.sampleRate > 0
    ensures var u, all := Started(t, frequency, millis, gain), Heard(frequency, t.sampleRate) * CYCLE;
      u.phase == 0 && t.sampleRate * u.phaseStep <= all < t.sampleRate * u.phaseStep + t.sampleRate
  {
    hide SamplesOf;
    StepFits(Heard(frequency, t.sampleRate), t.sampleRate);
  }

  lemma Scaled(a: int, b: int, c: nat)
    requires a <= b
    ensures a * c <= b * c
  {
  }

  /** After n samples of a tone its phase has gone on by n steps, and those are the
      cycles its frequency makes in that time, short of them by less than one part in
      CYCLE a sample: over a second, frequency cycles. */
  lemma PitchHeard(t: State, frequency: int, millis: int, gain: int, n: nat)
    requires frequency > 0 && millis > 0 && t.sampleRate > 0
    requires n <= Started(t, frequency, millis, gain).remaining
    ensures var u := Started(t, frequency, millis, gain); var passed := n * u.phaseStep;
      && AdvancedBy(u, n).phase == passed % TWO_TO_32
      && t.sampleRate * passed <= n * Heard(frequency, t.sampleRate) * CYCLE <= t.sampleRate * (passed + n)
      && (n == t.sampleRate ==> passed <= Heard(frequency, t.sampleRate) * CYCLE < passed + n)
  {
    hide AdvancedBy, SamplesOf, Started, Heard;
    var u, heard := Started(t, frequency, millis, gain), Heard(frequency, t.sampleRate);
    StepIs(t, frequency, millis, gain);
    PhaseAfter(u, n);
    Times(t.sampleRate, u.phaseStep, heard * CYCLE, n);
  }

  lemma Times(rate: nat, step: nat, all: nat, n: nat)
    requires rate * step <= all < rate * step + rate
    ensures rate * (n * step) <= n * all <= rate * (n * step + n)
    ensures n == rate ==> n * step <= all < n * step + n
  {
    Scaled(rate * step, all, n);
    Scaled(all, rate * step + rate, n);
  }

  function Size(v: int): nat {
    if v < 0 then -v else v
  }

  lemma QuartersBounded(i: nat)
    requires i < 16
    ensures 0 <= RISING[i] <= 1000 && 0 <= FALLING[i] <= 1000
    ensures SINKING[i] == -RISING[i] && CLIMBING[i] == -FALLING[i]
  {
    if i < 8 {
    } else {
    }
  }

  lemma SineBounded(i: nat)
    requires i < SINE_STEPS
    ensures Size(SINE[i]) <= 1000
  {
    QuartersBounded(i % 16);
    InQuarters(RISING, FALLING, SINKING, CLIMBING, i);
  }

  lemma InQuarters(a: seq<int>, b: seq<int>, c: seq<int>, d: seq<int>, i: nat)
    requires |a| == |b| == |c| == |d| == 16 && i < 64
    ensures (a + b + c + d)[i] == if i < 16 then a[i] else if i < 32 then b[i - 16] else if i < 48 then c[i - 32] else d[i - 48]
  {
  }

  lemma Faded(value: int, level: nat, part: nat, ramp: nat)
    requires Size(value) <= level && 0 < ramp
    ensures Size(TruncDiv(value * part, ramp)) * ramp <= level * part
  {
    Scaled(Size(value), level, part);
    assert Size(value * part) == Size(value) * part;
    DividedBy(Size(value * part), ramp);
  }

  lemma DividedBy(a: nat, b: nat)
    requires b > 0
    ensures a / b * b <= a
  {
  }

  lemma SineLevelled(value: int, level: nat)
    requires Size(value) <= 1000
    ensures Size(TruncDiv(value * level, 1000)) <= level
  {
    Scaled(Size(value), 1000, level);
    assert Size(value * level) == Size(value) * level;
  }

  /** No sample is louder than the level, and the ones near either end are softer in
      proportion to how near: the fades take at most a quarter of the tone each. */
  lemma EndsFade(t: State, i: nat)
    requires i < t.remaining <= t.total && 4 <= t.total
    ensures var done, left := t.total - t.remaining + i, t.remaining - i; var loud := Size(Stream(t)[i]);
      && loud <= Level(t) && 0 < Ramp(t) <= t.total / 4
      && (done < Ramp(t) ==> loud * Ramp(t) <= Level(t) * done)
      && (left < Ramp(t) ==> loud * Ramp(t) <= Level(t) * left)
  {
    hide Stream, AdvancedBy, Level, Ramp, Sample;
    AdvancedStream(t, i);
    SampleNext(t, i);
    RampShort(t);
    SampleFades(AdvancedBy(t, i));
  }

  lemma RampShort(t: State)
    requires 4 <= t.total
    ensures 0 < Ramp(t) <= t.total / 4
  {
  }

  lemma SampleFades(t: State)
    requires t.remaining <= t.total && 0 < Ramp(t) <= t.total / 4
    ensures var done, left, loud := t.total - t.remaining, t.remaining, Size(Sample(t));
      && loud <= Level(t)
      && (done < Ramp(t) ==> loud * Ramp(t) <= Level(t) * done)
      && (left < Ramp(t) ==> loud * Ramp(t) <= Level(t) * left)
  {
    hide Level, Ramp, TruncDiv;
    var value := TruncDiv(SINE[t.phase / 65536 % SINE_STEPS] * Level(t), 1000);
    SineBounded(t.phase / 65536 % SINE_STEPS);
    SineLevelled(SINE[t.phase / 65536 % SINE_STEPS], Level(t));
    var done, left, loud := t.total - t.remaining, t.remaining, Size(Sample(t));
    if done < Ramp(t) {
      Faded(value, Level(t), done, Ramp(t));
      Softer(loud, Level(t), done, Ramp(t));
    } else if left < Ramp(t) {
      Faded(value, Level(t), left, Ramp(t));
      Softer(loud, Level(t), left, Ramp(t));
    }
  }

  lemma Softer(loud: nat, level: nat, part: nat, ramp: nat)
    requires loud * ramp <= level * part && part < ramp
    ensures loud <= level
  {
    if loud > level {
      Scaled(level + 1, loud, ramp);
      Scaled(part, ramp, level);
      assert false;
    }
  }
}
