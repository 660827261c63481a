/**
 The melody player of firmware/src/audio/Sound.cpp: a sound is one finite stream
 of samples, tones and rests in a row, and filling buffers takes it off in order
 however the buffers are cut.
 */
module Sound {
  import T = Tone

  const MAX_STEPS: nat := 8

  datatype ToneStep = ToneStep(frequency: int, millis: int, gain: int)

  /** A sound in progress: the tone, silence still owed, and the steps to come. */
  datatype State = State(tone: T.State, rest: nat, steps: seq<ToneStep>, index: nat)

  function Zeros(n: nat): (z: seq<int>)
    ensures |z| == n && forall i :: 0 <= i < n ==> z[i] == 0
  {
    seq(n, _ => 0)
  }

  function RestSamples(sampleRate: int, millis: int): nat
    requires millis > 0
  {
    if sampleRate <= 0 then 0 else millis * sampleRate / 1000
  }

  function GainOf(step: ToneStep): int {
    if step.gain > 0 then step.gain else 1000
  }

  /** All a step sounds like. */
  function StepStream(tone: T.State, step: ToneStep): seq<int> {
    if step.millis <= 0 then []
    else if step.frequency <= 0 then Zeros(RestSamples(tone.sampleRate, step.millis))
    else T.Stream(T.Started(tone, step.frequency, step.millis, GainOf(step)))
  }

  function StepsStream(tone: T.State, steps: seq<ToneStep>): seq<int> {
    if steps == [] then [] else StepStream(tone, steps[0]) + StepsStream(tone, steps[1..])
  }

  /** All the samples a sound still has. */
  function Stream(s: State): seq<int>
    requires s.index <= |s.steps|
  {
    Zeros(s.rest) + T.Stream(s.tone) + StepsStream(s.tone, s.steps[s.index..])
  }

  // --- how long a sound is ------------------------------------------------------------------------

  function StepLength(sampleRate: int, step: ToneStep): nat {
    if step.millis <= 0 || sampleRate <= 0 then 0
    else if step.frequency <= 0 then RestSamples(sampleRate, step.millis)
    else T.SamplesOf(sampleRate, step.millis)
  }

  function TotalLength(sampleRate: int, steps: seq<ToneStep>): nat {
    if steps == [] then 0 else StepLength(sampleRate, steps[0]) + TotalLength(sampleRate, steps[1..])
  }

  lemma {:induction false} StepsStreamLength(tone: T.State, steps: seq<ToneStep>)
    ensures |StepsStream(tone, steps)| == TotalLength(tone.sampleRate, steps)
  {
    if steps != [] {
      StepsStreamLength(tone, steps[1..]);
    }
  }

  // --- the steps to come do not depend on the tone that plays ----------------------------------------

  predicate SameSetting(t: T.State, u: T.State) {
    t.sampleRate == u.sampleRate && t.volume == u.volume
  }

  lemma {:induction false} StepsStreamSame(t: T.State, u: T.State, steps: seq<ToneStep>)
    requires SameSetting(t, u)
    ensures StepsStream(t, steps) == StepsStream(u, steps)
  {
    if steps != [] {
      StepsStreamSame(t, u, steps[1..]);
      StartedSame(t, u, steps[0]);
    }
  }

  lemma StartedSame(t: T.State, u: T.State, step: ToneStep)
    requires SameSetting(t, u)
    ensures StepStream(t, step) == StepStream(u, step)
  {
    if t.sampleRate <= 0 {
      var started := T.Started(t, step.frequency, step.millis, GainOf(step));
      assert T.Stream(started) == [];
    }
  }

  // --- starting a step -----------------------------------------------------------------------------------

  /** beginStep: past steps of no length to one that sounds. */
  function Begun(s: State): (t: State)
    requires s.index <= |s.steps| <= MAX_STEPS
    ensures t.index <= |t.steps| <= MAX_STEPS && t.index >= s.index && t.steps == s.steps
    ensures s.index < |s.steps| ==> t.index > s.index
    decreases |s.steps| - s.index
  {
    if s.index == |s.steps| then s
    else
      var step, t := s.steps[s.index], s.(index := s.index + 1);
      if step.millis <= 0 then Begun(t)
      else if step.frequency <= 0 then
        var rest := RestSamples(s.tone.sampleRate, step.millis);
        if rest == 0 then Begun(t.(rest := 0)) else t.(rest := rest)
      else t.(tone := T.Started(s.tone, step.frequency, step.millis, GainOf(step)))
  }

  predicate Quiet(s: State) {
    s.rest == 0 && s.tone.remaining == 0
  }

  /** Starting a step takes nothing off the stream. */
  lemma {:induction false} BegunStream(s: State)
    requires s.index <= |s.steps| <= MAX_STEPS && Quiet(s)
    ensures Stream(Begun(s)) == Stream(s) && SameSetting(Begun(s).tone, s.tone)
    decreases |s.steps| - s.index
  {
    hide T.Started, T.Stream;
    NothingPlays(s.tone);
    if s.index < |s.steps| {
      var step, t := s.steps[s.index], s.(index := s.index + 1);
      var later := s.steps[s.index + 1..];
      assert s.steps[s.index..][1..] == later && s.steps[s.index..][0] == step;
      StartedKeeps(s.tone, step);
      if step.millis <= 0 || (step.frequency <= 0 && RestSamples(s.tone.sampleRate, step.millis) == 0) {
        BegunStream(t);
      } else if step.frequency > 0 {
        StepsStreamSame(s.tone, Begun(s).tone, later);
      }
    }
  }

  lemma NothingPlays(t: T.State)
    requires t.remaining == 0
    ensures T.Stream(t) == [] && Zeros(0) == []
  {
  }

  lemma StartedKeeps(t: T.State, step: ToneStep)
    ensures SameSetting(T.Started(t, step.frequency, step.millis, GainOf(step)), t)
  {
  }

  // --- the player ----------------------------------------------------------------------------------------

  /** A stream with its first n samples taken. */
  lemma TakenInTurn(s: seq<int>, n: nat, m: nat)
    requires n + m <= |s|
    ensures s[..n] + s[n..][..m] == s[..n + m] && s[n..][m..] == s[n + m..]
  {
  }

  class MelodyPlayer {
    const tone: T.ToneGenerator
    const sampleRate: int
    var steps: seq<ToneStep>
    var index: nat
    var rest: nat

    constructor (sampleRate: int)
      ensures Valid() && fresh(tone) && this.sampleRate == sampleRate && Stream(Now()) == []
    {
      this.sampleRate := sampleRate;
      tone := new T.ToneGenerator(sampleRate);
      steps, index, rest := [], 0, 0;
      new;
      NothingPlays(tone.Now());
    }

    ghost predicate Valid()
      reads this, tone
    {
      tone.sampleRate == sampleRate && index <= |steps| <= MAX_STEPS
    }

    function Now(): State
      reads this, tone
    {
      State(tone.Now(), rest, steps, index)
    }

    predicate Playing()
      reads this, tone
    {
      tone.left > 0 || rest > 0 || index < |steps|
    }

    /** What plays from here on is the whole sound, as long as its steps together. */
    method Start(sound: seq<ToneStep>)
      requires Valid() && |sound| <= MAX_STEPS
      modifies this, tone
      ensures Valid() && steps == sound
      ensures Stream(Now()) == StepsStream(tone.Now(), sound)
      ensures |Stream(Now())| == TotalLength(sampleRate, sound)
    {
      steps, index, rest := sound, 0, 0;
      tone.Stop();
      NothingPlays(tone.Now());
      assert sound[0..] == sound;
      ghost var before := Now();
      BegunStream(before);
      var ignored := BeginStep();
      StepsStreamSame(before.tone, tone.Now(), sound);
      StepsStreamLength(tone.Now(), sound);
    }

    method Stop()
      requires Valid()
      modifies this, tone
      ensures Valid() && Stream(Now()) == []
    {
      tone.Stop();
      index, rest := |steps|, 0;
      NothingPlays(tone.Now());
    }

    method BeginStep() returns (begun: bool)
      requires Valid()
      modifies this, tone
      ensures Valid() && Now() == Begun(old(Now()))
      ensures begun ==> index > old(index)
      ensures !begun ==> index == |steps| && (old(Quiet(Now())) ==> Quiet(Now()))
    {
      hide T.Started;
      while index < |steps| && index < MAX_STEPS
        invariant Valid() && Begun(Now()) == Begun(old(Now())) && index >= old(index)
        invariant old(Quiet(Now())) ==> Quiet(Now())
        decreases |steps| - index
      {
        var step := steps[index];
        index := index + 1;
        if step.millis <= 0 {
          continue;
        }
        if step.frequency <= 0 {
          rest := if sampleRate <= 0 then 0 else step.millis * sampleRate / 1000;
          if rest <= 0 {
            continue;
          }
          return true;
        }
        var gain := if step.gain > 0 then step.gain else 1000;
        tone.Start(step.frequency, step.millis, gain);
        return true;
      }
      return false;
    }

    /** Silence for as much of a rest as there is room for. */
    method BeSilent(samples: array<int>, at: nat, room: nat) returns (silence: nat)
      requires at + room <= samples.Length && rest > 0 && room > 0
      modifies this`rest, samples
      ensures silence == (if old(rest) > room then room else old(rest)) && rest == old(rest) - silence
      ensures samples[..at + silence] == old(samples[..at]) + Zeros(silence)
    {
      silence := if rest > room then room else rest;
      T.Silence(samples, at, silence);
      rest := rest - silence;
    }

    /** One turn of fill's loop while there is silence or a tone to play. */
    method PlayOn(samples: array<int>, at: nat, room: nat) returns (got: nat)
      requires Valid() && at + room <= samples.Length && room > 0 && (rest > 0 || tone.left > 0)
      modifies this`rest, tone, samples
      ensures Valid() && 0 < got <= room && got <= |old(Stream(Now()))|
      ensures samples[..at + got] == old(samples[..at]) + old(Stream(Now()))[..got]
      ensures Stream(Now()) == old(Stream(Now()))[got..]
    {
      hide StepsStream, T.Stream, Stream;
      ghost var before := Now();
      if rest > 0 {
        got := BeSilent(samples, at, room);
        RestStream(before, got);
        return;
      }
      got := tone.Fill(samples, at, room);
      ToneStream(before, got);
    }

    /** The next count samples of the sound go into the buffer, or all that are
        left, and what plays on is the rest of it. */
    method Fill(samples: array<int>, count: nat) returns (written: nat)
      requires Valid() && count <= samples.Length
      modifies this, tone, samples
      ensures Valid()
      ensures var all := old(Stream(Now()));
        && written == (if count < |all| then count else |all|)
        && samples[..written] == all[..written] && Stream(Now()) == all[written..]
    {
      hide Begun, StepsStream, T.Stream, Stream;
      ghost var all := Stream(Now());
      written := 0;
      while written < count
        invariant Valid() && written <= count && written <= |all|
        invariant samples[..written] == all[..written] && Stream(Now()) == all[written..]
        decreases count - written, |steps| - index
      {
        ghost var before := Now();
        if rest > 0 || tone.left > 0 {
          var got := PlayOn(samples, written, count - written);
          StreamTaken(all, before, Now(), written, got);
          written := written + got;
          continue;
        }
        BegunStream(before);
        var begun := BeginStep();
        if !begun {
          StreamOver(Now());
          break;
        }
      }
    }
  }

  lemma StreamOver(s: State)
    requires Quiet(s) && s.index == |s.steps|
    ensures Stream(s) == []
  {
    NothingPlays(s.tone);
  }

  /** Silence comes off the front while it is owed. */
  lemma RestStream(s: State, n: nat)
    requires n <= s.rest && s.index <= |s.steps|
    ensures |Stream(s)| >= n && Stream(s)[..n] == Zeros(n)
    ensures Stream(s.(rest := s.rest - n)) == Stream(s)[n..]
  {
    hide T.Stream, StepsStream;
    var playing, later := T.Stream(s.tone), StepsStream(s.tone, s.steps[s.index..]);
    assert Stream(s)[n..] == Zeros(s.rest - n) + playing + later;
  }

  /** With no silence owed the tone's samples come off the front. */
  lemma ToneStream(s: State, n: nat)
    requires s.rest == 0 && n <= s.tone.remaining && s.index <= |s.steps|
    ensures |Stream(s)| >= n && Stream(s)[..n] == T.Stream(s.tone)[..n]
    ensures Stream(s.(tone := T.AdvancedBy(s.tone, n))) == Stream(s)[n..]
  {
    hide T.Stream, StepsStream, T.AdvancedBy;
    var u := T.AdvancedBy(s.tone, n);
    T.AdvancedStream(s.tone, n);
    StepsStreamSame(s.tone, u, s.steps[s.index..]);
    var playing, later := T.Stream(s.tone), StepsStream(s.tone, s.steps[s.index..]);
    assert Zeros(0) == [];
    assert Stream(s) == playing + later;
    assert (playing + later)[n..] == playing[n..] + later;
  }

  /** Taking n samples off what is left of a stream. */
  lemma StreamTaken(all: seq<int>, s: State, t: State, written: nat, n: nat)
    requires s.index <= |s.steps| && t.index <= |t.steps| && written <= |all|
    requires Stream(s) == all[written..] && n <= |Stream(s)| && Stream(t) == Stream(s)[n..]
    ensures written + n <= |all| && Stream(t) == all[written + n..]
    ensures all[..written + n] == all[..written] + Stream(s)[..n]
  {
    hide Stream;
    TakenInTurn(all, written, n);
  }
}
