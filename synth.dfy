/**
 * The sine oscillator: a phase that advances by a fixed increment per
 * sample frame, wrapped into one turn with the float remainder, and
 * rendered as `sin(phase) * gain` into every channel of an interleaved
 * buffer. The sine itself is a parameter of the model.
 */
module SynthOscillator {
  import opened RealMath

  /**
   * Phase advance per sample for a frequency in Hz: TAU divided by the
   * number of samples in one period. A frequency of zero makes that
   * period infinite in f32, and TAU divided by infinity is zero.
   */
  function Increment(sampleRate: nat, frequency: real): real
    requires sampleRate > 0
  {
    if frequency == 0.0 then 0.0 else TAU / (sampleRate as real / frequency)
  }

  /** One call of `advance`: add the increment, keep the remainder modulo TAU. */
  function Advanced(phase: real, increment: real): real {
    FMod(phase + increment, TAU)
  }

  /** The phase after `n` frames, starting from `phase`. */
  function PhaseAfter(phase: real, increment: real, n: nat): real {
    if n == 0 then phase else Advanced(PhaseAfter(phase, increment, n - 1), increment)
  }

  /**
   * Number of chunks `chunks_mut(channels)` cuts a buffer of `length`
   * samples into: whole frames, plus one shorter frame for a remainder.
   */
  function FrameCount(length: nat, channels: nat): (n: nat)
    requires channels > 0
    ensures length <= n * channels
    ensures n == 0 || (n - 1) * channels < length
    ensures length == 0 ==> n == 0
  {
    var q := (length + channels - 1) / channels;
    assert q * channels <= length + channels - 1 < q * channels + channels;
    q
  }

  /**
   * A sample index lies in frame k exactly when it lies in k's index range
   * [k * channels, k * channels + channels), and in an earlier frame exactly
   * when it lies below that range.
   */
  lemma FrameOfSample(i: int, frame: int, channels: int)
    requires channels > 0 && 0 <= i && 0 <= frame
    ensures i / channels == frame <==> frame * channels <= i < frame * channels + channels
    ensures i / channels < frame <==> i < frame * channels
  {
    var q, r := i / channels, i % channels;
    assert i == q * channels + r && 0 <= r < channels;
    MulSucc(q, channels);
    MulSucc(frame, channels);
    if q < frame {
      MulMonotonic(q + 1, frame, channels);
    } else if q > frame {
      MulMonotonic(frame + 1, q, channels);
    }
  }

  lemma MulMonotonic(a: int, b: int, c: int)
    requires a <= b && c >= 0
    ensures a * c <= b * c
  {
    assert (b - a) * c >= 0;
  }

  lemma MulSucc(a: int, c: int)
    ensures (a + 1) * c == a * c + c
  {
  }

  // ----- properties of the specification functions -----

  /** The increment is TAU times the frequency divided by the sample rate. */
  lemma IncrementIsAngularStep(sampleRate: nat, frequency: real)
    requires sampleRate > 0
    ensures Increment(sampleRate, frequency) == TAU * frequency / sampleRate as real
  {
    if frequency != 0.0 {
      var sr := sampleRate as real;
      var period := sr / frequency;
      assert period * frequency == sr;
      assert period != 0.0;
      assert TAU / period == TAU * frequency / sr;
    }
  }

  /** After `sampleRate` samples the unwrapped phase has turned `frequency` times. */
  lemma IncrementPerSecond(sampleRate: nat, frequency: real)
    requires sampleRate > 0
    ensures Increment(sampleRate, frequency) * sampleRate as real == TAU * frequency
  {
    IncrementIsAngularStep(sampleRate, frequency);
  }

  /** A non-negative frequency never moves the phase backwards. */
  lemma IncrementSign(sampleRate: nat, frequency: real)
    requires sampleRate > 0
    ensures frequency >= 0.0 <==> Increment(sampleRate, frequency) >= 0.0
  {
    IncrementIsAngularStep(sampleRate, frequency);
    var sr := sampleRate as real;
    if frequency < 0.0 {
      assert TAU * frequency < 0.0;
    }
  }

  /**
   * Starting inside [0, TAU) with a non-negative increment, the phase
   * stays inside [0, TAU) for good.
   */
  lemma {:induction false} PhaseStaysInTurn(phase: real, increment: real, n: nat)
    requires 0.0 <= phase < TAU && increment >= 0.0
    ensures 0.0 <= PhaseAfter(phase, increment, n) < TAU
  {
    if n > 0 {
      PhaseStaysInTurn(phase, increment, n - 1);
    }
  }

  /**
   * The wrapped phase differs from the unwrapped one, `phase + n * increment`,
   * by a whole number of turns: reducing modulo TAU loses nothing a
   * periodic sine can see.
   */
  lemma {:induction false} PhaseUnwrapped(phase: real, increment: real, n: nat) returns (turns: int)
    ensures PhaseAfter(phase, increment, n) == phase + Times(n as real, increment) - Times(turns as real, TAU)
  {
    if n == 0 {
      turns := 0;
    } else {
      var before := PhaseUnwrapped(phase, increment, n - 1);
      var x := PhaseAfter(phase, increment, n - 1) + increment;
      var w := Trunc(x / TAU);
      turns := before + w;
      TimesDistributes((n - 1) as real, 1.0, increment);
      TimesDistributes(before as real, w as real, TAU);
    }
  }

  /** Running n frames and then m more is running n + m frames. */
  lemma {:induction false} PhaseAfterSplit(phase: real, increment: real, n: nat, m: nat)
    ensures PhaseAfter(PhaseAfter(phase, increment, n), increment, m) == PhaseAfter(phase, increment, n + m)
  {
    if m > 0 {
      PhaseAfterSplit(phase, increment, n, m - 1);
    }
  }

  /** `for sample in frame { *sample = next_sample }` on the frame [first, last). */
  method FillFrame(buffer: array<real>, first: nat, last: nat, value: real)
    requires first <= last <= buffer.Length
    modifies buffer
    ensures forall i :: first <= i < last ==> buffer[i] == value
    ensures forall i :: 0 <= i < buffer.Length && !(first <= i < last) ==> buffer[i] == old(buffer[i])
  {
    for j := first to last
      invariant forall i :: first <= i < j ==> buffer[i] == value
      invariant forall i :: 0 <= i < buffer.Length && !(first <= i < j) ==> buffer[i] == old(buffer[i])
    {
      buffer[j] := value;
    }
  }

  /**
   * The first `frames` frames of `b` are rendered: every slot of frame k
   * holds sin(phase after k frames) * gain.
   */
  ghost predicate Rendered(b: seq<real>, frames: nat, channels: nat, phase: real, increment: real,
                           sin: real -> real, gain: real)
    requires channels > 0
  {
    forall i :: 0 <= i < |b| && i / channels < frames ==>
      b[i] == Times(sin(PhaseAfter(phase, increment, i / channels)), gain)
  }

  /** Filling one more frame with its sample extends the rendered prefix by that frame. */
  lemma RenderedStep(before: seq<real>, after: seq<real>, frame: nat, channels: nat,
                     phase: real, increment: real, sin: real -> real, gain: real)
    requires channels > 0 && |after| == |before|
    requires Rendered(before, frame, channels, phase, increment, sin, gain)
    requires forall i :: 0 <= i < |after| && i / channels == frame ==>
      after[i] == Times(sin(PhaseAfter(phase, increment, frame)), gain)
    requires forall i :: 0 <= i < |after| && i / channels != frame ==> after[i] == before[i]
    ensures Rendered(after, frame + 1, channels, phase, increment, sin, gain)
  {
  }

  /** Where the frame loop stops, it has run exactly FrameCount frames. */
  lemma FramesCovered(length: nat, frames: nat, channels: nat)
    requires channels > 0 && length <= frames * channels
    requires frames == 0 || frames * channels - channels < length
    ensures FrameCount(length, channels) == frames
  {
    FrameOfSample(length + channels - 1, frames, channels);
  }

  /** A buffer whose every frame is rendered holds the rendering in every slot. */
  lemma RenderedAll(b: seq<real>, frames: nat, channels: nat, phase: real, increment: real,
                    sin: real -> real, gain: real)
    requires channels > 0 && |b| <= frames * channels
    requires Rendered(b, frames, channels, phase, increment, sin, gain)
    ensures forall i :: 0 <= i < |b| ==> b[i] == Times(sin(PhaseAfter(phase, increment, i / channels)), gain)
  {
    forall i | 0 <= i < |b|
      ensures i / channels < frames
    {
      FrameOfSample(i, frames, channels);
    }
  }

  // ----- the object -----

  /** Synth: a sine oscillator with its frequency, gain and running phase. */
  class Synth {
    var frequency: real
    var gain: real
    var phase: real
    var increment: real
    var sampleRate: nat

    /** The increment always matches the frequency at this sample rate. */
    ghost predicate Valid()
      reads this
    {
      sampleRate > 0 && increment == Increment(sampleRate, frequency)
    }

    /** Synth::new: 440 Hz at full gain, starting at phase zero. */
    constructor (sampleRate: nat)
      requires sampleRate > 0
      ensures Valid()
      ensures this.sampleRate == sampleRate && frequency == 440.0 && gain == 1.0 && phase == 0.0
      ensures increment == TAU * 440.0 / sampleRate as real
    {
      var f := 440.0;
      frequency := f;
      gain := 1.0;
      phase := 0.0;
      increment := TAU / (sampleRate as real / f);
      this.sampleRate := sampleRate;
      new;
      IncrementIsAngularStep(sampleRate, f);
    }

    /** Synth::gain: replaces the output gain. */
    method Gain(gain: real)
      requires Valid()
      modifies this`gain
      ensures Valid()
      ensures this.gain == gain
    {
      this.gain := gain;
    }

    /** Synth::frequency: replaces the frequency and recomputes the increment. */
    method Frequency(frequency: real)
      requires Valid()
      modifies this`frequency, this`increment
      ensures Valid()
      ensures this.frequency == frequency
      ensures increment == TAU * frequency / sampleRate as real
    {
      this.frequency := frequency;
      if frequency == 0.0 {
        increment := 0.0;
      } else {
        increment := TAU / (sampleRate as real / frequency);
      }
      IncrementIsAngularStep(sampleRate, frequency);
    }

    /** Synth::advance: one frame forward, wrapped into one turn. */
    method Advance()
      requires Valid()
      modifies this`phase
      ensures Valid()
      ensures phase == Advanced(old(phase), increment)
    {
      phase := phase + increment;
      phase := FMod(phase, TAU);
    }

    /**
     * One turn of the frame loop of Synth::process: the frame's slots
     * [first, last) get sin(phase) * gain, then the phase advances once.
     */
    method RenderFrame(channels: nat, buffer: array<real>, first: nat, ghost frame: nat,
                       sin: real -> real, ghost start: real)
      requires Valid() && channels > 0
      requires first == frame * channels && first < buffer.Length
      requires phase == PhaseAfter(start, increment, frame)
      requires Rendered(buffer[..], frame, channels, start, increment, sin, gain)
      modifies this`phase, buffer
      ensures Valid()
      ensures phase == PhaseAfter(start, increment, frame + 1)
      ensures Rendered(buffer[..], frame + 1, channels, start, increment, sin, gain)
      ensures forall i :: 0 <= i < buffer.Length && i / channels != frame ==> buffer[i] == old(buffer[i])
    {
      var last := if first + channels < buffer.Length then first + channels else buffer.Length;
      var nextSample := Times(sin(phase), gain);
      ghost var before := buffer[..];
      FillFrame(buffer, first, last, nextSample);
      forall i | 0 <= i < buffer.Length
        ensures i / channels == frame <==> first <= i < last
      {
        FrameOfSample(i, frame, channels);
      }
      RenderedStep(before, buffer[..], frame, channels, start, increment, sin, gain);
      Advance();
    }

    /**
     * Synth::process: each frame of `channels` interleaved samples gets
     * `sin(phase) * gain` in every slot (a short final frame included),
     * then the phase advances once per frame. `sin` stands for f32::sin;
     * zero channels make chunks_mut panic.
     */
    method Process(channels: nat, buffer: array<real>, sin: real -> real)
      requires Valid() && channels > 0
      modifies this`phase, buffer
      ensures Valid()
      ensures forall i :: 0 <= i < buffer.Length ==>
        buffer[i] == Times(sin(PhaseAfter(old(phase), increment, i / channels)), gain)
      ensures phase == PhaseAfter(old(phase), increment, FrameCount(buffer.Length, channels))
    {
      ghost var start := phase;
      var first := 0;
      ghost var frame: nat := 0;
      while first < buffer.Length
        invariant Valid()
        invariant first == frame * channels
        invariant frame == 0 || first - channels < buffer.Length
        invariant phase == PhaseAfter(start, increment, frame)
        invariant Rendered(buffer[..], frame, channels, start, increment, sin, gain)
        decreases buffer.Length - first
      {
        RenderFrame(channels, buffer, first, frame, sin, start);
        MulSucc(frame, channels);
        first := first + channels;
        frame := frame + 1;
      }
      FramesCovered(buffer.Length, frame, channels);
      RenderedAll(buffer[..], frame, channels, start, increment, sin, gain);
      assert forall i :: 0 <= i < buffer.Length ==> buffer[i] == buffer[..][i];
    }
  }
}
