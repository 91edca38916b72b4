# rust-midi-synth, modelled in Dafny

rust-midi-synth is a small monophonic synthesizer. Raw MIDI bytes are decoded into
note, control-change and program-change messages. A sine oscillator fills interleaved
audio buffers, and a logarithmic ADSR envelope (attack, decay, sustain, release)
shapes the level with smooth retriggering. This project models that core and proves what it promises.

- `midi.dfy` (module `Midi`) models `MidiMessage::try_new`, which turns raw bytes into
  a message. The status nibble picks the variant and the channel nibble is kept. An
  unknown status gives the error `"Unrecognized message"`. A recognised message reads
  as many data bytes as its kind needs. A reference encoder `Encode` yields both round trips.
- `envelope.dfy` (module `SynthEnvelope`) models the envelope. `Step` is a pure
  function on the state that messages and samples change. `Run` and `After` repeat it
  over many samples. The class `Envelope` has the source's fields, and its methods are
  proved against those functions: `ProcessSample` updates state and level in place,
  `Process` fills a buffer and `ProcessApply` scales a stereo buffer in place. Lemmas
  cover each stage and prove that it arrives after finitely many samples: an attack
  reaches the velocity and hands over to Decay, a decay comes to Rest at sustain times
  velocity, and a release comes to Rest at zero. The 0.0001 snap is what ends each
  exponential approach. Further lemmas say that a step never overshoots its target,
  a message never makes the output jump, a release stays monotone and bounded, and the
  level stays in range.
- `synth.dfy` (module `SynthOscillator`) models the oscillator as class `Synth` with
  its five fields. `Process` is the frame loop over `chunks_mut(channels)` with the
  inner fill loop. It is proved to write `sin(phase) * gain` into every slot of frame k,
  where `phase` is the phase after k calls of `Advance`. It is also proved to leave the
  phase `FrameCount` frames on. Lemmas prove three facts. The increment is
  `TAU * frequency / sampleRate`. The phase stays in `[0, TAU)`. The wrapped phase
  differs from `phase + n * increment` by a whole number of turns.
- `debug_name.dfy` (module `DebugName`) models `debug_struct_name` from `src/main.rs`.
  It cuts Debug text at the first `{` or `(`. `str::find` reports that position as a
  UTF-8 byte offset, which `BracketOffset` models. `split_at` at that offset keeps the
  same text as cutting at the bracket's character position.
- `real_math.dfy` (module `RealMath`) holds TAU and the float remainder `%` as
  `FMod`, which truncates toward zero. `wrappers.dfy` holds `Option` and `Result`.

Modelling choices:
- `f32` values are `real`, so rounding, infinities and NaN are not modelled.
- `RealMath.Times(a, b)` is the product `a * b` written as a function call. It is
  used wherever the model multiplies two unknown reals, so the solver treats the
  product as one term instead of reasoning about nonlinear arithmetic.
  - The envelope uses it in its stage targets (`Target`), its invariant (`Legal`),
    its step (`Emit`), and the decay arrival lemmas (`DecayWithin`,
    `DecayReachesRest`, `NoteSettles`). These are stated in the same terms as `Step`.
  - The oscillator uses it in `PhaseUnwrapped` and in the per-slot contracts of the
    buffer loops (`Rendered`, `RenderedAll`, `Synth.Process`, `Scaled`,
    `Envelope.ApplyToFrame`).
  - With a plain `*` in those places the proofs run out of resource.
  - `FMod`, `IncrementPerSecond` and `ScaledAll` state their products with `*`.
- `exp` is a constant field of `Envelope`, set by the constructor. All of one
  envelope's coefficients are computed with it. It is only assumed to map negative
  numbers into `(0, 1)`.
- `sin` is a parameter of `Synth.Process`.
  - `sin` is unconstrained.
- MIDI bytes are `bv8`.
- Where the source panics, the panic is a precondition:
  - an index past the end of a MIDI message;
  - `chunks_mut(0)`;
  - the missing right sample of an odd-length stereo buffer.
- A sample rate of zero is excluded for both the envelope and the oscillator. In f32 it
  makes the envelope's exp factor negative infinity, which turns every stage
  coefficient into 0 and every stage into a single step. It makes the oscillator's
  increment infinite or NaN.
- `Synth::frequency(0.0)` divides by zero in f32: `TAU / inf` gives an increment of 0.
  The model states that outcome directly.

The doc comment of `debug_struct_name` says the braced struct `AnAwesomeStruct { v: 0.0 }`
becomes `"AnAwesomeStruct"`. The code cuts at the brace itself, so it keeps the space
before it. The model follows the code, and `DebugName.BracedStructExample` proves that
the result is `"AnAwesomeStruct "`.

## Model

| member | source | states |
|---|---|---|
| Midi.Channel | src/midi.rs:29 | the channel is the low nibble of the status byte (below 16, the byte modulo 16) |
| Midi.Status | src/midi.rs:30 | the status is the high nibble of the status byte (below 16, the byte divided by 16) |
| Midi.TryNew | src/midi.rs:28-41 | decoding succeeds exactly for status 0x8, 0x9, 0xB, 0xC; otherwise the error is "Unrecognized message"; a decoded message carries the input's status and channel, and re-encodes to exactly the bytes it read |
| Midi.StatusByte | src/midi.rs:29-30 | composing a status byte from two nibbles is status * 16 + channel |
| Midi.NibblesRoundTrip | src/midi.rs:29-30 | splitting a composed status byte gives back its status and channel |
| Midi.DecodeEncode | src/midi.rs:34-40 | every well-formed message decodes from its own encoding |
| Midi.EncodeDecode | src/midi.rs:34-40 | a successfully decoded message is well formed, its encoding is a prefix of the input, and trailing bytes do not change the result |
| Midi.ReadLength | src/midi.rs:34-39 | the number of bytes each status' branch indexes: 3 for note off, note on and control change, 2 for program change, and 1 exactly for an unrecognised status |
| Midi.Indexable | src/midi.rs:29-38 | the inputs on which the decoder does not panic: byte 0 exists, and so do the data bytes the status' branch indexes |
| Midi.Encode | src/midi.rs:29-38 | the reference wire layout: the composed status byte carries the message's status and channel, followed by as many data bytes as its status reads |
| Midi.DecodeReadsOnlyPrefix | src/midi.rs:34-40 | two inputs that agree on their status byte and on the bytes that status reads decode to the same message |
| Midi.StatusDecides | src/midi.rs:29-39 | for a status byte composed of a status and a channel, decoding succeeds exactly when the status is recognised, and the message carries that status and channel |
| Midi.PitchBendUnrecognized | src/midi.rs:39 | a pitch-bend message (status 0xE) is rejected as unrecognized |
| Midi.NoteOnExample | src/midi.rs:36 | 0x93 60 100 decodes to note-on on channel 3, key 60, velocity 100 |
| SynthEnvelope.Receive | src/synth/envelope.rs:95-105 | a message never changes the current level |
| SynthEnvelope.Select | src/synth/envelope.rs:132-167 | no contract of its own: the match choosing the coefficient and target of the state, with the moves to Decay and Rest that pin the level; AttackStep, DecayStep and ReleaseStep state its cases |
| SynthEnvelope.Emit | src/synth/envelope.rs:169-177 | no contract of its own: the snap, the scaled approach `target + factor * -diff` and the new level; SnapToTarget and StepRecordsOutput state it |
| SynthEnvelope.Step | src/synth/envelope.rs:128-179 | no contract of its own: process_sample on the snapshot, Rest returning the level and every other state going through Select and Emit; the one-step lemmas below state what it does, and ProcessSample is proved equal to it |
| SynthEnvelope.Run | src/synth/envelope.rs:74-78 | n sample steps emit n values |
| SynthEnvelope.After | src/synth/envelope.rs:74-78 | no contract of its own: the snapshot after n successive sample steps; RunNext, RunSplit and the arrival lemmas state its properties |
| SynthEnvelope.RunNext | src/synth/envelope.rs:74-78 | one more sample step appends exactly that step's value and moves the snapshot on by it |
| SynthEnvelope.RestStep | src/synth/envelope.rs:129-130 | at Rest a step emits the level and changes nothing |
| SynthEnvelope.StepRecordsOutput | src/synth/envelope.rs:174-177 | the emitted value becomes the new level, and the velocity is kept |
| SynthEnvelope.StepNeverEntersAttack | src/synth/envelope.rs:128-179 | only a message starts an attack; no step enters Attack |
| SynthEnvelope.AttackStep | src/synth/envelope.rs:133-146 | within tolerance above the velocity, attack hands over to Decay and emits exactly the velocity; below it the level rises without passing the velocity; far above it the level falls without passing below it |
| SynthEnvelope.DecayStep | src/synth/envelope.rs:147-156 | at or below sustain times velocity, decay rests pinned at that level; above it the level falls without passing below it |
| SynthEnvelope.ReleaseStep | src/synth/envelope.rs:157-165 | at or below zero, release rests at exactly zero; above zero it emits -factor times the level, or zero inside the snap tolerance, and that value lies in [0, prev) |
| SynthEnvelope.SnapToTarget | src/synth/envelope.rs:169-174 | a level within 0.0001 of its target emits the target exactly |
| SynthEnvelope.ZeroTimeStage | src/synth/envelope.rs:121-124 | a stage whose coefficient is zero (a time below 0.001 ms) reaches its target in one step |
| SynthEnvelope.StepApproachesTarget | src/synth/envelope.rs:128-179 | every step emits a value between the old level and the state's target |
| SynthEnvelope.MessageThenStepIsSmooth | src/synth/envelope.rs:92-105 | after On(v) the next value lies between the old level and v, and after Off between the old level and 0: retriggering never jumps |
| SynthEnvelope.RestForever | src/synth/envelope.rs:129-130 | once at Rest the envelope never moves and emits its level forever |
| SynthEnvelope.ReleaseFalls | src/synth/envelope.rs:157-165 | a release never rises and stays within [0, starting level] over any number of samples |
| SynthEnvelope.AttackRises | src/synth/envelope.rs:133-146 | an attack from below never falls and never passes the velocity while it lasts |
| SynthEnvelope.StepKeepsLegal | src/synth/envelope.rs:128-179 | with sustain in [0,1] and a non-negative level and velocity, a step keeps them so and emits at most max(level, velocity) |
| SynthEnvelope.ReceiveKeepsLegal | src/synth/envelope.rs:95-105 | a message with a non-negative velocity keeps level and velocity non-negative |
| SynthEnvelope.RunBounded | src/synth/envelope.rs:74-78 | over any number of samples the output stays within [0, max(starting level, velocity)] |
| SynthEnvelope.RunSplit | src/synth/envelope.rs:74-78 | n steps followed by m steps are n + m steps, in emitted values and in final state |
| SynthEnvelope.ReleaseReachesRest | src/synth/envelope.rs:157-174 | a release from any non-negative level is at Rest at exactly zero after some finite number of samples |
| SynthEnvelope.AttackHandsOver | src/synth/envelope.rs:135-141 | an attack within 0.001 above the velocity moves to Decay with the level exactly at the velocity |
| SynthEnvelope.AttackApproach | src/synth/envelope.rs:133-146 | an attack step that does not hand over stays in Attack and leaves the distance to the velocity zero after a snap, or the attack coefficient times the old distance |
| SynthEnvelope.AttackReachesDecay | src/synth/envelope.rs:133-146 | an attack from any level is in Decay, exactly at the velocity, after some finite number of samples |
| SynthEnvelope.DecayReachesRest | src/synth/envelope.rs:147-156 | a decay from any level is at Rest at exactly sustain times velocity after some finite number of samples |
| SynthEnvelope.NoteSettles | src/synth/envelope.rs:95-100 | after note on with velocity v the envelope comes to Rest at sustain times v after finitely many samples |
| SynthEnvelope.NoteFallsSilent | src/synth/envelope.rs:101-103 | after note off from a non-negative level the envelope comes to Rest at zero after finitely many samples |
| SynthEnvelope.ScaledStep | src/synth/envelope.rs:85-89 | scaling one more frame changes exactly that frame's two samples |
| SynthEnvelope.ScaledAll | src/synth/envelope.rs:85-89 | once every frame is scaled, sample i is exactly the source sample times the envelope value of frame i/2 |
| SynthEnvelope.Envelope.constructor | src/synth/envelope.rs:50-62 | a new envelope rests at level 0 with velocity 0, keeps the parameters, and has exp factor -TAU*1000/sample rate with the coefficients derived from it |
| SynthEnvelope.Envelope.CalculateLimitedCte | src/synth/envelope.rs:121-126 | zero for a time below 0.001 ms, otherwise exp(exp factor / time); always in [0,1) |
| SynthEnvelope.Envelope.UpdateFactors | src/synth/envelope.rs:113-119 | the coefficients become attack, minus decay, minus release constants, and so are valid |
| SynthEnvelope.Envelope.Params | src/synth/envelope.rs:107-111 | new parameters are stored and their coefficients recomputed with the envelope's own exp; the state and level are kept |
| SynthEnvelope.Envelope.Message | src/synth/envelope.rs:95-105 | On enters Attack with the new velocity; Off enters Release keeping the velocity; the level is untouched |
| SynthEnvelope.Envelope.ProcessSample | src/synth/envelope.rs:128-179 | the value returned and the new state are exactly one Step of the old state |
| SynthEnvelope.Envelope.Process | src/synth/envelope.rs:74-78 | the buffer becomes the values of as many successive steps as it has samples, and the state advances that many steps |
| SynthEnvelope.Envelope.ApplyToFrame | src/synth/envelope.rs:85-89 | one envelope step, with both samples of frame k multiplied by its value and every other sample untouched, so that one more frame of the buffer is scaled; the class invariant is kept |
| SynthEnvelope.Envelope.ProcessApply | src/synth/envelope.rs:84-90 | the buffer becomes the old buffer with every stereo frame scaled by the values of successive steps, which ScaledAll spells out as sample i times the value of step i/2; the state advances one step per frame and the class invariant is kept |
| SynthOscillator.Increment | src/synth.rs:13 | no contract of its own: `TAU / (sample rate / frequency)`, with the f32 outcome 0 at frequency 0; IncrementIsAngularStep, IncrementPerSecond and IncrementSign state it |
| SynthOscillator.Advanced | src/synth.rs:40-43 | no contract of its own: add the increment and take the float remainder by TAU; FMod and PhaseStaysInTurn state it |
| SynthOscillator.PhaseAfter | src/synth.rs:33-37 | no contract of its own: the phase after n frames, one advance per frame; PhaseStaysInTurn, PhaseUnwrapped and PhaseAfterSplit state it |
| SynthOscillator.FrameCount | src/synth.rs:33 | chunks_mut splits length samples into the ceiling of length/channels frames |
| SynthOscillator.FrameOfSample | src/synth.rs:33-35 | a sample index lies in frame k exactly when it lies in k's index range, and in an earlier frame exactly when it lies below that range |
| SynthOscillator.FramesCovered | src/synth.rs:33 | where the frame loop stops it has run exactly as many frames as chunks_mut yields |
| SynthOscillator.RenderedStep | src/synth.rs:33-35 | filling the next frame with its sample extends the rendered prefix of the buffer by one frame |
| SynthOscillator.RenderedAll | src/synth.rs:33-35 | once every frame is rendered, every slot holds sin(phase after its frame) * gain |
| SynthOscillator.IncrementIsAngularStep | src/synth.rs:27-30 | the increment is TAU * frequency / sample rate, including 0 for frequency 0 |
| SynthOscillator.IncrementPerSecond | src/synth.rs:27-30 | one second of samples advances the unwrapped phase by TAU * frequency |
| SynthOscillator.IncrementSign | src/synth.rs:27-30 | the increment is non-negative exactly when the frequency is |
| SynthOscillator.PhaseStaysInTurn | src/synth.rs:40-43 | from [0, TAU) with a non-negative increment the phase stays in [0, TAU) |
| SynthOscillator.PhaseUnwrapped | src/synth.rs:40-43 | the wrapped phase after n frames is phase + n * increment minus a whole number of turns |
| SynthOscillator.PhaseAfterSplit | src/synth.rs:40-43 | n frames followed by m frames are n + m frames |
| SynthOscillator.FillFrame | src/synth.rs:35 | every slot of the frame holds the frame's sample, and no other slot changes |
| SynthOscillator.Synth.constructor | src/synth.rs:11-21 | a new synth plays 440 Hz at gain 1 from phase 0, with increment TAU*440/sample rate |
| SynthOscillator.Synth.Gain | src/synth.rs:23-25 | the gain is replaced |
| SynthOscillator.Synth.Frequency | src/synth.rs:27-30 | the frequency is replaced and the increment becomes TAU * frequency / sample rate |
| SynthOscillator.Synth.Advance | src/synth.rs:40-43 | the phase becomes the float remainder of phase + increment by TAU |
| SynthOscillator.Synth.RenderFrame | src/synth.rs:34-36 | one turn of the frame loop: the frame's slots are rendered with sin(phase) * gain, every slot outside that frame keeps its value, and the phase advances once |
| SynthOscillator.Synth.Process | src/synth.rs:32-38 | every slot of frame k holds sin(phase after k frames) * gain, a short final frame included, and the phase ends one advance per frame further on; the class invariant is kept |
| DebugName.FindBracket | src/main.rs:106 | the character position of the first `{` or `(`, with no bracket before it, and none is found exactly when the text has none |
| DebugName.BracketOffset | src/main.rs:106 | what `str::find` returns: found exactly when FindBracket finds a bracket, and then the byte offset is the UTF-8 length of the text in front of the bracket |
| DebugName.CutAtOffset | src/main.rs:106-108 | `split_at` at the byte offset keeps the cut name: its UTF-8 length is exactly that offset, and with no bracket the text is kept whole |
| DebugName.UnicodeOffsetExample | src/main.rs:106-108 | on "Ünïcode(x)" the bracket is at character 7 but byte 9, and the name kept is "Ünïcode" |
| DebugName.DebugStructName | src/main.rs:105-111 | the result is a prefix of the text without brackets, and any text that follows it starts with a bracket |
| DebugName.NoBracketKept | src/main.rs:107-110 | text without brackets comes back unchanged |
| DebugName.Idempotent | src/main.rs:105-111 | cutting twice is cutting once |
| DebugName.NameIgnoresFields | src/main.rs:89-91 | a bracket-free name followed by bracketed content gives back the name |
| DebugName.TupleStructExample | src/main.rs:99-102 | "AGreatTuple(0.0)" gives "AGreatTuple" |
| DebugName.BracedStructExample | src/main.rs:100-103 | "AnAwesomeStruct { v: 0.0 }" gives "AnAwesomeStruct " with the space before the brace |
| RealMath.Trunc | src/synth.rs:42 | truncation toward zero: the floor for non-negative values and the ceiling for negative ones |
| RealMath.FMod | src/synth.rs:42 | the float remainder keeps the sign of the dividend, lies within one modulus of zero, and differs from the dividend by a whole number of moduli |
| RealMath.FModOfSmall | src/synth.rs:42 | a value already in [0, m) is its own remainder |

## Left out

- src/audio.rs (the cpal output stream), the MIDI port handling in src/midi.rs
  (`MidiConnection`, `get_ports`) and the `run` and `main` wiring in src/main.rs are left
  out. They are device I/O and callbacks.
- The lock-free sharing of the synth between threads (`Arc`, `Atomic`, `access_atomic!`)
  is concurrency and is left out.
- `Note::frequency` and `Note::gain` compute `powf` on floats and are left out. The
  pitch-bend and envelope hooks that `run` calls on the synth are not defined in
  src/synth.rs, so they are not part of this model.
- f32 rounding, infinities and NaN are not modelled, since samples and coefficients are reals.
- `exp` (a constant field of `Envelope`) and `sin` (a parameter) are not related to the real exponential and sine.
- SynthEnvelope.Envelope.Params: the source's `&mut Self` return, used only for chaining, is not modelled.
- SynthEnvelope.Envelope.constructor: sample rate zero is excluded. In f32 it makes the exp factor infinite.
- SynthOscillator.Synth.constructor: sample rate zero is excluded, since in f32 the increment becomes NaN or infinite.
- A Rust `String` is a sequence of UTF-8 bytes; the model takes it as a sequence of
  Unicode scalar values and only computes their UTF-8 size. `split_at` is therefore
  modelled as a cut at the character position that the byte offset names.
- Midi.TryNew: a message shorter than its kind needs makes the source panic on the
  index. This is a precondition, so the panic is not modelled.
