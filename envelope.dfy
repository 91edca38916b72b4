/**
 * The logarithmic ADSR envelope of src/synth/envelope.rs.
 *
 * An Envelope is in one of four states. A message moves it to Attack (note
 * on) or Release (note off) without touching its current level `prev`; each
 * sample step then moves `prev` exponentially toward the state's target
 * (the velocity in Attack, sustain times velocity in Decay, zero in Release),
 * snaps onto the target once it is within 0.0001, and moves on to the next
 * state (Attack to Decay, Decay and Release to Rest). At Rest the level is
 * frozen.
 *
 * Samples are modelled as reals. The coefficients come from a caller
 * supplied `exp`, which is only assumed to map negative numbers into (0, 1).
 */
module SynthEnvelope {
  import opened RealMath

  /** Attack, decay and release times in milliseconds; sustain as a gain. */
  datatype Adsr = Adsr(attack: real, decay: real, sustain: real, release: real)

  datatype Message = On(velocity: real) | Off

  datatype State = Rest | Attack | Decay | Release

  /** Stage times below this many milliseconds are taken as zero. */
  const ZERO_TIME: real := 0.001
  /** How far above the velocity an attack still counts as arrived. */
  const ATTACK_TOLERANCE: real := 0.001
  /** Distances to the target below this snap onto the target. */
  const SNAP_TOLERANCE: real := 0.0001

  /** The part of an Envelope that messages and sample steps change. */
  datatype Snapshot = Snapshot(state: State, velocity: real, prev: real)

  /** One sample step: the value emitted and the state after it. */
  datatype Tick = Tick(out: real, next: Snapshot)

  /** What the model needs of the exponential function. */
  ghost predicate ExpOfNegative(exp: real -> real) {
    forall x: real :: x < 0.0 ==> 0.0 < exp(x) < 1.0
  }

  /** Attack coefficient in [0, 1); decay and release coefficients in (-1, 0]. */
  ghost predicate ValidFactors(factors: seq<real>) {
    && |factors| == 3
    && 0.0 <= factors[0] < 1.0
    && -1.0 < factors[1] <= 0.0
    && -1.0 < factors[2] <= 0.0
  }

  function Abs(x: real): real {
    if x < 0.0 then -x else x
  }

  function Min(a: real, b: real): real {
    if a <= b then a else b
  }

  function Max(a: real, b: real): real {
    if a <= b then b else a
  }

  /** The level the current state heads for. */
  function Target(s: Snapshot, sustain: real): real {
    match s.state
    case Attack => s.velocity
    case Decay => Times(sustain, s.velocity)
    case Release => 0.0
    case Rest => s.prev
  }

  /** The coefficient the current state's stage uses, 1 at Rest. */
  function StageFactor(s: State, factors: seq<real>): real
    requires |factors| == 3
  {
    match s
    case Attack => factors[0]
    case Decay => factors[1]
    case Release => factors[2]
    case Rest => 1.0
  }

  /** Envelope::message, on the snapshot. */
  function Receive(s: Snapshot, m: Message): (r: Snapshot)
    ensures r.prev == s.prev
  {
    match m
    case On(v) => s.(state := Attack, velocity := v)
    case Off => s.(state := Release)
  }

  /**
   * The first half of a step away from Rest: the state's coefficient and
   * target, and the snapshot after any move to the next state (which pins
   * `prev` onto the target it has reached).
   */
  datatype Approach = Approach(from: Snapshot, factor: real, target: real)

  function Select(s: Snapshot, sustain: real, factors: seq<real>): Approach
    requires |factors| == 3
  {
    match s.state
    case Attack =>
      if s.prev >= s.velocity then
        if s.prev > s.velocity + ATTACK_TOLERANCE then Approach(s, -factors[0], s.velocity)
        else Approach(s.(state := Decay, prev := s.velocity), 1.0, s.velocity)
      else Approach(s, factors[0], s.velocity)
    case Decay =>
      var level := Times(sustain, s.velocity);
      if s.prev <= level then Approach(s.(state := Rest, prev := level), 1.0, level)
      else Approach(s, factors[1], level)
    case Release =>
      if s.prev <= 0.0 then Approach(s.(state := Rest, prev := 0.0), 1.0, 0.0)
      else Approach(s, factors[2], 0.0)
    case Rest => Approach(s, 1.0, s.prev)
  }

  /** The second half: snap the distance, scale it, and record the value emitted. */
  function Emit(a: Approach): Tick {
    var distance := Abs(a.from.prev - a.target);
    var diff := if distance < SNAP_TOLERANCE then 0.0 else distance;
    var envelope := a.target + Times(a.factor, -diff);
    Tick(envelope, a.from.(prev := envelope))
  }

  /** Envelope::process_sample, on the snapshot. */
  function Step(s: Snapshot, sustain: real, factors: seq<real>): Tick
    requires |factors| == 3
  {
    if s.state == Rest then Tick(s.prev, s) else Emit(Select(s, sustain, factors))
  }

  /** The values `n` successive sample steps emit. */
  function Run(s: Snapshot, sustain: real, factors: seq<real>, n: nat): (outs: seq<real>)
    requires |factors| == 3
    ensures |outs| == n
  {
    if n == 0 then []
    else Run(s, sustain, factors, n - 1) + [Step(After(s, sustain, factors, n - 1), sustain, factors).out]
  }

  /** The snapshot after `n` successive sample steps. */
  function After(s: Snapshot, sustain: real, factors: seq<real>, n: nat): Snapshot
    requires |factors| == 3
  {
    if n == 0 then s
    else Step(After(s, sustain, factors, n - 1), sustain, factors).next
  }

  /** One more sample step appends one value and moves the snapshot on. */
  lemma RunNext(s: Snapshot, sustain: real, factors: seq<real>, n: nat)
    requires |factors| == 3
    ensures var t := Step(After(s, sustain, factors, n), sustain, factors);
      Run(s, sustain, factors, n + 1) == Run(s, sustain, factors, n) + [t.out]
      && After(s, sustain, factors, n + 1) == t.next
  {
  }

  // ----- one sample step -----

  /** At Rest a step emits `prev` and changes nothing. */
  lemma RestStep(s: Snapshot, sustain: real, factors: seq<real>)
    requires |factors| == 3 && s.state == Rest
    ensures Step(s, sustain, factors) == Tick(s.prev, s)
  {
  }

  /** After every step `prev` holds the value just emitted; the velocity is kept. */
  lemma StepRecordsOutput(s: Snapshot, sustain: real, factors: seq<real>)
    requires |factors| == 3
    ensures Step(s, sustain, factors).next.prev == Step(s, sustain, factors).out
    ensures Step(s, sustain, factors).next.velocity == s.velocity
  {
  }

  /** Only a message can move an envelope into Attack. */
  lemma StepNeverEntersAttack(s: Snapshot, sustain: real, factors: seq<real>)
    requires |factors| == 3 && s.state != Attack
    ensures Step(s, sustain, factors).next.state != Attack
  {
  }

  /** Moving a fraction `c` of the way back from above a target. */
  lemma FromAbove(target: real, prev: real, c: real)
    requires 0.0 <= c < 1.0 && prev > target
    ensures target <= target + c * (prev - target) < prev
  {
    Shrink(c, prev - target);
  }

  /** Moving a fraction `c` of the way back from below a target. */
  lemma FromBelow(target: real, prev: real, c: real)
    requires 0.0 <= c < 1.0 && prev < target
    ensures prev < target - c * (target - prev) <= target
  {
    Shrink(c, target - prev);
  }

  /**
   * Attack: arriving within ATTACK_TOLERANCE above the velocity moves to
   * Decay and emits exactly the velocity; from below the level rises but
   * never past the velocity; from far above it falls but never below it.
   */
  lemma AttackStep(s: Snapshot, sustain: real, factors: seq<real>)
    requires ValidFactors(factors) && s.state == Attack
    ensures var t := Step(s, sustain, factors);
      && (s.velocity <= s.prev <= s.velocity + ATTACK_TOLERANCE ==>
            t.next.state == Decay && t.out == s.velocity)
      && (s.prev < s.velocity ==>
            t.next.state == Attack && s.prev < t.out <= s.velocity)
      && (s.prev > s.velocity + ATTACK_TOLERANCE ==>
            t.next.state == Attack && s.velocity <= t.out < s.prev)
  {
    var v, p, c := s.velocity, s.prev, factors[0];
    if p > v + ATTACK_TOLERANCE {
      FromAbove(v, p, c);
      assert Step(s, sustain, factors).out == v + c * (p - v);
    } else if p < v && v - p >= SNAP_TOLERANCE {
      FromBelow(v, p, c);
      assert Step(s, sustain, factors).out == v - c * (v - p);
    }
  }

  /**
   * Decay: at or below the sustain level the envelope moves to Rest pinned
   * exactly at sustain times velocity; above it the level falls but never
   * below that level.
   */
  lemma DecayStep(s: Snapshot, sustain: real, factors: seq<real>)
    requires ValidFactors(factors) && s.state == Decay
    ensures var t := Step(s, sustain, factors);
      var level := Times(sustain, s.velocity);
      && (s.prev <= level ==>
            t.next == Snapshot(Rest, s.velocity, level) && t.out == level)
      && (s.prev > level ==>
            t.next.state == Decay && level <= t.out < s.prev)
  {
    var level, p, c := Times(sustain, s.velocity), s.prev, -factors[1];
    if p > level && p - level >= SNAP_TOLERANCE {
      FromAbove(level, p, c);
      assert Step(s, sustain, factors).out == level + c * (p - level);
    }
  }

  /**
   * Release: at or below zero the envelope moves to Rest at exactly zero;
   * above zero, with release coefficient -c, it emits c * prev (zero once
   * prev is within SNAP_TOLERANCE), which lies in [0, prev).
   */
  lemma ReleaseStep(s: Snapshot, sustain: real, factors: seq<real>)
    requires ValidFactors(factors) && s.state == Release
    ensures var t := Step(s, sustain, factors);
      && (s.prev <= 0.0 ==>
            t.next == Snapshot(Rest, s.velocity, 0.0) && t.out == 0.0)
      && (s.prev > 0.0 ==>
            && t.next.state == Release
            && t.out == (if s.prev < SNAP_TOLERANCE then 0.0 else -factors[2] * s.prev)
            && 0.0 <= t.out < s.prev)
  {
    if s.prev >= SNAP_TOLERANCE {
      FromAbove(0.0, s.prev, -factors[2]);
      assert Step(s, sustain, factors).out == 0.0 + -factors[2] * (s.prev - 0.0);
    }
  }

  /** Within SNAP_TOLERANCE of its target a stage emits the target exactly. */
  lemma SnapToTarget(s: Snapshot, sustain: real, factors: seq<real>)
    requires |factors| == 3 && s.state != Rest
    requires Abs(s.prev - Target(s, sustain)) < SNAP_TOLERANCE
    ensures Step(s, sustain, factors).out == Target(s, sustain)
  {
  }

  /** A stage whose coefficient is zero reaches its target in one step. */
  lemma ZeroTimeStage(s: Snapshot, sustain: real, factors: seq<real>)
    requires |factors| == 3 && s.state != Rest
    requires StageFactor(s.state, factors) == 0.0
    ensures Step(s, sustain, factors).out == Target(s, sustain)
  {
  }

  /**
   * Every step moves toward the target: the value emitted lies between
   * `prev` and the target, so no step overshoots or jumps away.
   */
  lemma StepApproachesTarget(s: Snapshot, sustain: real, factors: seq<real>)
    requires ValidFactors(factors)
    ensures var out := Step(s, sustain, factors).out;
      var target := Target(s, sustain);
      Min(s.prev, target) <= out <= Max(s.prev, target)
  {
    match s.state {
      case Rest =>
      case Attack => AttackStep(s, sustain, factors);
      case Decay => DecayStep(s, sustain, factors);
      case Release => ReleaseStep(s, sustain, factors);
    }
  }

  /**
   * A message never makes the next value jump: after On(v) it lies between
   * the old level and v, after Off between the old level and zero.
   */
  lemma MessageThenStepIsSmooth(s: Snapshot, m: Message, sustain: real, factors: seq<real>)
    requires ValidFactors(factors)
    ensures var target := if m.On? then m.velocity else 0.0;
      var out := Step(Receive(s, m), sustain, factors).out;
      Min(s.prev, target) <= out <= Max(s.prev, target)
  {
    StepApproachesTarget(Receive(s, m), sustain, factors);
  }

  // ----- many sample steps -----

  /** Once at Rest the envelope emits `prev` forever and never moves. */
  lemma {:induction false} RestForever(s: Snapshot, sustain: real, factors: seq<real>, n: nat)
    requires |factors| == 3 && s.state == Rest
    ensures After(s, sustain, factors, n) == s
    ensures forall i :: 0 <= i < n ==> Run(s, sustain, factors, n)[i] == s.prev
  {
    if n > 0 {
      RestForever(s, sustain, factors, n - 1);
      RestStep(s, sustain, factors);
    }
  }

  /** A releasing envelope: in Release at a non-negative level, or at rest at zero. */
  predicate Releasing(s: Snapshot) {
    (s.state == Release && s.prev >= 0.0) || (s.state == Rest && s.prev == 0.0)
  }

  /**
   * Release falls monotonically: every value lies in [0, prev], each value
   * is at most the one before, and the envelope stays releasing.
   */
  lemma {:induction false} ReleaseFalls(s: Snapshot, sustain: real, factors: seq<real>, n: nat)
    requires ValidFactors(factors) && Releasing(s)
    ensures Releasing(After(s, sustain, factors, n))
    ensures After(s, sustain, factors, n).prev <= s.prev
    ensures n > 0 ==> After(s, sustain, factors, n).prev == Run(s, sustain, factors, n)[n - 1]
    ensures forall i :: 0 <= i < n ==> 0.0 <= Run(s, sustain, factors, n)[i] <= s.prev
    ensures forall i :: 0 < i < n ==> Run(s, sustain, factors, n)[i] <= Run(s, sustain, factors, n)[i - 1]
  {
    if n > 0 {
      ReleaseFalls(s, sustain, factors, n - 1);
      var t := After(s, sustain, factors, n - 1);
      StepRecordsOutput(t, sustain, factors);
      if t.state == Release {
        ReleaseStep(t, sustain, factors);
      } else {
        RestStep(t, sustain, factors);
      }
      var outs := Run(s, sustain, factors, n);
      assert outs[..n - 1] == Run(s, sustain, factors, n - 1);
    }
  }

  /**
   * Attack from below rises monotonically: as long as the envelope is still
   * in Attack, every value lies in [prev, velocity] and each value is at
   * least the one before.
   */
  lemma {:induction false} AttackRises(s: Snapshot, sustain: real, factors: seq<real>, n: nat)
    requires ValidFactors(factors) && s.state == Attack && s.prev <= s.velocity
    requires After(s, sustain, factors, n).state == Attack
    ensures s.prev <= After(s, sustain, factors, n).prev <= s.velocity
    ensures After(s, sustain, factors, n).velocity == s.velocity
    ensures n > 0 ==> After(s, sustain, factors, n).prev == Run(s, sustain, factors, n)[n - 1]
    ensures forall i :: 0 <= i < n ==> s.prev <= Run(s, sustain, factors, n)[i] <= s.velocity
    ensures forall i :: 0 < i < n ==> Run(s, sustain, factors, n)[i - 1] <= Run(s, sustain, factors, n)[i]
  {
    if n > 0 {
      var t := After(s, sustain, factors, n - 1);
      if t.state != Attack {
        StepNeverEntersAttack(t, sustain, factors);
        assert false;
      }
      AttackRises(s, sustain, factors, n - 1);
      StepRecordsOutput(t, sustain, factors);
      AttackStep(t, sustain, factors);
      var outs := Run(s, sustain, factors, n);
      assert outs[..n - 1] == Run(s, sustain, factors, n - 1);
    }
  }

  /**
   * The level stays where the state allows: never negative, and in Decay
   * between the sustain level and the velocity.
   */
  predicate Legal(s: Snapshot, sustain: real) {
    && s.velocity >= 0.0
    && s.prev >= 0.0
    && (s.state == Decay ==> Times(sustain, s.velocity) <= s.prev <= s.velocity)
  }

  lemma SustainBelowVelocity(sustain: real, velocity: real)
    requires 0.0 <= sustain <= 1.0 && velocity >= 0.0
    ensures 0.0 <= Times(sustain, velocity) <= velocity
  {
    assert sustain * velocity <= 1.0 * velocity;
  }

  /** A step keeps the level legal and below both `prev` and the velocity's maximum. */
  lemma StepKeepsLegal(s: Snapshot, sustain: real, factors: seq<real>)
    requires ValidFactors(factors) && 0.0 <= sustain <= 1.0 && Legal(s, sustain)
    ensures Legal(Step(s, sustain, factors).next, sustain)
    ensures 0.0 <= Step(s, sustain, factors).out <= Max(s.prev, s.velocity)
  {
    SustainBelowVelocity(sustain, s.velocity);
    StepRecordsOutput(s, sustain, factors);
    match s.state {
      case Rest =>
      case Attack => AttackStep(s, sustain, factors);
      case Decay => DecayStep(s, sustain, factors);
      case Release => ReleaseStep(s, sustain, factors);
    }
  }


  /** Both messages keep the level legal when the new velocity is a gain. */
  lemma ReceiveKeepsLegal(s: Snapshot, m: Message, sustain: real)
    requires Legal(s, sustain) && (m.On? ==> m.velocity >= 0.0)
    ensures Legal(Receive(s, m), sustain)
  {
  }

  /**
   * From a legal level, any number of steps emits values in
   * [0, max(prev, velocity)]: the envelope never exceeds where it started
   * or the note's velocity, and never goes negative.
   */
  lemma {:induction false} RunBounded(s: Snapshot, sustain: real, factors: seq<real>, n: nat)
    requires ValidFactors(factors) && 0.0 <= sustain <= 1.0 && Legal(s, sustain)
    ensures Legal(After(s, sustain, factors, n), sustain)
    ensures After(s, sustain, factors, n).velocity == s.velocity
    ensures After(s, sustain, factors, n).prev <= Max(s.prev, s.velocity)
    ensures forall i :: 0 <= i < n ==> 0.0 <= Run(s, sustain, factors, n)[i] <= Max(s.prev, s.velocity)
  {
    if n > 0 {
      RunBounded(s, sustain, factors, n - 1);
      var t := After(s, sustain, factors, n - 1);
      StepKeepsLegal(t, sustain, factors);
      StepRecordsOutput(t, sustain, factors);
      var outs := Run(s, sustain, factors, n);
      assert outs[..n - 1] == Run(s, sustain, factors, n - 1);
    }
  }

  /** Running n steps and then m more is running n + m steps. */
  lemma {:induction false} RunSplit(s: Snapshot, sustain: real, factors: seq<real>, n: nat, m: nat)
    requires |factors| == 3
    ensures After(After(s, sustain, factors, n), sustain, factors, m) == After(s, sustain, factors, n + m)
    ensures Run(s, sustain, factors, n) + Run(After(s, sustain, factors, n), sustain, factors, m)
         == Run(s, sustain, factors, n + m)
  {
    if m > 0 {
      RunSplit(s, sustain, factors, n, m - 1);
    }
  }

  // ----- every stage arrives -----

  /**
   * The least amount a step away from its target, with contraction `c`,
   * closes the distance by while that distance is at least SNAP_TOLERANCE.
   */
  function Progress(c: real): real {
    Times(1.0 - c, SNAP_TOLERANCE)
  }

  /** How far `k` steps, each closing at least `Progress(c)`, get. */
  function Allowance(k: nat, c: real): (r: real)
    requires 0.0 <= c < 1.0
    ensures r >= 0.0
  {
    if k == 0 then 0.0 else Allowance(k - 1, c) + Progress(c)
  }

  lemma {:induction false} AllowanceIsProduct(k: nat, c: real)
    requires 0.0 <= c < 1.0
    ensures Allowance(k, c) == Times(k as real, Progress(c))
  {
    if k > 0 {
      AllowanceIsProduct(k - 1, c);
      TimesDistributes((k - 1) as real, 1.0, Progress(c));
    }
  }

  /** Enough steps of `Progress` to cover a non-negative distance. */
  lemma Budget(distance: real, c: real) returns (k: nat)
    requires distance >= 0.0 && 0.0 <= c < 1.0
    ensures distance <= Allowance(k, c)
  {
    var d := Progress(c);
    assert d > 0.0;
    QuotientSign(distance, d);
    k := (distance / d).Floor + 1;
    AboveQuotient(distance, d, k as real);
    AllowanceIsProduct(k, c);
  }

  /** A distance of at least SNAP_TOLERANCE shrinks by at least `Progress(c)`. */
  lemma Closes(c: real, distance: real, k: nat)
    requires 0.0 <= c < 1.0 && SNAP_TOLERANCE <= distance <= Allowance(k, c)
    ensures k > 0
    ensures Times(c, distance) <= Allowance(k - 1, c)
  {
    var a, b := 1.0 - c, distance - SNAP_TOLERANCE;
    assert a > 0.0 && b >= 0.0;
    assert a * b >= 0.0;
    assert distance - Times(c, distance) == a * b + Progress(c);
  }

  /** A positive distance inside the budget leaves a budget for a snapped step. */
  lemma Snapped(c: real, distance: real, k: nat)
    requires 0.0 <= c < 1.0 && 0.0 < distance <= Allowance(k, c)
    ensures k > 0
  {
  }

  /** One step and then `m` more is `1 + m` steps. */
  lemma StepThen(s: Snapshot, sustain: real, factors: seq<real>, m: nat)
    requires |factors| == 3
    ensures After(s, sustain, factors, 1) == Step(s, sustain, factors).next
    ensures After(Step(s, sustain, factors).next, sustain, factors, m) == After(s, sustain, factors, 1 + m)
  {
    RunSplit(s, sustain, factors, 1, m);
  }

  lemma {:induction false} ReleaseWithin(s: Snapshot, sustain: real, factors: seq<real>, k: nat) returns (n: nat)
    requires ValidFactors(factors) && s.state == Release && s.prev >= 0.0
    requires s.prev <= Allowance(k, -factors[2])
    ensures After(s, sustain, factors, n) == Snapshot(Rest, s.velocity, 0.0)
    decreases k
  {
    var t := Step(s, sustain, factors);
    ReleaseStep(s, sustain, factors);
    StepRecordsOutput(s, sustain, factors);
    if s.prev == 0.0 {
      StepThen(s, sustain, factors, 0);
      n := 1;
    } else {
      if s.prev < SNAP_TOLERANCE {
        Snapped(-factors[2], s.prev, k);
      } else {
        Closes(-factors[2], s.prev, k);
      }
      var m := ReleaseWithin(t.next, sustain, factors, k - 1);
      StepThen(s, sustain, factors, m);
      n := 1 + m;
    }
  }

  /**
   * A release from any non-negative level comes to Rest at exactly zero
   * after finitely many samples: the snap tolerance ends the exponential
   * fall.
   */
  lemma ReleaseReachesRest(s: Snapshot, sustain: real, factors: seq<real>) returns (n: nat)
    requires ValidFactors(factors) && s.state == Release && s.prev >= 0.0
    ensures After(s, sustain, factors, n) == Snapshot(Rest, s.velocity, 0.0)
  {
    var k := Budget(s.prev, -factors[2]);
    n := ReleaseWithin(s, sustain, factors, k);
  }

  /**
   * An attack step that does not hand over to Decay stays in Attack and
   * leaves a distance to the velocity of zero if it snapped, or `c` times
   * the old distance.
   */
  lemma AttackApproach(s: Snapshot, sustain: real, factors: seq<real>)
    requires ValidFactors(factors) && s.state == Attack
    requires !(s.velocity <= s.prev <= s.velocity + ATTACK_TOLERANCE)
    ensures var t := Step(s, sustain, factors);
      var distance := Abs(s.prev - s.velocity);
      && t.next.state == Attack && t.next.velocity == s.velocity
      && Abs(t.next.prev - s.velocity)
         == if distance < SNAP_TOLERANCE then 0.0 else Times(factors[0], distance)
  {
    var v, p := s.velocity, s.prev;
    AttackStep(s, sustain, factors);
    StepRecordsOutput(s, sustain, factors);
    if Abs(p - v) < SNAP_TOLERANCE {
      SnapToTarget(s, sustain, factors);
    } else if p < v {
      assert Step(s, sustain, factors).out == v + Times(factors[0], -(v - p));
    } else {
      assert Step(s, sustain, factors).out == v + Times(-factors[0], -(p - v));
    }
  }

  /** Arriving within ATTACK_TOLERANCE above the velocity, an attack hands over to Decay. */
  lemma AttackHandsOver(s: Snapshot, sustain: real, factors: seq<real>)
    requires ValidFactors(factors) && s.state == Attack
    requires s.velocity <= s.prev <= s.velocity + ATTACK_TOLERANCE
    ensures Step(s, sustain, factors).next == Snapshot(Decay, s.velocity, s.velocity)
  {
  }

  lemma {:induction false} AttackWithin(s: Snapshot, sustain: real, factors: seq<real>, k: nat) returns (n: nat)
    requires ValidFactors(factors) && s.state == Attack
    requires Abs(s.prev - s.velocity) <= Allowance(k, factors[0])
    ensures After(s, sustain, factors, n) == Snapshot(Decay, s.velocity, s.velocity)
    decreases k
  {
    var v, p := s.velocity, s.prev;
    var t := Step(s, sustain, factors);
    if v <= p <= v + ATTACK_TOLERANCE {
      AttackHandsOver(s, sustain, factors);
      StepThen(s, sustain, factors, 0);
      n := 1;
    } else {
      AttackApproach(s, sustain, factors);
      if Abs(p - v) < SNAP_TOLERANCE {
        Snapped(factors[0], Abs(p - v), k);
      } else {
        Closes(factors[0], Abs(p - v), k);
      }
      var m := AttackWithin(t.next, sustain, factors, k - 1);
      StepThen(s, sustain, factors, m);
      n := 1 + m;
    }
  }

  /**
   * An attack from any level arrives at the velocity after finitely many
   * samples and hands over to Decay there.
   */
  lemma AttackReachesDecay(s: Snapshot, sustain: real, factors: seq<real>) returns (n: nat)
    requires ValidFactors(factors) && s.state == Attack
    ensures After(s, sustain, factors, n) == Snapshot(Decay, s.velocity, s.velocity)
  {
    var k := Budget(Abs(s.prev - s.velocity), factors[0]);
    n := AttackWithin(s, sustain, factors, k);
  }

  lemma {:induction false} DecayWithin(s: Snapshot, sustain: real, factors: seq<real>, k: nat) returns (n: nat)
    requires ValidFactors(factors) && s.state == Decay
    requires s.prev - Times(sustain, s.velocity) <= Allowance(k, -factors[1])
    ensures After(s, sustain, factors, n) == Snapshot(Rest, s.velocity, Times(sustain, s.velocity))
    decreases k
  {
    var level, p, c := Times(sustain, s.velocity), s.prev, -factors[1];
    var t := Step(s, sustain, factors);
    DecayStep(s, sustain, factors);
    StepRecordsOutput(s, sustain, factors);
    if p <= level {
      StepThen(s, sustain, factors, 0);
      n := 1;
    } else {
      if p - level < SNAP_TOLERANCE {
        SnapToTarget(s, sustain, factors);
        Snapped(c, p - level, k);
      } else {
        assert t.out == level + Times(-c, -(p - level));
        Closes(c, p - level, k);
      }
      var m := DecayWithin(t.next, sustain, factors, k - 1);
      StepThen(s, sustain, factors, m);
      n := 1 + m;
    }
  }

  /**
   * A decay from any level comes to Rest at exactly sustain times the
   * velocity after finitely many samples.
   */
  lemma DecayReachesRest(s: Snapshot, sustain: real, factors: seq<real>) returns (n: nat)
    requires ValidFactors(factors) && s.state == Decay
    ensures After(s, sustain, factors, n) == Snapshot(Rest, s.velocity, Times(sustain, s.velocity))
  {
    var level := Times(sustain, s.velocity);
    var k := Budget(if s.prev <= level then 0.0 else s.prev - level, -factors[1]);
    n := DecayWithin(s, sustain, factors, k);
  }

  /**
   * A note on with velocity `v` settles: attack and decay run their course
   * and the envelope rests at sustain times `v`.
   */
  lemma NoteSettles(s: Snapshot, v: real, sustain: real, factors: seq<real>) returns (n: nat)
    requires ValidFactors(factors)
    ensures After(Receive(s, On(v)), sustain, factors, n) == Snapshot(Rest, v, Times(sustain, v))
  {
    var a := Receive(s, On(v));
    var attack := AttackReachesDecay(a, sustain, factors);
    var decay := DecayReachesRest(After(a, sustain, factors, attack), sustain, factors);
    RunSplit(a, sustain, factors, attack, decay);
    n := attack + decay;
  }

  /** A note off from a non-negative level falls silent: Rest at exactly zero. */
  lemma NoteFallsSilent(s: Snapshot, sustain: real, factors: seq<real>) returns (n: nat)
    requires ValidFactors(factors) && s.prev >= 0.0
    ensures After(Receive(s, Off), sustain, factors, n) == Snapshot(Rest, s.velocity, 0.0)
  {
    n := ReleaseReachesRest(Receive(s, Off), sustain, factors);
  }

  // ----- applying the envelope to interleaved stereo frames -----

  /** `src` with its first |env| stereo frames scaled, frame k by env[k]. */
  ghost function Scaled(src: seq<real>, env: seq<real>): seq<real>
    requires 2 * |env| <= |src|
  {
    seq(|src|, i requires 0 <= i < |src| => if i < 2 * |env| then Times(src[i], env[i / 2]) else src[i])
  }

  /** Scaling one more frame updates exactly that frame's two samples. */
  lemma ScaledStep(src: seq<real>, env: seq<real>, v: real)
    requires 2 * |env| + 2 <= |src|
    ensures var s, n := Scaled(src, env), 2 * |env|;
      Scaled(src, env + [v]) == s[n := Times(s[n], v)][n + 1 := Times(s[n + 1], v)]
  {
    var s, n := Scaled(src, env), 2 * |env|;
    var a, b := Scaled(src, env + [v]), s[n := Times(s[n], v)][n + 1 := Times(s[n + 1], v)];
    forall i | 0 <= i < |src|
      ensures a[i] == b[i]
    {
      if i < n {
        assert (env + [v])[i / 2] == env[i / 2];
      } else if i < n + 2 {
        assert i / 2 == |env|;
      }
    }
  }

  /** Once every frame is scaled, each sample is scaled by its frame's value. */
  lemma ScaledAll(src: seq<real>, env: seq<real>)
    requires 2 * |env| == |src|
    ensures forall i :: 0 <= i < |src| ==> Scaled(src, env)[i] == src[i] * env[i / 2]
  {
  }

  // ----- the object -----

  /** Envelope: the parameters, their derived coefficients and the running state. */
  class Envelope {
    var params: Adsr
    var factors: seq<real>
    var state: State
    var velocity: real
    var prev: real
    var expFactor: real
    /** f32::exp, fixed for the envelope's lifetime. */
    const exp: real -> real

    ghost predicate Valid()
      reads this
    {
      ValidFactors(factors) && expFactor < 0.0 && ExpOfNegative(exp)
    }

    function Snap(): Snapshot
      reads this
    {
      Snapshot(state, velocity, prev)
    }

    /** Envelope::new: at rest at level zero, coefficients derived from `params`. */
    constructor (sampleRate: nat, params: Adsr, exp: real -> real)
      requires sampleRate > 0 && ExpOfNegative(exp)
      ensures Valid()
      ensures this.params == params
      ensures state == Rest && velocity == 0.0 && prev == 0.0
      ensures expFactor == -TAU * 1000.0 / sampleRate as real
      ensures this.exp == exp
      ensures factors == [CalculateLimitedCte(params.attack),
                          -CalculateLimitedCte(params.decay),
                          -CalculateLimitedCte(params.release)]
    {
      this.params := params;
      this.exp := exp;
      factors := [0.0, 0.0, 0.0];
      state := Rest;
      velocity := 0.0;
      prev := 0.0;
      QuotientSign(-TAU * 1000.0, sampleRate as real);
      expFactor := -TAU * 1000.0 / sampleRate as real;
      new;
      UpdateFactors();
    }

    /**
     * Envelope::calculate_limited_cte: zero for a stage time below
     * ZERO_TIME ms (an instantaneous stage), otherwise exp(expFactor / time),
     * which lies in (0, 1) because expFactor is negative.
     */
    function CalculateLimitedCte(timeMs: real): (c: real)
      reads this
      requires expFactor < 0.0 && ExpOfNegative(exp)
      ensures 0.0 <= c < 1.0
      ensures timeMs < ZERO_TIME ==> c == 0.0
      ensures timeMs >= ZERO_TIME ==> c == exp(expFactor / timeMs)
    {
      if timeMs < ZERO_TIME then 0.0
      else
        QuotientSign(expFactor, timeMs);
        exp(expFactor / timeMs)
    }

    /** Envelope::update_factors: attack rises, decay and release fall. */
    method UpdateFactors()
      requires expFactor < 0.0 && ExpOfNegative(exp)
      modifies this`factors
      ensures Valid()
      ensures factors == [CalculateLimitedCte(params.attack),
                          -CalculateLimitedCte(params.decay),
                          -CalculateLimitedCte(params.release)]
    {
      factors := [CalculateLimitedCte(params.attack),
                  -CalculateLimitedCte(params.decay),
                  -CalculateLimitedCte(params.release)];
    }

    /** Envelope::params: new parameters and their coefficients; the level is kept. */
    method Params(params: Adsr)
      requires Valid()
      modifies this`params, this`factors
      ensures Valid()
      ensures this.params == params
      ensures factors == [CalculateLimitedCte(params.attack),
                          -CalculateLimitedCte(params.decay),
                          -CalculateLimitedCte(params.release)]
    {
      this.params := params;
      UpdateFactors();
    }

    /**
     * Envelope::message: On enters Attack with the new velocity, Off enters
     * Release; neither touches `prev`, so the output does not jump.
     */
    method Message(m: Message)
      requires Valid()
      modifies this`state, this`velocity
      ensures Valid()
      ensures Snap() == Receive(old(Snap()), m)
      ensures prev == old(prev)
      ensures m.On? ==> state == Attack && velocity == m.velocity
      ensures m.Off? ==> state == Release && velocity == old(velocity)
    {
      match m {
        case On(v) =>
          state := Attack;
          velocity := v;
        case Off =>
          state := Release;
      }
    }

    /** Envelope::process_sample: one step of the state machine. */
    method ProcessSample() returns (envelope: real)
      requires Valid()
      modifies this`state, this`prev
      ensures Valid()
      ensures Tick(envelope, Snap()) == Step(old(Snap()), params.sustain, factors)
    {
      if state == Rest {
        envelope := prev;
      } else {
        ghost var before := Snap();
        var factor: real, target: real;
        match state {
          case Attack =>
            if prev >= velocity {
              if prev > velocity + ATTACK_TOLERANCE {
                factor, target := -factors[0], velocity;
              } else {
                state := Decay;
                prev := velocity;
                factor, target := 1.0, velocity;
              }
            } else {
              factor, target := factors[0], velocity;
            }
          case Decay =>
            var level := Times(params.sustain, velocity);
            if prev <= level {
              state := Rest;
              prev := level;
              factor, target := 1.0, level;
            } else {
              factor, target := factors[1], level;
            }
          case Release =>
            if prev <= 0.0 {
              state := Rest;
              prev := 0.0;
              factor, target := 1.0, 0.0;
            } else {
              factor, target := factors[2], 0.0;
            }
          case Rest =>
            factor, target := 1.0, prev;
        }
        assert Approach(Snap(), factor, target) == Select(before, params.sustain, factors);
        var distance := Abs(prev - target);
        var diff := if distance < SNAP_TOLERANCE then 0.0 else distance;
        envelope := target + Times(factor, -diff);
        prev := envelope;
      }
    }

    /**
     * Envelope::process: overwrites every element of `buffer` with
     * successive envelope values, one step per element.
     */
    method Process(buffer: array<real>)
      requires Valid()
      modifies this`state, this`prev, buffer
      ensures Valid()
      ensures buffer[..] == Run(old(Snap()), params.sustain, factors, buffer.Length)
      ensures Snap() == After(old(Snap()), params.sustain, factors, buffer.Length)
    {
      ghost var start, sustain, fs := Snap(), params.sustain, factors;
      for i := 0 to buffer.Length
        invariant params.sustain == sustain && factors == fs
        invariant buffer[..i] == Run(start, sustain, fs, i)
        invariant Snap() == After(start, sustain, fs, i)
      {
        var value := ProcessSample();
        RunNext(start, sustain, fs, i);
        buffer[i] := value;
        assert buffer[..i + 1] == buffer[..i] + [value];
      }
      assert buffer[..] == buffer[..buffer.Length];
    }

    /**
     * The closure process_apply runs on each stereo frame: one envelope
     * step, and both samples of frame k multiplied by its value. With the
     * first k frames of `src` scaled by `env` beforehand, the first k + 1
     * frames are scaled by `env` and the new value afterwards.
     */
    method ApplyToFrame(buffer: array<real>, k: nat, ghost src: seq<real>, ghost env: seq<real>) returns (envelope: real)
      requires Valid() && 2 * k + 1 < buffer.Length
      requires |env| == k && |src| == buffer.Length && buffer[..] == Scaled(src, env)
      modifies this`state, this`prev, buffer
      ensures Valid()
      ensures Tick(envelope, Snap()) == Step(old(Snap()), params.sustain, factors)
      ensures var s := old(buffer[..]);
        buffer[..] == s[2 * k := Times(s[2 * k], envelope)][2 * k + 1 := Times(s[2 * k + 1], envelope)]
      ensures buffer[..] == Scaled(src, env + [envelope])
    {
      envelope := ProcessSample();
      buffer[2 * k] := Times(buffer[2 * k], envelope);
      buffer[2 * k + 1] := Times(buffer[2 * k + 1], envelope);
      ScaledStep(src, env, envelope);
    }

    /**
     * Envelope::process_apply: multiplies both samples of each interleaved
     * stereo frame by the same envelope value, one step per frame. An odd
     * length makes the source panic on the missing right sample.
     */
    method ProcessApply(buffer: array<real>)
      requires Valid() && buffer.Length % 2 == 0
      modifies this`state, this`prev, buffer
      ensures Valid()
      ensures buffer[..] == Scaled(old(buffer[..]), Run(old(Snap()), params.sustain, factors, buffer.Length / 2))
      ensures Snap() == After(old(Snap()), params.sustain, factors, buffer.Length / 2)
    {
      ghost var start, sustain, fs := Snap(), params.sustain, factors;
      ghost var src := buffer[..];
      ghost var outs: seq<real> := [];
      for k := 0 to buffer.Length / 2
        invariant Valid() && params.sustain == sustain && factors == fs
        invariant outs == Run(start, sustain, fs, k)
        invariant Snap() == After(start, sustain, fs, k)
        invariant buffer[..] == Scaled(src, outs)
      {
        var value := ApplyToFrame(buffer, k, src, outs);
        RunNext(start, sustain, fs, k);
        outs := outs + [value];
      }
    }
  }
}
