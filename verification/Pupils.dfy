/**
 Pupil size (src/eyes/EyeController.h, applyAutoPupils, setTargetPupil and setPupil).

 An automatic step adds up seven levels of noise.  Level i moves between two random values over
 2^(i+1) frames and counts for 1/2^(7-i).
 */
module Pupils {
  import opened Arithmetic
  import opened Clock

  const LEVELS: nat := 7
  const FRAMES: nat := 128

  datatype Pupils = Pupils(
    irisFrame: nat, amount: real,
    resizing: bool, resizeStart: real, resizeTarget: real, resizeStartTimeMs: nat, resizeDurationMs: nat,
    irisPrev: seq<real>, irisNext: seq<real>)
  {
    predicate Valid() {
      && irisFrame < FRAMES && InUnit(amount)
      && (resizing ==> InUnit(resizeStart) && InUnit(resizeTarget))
      && AreNoise(irisPrev) && AreNoise(irisNext)
    }
  }

  predicate IsNoise(v: real) {
    -0.5 <= v <= 0.5
  }

  predicate AreNoise(a: seq<real>) {
    |a| == LEVELS && forall i :: 0 <= i < LEVELS ==> IsNoise(a[i])
  }

  /** random(1000), scaled to -0.5..0.5 */
  function Noise(raw: nat): real {
    -0.5 + (raw % 1000) as real / 999.0
  }

  predicate Renews(i: nat, frame: nat) {
    frame % Power(2, i + 1) == 0
  }

  /** The levels after a step at `frame`: a level at the end of its span starts a new one. */
  function SteppedPrev(prev: seq<real>, next: seq<real>, frame: nat): (r: seq<real>)
    requires |prev| == |next| == LEVELS
    ensures |r| == LEVELS
    ensures forall i :: 0 <= i < LEVELS ==> r[i] == if Renews(i, frame) then next[i] else prev[i]
  {
    seq(LEVELS, i requires 0 <= i < LEVELS => if Renews(i, frame) then next[i] else prev[i])
  }

  function SteppedNext(next: seq<real>, frame: nat, draws: seq<nat>): (r: seq<real>)
    requires |next| == |draws| == LEVELS
    ensures |r| == LEVELS
    ensures forall i :: 0 <= i < LEVELS ==> r[i] == if Renews(i, frame) then Noise(draws[i]) else next[i]
  {
    seq(LEVELS, i requires 0 <= i < LEVELS => if Renews(i, frame) then Noise(draws[i]) else next[i])
  }

  /** How far level i is through its span at `frame`, 0 to just below 1. */
  function Weight(i: nat, frame: nat): real {
    (frame % Power(2, i + 1)) as real / Power(2, i + 1) as real
  }

  function Level(prev: seq<real>, next: seq<real>, frame: nat, i: nat): real
    requires |prev| == |next| == LEVELS && i < LEVELS
  {
    Lerp(prev[i], next[i], Weight(i, frame))
  }

  /** The share of the first k levels. */
  function Sum(prev: seq<real>, next: seq<real>, frame: nat, k: nat): real
    requires |prev| == |next| == LEVELS && k <= LEVELS
  {
    if k == 0 then 0.0
    else Sum(prev, next, frame, k - 1) + Level(prev, next, frame, k - 1) / Power(2, LEVELS - (k - 1)) as real
  }

  /** What an automatic step sets the pupil to, before clamping. */
  function Target(prev: seq<real>, next: seq<real>, frame: nat): real
    requires |prev| == |next| == LEVELS
  {
    0.5 + Sum(prev, next, frame, LEVELS)
  }

  function NextFrame(frame: nat): nat {
    if frame + 1 >= FRAMES then 0 else frame + 1
  }

  function AutoStep(p: Pupils, draws: seq<nat>): Pupils
    requires |p.irisPrev| == |p.irisNext| == |draws| == LEVELS
  {
    var prev := SteppedPrev(p.irisPrev, p.irisNext, p.irisFrame);
    var next := SteppedNext(p.irisNext, p.irisFrame, draws);
    p.(irisPrev := prev, irisNext := next,
       amount := Clamped(Target(prev, next, p.irisFrame)),
       irisFrame := NextFrame(p.irisFrame))
  }

  /** A step of a resize started by setTargetPupil. */
  function ResizeStep(p: Pupils, t: nat): Pupils {
    var dt := Since(t, p.resizeStartTimeMs);
    if dt < p.resizeDurationMs then
      p.(amount := Lerp(p.resizeStart, p.resizeTarget, dt as real / p.resizeDurationMs as real))
    else p.(resizing := false, amount := p.resizeTarget)
  }

  /** A resize from the present amount, as setTargetPupil starts it. */
  function Resized(p: Pupils, ratio: real, durationMs: nat, t: nat): Pupils {
    p.(resizing := true, resizeStart := p.amount, resizeTarget := ratio, resizeDurationMs := durationMs,
       resizeStartTimeMs := t)
  }

  function Applied(p: Pupils, auto: bool, t: nat, draws: seq<nat>): Pupils
    requires |p.irisPrev| == |p.irisNext| == |draws| == LEVELS
  {
    if p.resizing then ResizeStep(p, t)
    else if auto then AutoStep(p, draws)
    else p
  }

  // ---------------------------------------------------------------- range

  lemma PowersMeet(i: nat)
    requires i < LEVELS
    ensures Power(2, i + 1) * Power(2, LEVELS - i) == 256
    ensures Power(2, i + 1) == 2 * Power(2, i)
  {
    assert Power(2, 1) == 2 && Power(2, 2) == 4 && Power(2, 3) == 8 && Power(2, 4) == 16;
    assert Power(2, 5) == 32 && Power(2, 6) == 64 && Power(2, 7) == 128;
  }

  lemma NoiseInRange(raw: nat)
    ensures IsNoise(Noise(raw))
  {
    DivMono((raw % 1000) as real, 999.0, 999.0);
  }

  lemma WeightInUnit(i: nat, frame: nat)
    ensures 0.0 <= Weight(i, frame) < 1.0
  {
    FractionInUnit(frame % Power(2, i + 1), Power(2, i + 1));
  }

  lemma LevelIsNoise(prev: seq<real>, next: seq<real>, frame: nat, i: nat)
    requires AreNoise(prev) && AreNoise(next) && i < LEVELS
    ensures IsNoise(Level(prev, next, frame, i))
  {
    WeightInUnit(i, frame);
    LerpBetween(prev[i], next[i], Weight(i, frame));
  }

  lemma SteppedAreNoise(prev: seq<real>, next: seq<real>, frame: nat, draws: seq<nat>)
    requires AreNoise(prev) && AreNoise(next) && |draws| == LEVELS
    ensures AreNoise(SteppedPrev(prev, next, frame)) && AreNoise(SteppedNext(next, frame, draws))
  {
    forall i | 0 <= i < LEVELS ensures IsNoise(Noise(draws[i])) {
      NoiseInRange(draws[i]);
    }
  }

  /** Noise shared out at level i counts for at most 2^i / 256. */
  lemma ShareOfNoise(v: real, i: nat)
    requires IsNoise(v) && i < LEVELS
    ensures var share := Power(2, i) as real / 256.0; -share <= v / Power(2, LEVELS - i) as real <= share
  {
    PowersMeet(i);
    ShareBound(v, 0.5, Power(2, LEVELS - i), Power(2, i + 1));
  }

  /** A value within `size` counts for at most size * q / 256 when p * q == 256. */
  lemma ShareBound(v: real, size: real, p: nat, q: nat)
    requires -size <= v <= size && q * p == 256
    ensures p > 0
    ensures -(size * q as real / 256.0) <= v / p as real <= size * q as real / 256.0
  {
    assert p > 0;
    var a, b := p as real, q as real;
    assert b * a == 256.0 by { assert (q * p) as real == b * a; }
    var share := size * b / 256.0;
    assert share * a == size;
    Quotient(size, a, share);
    assert (-share) * a == -size;
    Quotient(-size, a, -share);
    DivMono(-size, v, a);
    DivMono(v, size, a);
  }

  /** The first k levels together add at most (2^k - 1) / 256. */
  lemma {:induction false} SumInRange(prev: seq<real>, next: seq<real>, frame: nat, k: nat)
    requires AreNoise(prev) && AreNoise(next) && k <= LEVELS
    ensures var bound := (Power(2, k) - 1) as real / 256.0; -bound <= Sum(prev, next, frame, k) <= bound
  {
    if k > 0 {
      SumInRange(prev, next, frame, k - 1);
      LevelIsNoise(prev, next, frame, k - 1);
      ShareOfNoise(Level(prev, next, frame, k - 1), k - 1);
    }
  }

  /** Targets stay strictly inside 0..1, so the clamp never acts. */
  lemma TargetInRange(prev: seq<real>, next: seq<real>, frame: nat)
    requires AreNoise(prev) && AreNoise(next)
    ensures 1.0 / 256.0 <= Target(prev, next, frame) <= 255.0 / 256.0
    ensures Clamped(Target(prev, next, frame)) == Target(prev, next, frame)
  {
    SumInRange(prev, next, frame, LEVELS);
    assert Power(2, 4) == 16 && Power(2, LEVELS) == 128;
  }

  // ---------------------------------------------------------------- what the noise is

  /** A thousand equally spaced values, from one end of the range to the other. */
  lemma NoiseIsSpread(raw: nat)
    requires raw < 1000
    ensures 999.0 * (Noise(raw) + 0.5) == raw as real
    ensures Noise(0) == -0.5 && Noise(999) == 0.5
  {
  }

  /** v is k parts out of m of the way from p to n. */
  predicate IsPartOfWay(v: real, p: real, n: real, k: nat, m: nat) {
    v * m as real == p * (m as real - k as real) + n * k as real
  }

  /** A level goes evenly from the value drawn for one span to that for the next, and is half-way in the middle. */
  lemma LevelGoesEvenly(prev: seq<real>, next: seq<real>, frame: nat, i: nat)
    requires |prev| == |next| == LEVELS && i < LEVELS
    ensures IsPartOfWay(Level(prev, next, frame, i), prev[i], next[i], frame % Power(2, i + 1), Power(2, i + 1))
    ensures frame % Power(2, i + 1) == Power(2, i) ==> Level(prev, next, frame, i) == (prev[i] + next[i]) / 2.0
  {
    var m := Power(2, i + 1);
    var k, w := frame % m, Weight(i, frame);
    PowersMeet(i);
    WeightTimes(k, m, w);
    LevelTimes(prev[i], next[i], w, m, k);
    hide Power, Weight, IsPartOfWay;
    if k == Power(2, i) { HalfWay(prev[i], next[i], w, k as real); }
  }

  lemma WeightTimes(k: nat, m: nat, w: real)
    requires m > 0 && w == k as real / m as real
    ensures w * m as real == k as real
  {
  }

  lemma HalfWay(p: real, n: real, w: real, k: real)
    requires k > 0.0 && w * (2.0 * k) == k
    ensures Lerp(p, n, w) == (p + n) / 2.0
  {
    assert (w - 0.5) * (2.0 * k) == 0.0;
    assert w == 0.5;
  }

  lemma LevelTimes(p: real, n: real, w: real, m: nat, k: nat)
    requires w * m as real == k as real
    ensures IsPartOfWay(Lerp(p, n, w), p, n, k, m)
  {
    Reassociated(n - p, w, m as real);
    var step := (n - p) * w;
    assert step * m as real == (n - p) * k as real;
    assert Lerp(p, n, w) * m as real == p * m as real + step * m as real;
  }

  /** Where all levels start a span, the target is the draws before in shares from 1/128 to 1/2 about the middle. */
  lemma TargetWrittenOut(prev: seq<real>, next: seq<real>, draws: seq<nat>)
    requires |prev| == |next| == |draws| == LEVELS
    ensures Target(SteppedPrev(prev, next, 0), SteppedNext(next, 0, draws), 0)
         == 0.5 + next[0] / 128.0 + next[1] / 64.0 + next[2] / 32.0 + next[3] / 16.0 + next[4] / 8.0 + next[5] / 4.0
            + next[6] / 2.0
  {
    var p, n := SteppedPrev(prev, next, 0), SteppedNext(next, 0, draws);
    forall i | 0 <= i < LEVELS ensures Level(p, n, 0, i) == next[i] {
      PowersMeet(i);
      assert Weight(i, 0) == 0.0 by { Quotient(0.0, Power(2, i + 1) as real, 0.0); }
      LerpEnds(next[i], n[i]);
    }
    assert Power(2, 1) == 2 && Power(2, 2) == 4 && Power(2, 3) == 8 && Power(2, 4) == 16;
    assert Power(2, 5) == 32 && Power(2, 6) == 64 && Power(2, 7) == 128;
    hide Level, Power;
    SumOfSeven(p, n, 0);
  }

  lemma SumOfSeven(p: seq<real>, n: seq<real>, frame: nat)
    requires |p| == |n| == LEVELS
    ensures Sum(p, n, frame, LEVELS)
         == Level(p, n, frame, 0) / Power(2, 7) as real + Level(p, n, frame, 1) / Power(2, 6) as real
            + Level(p, n, frame, 2) / Power(2, 5) as real + Level(p, n, frame, 3) / Power(2, 4) as real
            + Level(p, n, frame, 4) / Power(2, 3) as real + Level(p, n, frame, 5) / Power(2, 2) as real
            + Level(p, n, frame, 6) / Power(2, 1) as real
  {
    hide Level, Power;
    assert Sum(p, n, frame, 0) == 0.0;
    assert Sum(p, n, frame, 2) == Sum(p, n, frame, 1) + Level(p, n, frame, 1) / Power(2, 6) as real;
    assert Sum(p, n, frame, 4) == Sum(p, n, frame, 3) + Level(p, n, frame, 3) / Power(2, 4) as real;
    assert Sum(p, n, frame, 6) == Sum(p, n, frame, 5) + Level(p, n, frame, 5) / Power(2, 2) as real;
  }

  /** A resize starts where the pupil is, goes evenly, and is at its target once its time is up. */
  lemma ResizeGoesEvenly(p: Pupils, ratio: real, durationMs: nat, start: nat, t: nat)
    requires start <= t
    ensures var p' := ResizeStep(Resized(p, ratio, durationMs, Reading(start)), Reading(t));
      var dt := (t - start) % WRAP;
      if dt >= durationMs then p'.amount == ratio && !p'.resizing
      else p'.resizing && (p'.amount - p.amount) * durationMs as real == (ratio - p.amount) * dt as real
  {
    SinceIsElapsed(t, start);
    var dt := (t - start) % WRAP;
    if dt < durationMs {
      var f := dt as real / durationMs as real;
      assert f * durationMs as real == dt as real;
      Reassociated(ratio - p.amount, f, durationMs as real);
    }
  }

  // ---------------------------------------------------------------- smoothness

  /** Positions within a span advance by one, also over the wrap from the last frame to the first. */
  lemma NextPosition(frame: nat, i: nat)
    requires frame < FRAMES && i < LEVELS
    ensures var m := Power(2, i + 1);
      NextFrame(frame) % m == if frame % m == m - 1 then 0 else frame % m + 1
  {
    if frame + 1 < FRAMES { NextRemainder(frame, Power(2, i + 1)); } else { LastRemainder(i); }
  }

  lemma NextRemainder(n: nat, m: nat)
    requires m > 0
    ensures (n + 1) % m == if n % m == m - 1 then 0 else n % m + 1
  {
    var d, b := n / m, n % m;
    assert n == m * d + b;
    if b == m - 1 {
      assert m * (d + 1) == m * d + m;
      RemainderIs(n + 1, m, d + 1, 0);
    } else {
      RemainderIs(n + 1, m, d, b + 1);
    }
  }

  lemma RemainderIs(n: nat, m: nat, d: nat, r: nat)
    requires n == m * d + r && r < m
    ensures n % m == r
  {
    assert (n / m - d) * m == r - n % m;
    Multiples(n / m - d, m);
  }

  lemma LastRemainder(i: nat)
    requires i < LEVELS
    ensures (FRAMES - 1) % Power(2, i + 1) == Power(2, i + 1) - 1
  {
    assert Power(2, 1) == 2 && Power(2, 2) == 4 && Power(2, 3) == 8 && Power(2, 4) == 16;
    assert Power(2, 5) == 32 && Power(2, 6) == 64 && Power(2, 7) == 128;
  }

  /** How far level i is through its span just before the step at NextFrame(frame), 1 at its end. */
  function Approach(i: nat, frame: nat): real {
    if Renews(i, NextFrame(frame)) then 1.0 else Weight(i, NextFrame(frame))
  }

  lemma OneMore(b: nat, m: nat)
    requires b < m
    ensures (b + 1) as real / m as real - b as real / m as real == 1.0 / m as real
    ensures b == m - 1 ==> (b + 1) as real / m as real == 1.0
  {
    QuotientDifference(b as real, (b + 1) as real, m as real);
    assert (b + 1) as real - b as real == 1.0;
    Quotient(m as real, m as real, 1.0);
  }

  lemma WeightStep(i: nat, frame: nat)
    requires frame < FRAMES && i < LEVELS
    ensures Approach(i, frame) - Weight(i, frame) == 1.0 / Power(2, i + 1) as real
  {
    var m := Power(2, i + 1);
    NextPosition(frame, i);
    OneMore(frame % m, m);
  }

  /** A level that starts a new span starts it where the old one ends. */
  lemma SteppedLevel(prev: seq<real>, next: seq<real>, frame: nat, draws: seq<nat>, i: nat)
    requires AreNoise(prev) && AreNoise(next) && |draws| == LEVELS && i < LEVELS
    ensures var frame' := NextFrame(frame);
      Level(SteppedPrev(prev, next, frame'), SteppedNext(next, frame', draws), frame', i)
      == Lerp(prev[i], next[i], Approach(i, frame))
  {
    if Renews(i, NextFrame(frame)) {
      assert Weight(i, NextFrame(frame)) == 0.0 by { Quotient(0.0, Power(2, i + 1) as real, 0.0); }
      LerpEnds(prev[i], next[i]);
      LerpEnds(next[i], Noise(draws[i]));
    }
  }

  lemma LevelStep(p: real, n: real, w: real, w': real, u: real)
    requires IsNoise(p) && IsNoise(n) && u > 0.0 && w' - w == u
    ensures -u <= Lerp(p, n, w') - Lerp(p, n, w) <= u
  {
    LerpDifference(p, n, w, w');
    ScaledStep(n - p, u, u, (n - p) * u);
  }

  /** From one step to the next a level moves at most 1 / 2^(i+1), also when it starts a new span. */
  lemma LevelIsSmooth(prev: seq<real>, next: seq<real>, frame: nat, draws: seq<nat>, i: nat)
    requires AreNoise(prev) && AreNoise(next) && |draws| == LEVELS && frame < FRAMES && i < LEVELS
    ensures var frame' := NextFrame(frame);
      var d := Level(SteppedPrev(prev, next, frame'), SteppedNext(next, frame', draws), frame', i)
               - Level(prev, next, frame, i);
      var u := 1.0 / Power(2, i + 1) as real; -u <= d <= u
  {
    SteppedLevel(prev, next, frame, draws, i);
    WeightStep(i, frame);
    var u := 1.0 / Power(2, i + 1) as real;
    assert u > 0.0;
    LevelStep(prev[i], next[i], Weight(i, frame), Approach(i, frame), u);
  }

  lemma ShareOfMove(a: real, b: real, i: nat)
    requires i < LEVELS
    requires var u := 1.0 / Power(2, i + 1) as real; -u <= b - a <= u
    ensures -1.0 / 256.0 <= b / Power(2, LEVELS - i) as real - a / Power(2, LEVELS - i) as real <= 1.0 / 256.0
  {
    var p, q := Power(2, LEVELS - i), Power(2, i + 1);
    PowersMeet(i);
    QuotientDifference(a, b, p as real);
    var u := 1.0 / q as real;
    assert u * q as real == 1.0;
    ShareBound(b - a, u, p, q);
  }

  /** Each level's movement counts for at most 1/256. */
  lemma {:induction false} SumIsSmooth(prev: seq<real>, next: seq<real>, frame: nat, draws: seq<nat>, k: nat)
    requires AreNoise(prev) && AreNoise(next) && |draws| == LEVELS && frame < FRAMES && k <= LEVELS
    ensures var frame' := NextFrame(frame);
      var d := Sum(SteppedPrev(prev, next, frame'), SteppedNext(next, frame', draws), frame', k)
               - Sum(prev, next, frame, k);
      -(k as real / 256.0) <= d <= k as real / 256.0
  {
    if k > 0 {
      SumIsSmooth(prev, next, frame, draws, k - 1);
      LevelIsSmooth(prev, next, frame, draws, k - 1);
      var frame' := NextFrame(frame);
      ShareOfMove(Level(prev, next, frame, k - 1),
                  Level(SteppedPrev(prev, next, frame'), SteppedNext(next, frame', draws), frame', k - 1), k - 1);
    }
  }

  // ---------------------------------------------------------------- runs

  /** Every step keeps the amount in 0..1 and the noise in range, for any draws and any clock. */
  lemma StepIsValid(p: Pupils, auto: bool, t: nat, draws: seq<nat>)
    requires p.Valid() && |draws| == LEVELS
    ensures Applied(p, auto, t, draws).Valid()
  {
    if p.resizing {
      var dt := Since(t, p.resizeStartTimeMs);
      if dt < p.resizeDurationMs {
        FractionInUnit(dt, p.resizeDurationMs);
        LerpBetween(p.resizeStart, p.resizeTarget, dt as real / p.resizeDurationMs as real);
      }
    } else {
      SteppedAreNoise(p.irisPrev, p.irisNext, p.irisFrame, draws);
    }
  }

  /** A resize keeps the pupils in range at all times exactly when it is to a ratio in range, for it is not clamped. */
  lemma ResizeIsValidExactlyWhen(p: Pupils, ratio: real, durationMs: nat, start: nat)
    requires p.Valid() && durationMs < WRAP
    ensures (forall t {:trigger Reading(t)} :: t >= start ==>
               InUnit(ResizeStep(Resized(p, ratio, durationMs, Reading(start)), Reading(t)).amount))
       <==> InUnit(ratio)
  {
    var p' := Resized(p, ratio, durationMs, Reading(start));
    if InUnit(ratio) {
      forall t | t >= start ensures InUnit(ResizeStep(p', Reading(t)).amount) {
        StepIsValid(p', false, Reading(t), [0, 0, 0, 0, 0, 0, 0]);
      }
    } else {
      SinceIsElapsed(start + durationMs, start);
      assert ResizeStep(p', Reading(start + durationMs)).amount == ratio;
    }
  }

  /** The amounts drawn by a run of automatic steps. */
  function Amounts(p: Pupils, draws: seq<seq<nat>>): seq<real>
    requires |p.irisPrev| == |p.irisNext| == LEVELS
    requires forall k :: 0 <= k < |draws| ==> |draws[k]| == LEVELS
    decreases |draws|
  {
    if draws == [] then []
    else
      var p' := AutoStep(p, draws[0]);
      [p'.amount] + Amounts(p', draws[1..])
  }

  /** Amounts that stay within 1/256 and 255/256 and move at most 7/256 at a time. */
  predicate Smooth(from: real, a: seq<real>)
    decreases |a|
  {
    a == [] ||
    (1.0 / 256.0 <= a[0] <= 255.0 / 256.0 && -7.0 / 256.0 <= a[0] - from <= 7.0 / 256.0 && Smooth(a[0], a[1..]))
  }

  /** p is what a step at `frame` left behind. */
  predicate Follows(p: Pupils, frame: nat) {
    p.Valid() && frame < FRAMES && p.irisFrame == NextFrame(frame) && p.amount == Target(p.irisPrev, p.irisNext, frame)
  }

  lemma StepFollows(p: Pupils, draws: seq<nat>)
    requires p.Valid() && |draws| == LEVELS
    ensures var p' := AutoStep(p, draws); Follows(p', p.irisFrame) && 1.0 / 256.0 <= p'.amount <= 255.0 / 256.0
  {
    SteppedAreNoise(p.irisPrev, p.irisNext, p.irisFrame, draws);
    var p' := AutoStep(p, draws);
    TargetInRange(p'.irisPrev, p'.irisNext, p.irisFrame);
  }

  lemma {:induction false} AmountsAreSmooth(p: Pupils, frame: nat, draws: seq<seq<nat>>)
    requires Follows(p, frame)
    requires forall k :: 0 <= k < |draws| ==> |draws[k]| == LEVELS
    ensures Smooth(p.amount, Amounts(p, draws))
    decreases |draws|
  {
    if draws != [] {
      var p' := AutoStep(p, draws[0]);
      StepFollows(p, draws[0]);
      SumIsSmooth(p.irisPrev, p.irisNext, frame, draws[0], LEVELS);
      AmountsAreSmooth(p', p.irisFrame, draws[1..]);
      assert Amounts(p, draws)[1..] == Amounts(p', draws[1..]);
    }
  }

  /** Over any run of automatic steps and any draws the pupil stays in its band and moves at most 7/256 per step. */
  lemma PupilRun(p: Pupils, draws: seq<seq<nat>>)
    requires p.Valid() && draws != []
    requires forall k :: 0 <= k < |draws| ==> |draws[k]| == LEVELS
    ensures var a := Amounts(p, draws); 1.0 / 256.0 <= a[0] <= 255.0 / 256.0 && Smooth(a[0], a[1..])
  {
    var p' := AutoStep(p, draws[0]);
    StepFollows(p, draws[0]);
    AmountsAreSmooth(p', p.irisFrame, draws[1..]);
    assert Amounts(p, draws)[1..] == Amounts(p', draws[1..]);
  }

  // ---------------------------------------------------------------- the step in place

  lemma LerpAsWeights(a: real, b: real, w: real)
    ensures a * (1.0 - w) + b * w == Lerp(a, b, w)
  {
  }

  /** The fractal subdivision: updates both arrays and adds up the levels. */
  method AutoLevels(irisPrev: array<real>, irisNext: array<real>, frame: nat, draws: seq<nat>) returns (sum: real)
    requires irisPrev != irisNext && irisPrev.Length == irisNext.Length == |draws| == LEVELS
    modifies irisPrev, irisNext
    ensures irisPrev[..] == SteppedPrev(old(irisPrev[..]), old(irisNext[..]), frame)
    ensures irisNext[..] == SteppedNext(old(irisNext[..]), frame, draws)
    ensures sum == Target(irisPrev[..], irisNext[..], frame)
  {
    ghost var prev := SteppedPrev(irisPrev[..], irisNext[..], frame);
    ghost var next := SteppedNext(irisNext[..], frame, draws);
    sum := 0.5;
    for i := 0 to LEVELS
      invariant forall j :: 0 <= j < i ==> irisPrev[j] == prev[j] && irisNext[j] == next[j]
      invariant forall j :: i <= j < LEVELS ==> irisPrev[j] == old(irisPrev[j]) && irisNext[j] == old(irisNext[j])
      invariant sum == 0.5 + Sum(prev, next, frame, i)
    {
      var iexp := Power(2, i + 1);
      var ibits := frame % iexp;
      var n;
      if ibits != 0 {
        var weight := ibits as real / iexp as real;
        n := irisPrev[i] * (1.0 - weight) + irisNext[i] * weight;
        LerpAsWeights(irisPrev[i], irisNext[i], weight);
      } else {
        n := irisNext[i];
        irisPrev[i] := irisNext[i];
        irisNext[i] := Noise(draws[i]);
        assert Weight(i, frame) == 0.0 by { Quotient(0.0, iexp as real, 0.0); }
        LerpEnds(irisPrev[i], irisNext[i]);
      }
      assert n == Level(prev, next, frame, i);
      iexp := Power(2, LEVELS - i);
      sum := sum + n / iexp as real;
    }
    assert irisPrev[..] == prev && irisNext[..] == next;
  }
}
