/**
 Blinks and held eyelids (src/eyes/eyes.h, EyeBlink; src/eyes/EyeController.h, wink, openness,
 updateBlinkState and setOpenness).  Times inside are 32-bit clock readings.
 */
module Lids {
  import opened Arithmetic
  import opened Clock

  datatype BlinkState = NotBlinking | BlinkClosing | BlinkOpening

  const LID_MOVE_MS: nat := 150

  /** The fields of an eye's blink state. */
  datatype Lid = Lid(
    state: BlinkState, durationMs: nat, startTimeMs: nat, blinkFactor: real,
    openFrom: real, openTo: real, openStartMs: nat, openDurationMs: nat,
    reopenPending: bool, reopenAtMs: nat)
  {
    predicate Valid() {
      && InUnit(blinkFactor) && InUnit(openFrom) && InUnit(openTo)
      && (state == BlinkClosing ==> 50 <= durationMs < 100)
      && (state == BlinkOpening ==> 100 <= durationMs <= 198)
    }
  }

  const OPEN_LID: Lid := Lid(NotBlinking, 0, 0, 0.0, 1.0, 1.0, 0, 0, false, 0)

  /** The openness that was asked for, at clock reading t: blinks are left out. */
  function Openness(b: Lid, t: nat): real {
    var dt := Since(t, b.openStartMs);
    if dt >= b.openDurationMs then b.openTo
    else Lerp(b.openFrom, b.openTo, dt as real / b.openDurationMs as real)
  }

  function Winked(b: Lid, duration: nat, t: nat): Lid {
    if b.state == NotBlinking then b.(state := BlinkClosing, startTimeMs := t, durationMs := duration) else b
  }

  /** A cast to int32_t that is not negative. */
  predicate NotNegative(dt: nat) {
    dt < HALF_WRAP
  }

  predicate ReopensAt(b: Lid, t: nat) {
    b.reopenPending && NotNegative(Since(t, b.reopenAtMs))
  }

  function Reopened(b: Lid, t: nat): Lid {
    if ReopensAt(b, t) then
      b.(reopenPending := false, openFrom := Openness(b, t), openTo := 1.0, openStartMs := t,
         openDurationMs := LID_MOVE_MS)
    else b
  }

  predicate PhaseIsOver(b: Lid, t: nat) {
    b.state != NotBlinking && Since(t, b.startTimeMs) >= b.durationMs
  }

  function Advanced(b: Lid, t: nat): Lid {
    if !PhaseIsOver(b, t) then b
    else if b.state == BlinkClosing then
      b.(state := BlinkOpening, durationMs := b.durationMs * 2 % WRAP, startTimeMs := t)
    else b.(state := NotBlinking)
  }

  /** The blink's own contribution at this frame, 0 (none) to 1 (closed). */
  function BlinkAmount(b: Lid, t: nat): real {
    if b.state == NotBlinking then 0.0
    else if PhaseIsOver(b, t) then if b.state == BlinkClosing then 1.0 else 0.0
    else
      var f := Since(t, b.startTimeMs) as real / b.durationMs as real;
      if b.state == BlinkOpening then 1.0 - f else f
  }

  function Updated(b: Lid, t: nat): Lid {
    Advanced(Reopened(b, t), t)
  }

  /** How closed the lids are at this frame, blink and hold together: 0 open, 1 closed. */
  function Closure(b: Lid, t: nat): real {
    Combined(Openness(Reopened(b, t), t), BlinkAmount(b, t))
  }

  /** Openness and blink together, as how closed the lids are. */
  function Combined(open: real, blink: real): real {
    1.0 - open * (1.0 - blink)
  }

  /** The state after a whole frame, which remembers the closure it was drawn with. */
  function Framed(b: Lid, t: nat): Lid {
    Updated(b, t).(blinkFactor := Closure(b, t))
  }

  function HeldOpen(b: Lid, level: real, holdMs: nat, durationMs: nat, t: nat): Lid {
    b.(openFrom := Openness(b, t), openTo := Clamped(level), openStartMs := t, openDurationMs := durationMs,
       reopenPending := holdMs > 0, reopenAtMs := (t + durationMs + holdMs) % WRAP)
  }

  // ---------------------------------------------------------------- ranges

  lemma OpennessInUnit(b: Lid, t: nat)
    requires b.Valid()
    ensures InUnit(Openness(b, t))
  {
    var dt := Since(t, b.openStartMs);
    if dt < b.openDurationMs {
      FractionInUnit(dt, b.openDurationMs);
      LerpBetween(b.openFrom, b.openTo, dt as real / b.openDurationMs as real);
    }
  }

  lemma BlinkAmountInUnit(b: Lid, t: nat)
    ensures InUnit(BlinkAmount(b, t))
  {
    if b.state != NotBlinking && !PhaseIsOver(b, t) {
      FractionInUnit(Since(t, b.startTimeMs), b.durationMs);
    }
  }

  lemma CombinedInUnit(open: real, blink: real)
    requires InUnit(open) && InUnit(blink)
    ensures InUnit(Combined(open, blink))
    ensures blink == 1.0 ==> Combined(open, blink) == 1.0
    ensures blink == 0.0 ==> Combined(open, blink) == 1.0 - open
  {
    var rest := 1.0 - blink;
    PartOf(open, rest);
    assert Combined(open, blink) == 1.0 - open * rest;
  }

  lemma ReopenedIsValid(b: Lid, t: nat)
    requires b.Valid()
    ensures Reopened(b, t).Valid()
  {
    OpennessInUnit(b, t);
  }

  lemma AdvancedIsValid(b: Lid, t: nat)
    requires b.Valid()
    ensures Advanced(b, t).Valid()
  {
  }

  /** A frame keeps the lids' state in range, and the closure it draws with; a full blink closes them completely. */
  lemma FrameKeepsRange(b: Lid, t: nat)
    requires b.Valid()
    ensures Updated(b, t).Valid() && InUnit(Closure(b, t))
    ensures BlinkAmount(b, t) == 1.0 ==> Closure(b, t) == 1.0
  {
    var r := Reopened(b, t);
    ReopenedIsValid(b, t);
    AdvancedIsValid(r, t);
    var open, blink := Openness(r, t), BlinkAmount(b, t);
    assert InUnit(open) by { OpennessInUnit(r, t); }
    assert InUnit(blink) by { BlinkAmountInUnit(b, t); }
    CombinedInUnit(open, blink);
  }

  /** So does every request made between frames. */
  lemma RequestsKeepRange(b: Lid, t: nat, duration: nat, level: real, holdMs: nat, durationMs: nat)
    requires b.Valid() && 50 <= duration < 100
    ensures Winked(b, duration, t).Valid()
    ensures HeldOpen(b, level, holdMs, durationMs, t).Valid()
  {
    OpennessInUnit(b, t);
  }

  // ---------------------------------------------------------------- no jumps

  /** Reopening leaves the lids where they are at that instant. */
  lemma ReopeningIsContinuous(b: Lid, t: nat)
    ensures Openness(Reopened(b, t), t) == Openness(b, t)
  {
    if ReopensAt(b, t) {
      assert Since(t, t) == 0;
      assert 0 as real / LID_MOVE_MS as real == 0.0;
      LerpDifference(Openness(b, t), 1.0, 0.0, 0.0);
    }
  }

  /** A new openness takes effect smoothly exactly when it is given time, or changes nothing. */
  lemma SettingIsContinuous(b: Lid, level: real, holdMs: nat, durationMs: nat, t: nat)
    ensures Openness(HeldOpen(b, level, holdMs, durationMs, t), t) == Openness(b, t)
       <==> durationMs > 0 || Clamped(level) == Openness(b, t)
  {
    assert Since(t, t) == 0;
    if durationMs > 0 {
      assert 0 as real / durationMs as real == 0.0;
    }
  }

  /** From time t to t' the lids move at most their share of a whole movement. */
  predicate MovesEvenly(b: Lid, t: nat, t': nat)
    requires b.openDurationMs > 0 && t <= t'
  {
    var rate := (t' - t) as real / b.openDurationMs as real;
    -rate <= Openness(b, Reading(t')) - Openness(b, Reading(t)) <= rate
  }

  /** So they do between any two frames unless the clock wraps, counted from the start of the movement. */
  lemma OpennessIsSmooth(b: Lid, start: nat, t: nat, t': nat)
    requires b.Valid() && b.openStartMs == Reading(start) && b.openDurationMs > 0
    requires start <= t <= t' && (t - start) / WRAP == (t' - start) / WRAP
    ensures MovesEvenly(b, t, t')
  {
    SinceIsElapsed(t, start);
    SinceIsElapsed(t', start);
    var d, dt, dt' := b.openDurationMs, (t - start) % WRAP, (t' - start) % WRAP;
    assert dt' - dt == t' - t;
    OpennessFromProgress(b, t, dt);
    OpennessFromProgress(b, t', dt');
    ProgressIsSmooth(dt, dt', d);
    LerpIsSmooth(b.openFrom, b.openTo, Progress(dt, d), Progress(dt', d), (t' - t) as real / d as real);
  }

  /** And for ever, exactly if the movement as a whole is so small that replaying it at a wrap is no jump. */
  lemma SmoothExactlyWhen(b: Lid, start: nat)
    requires b.Valid() && b.openStartMs == Reading(start) && 0 < b.openDurationMs < WRAP
    ensures (forall t, t' :: start <= t <= t' ==> MovesEvenly(b, t, t'))
            <==> Abs(b.openTo - b.openFrom) <= 1.0 / b.openDurationMs as real
  {
    hide MovesEvenly, Openness;
    if Abs(b.openTo - b.openFrom) <= 1.0 / b.openDurationMs as real {
      forall t, t' | start <= t <= t' ensures MovesEvenly(b, t, t') {
        SmallWayIsSmooth(b, t, t');
      }
    } else {
      ReplayIsNoticed(b, start);
    }
  }

  lemma SmallWayIsSmooth(b: Lid, t: nat, t': nat)
    requires b.openDurationMs > 0 && t <= t' && Abs(b.openTo - b.openFrom) <= 1.0 / b.openDurationMs as real
    ensures MovesEvenly(b, t, t')
  {
    OpennessOnTheWay(b, t);
    OpennessOnTheWay(b, t');
    var rate := (t' - t) as real / b.openDurationMs as real;
    if t < t' { DivMono(1.0, (t' - t) as real, b.openDurationMs as real); }
    hide Openness;
  }

  lemma ReplayIsNoticed(b: Lid, start: nat)
    requires b.openStartMs == Reading(start) && 0 < b.openDurationMs < WRAP
    requires Abs(b.openTo - b.openFrom) > 1.0 / b.openDurationMs as real
    ensures !MovesEvenly(b, start + WRAP - 1, start + WRAP)
  {
    var t, t' := start + WRAP - 1, start + WRAP;
    SinceIsElapsed(t, start);
    SinceIsElapsed(t', start);
    ShiftedByWraps(0, 1);
    OpennessFromProgress(b, t, WRAP - 1);
    OpennessFromProgress(b, t', 0);
    LerpEnds(b.openFrom, b.openTo);
    assert Progress(WRAP - 1, b.openDurationMs) == 1.0 && Progress(0, b.openDurationMs) == 0.0;
    hide Openness, Lerp, Since, Reading;
  }

  /** The openness is between where a movement starts and where it ends. */
  lemma OpennessOnTheWay(b: Lid, t: nat)
    ensures var o := Openness(b, Reading(t)); b.openFrom <= o <= b.openTo || b.openTo <= o <= b.openFrom
  {
    var dt := Since(Reading(t), b.openStartMs);
    if dt < b.openDurationMs {
      FractionInUnit(dt, b.openDurationMs);
      LerpBetween(b.openFrom, b.openTo, dt as real / b.openDurationMs as real);
    }
  }

  function Progress(dt: nat, duration: nat): real
    requires duration > 0
  {
    if dt >= duration then 1.0 else dt as real / duration as real
  }

  lemma OpennessFromProgress(b: Lid, t: nat, dt: nat)
    requires b.openDurationMs > 0 && Since(Reading(t), b.openStartMs) == dt
    ensures Openness(b, Reading(t)) == Lerp(b.openFrom, b.openTo, Progress(dt, b.openDurationMs))
  {
  }

  lemma ProgressIsSmooth(dt: nat, dt': nat, d: nat)
    requires d > 0 && dt <= dt'
    ensures 0.0 <= Progress(dt', d) - Progress(dt, d) <= (dt' - dt) as real / d as real
  {
    var x, y, k := dt as real, dt' as real, d as real;
    QuotientDifference(x, y, k);
    Quotient(k, k, 1.0);
    DivMono(x, y, k);
    if dt < d { DivMono(x, k, k); }
    if dt' >= d { DivMono(k, y, k); }
  }
  // ---------------------------------------------------------------- blink and hold together

  /** What is left of the openness is the share that the blink leaves. */
  lemma ClosureIsShare(b: Lid, t: nat)
    ensures 1.0 - Closure(b, t) == Openness(b, t) * (1.0 - BlinkAmount(b, t))
  {
    ReopeningIsContinuous(b, t);
  }

  /** Lids held half open, half-way into a blink: three quarters closed. */
  lemma HalfwayBlink()
    ensures Closure(OPEN_LID.(state := BlinkClosing, durationMs := 50, openFrom := 0.5, openTo := 0.5), 25) == 0.75
  {
    assert Since(25, 0) == 25;
  }

  /** The closure moves no faster than openness and blink together. */
  lemma CombinedIsSmooth(open: real, open': real, blink: real, blink': real)
    requires InUnit(open) && InUnit(open') && InUnit(blink) && InUnit(blink')
    ensures var most := Abs(open' - open) + Abs(blink' - blink);
      -most <= Combined(open', blink') - Combined(open, blink) <= most
  {
    var a, b := (open - open') * (1.0 - blink'), open * (blink' - blink);
    assert Combined(open', blink') - Combined(open, blink) == a + b;
    StepBounds(open - open', 1.0 - blink', a);
    StepBounds(blink' - blink, open, b);
  }
  // ---------------------------------------------------------------- getting there

  /** Lids told to move to a level are there once the time given is up, and before that only if they already were. */
  lemma LevelIsReached(b: Lid, level: real, holdMs: nat, durationMs: nat, start: nat, t: nat)
    requires start <= t < start + WRAP
    ensures var b' := HeldOpen(b, level, holdMs, durationMs, Reading(start));
      Openness(b', Reading(t)) == Clamped(level)
      <==> t >= start + durationMs || Clamped(level) == Openness(b, Reading(start))
  {
    SinceIsElapsed(t, start);
    if t < start + durationMs {
      FractionInUnit(t - start, durationMs);
      LerpReaches(Openness(b, Reading(start)), Clamped(level), (t - start) as real / durationMs as real);
    }
  }

  lemma LerpReaches(a: real, b: real, f: real)
    requires 0.0 <= f < 1.0
    ensures Lerp(a, b, f) == b <==> a == b
  {
    var rest := 1.0 - f;
    assert b - Lerp(a, b, f) == (b - a) * rest;
    if a < b { MulStrict(rest, 0.0, b - a); }
    if a > b { MulStrict(rest, 0.0, a - b); }
  }

  /** Lids that reopen are fully open 150 ms later. */
  lemma ReopenedIsOpen(b: Lid, start: nat, t: nat)
    requires ReopensAt(b, Reading(start)) && start + 150 <= t < start + WRAP
    ensures Openness(Reopened(b, Reading(start)), Reading(t)) == 1.0
  {
    SinceIsElapsed(t, start);
  }
}
