/**
 Whole runs of automatic eye movement, on a clock that wraps.  How far the gaze can drift from the
 centre is counted in microsaccades since the last big saccade landed; how many of those there can be
 is a matter of time.
 */
module GazeRuns {
  import opened Arithmetic
  import opened Clock
  import opened Gaze

  /**
   The motion with true times beside it: k microsaccades begun since the last big saccade landed at
   time `stop`, `interval` the interval drawn then, `start` when the current move or hold began.
   */
  datatype Tracked = Tracked(m: Motion, k: nat, interval: nat, start: nat, stop: nat, last: nat)

  datatype Step = Step(t: nat, draws: Draws)

  function Track(c: Config, s: Tracked, e: Step): Tracked {
    var r := Reading(e.t);
    var m := Moved(c, s.m, true, r, e.draws);
    if HasArrived(s.m, r) then
      if s.m.saccadeIntervalMs == 0 then Tracked(m, 0, m.saccadeIntervalMs, e.t, e.t, e.t)
      else s.(m := m, start := e.t, last := e.t)
    else if StartsMove(s.m, r) then
      s.(m := m, k := if IsBigMove(s.m, r) then s.k else s.k + 1, start := e.t, last := e.t)
    else s.(m := m, last := e.t)
  }

  function Tracks(c: Config, s: Tracked, es: seq<Step>): Tracked
    decreases |es|
  {
    if es == [] then s else Tracks(c, Track(c, s, es[0]), es[1..])
  }

  /** The eyes at rest in the centre, at any time. */
  function AtRest(c: Config, now: nat): Tracked {
    var centre := c.mapRadius as real;
    Tracked(Motion(false, centre, centre, centre, centre, 0, 0, 0, 0), 0, 0, 0, 0, now)
  }

  // ---------------------------------------------------------------- how far the gaze drifts

  /** The big saccade's radius and one microsaccade's radius for each of k. */
  function Bound(c: Config, k: nat): real {
    Abs(BigRadius(c)) + k as real * Abs(MicroRadius(c))
  }

  predicate Near(c: Config, x: real, y: real, k: nat) {
    Within(x - c.mapRadius as real, y - c.mapRadius as real, Bound(c, k))
  }

  /** Nothing has moved yet. */
  predicate IsFresh(c: Config, s: Tracked) {
    && !s.m.inMotion && s.m.saccadeIntervalMs == 0 && s.m.durationMs == 0 && s.m.startMs == s.m.lastSaccadeStopMs == 0
    && s.k == 0 && s.m.oldX == s.m.oldY == c.mapRadius as real
  }

  predicate IsHolding(c: Config, s: Tracked) {
    !s.m.inMotion && s.m.saccadeIntervalMs == s.interval > 0 && Near(c, s.m.oldX, s.m.oldY, s.k)
  }

  predicate IsInBigMove(c: Config, s: Tracked) {
    && s.m.inMotion && s.m.saccadeIntervalMs == 0
    && Near(c, s.m.oldX, s.m.oldY, s.k) && Near(c, s.m.newX, s.m.newY, 0)
  }

  predicate IsInMicroMove(c: Config, s: Tracked) {
    && s.m.inMotion && s.m.saccadeIntervalMs == s.interval > 0 && s.k > 0
    && Near(c, s.m.oldX, s.m.oldY, s.k - 1) && Near(c, s.m.newX, s.m.newY, s.k)
  }

  predicate Ok(c: Config, s: Tracked) {
    IsFresh(c, s) || IsHolding(c, s) || IsInBigMove(c, s) || IsInMicroMove(c, s)
  }

  lemma BoundGrows(c: Config, j: nat, k: nat)
    requires j <= k
    ensures 0.0 <= Bound(c, j) <= Bound(c, k)
    ensures Bound(c, k + 1) == Bound(c, k) + Abs(MicroRadius(c))
  {
    var rho := Abs(MicroRadius(c));
    MulMono(rho, 0.0, j as real);
    MulMono(rho, j as real, k as real);
    assert (k + 1) as real * rho == k as real * rho + rho;
  }

  lemma NearGrows(c: Config, x: real, y: real, j: nat, k: nat)
    requires Near(c, x, y, j) && j <= k
    ensures Near(c, x, y, k)
  {
    BoundGrows(c, j, k);
    Wider(x - c.mapRadius as real, y - c.mapRadius as real, Bound(c, j), Bound(c, k));
  }

  lemma BigDepartureIsOk(c: Config, s: Tracked, e: Step)
    requires IsSqrt(c.sqrt) && Ok(c, s) && StartsMove(s.m, Reading(e.t)) && IsBigMove(s.m, Reading(e.t))
    ensures Ok(c, Track(c, s, e))
  {
    DiscPointIsInside(BigRadius(c), e.draws, c.sqrt);
    BoundGrows(c, 0, 0);
    var m := Departed(c, s.m, Reading(e.t), e.draws);
    var x := DiscX(BigRadius(c), e.draws);
    assert m.newX - c.mapRadius as real == x;
    assert m.newY - c.mapRadius as real == DiscY(BigRadius(c), x, e.draws, c.sqrt);
    assert Near(c, m.newX, m.newY, 0);
    if IsFresh(c, s) { assert Within(0.0, 0.0, Bound(c, 0)); }
  }

  lemma MicroDepartureIsOk(c: Config, s: Tracked, e: Step)
    requires IsSqrt(c.sqrt) && IsHolding(c, s) && StartsMove(s.m, Reading(e.t)) && !IsBigMove(s.m, Reading(e.t))
    ensures Ok(c, Track(c, s, e))
  {
    var rho := MicroRadius(c);
    DiscPointIsInside(rho, e.draws, c.sqrt);
    BoundGrows(c, s.k, s.k);
    var centre := c.mapRadius as real;
    var m := Departed(c, s.m, Reading(e.t), e.draws);
    var dx := DiscX(rho, e.draws);
    var dy := DiscY(rho, dx, e.draws, c.sqrt);
    Triangle(s.m.oldX - centre, s.m.oldY - centre, dx, dy, Bound(c, s.k), Abs(rho));
    assert m.newX - centre == s.m.oldX - centre + dx && m.newY - centre == s.m.oldY - centre + dy;
    assert Near(c, m.newX, m.newY, s.k + 1);
  }

  lemma StepIsOk(c: Config, s: Tracked, e: Step)
    requires IsSqrt(c.sqrt) && Ok(c, s)
    ensures Ok(c, Track(c, s, e))
  {
    if StartsMove(s.m, Reading(e.t)) {
      if IsBigMove(s.m, Reading(e.t)) { BigDepartureIsOk(c, s, e); } else { MicroDepartureIsOk(c, s, e); }
    }
  }

  /** Where a frame looks: between the move's end points, so within the larger of their bounds. */
  lemma StepIsNear(c: Config, s: Tracked, e: Step)
    requires Ok(c, s) && Ok(c, Track(c, s, e))
    ensures var r := Reading(e.t); Near(c, GazeX(s.m, r), GazeY(s.m, r), Track(c, s, e).k)
  {
    var r := Reading(e.t);
    var f := Along(s.m, r);
    if !s.m.inMotion || HasArrived(s.m, r) {
      assert f == 0.0 || f == 1.0;
      LerpEnds(s.m.oldX, s.m.newX);
      LerpEnds(s.m.oldY, s.m.newY);
      if IsFresh(c, s) {
        BoundGrows(c, 0, Track(c, s, e).k);
        assert Within(0.0, 0.0, Bound(c, Track(c, s, e).k));
      } else if !s.m.inMotion {
        NearGrows(c, s.m.oldX, s.m.oldY, s.k, Track(c, s, e).k);
      }
    } else {
      FractionInUnit(Since(r, s.m.startMs), s.m.durationMs);
      EasedInUnit(Since(r, s.m.startMs) as real / s.m.durationMs as real);
      if IsInBigMove(c, s) {
        NearGrows(c, s.m.newX, s.m.newY, 0, s.k);
      } else {
        NearGrows(c, s.m.oldX, s.m.oldY, s.k - 1, s.k);
      }
      NearBetween(c, s.m, f, s.k);
    }
  }

  lemma NearBetween(c: Config, m: Motion, f: real, k: nat)
    requires Near(c, m.oldX, m.oldY, k) && Near(c, m.newX, m.newY, k) && InUnit(f)
    ensures Near(c, Lerp(m.oldX, m.newX, f), Lerp(m.oldY, m.newY, f), k)
  {
    var centre := c.mapRadius as real;
    Convex(m.oldX - centre, m.oldY - centre, m.newX - centre, m.newY - centre, f, Bound(c, k));
    LerpShifts(m.oldX, m.newX, f, centre);
    LerpShifts(m.oldY, m.newY, f, centre);
  }

  lemma LerpShifts(a: real, b: real, f: real, centre: real)
    ensures Lerp(a - centre, b - centre, f) == Lerp(a, b, f) - centre
  {
  }

  /** Every frame of the run looks within the drift bound. */
  predicate StaysNear(c: Config, s: Tracked, es: seq<Step>)
    decreases |es|
  {
    es == [] ||
    (var s' := Track(c, s, es[0]);
     var r := Reading(es[0].t);
     Near(c, GazeX(s.m, r), GazeY(s.m, r), s'.k) && StaysNear(c, s', es[1..]))
  }

  /** Over every run of automatic movement, for any draws and any times, the gaze drifts no further than Bound. */
  lemma {:induction false} GazeRun(c: Config, s: Tracked, es: seq<Step>)
    requires IsSqrt(c.sqrt) && Ok(c, s)
    ensures StaysNear(c, s, es)
    decreases |es|
  {
    if es != [] {
      StepIsOk(c, s, es[0]);
      StepIsNear(c, s, es[0]);
      GazeRun(c, Track(c, s, es[0]), es[1..]);
    }
  }

  // ---------------------------------------------------------------- how many microsaccades

  /** Frames at most `gap` apart. */
  predicate Paced(gap: nat, last: nat, es: seq<Step>)
    decreases |es|
  {
    es == [] || (last <= es[0].t <= last + gap && Paced(gap, es[0].t, es[1..]))
  }

  /** The longest hold between microsaccades. */
  function MaxHold(c: Config): (h: nat)
    ensures 35 <= h < 1000
  {
    if c.maxGazeMs > 35 then Min(1000, c.maxGazeMs) - 1 else 35
  }

  /** The longest interval between big saccades. */
  function MaxInterval(c: Config): (i: nat)
    ensures i >= 35
  {
    if c.maxGazeMs > 35 then c.maxGazeMs - 1 else 35
  }

  /** The clock does not wrap between the landing of a big saccade and the frame that starts the next. */
  predicate IsInTime(c: Config, gap: nat) {
    MaxInterval(c) + 23 + gap + MaxHold(c) + gap < WRAP
  }

  predicate HoldsInTime(c: Config, s: Tracked, gap: nat) {
    && !s.m.inMotion && s.m.saccadeIntervalMs == s.interval > 0
    && 35 <= s.m.durationMs <= MaxHold(c) && s.last - s.start <= s.m.durationMs
    && 43 * s.k <= s.start - s.stop <= s.interval + 23 + gap
  }

  predicate MovesInTime(s: Tracked) {
    && s.m.inMotion && s.last - s.start < s.m.durationMs
    && if s.m.saccadeIntervalMs == 0 then s.m.durationMs < 166
       else
         && s.m.saccadeIntervalMs == s.interval && 7 <= s.m.durationMs < 25
         && s.k > 0 && 43 * (s.k - 1) + 36 <= s.start - s.stop <= s.interval
  }

  predicate Timed(c: Config, s: Tracked, gap: nat) {
    && s.m.startMs == Reading(s.start) && s.m.lastSaccadeStopMs == Reading(s.stop)
    && s.stop <= s.start <= s.last
    && s.interval <= MaxInterval(c)
    && (s.k > 0 ==> 43 * (s.k - 1) + 36 <= s.interval)
    && ((IsFresh(c, s) && s.start == s.stop == 0) || HoldsInTime(c, s, gap) || MovesInTime(s))
  }

  lemma ElapsedSince(s: Tracked, t: nat)
    requires s.stop <= s.start <= s.last <= t && t - s.start < WRAP
    requires s.m.startMs == Reading(s.start) && s.m.lastSaccadeStopMs == Reading(s.stop)
    ensures Since(Reading(t), s.m.startMs) == t - s.start
    ensures t - s.stop < WRAP ==> Since(Reading(t), s.m.lastSaccadeStopMs) == t - s.stop
  {
    SinceIsElapsed(t, s.start);
    SinceIsElapsed(t, s.stop);
  }

  lemma StepIsTimed(c: Config, s: Tracked, e: Step, gap: nat)
    requires IsInTime(c, gap) && Timed(c, s, gap) && s.last <= e.t <= s.last + gap
    ensures Timed(c, Track(c, s, e), gap)
  {
    hide Reading, Since, Random, MaxHold, MaxInterval, GazeX, GazeY, DiscX, DiscY;
    if !IsFresh(c, s) { ElapsedSince(s, e.t); }
    DurationsDrawn(c, e.draws);
  }

  /** The ranges of the durations drawn. */
  lemma DurationsDrawn(c: Config, d: Draws)
    ensures 83 <= Random(83, 166, d.third) < 166 && 7 <= Random(7, 25, d.third) < 25
    ensures var hold := Random(35, Min(1000, c.maxGazeMs), d.first);
      35 <= hold <= MaxHold(c) && 35 <= Random(hold, c.maxGazeMs, d.second) <= MaxInterval(c)
  {
  }

  /** More microsaccades than fit the interval drawn. */
  predicate TooMany(s: Tracked) {
    s.k > 0 && s.k > (s.interval - 36) / 43 + 1
  }

  /** There are never too many microsaccades between big saccades. */
  predicate Counts(c: Config, s: Tracked, es: seq<Step>)
    decreases |es|
  {
    es == [] || (var s' := Track(c, s, es[0]); !TooMany(s') && Counts(c, s', es[1..]))
  }

  lemma {:induction false} CountRun(c: Config, s: Tracked, es: seq<Step>, gap: nat)
    requires IsInTime(c, gap) && Timed(c, s, gap) && Paced(gap, s.last, es)
    ensures Counts(c, s, es)
    decreases |es|
  {
    if es != [] {
      StepIsTimed(c, s, es[0], gap);
      CountRun(c, Track(c, s, es[0]), es[1..], gap);
    }
  }

  /** Eyes at rest in the centre can start either kind of run. */
  lemma StartIsOk(c: Config, now: nat, gap: nat)
    ensures Ok(c, AtRest(c, now)) && Timed(c, AtRest(c, now), gap)
  {
  }

  // ---------------------------------------------------------------- pauses that upset the count

  const NO_DRAWS: Draws := Draws(0, 0, 0)

  /** Frames at most `gap` apart lead to too many microsaccades. */
  ghost predicate CanMiscount(c: Config, s: Tracked, gap: nat) {
    TooMany(s) || exists es :: Paced(gap, s.last, es) && !Counts(c, s, es)
  }

  lemma OneBefore(c: Config, s: Tracked, e: Step, es: seq<Step>, gap: nat)
    requires s.last <= e.t <= s.last + gap && Paced(gap, e.t, es)
    requires TooMany(Track(c, s, e)) || !Counts(c, Track(c, s, e), es)
    ensures Paced(gap, s.last, [e] + es) && !Counts(c, s, [e] + es)
  {
    hide Track, TooMany;
    assert ([e] + es)[1..] == es;
  }

  lemma StepBefore(c: Config, s: Tracked, e: Step, gap: nat)
    requires s.last <= e.t <= s.last + gap && CanMiscount(c, Track(c, s, e), gap)
    ensures CanMiscount(c, s, gap)
  {
    var s' := Track(c, s, e);
    assert s'.last == e.t;
    hide Track, TooMany;
    if TooMany(s') {
      OneBefore(c, s, e, [], gap);
    } else {
      var es :| Paced(gap, s'.last, es) && !Counts(c, s', es);
      OneBefore(c, s, e, es, gap);
    }
  }

  /** Nothing happens up to time t. */
  predicate Dwells(s: Tracked, t: nat) {
    && s.m.startMs == Reading(s.start) && s.start <= s.last <= t && t - s.start < WRAP
    && if s.m.inMotion then t - s.start < s.m.durationMs else t - s.start <= s.m.durationMs
  }

  lemma NothingHappens(c: Config, s: Tracked, e: Step)
    requires s.last <= e.t && Dwells(s.(last := e.t), e.t)
    ensures Track(c, s, e) == s.(last := e.t)
  {
    hide Reading, Since, Arrived, Departed;
    SinceIsElapsed(e.t, s.start);
  }

  lemma {:induction false} WaitBefore(c: Config, s: Tracked, t: nat, gap: nat)
    requires gap > 0 && Dwells(s, t) && CanMiscount(c, s.(last := t), gap)
    ensures CanMiscount(c, s, gap)
    decreases t - s.last
  {
    if s.last == t {
      assert s.(last := t) == s;
    } else {
      var e := Step(s.last + 1, NO_DRAWS);
      NothingHappens(c, s, e);
      hide Track, CanMiscount, Reading;
      assert s.(last := e.t).(last := t) == s.(last := t);
      WaitBefore(c, s.(last := e.t), t, gap);
      StepBefore(c, s, e, gap);
    }
  }

  /** Between big saccades: the last landed at `stop`, and k microsaccades have begun since. */
  predicate IsBetween(s: Tracked, k: nat, interval: nat, stop: nat) {
    && s.m.startMs == Reading(s.start) && s.start == s.last && s.stop == stop && s.m.lastSaccadeStopMs == Reading(stop)
    && s.k == k && s.m.saccadeIntervalMs == s.interval == interval > 0
  }

  /** A hold of h begins. */
  predicate Lands(s: Tracked, h: nat, k: nat, interval: nat, stop: nat) {
    !s.m.inMotion && s.m.durationMs == h && IsBetween(s, k, interval, stop)
  }

  /** A microsaccade of d begins. */
  predicate SetsOff(s: Tracked, d: nat, k: nat, interval: nat, stop: nat) {
    s.m.inMotion && s.m.durationMs == d && IsBetween(s, k, interval, stop)
  }

  /** A microsaccade at any frame time after the hold, if the clock says that the interval is not over. */
  lemma SetOff(c: Config, s: Tracked, h: nat, k: nat, interval: nat, stop: nat, t: nat, d: nat, gap: nat)
    returns (s': Tracked)
    requires Lands(s, h, k, interval, stop) && 7 <= d < 25
    requires s.start + h < t <= s.start + h + gap && t - s.start < WRAP
    requires stop <= t && (t - stop) % WRAP <= interval
    ensures SetsOff(s', d, k + 1, interval, stop) && s'.start == t
    ensures CanMiscount(c, s', gap) ==> CanMiscount(c, s, gap)
  {
    hide DiscX, DiscY, CanMiscount;
    var w := s.(last := s.start + h);
    var e := Step(t, Draws(0, 0, d - 7));
    SinceIsElapsed(t, s.start);
    SinceIsElapsed(t, stop);
    s' := Track(c, w, e);
    if CanMiscount(c, s', gap) {
      StepBefore(c, w, e, gap);
      WaitBefore(c, s, w.last, gap);
    }
  }

  /** A landing at any frame time at the end of the microsaccade or after. */
  lemma Land(c: Config, s: Tracked, d: nat, k: nat, interval: nat, stop: nat, t: nat, h: nat, gap: nat)
    returns (s': Tracked)
    requires SetsOff(s, d, k, interval, stop) && 35 <= h <= MaxHold(c) && d > 0
    requires s.start + d <= t <= s.start + d - 1 + gap && t - s.start < WRAP
    ensures Lands(s', h, k, interval, stop) && s'.start == t
    ensures CanMiscount(c, s', gap) ==> CanMiscount(c, s, gap)
  {
    hide CanMiscount;
    var w := s.(last := s.start + d - 1);
    var e := Step(t, Draws(h - 35, 0, 0));
    SinceIsElapsed(t, s.start);
    s' := Track(c, w, e);
    if CanMiscount(c, s', gap) {
      StepBefore(c, w, e, gap);
      WaitBefore(c, s, w.last, gap);
    }
  }

  /** Resting eyes make a big saccade, which lands at 84; the hold and the interval are drawn then. */
  lemma BigFirst(c: Config, h: nat, gap: nat) returns (s: Tracked)
    requires 36 < c.maxGazeMs < WRAP && gap > 0 && 35 <= h <= MaxHold(c)
    ensures Lands(s, h, 0, MaxInterval(c), 84) && s.start == 84
    ensures CanMiscount(c, s, gap) ==> CanMiscount(c, AtRest(c, 0), gap)
  {
    hide DiscX, DiscY, CanMiscount;
    var rest := AtRest(c, 0);
    var e := Step(1, NO_DRAWS);
    var s0 := Track(c, rest, e);
    assert s0.m.inMotion && s0.m.durationMs == 83 && s0.m.startMs == 1 && s0.m.saccadeIntervalMs == 0;
    var w := s0.(last := 83);
    var e' := Step(84, Draws(h - 35, c.maxGazeMs, 0));
    s := Track(c, w, e');
    if CanMiscount(c, s, gap) {
      StepBefore(c, w, e', gap);
      WaitBefore(c, s0, 83, gap);
      StepBefore(c, rest, e, gap);
    }
  }

  /** The longest microsaccade sets off just in time; it is seen to land late, and the hold after it to end late. */
  lemma OneTooMany(c: Config, s: Tracked, k: nat, interval: nat, stop: nat, gap: nat)
    requires SetsOff(s, 24, k, interval, stop) && s.start == stop + interval && k > (interval - 36) / 43
    requires gap > 0 && interval + 23 + gap + MaxHold(c) + gap >= WRAP && interval < WRAP
    ensures CanMiscount(c, s, gap)
  {
    var pause := WRAP - interval - 23 - MaxHold(c);
    var x := if pause <= 2 then 1 else Min(gap, pause - 1);
    var y := if pause <= 2 then 1 else pause - x;
    var t := s.start + 23 + x;
    var t' := t + MaxHold(c) + y;
    hide MaxHold, CanMiscount;
    var s0 := Land(c, s, 24, k, interval, stop, t, MaxHold(c), gap);
    ShiftedByWraps(t' - stop - WRAP, 1);
    var s1 := SetOff(c, s0, MaxHold(c), k, interval, stop, t', 7, gap);
    assert TooMany(s1);
    TooManyMiscounts(c, s1, gap);
  }

  lemma TooManyMiscounts(c: Config, s: Tracked, gap: nat)
    requires TooMany(s)
    ensures CanMiscount(c, s, gap)
  {
  }

  /** Microsaccades every 43 ms up to the end of the interval. */
  lemma {:induction false} Rounds(c: Config, s: Tracked, k: nat, j: nat, interval: nat, stop: nat, gap: nat)
    requires SetsOff(s, if j == 0 then 24 else 7, k, interval, stop) && s.start + 43 * j == stop + interval
    requires stop <= s.start && k + j > (interval - 36) / 43
    requires gap > 0 && interval + 23 + gap + MaxHold(c) + gap >= WRAP && interval < WRAP
    ensures CanMiscount(c, s, gap)
    decreases j
  {
    hide MaxHold, CanMiscount, SetsOff, Lands;
    if j == 0 {
      OneTooMany(c, s, k, interval, stop, gap);
    } else {
      var s0 := Land(c, s, 7, k, interval, stop, s.start + 7, 35, gap);
      var s1 := SetOff(c, s0, 35, k, interval, stop, s.start + 43, if j == 1 then 24 else 7, gap);
      Rounds(c, s1, k + 1, j - 1, interval, stop, gap);
    }
  }

  /** Eyes that start at rest can make too many microsaccades. */
  lemma MiscountedRun(c: Config, gap: nat) returns (es: seq<Step>)
    requires 36 < c.maxGazeMs < WRAP && gap > 0 && !IsInTime(c, gap)
    ensures Paced(gap, 0, es) && !Counts(c, AtRest(c, 0), es)
  {
    var interval := MaxInterval(c);
    var j := (interval - 36) / 43;
    var first := interval - 43 * j;
    var y := Min(gap, first - 35);
    assert first - y <= MaxHold(c);
    hide MaxHold, MaxInterval, SetsOff, Lands;
    var s := BigFirst(c, first - y, gap);
    var s' := SetOff(c, s, first - y, 0, interval, 84, 84 + first, if j == 0 then 24 else 7, gap);
    Rounds(c, s', 1, j, interval, 84, gap);
    var rest := AtRest(c, 0);
    es :| Paced(gap, rest.last, es) && !Counts(c, rest, es);
  }

  lemma {:induction false} FrozenCounts(c: Config, s: Tracked, es: seq<Step>)
    requires IsFresh(c, s) && s.last == 0 && Paced(0, 0, es)
    ensures Counts(c, s, es)
    decreases |es|
  {
    if es != [] {
      FrozenCounts(c, Track(c, s, es[0]), es[1..]);
    }
  }

  /** Gazes of at most 36 ms leave no time for microsaccades, whatever the pauses between frames. */
  predicate HasNoMicrosaccades(s: Tracked) {
    && s.k == 0
    && if s.m.inMotion then s.m.saccadeIntervalMs == 0
       else s.m.saccadeIntervalMs == s.m.durationMs == 35 && s.m.startMs == s.m.lastSaccadeStopMs
  }

  lemma {:induction false} ShortGazesCount(c: Config, s: Tracked, es: seq<Step>)
    requires c.maxGazeMs <= 36 && (IsFresh(c, s) || HasNoMicrosaccades(s))
    ensures Counts(c, s, es)
    decreases |es|
  {
    if es != [] {
      hide DiscX, DiscY, Since;
      ShortGazesCount(c, Track(c, s, es[0]), es[1..]);
    }
  }

  /**
   The count of microsaccades can be relied on, for every run of frames at most `gap` apart, exactly when the
   clock cannot wrap between big saccades, or there are no microsaccades, or no time ever passes.
   */
  lemma CountsExactlyWhen(c: Config, gap: nat)
    requires c.maxGazeMs < WRAP
    ensures (forall es :: Paced(gap, 0, es) ==> Counts(c, AtRest(c, 0), es))
            <==> IsInTime(c, gap) || c.maxGazeMs <= 36 || gap == 0
  {
    if c.maxGazeMs <= 36 {
      forall es ensures Counts(c, AtRest(c, 0), es) {
        ShortGazesCount(c, AtRest(c, 0), es);
      }
    } else if gap == 0 {
      forall es | Paced(0, 0, es) ensures Counts(c, AtRest(c, 0), es) {
        FrozenCounts(c, AtRest(c, 0), es);
      }
    } else if IsInTime(c, gap) {
      forall es | Paced(gap, 0, es) ensures Counts(c, AtRest(c, 0), es) {
        StartIsOk(c, 0, gap);
        CountRun(c, AtRest(c, 0), es, gap);
      }
    } else {
      var es := MiscountedRun(c, gap);
    }
  }
}
