/**
 The main loop with nothing to do but draw (src/main.cpp): call after call of renderFrame.  What the controller
 does in place is tied to the runs on values of GazeRuns and LidRuns, so that what is proved of every such run
 holds of every controller.
 */
module FrameRuns {
  import opened Arithmetic
  import opened Clock
  import opened EyeTypes
  import opened EyeController
  import opened GazeRuns
  import opened LidRuns
  import opened Tracking
  import Gaze
  import Lids
  import Pupils
  import R = Renderer

  /**
   One call of renderFrame: true times at which the gaze is moved, a blink is due or not, blinks are begun and
   the lids are drawn.
   */
  datatype Call = Call(available: bool, moveAt: nat, blinkAt: nat, winkAt: nat, lidsAt: nat, f: FrameInput) {
    predicate Valid() {
      && f.Valid() && moveAt <= blinkAt <= winkAt <= lidsAt && f.blinkTime == Reading(blinkAt)
      && f.moveTime == Reading(moveAt) && f.winkTime == Reading(winkAt) && f.lidTime == Reading(lidsAt)
    }
  }

  /** Calls one after the other. */
  predicate InTurn(now: nat, calls: seq<Call>)
    decreases |calls|
  {
    calls == [] || (calls[0].Valid() && now <= calls[0].moveAt && InTurn(calls[0].lidsAt, calls[1..]))
  }

  /** The steps of the gaze: those of the calls that found the display available. */
  function StepsOf(calls: seq<Call>): seq<Step>
    decreases |calls|
  {
    if calls == [] then []
    else
      var c := calls[0];
      (if c.available then [Step(c.moveAt, c.f.move)] else []) + StepsOf(calls[1..])
  }

  /** When the last automatic blink was, by the clock, and how long the next is to wait. */
  datatype Timer = Timer(last: nat, toNext: nat)

  function TimerOf(e: EyeController): Timer
    reads e`timeOfLastBlinkMs, e`timeToNextBlinkMs
  {
    Timer(e.timeOfLastBlinkMs, e.timeToNextBlinkMs)
  }

  /** A call begins an automatic blink. */
  predicate Blinks(auto: bool, s: Timer, c: Call) {
    c.available && auto && Since(c.f.blinkTime, s.last) >= s.toNext
  }

  function Ticked(auto: bool, meanMs: nat, s: Timer, c: Call): Timer {
    if Blinks(auto, s, c) then
      Timer(c.f.blinkTime, EyeController.NextBlinkGap(meanMs, EyeController.BlinkDuration(c.f.blink), c.f.nextBlink))
    else s
  }

  function TimerAfter(auto: bool, meanMs: nat, s: Timer, calls: seq<Call>): Timer
    decreases |calls|
  {
    if calls == [] then s else TimerAfter(auto, meanMs, Ticked(auto, meanMs, s, calls[0]), calls[1..])
  }

  /** When automatic blinks are begun. */
  function BlinkTimes(auto: bool, meanMs: nat, s: Timer, calls: seq<Call>): seq<nat>
    decreases |calls|
  {
    if calls == [] then []
    else (if Blinks(auto, s, calls[0]) then [calls[0].blinkAt] else [])
         + BlinkTimes(auto, meanMs, Ticked(auto, meanMs, s, calls[0]), calls[1..])
  }

  /** The first at least `gap` after `last`, and each at least 150 ms, the shortest blink, after the one before. */
  predicate Spaced(last: nat, gap: nat, times: seq<nat>)
    decreases |times|
  {
    times == [] || (times[0] >= last + gap && Spaced(times[0], 150, times[1..]))
  }

  lemma SpacedMore(last: nat, gap: nat, gap': nat, times: seq<nat>)
    requires Spaced(last, gap', times) && gap <= gap'
    ensures Spaced(last, gap, times)
  {
  }

  /** Automatic blinks wait out the time drawn, and so the blink before, in every run of calls, clock wraps included. */
  lemma {:induction false} BlinksAreSpaced(auto: bool, meanMs: nat, s: Timer, last: nat, now: nat, calls: seq<Call>)
    requires s.last == Reading(last) && last <= now && InTurn(now, calls) && meanMs < HALF_WRAP
    ensures Spaced(last, s.toNext, BlinkTimes(auto, meanMs, s, calls))
    decreases |calls|
  {
    if calls != [] {
      var c := calls[0];
      var s' := Ticked(auto, meanMs, s, c);
      if Blinks(auto, s, c) {
        SinceIsElapsed(c.blinkAt, last);
        BlinksAreSpaced(auto, meanMs, s', c.blinkAt, c.lidsAt, calls[1..]);
        var d := EyeController.BlinkDuration(c.f.blink);
        EyeController.BlinkIsOverExactlyWhen(meanMs, d);
        assert 150 <= 3 * d <= s'.toNext;
        var rest := BlinkTimes(auto, meanMs, s', calls[1..]);
        SpacedMore(c.blinkAt, 150, s'.toNext, rest);
        assert ([c.blinkAt] + rest)[1..] == rest;
      } else {
        BlinksAreSpaced(auto, meanMs, s, last, c.lidsAt, calls[1..]);
        assert [] + BlinkTimes(auto, meanMs, s, calls[1..]) == BlinkTimes(auto, meanMs, s, calls[1..]);
      }
    }
  }

  /** What happens to the lids of an eye during a call. */
  function EventsOf(c: Call, due: bool, drawn: bool): seq<Event> {
    (if due then [Wink(c.winkAt, EyeController.BlinkDuration(c.f.blink))] else [])
    + if drawn then [Frame(c.lidsAt)] else []
  }

  lemma {:induction false} RunOn(b: Lids.Lid, es: seq<Event>, fs: seq<Event>)
    ensures Run(b, es + fs) == Run(Run(b, es), fs)
    decreases |es|
  {
    if es == [] {
      assert es + fs == fs;
    } else {
      assert (es + fs)[1..] == es[1..] + fs;
      RunOn(Apply(b, es[0]), es[1..], fs);
    }
  }

  /** All eyes move on the same map. */
  ghost predicate SharesMap(e: EyeController, c: Gaze.Config)
    reads e`maxGazeMs, e.eyes`definition
  {
    forall eye :: eye in e.eyes ==> e.GazeConfig(eye) == c
  }

  lemma RunOfOne(b: Lids.Lid, e: Event)
    ensures Run(b, [e]) == Apply(b, e)
  {
    assert [e][1..] == [];
  }

  lemma EventsApplied(b: Lids.Lid, c: Call, due: bool, drawn: bool)
    requires c.Valid()
    ensures var b' := EyeController.AutoBlinked(b, due, c.f.blink, c.f.winkTime);
      Run(b, EventsOf(c, due, drawn)) == if drawn then Lids.Framed(b', c.f.lidTime) else b'
  {
    hide Lids.Framed, Lids.Winked, EyeController.BlinkDuration, Run;
    var wink, frame := Wink(c.winkAt, EyeController.BlinkDuration(c.f.blink)), Frame(c.lidsAt);
    var winks, frames := if due then [wink] else [], if drawn then [frame] else [];
    var b' := EyeController.AutoBlinked(b, due, c.f.blink, c.f.winkTime);
    RunOn(b, winks, frames);
    if due { RunOfOne(b, wink); } else { RunOfNone(b); }
    if drawn { RunOfOne(b', frame); } else { RunOfNone(b'); }
  }

  lemma RunOfNone(b: Lids.Lid)
    ensures Run(b, []) == b
  {
  }

  /** An eye's lids after a call. */
  ghost function LidsAfter(b: Lids.Lid, c: Call, due: bool, drawn: bool): Lids.Lid {
    if !c.available then b
    else
      var b' := EyeController.AutoBlinked(b, due, c.f.blink, c.f.winkTime);
      if drawn then Lids.Framed(b', c.f.lidTime) else b'
  }

  ghost function LidsOf(e: EyeController): (views: seq<Lids.Lid>)
    reads set eye | eye in e.eyes :: eye.blink
    ensures |views| == |e.eyes| && forall i :: 0 <= i < |views| ==> views[i] == e.eyes[i].blink.View()
  {
    LidsOfFirst(e, |e.eyes|)
  }

  ghost function LidsOfFirst(e: EyeController, n: nat): (views: seq<Lids.Lid>)
    requires n <= |e.eyes|
    reads set eye | eye in e.eyes :: eye.blink
    ensures |views| == n && forall i :: 0 <= i < n ==> views[i] == e.eyes[i].blink.View()
  {
    if n == 0 then [] else LidsOfFirst(e, n - 1) + [e.eyes[n - 1].blink.View()]
  }

  /** All lids after a call that draws eye `drawn`. */
  ghost predicate LidsFollow(was: seq<Lids.Lid>, now: seq<Lids.Lid>, c: Call, due: bool, drawn: nat) {
    |now| == |was| && forall i :: 0 <= i < |now| ==> now[i] == LidsAfter(was[i], c, due, i == drawn)
  }

  lemma Distinct(e: EyeController)
    requires e.Valid()
    ensures e.eyeIndex < |e.eyes|
    ensures forall i :: 0 <= i < |e.eyes| && i != e.eyeIndex ==> e.eyes[i] != e.eyes[e.eyeIndex]
  {
  }

  lemma MapOfCurrent(e: EyeController, c: Gaze.Config)
    requires SharesMap(e, c) && e.eyeIndex < |e.eyes|
    ensures e.GazeConfig(e.eyes[e.eyeIndex]) == c
  {
  }

  lemma DueByTimer(e: EyeController, t: nat)
    ensures e.BlinkIsDue(t) <==> e.autoBlink && Since(t, TimerOf(e).last) >= TimerOf(e).toNext
  {
  }

  lemma TimerTicks(e: EyeController, c: Call, due: bool, was: Timer)
    requires if c.available then e.BlinkTimesFollow(due, was.last, was.toNext, c.f) else TimerOf(e) == was
    requires due <==> e.autoBlink && Since(c.f.blinkTime, was.last) >= was.toNext
    ensures TimerOf(e) == Ticked(e.autoBlink, e.meanBlinkIntervalMs, was, c)
  {
    hide EyeController.NextBlinkGap, EyeController.BlinkDuration;
  }

  /** One call moves the gaze by one step, and the lids of each eye. */
  method RenderOnce(e: EyeController, call: Call, ghost c: Gaze.Config)
    requires e.Valid() && e.autoMove && call.Valid() && SharesMap(e, c)
    modifies e`inMotion, e`eyeOldX, e`eyeOldY, e`eyeNewX, e`eyeNewY, e`moveStartTimeMs, e`moveDurationMs,
             e`lastSaccadeStopMs, e`saccadeIntervalMs, e`timeOfLastBlinkMs, e`timeToNextBlinkMs, e`fixate, e`eyeIndex,
             e`pupilAmount, e`resizing, e`irisFrame, e.irisPrev, e.irisNext,
             e.eyes`x, e.eyes`y, e.eyes`currentIrisAngle, e.eyes`currentScleraAngle, e.eyes`upperLidFactor,
             e.eyes`lowerLidFactor, e.eyes`drawAll, set eye | eye in e.eyes :: eye.blink,
             set eye | eye in e.eyes :: eye.display.pixels
    ensures e.Valid() && SharesMap(e, c)
    ensures e.eyeIndex == if call.available then (old(e.eyeIndex) + 1) % |e.eyes| else old(e.eyeIndex)
    ensures e.Motion() ==
      if call.available then Gaze.Moved(c, old(e.Motion()), true, call.f.moveTime, call.f.move) else old(e.Motion())
    ensures LidsFollow(old(LidsOf(e)), LidsOf(e), call, old(e.BlinkIsDue(call.f.blinkTime)), old(e.eyeIndex))
    ensures TimerOf(e) == Ticked(e.autoBlink, e.meanBlinkIntervalMs, old(TimerOf(e)), call)
  {
    hide EyeController.Posed, EyeController.AutoBlinked, EyeController.NextBlinkGap;
    hide Gaze.Moved, Pupils.Applied, Lids.Framed;
    hide EyeController.Looking, R.IsShown, EyeController.BlinkTimesFollow, R.Eye.Valid, R.Eye.PoseNow, R.EyeBlink.View;
    hide EyeController.Valid, EyeController.EyesAreValid, EyeController.EyesAreSeparate, LidsOfFirst, Ticked;
    hide EyeController.AreSeparate, EyeController.Motion, EyeController.PupilState, EyeController.BlinkIsDue;
    hide EyeController.GazeConfig, SharesMap;
    Distinct(e);
    MapOfCurrent(e, c);
    ghost var timer, due := TimerOf(e), e.BlinkIsDue(call.f.blinkTime);
    DueByTimer(e, call.f.blinkTime);
    var rendered := e.RenderFrame(call.available, call.f);
    TimerTicks(e, call, due, timer);
  }
  // ---------------------------------------------------------------- call after call

  /** When an eye's lids were drawn. */
  function FrameTimes(es: seq<Event>): seq<nat>
    decreases |es|
  {
    if es == [] then [] else (if es[0].Frame? then [es[0].t] else []) + FrameTimes(es[1..])
  }

  /** When the lids of eye i are to be drawn, the n eyes taking turns from eye `at` on. */
  function Turns(calls: seq<Call>, i: nat, at: nat, n: nat): seq<nat>
    requires n > 0
    decreases |calls|
  {
    if calls == [] then []
    else if !calls[0].available then Turns(calls[1..], i, at, n)
    else (if i == at then [calls[0].lidsAt] else []) + Turns(calls[1..], i, (at + 1) % n, n)
  }

  lemma {:induction false} FrameTimesOn(es: seq<Event>, fs: seq<Event>)
    ensures FrameTimes(es + fs) == FrameTimes(es) + FrameTimes(fs)
    decreases |es|
  {
    if es == [] {
      assert es + fs == fs;
    } else {
      assert (es + fs)[1..] == es[1..] + fs;
      FrameTimesOn(es[1..], fs);
      var front, a, b := if es[0].Frame? then [es[0].t] else [], FrameTimes(es[1..]), FrameTimes(fs);
      assert front + (a + b) == front + a + b;
    }
  }

  lemma {:induction false} OrderedOn(now: nat, es: seq<Event>, t: nat, fs: seq<Event>)
    requires Ordered(now, es) && Ordered(t, fs) && LastTime(now, es) <= t
    ensures Ordered(now, es + fs)
    decreases |es|
  {
    if es == [] {
      assert es + fs == fs;
    } else {
      assert (es + fs)[1..] == es[1..] + fs;
      assert LastTime(es[0].t, es[1..]) == LastTime(now, es);
      hide LastTime;
      OrderedOn(es[0].t, es[1..], t, fs);
    }
  }

  /** What has happened to an eye's lids, from b on. */
  ghost predicate Explains(es: seq<Event>, b: Lids.Lid, b': Lids.Lid, now: nat, latest: nat) {
    Ordered(now, es) && BlinksAreUsual(es) && LastTime(now, es) <= latest && b' == Run(b, es)
  }

  lemma EventsInOrder(c: Call, due: bool, drawn: bool)
    requires c.Valid()
    ensures var fs := EventsOf(c, due, drawn);
      && Ordered(c.moveAt, fs) && BlinksAreUsual(fs)
      && (forall e :: e in fs ==> e.t <= c.lidsAt)
      && FrameTimes(fs) == if drawn then [c.lidsAt] else []
  {
    var wink, frame := Wink(c.winkAt, EyeController.BlinkDuration(c.f.blink)), Frame(c.lidsAt);
    var winks, frames := if due then [wink] else [], if drawn then [frame] else [];
    assert Ordered(c.moveAt, winks) && Ordered(c.winkAt, frames);
    OrderedOn(c.moveAt, winks, c.winkAt, frames);
    FrameTimesOn(winks, frames);
    assert FrameTimes(winks) == [] && FrameTimes(frames) == if drawn then [c.lidsAt] else [];
  }

  /** A call's events explain what it does to an eye's lids. */
  lemma CallExplained(es: seq<Event>, b: Lids.Lid, was: Lids.Lid, now: nat, latest: nat,
                      c: Call, due: bool, drawn: bool)
    requires Explains(es, b, was, now, latest) && now <= latest && c.Valid() && latest <= c.moveAt
    ensures var es' := es + EventsOf(c, due && c.available, drawn && c.available);
      && Explains(es', b, LidsAfter(was, c, due, drawn), now, c.lidsAt)
      && FrameTimes(es') == FrameTimes(es) + if drawn && c.available then [c.lidsAt] else []
  {
    var fs := EventsOf(c, due && c.available, drawn && c.available);
    EventsInOrder(c, due && c.available, drawn && c.available);
    LastOfBoth(now, es, fs, c.lidsAt);
    OrderedOn(now, es, c.moveAt, fs);
    FrameTimesOn(es, fs);
    RunOn(b, es, fs);
    if c.available { EventsApplied(was, c, due, drawn); } else { RunOfNone(was); }
    hide Ordered, LastTime, Run, LidsAfter, EventsOf;
  }

  lemma LastOfBoth(now: nat, es: seq<Event>, fs: seq<Event>, latest: nat)
    requires now <= latest && LastTime(now, es) <= latest && forall e :: e in fs ==> e.t <= latest
    ensures LastTime(now, es + fs) <= latest
  {
    if fs != [] {
      assert (es + fs)[|es + fs| - 1] == fs[|fs| - 1];
    } else {
      assert es + fs == es;
    }
  }

  /** What has happened to the lids of every eye. */
  ghost predicate AllExplained(events: seq<seq<Event>>, first: seq<Lids.Lid>, lids: seq<Lids.Lid>,
                               now: nat, latest: nat) {
    && |events| == |first| == |lids|
    && forall i :: 0 <= i < |events| ==> Explains(events[i], first[i], lids[i], now, latest)
  }

  /** The events of all eyes after a call that draws eye `drawn`. */
  ghost function Extended(events: seq<seq<Event>>, c: Call, due: bool, drawn: nat): (r: seq<seq<Event>>)
    ensures |r| == |events|
    ensures forall i :: 0 <= i < |r| ==>
      r[i] == events[i] + EventsOf(c, due && c.available, i == drawn && c.available)
  {
    seq(|events|, i requires 0 <= i < |events| =>
      events[i] + EventsOf(c, due && c.available, i == drawn && c.available))
  }

  /** The frames still to come, after those there have been, are those of the eyes' turns. */
  ghost predicate TakesTurns(events: seq<seq<Event>>, rest: seq<Call>, at: nat, calls: seq<Call>, start: nat) {
    forall i :: 0 <= i < |events| ==>
      FrameTimes(events[i]) + Turns(rest, i, at, |events|) == Turns(calls, i, start, |events|)
  }

  lemma TurnsTaken(front: seq<nat>, rest: seq<Call>, i: nat, at: nat, n: nat)
    requires rest != [] && n > 0
    ensures var c := rest[0];
      front + Turns(rest, i, at, n)
      == front + (if i == at && c.available then [c.lidsAt] else [])
         + Turns(rest[1..], i, if c.available then (at + 1) % n else at, n)
  {
  }

  lemma CallExplainedForAll(events: seq<seq<Event>>, first: seq<Lids.Lid>, was: seq<Lids.Lid>, lids: seq<Lids.Lid>,
                            now: nat, latest: nat, rest: seq<Call>, due: bool, drawn: nat, calls: seq<Call>, start: nat)
    requires rest != [] && AllExplained(events, first, was, now, latest) && LidsFollow(was, lids, rest[0], due, drawn)
    requires now <= latest && rest[0].Valid() && latest <= rest[0].moveAt
    requires drawn < |events| && TakesTurns(events, rest, drawn, calls, start)
    ensures var r := Extended(events, rest[0], due, drawn);
      && AllExplained(r, first, lids, now, rest[0].lidsAt)
      && TakesTurns(r, rest[1..], if rest[0].available then (drawn + 1) % |events| else drawn, calls, start)
  {
    var c := rest[0];
    var r := Extended(events, c, due, drawn);
    hide Explains, LidsAfter, EventsOf, FrameTimes, Turns, Extended, Call.Valid;
    forall i | 0 <= i < |events|
      ensures Explains(r[i], first[i], lids[i], now, c.lidsAt)
      ensures FrameTimes(r[i]) == FrameTimes(events[i]) + if i == drawn && c.available then [c.lidsAt] else []
    {
      CallExplained(events[i], first[i], was[i], now, latest, c, due, i == drawn);
    }
    forall i | 0 <= i < |events|
      ensures FrameTimes(r[i]) + Turns(rest[1..], i, if c.available then (drawn + 1) % |events| else drawn, |events|)
           == Turns(calls, i, start, |events|)
    {
      TurnsTaken(FrameTimes(events[i]), rest, i, drawn, |events|);
    }
  }

  /** Each eye's lids went from `first` to `lids` by its events, with a frame each time it was that eye's turn. */
  ghost predicate Followed(events: seq<seq<Event>>, first: seq<Lids.Lid>, lids: seq<Lids.Lid>, now: nat,
                           calls: seq<Call>, start: nat) {
    && |events| == |first| == |lids|
    && forall i :: 0 <= i < |events| ==>
      && Ordered(now, events[i]) && BlinksAreUsual(events[i]) && lids[i] == Run(first[i], events[i])
      && FrameTimes(events[i]) == Turns(calls, i, start, |events|)
  }

  /**
   Whatever calls are made, the controller's gaze follows a run of GazeRuns, and the lids of each eye follow
   a run of LidRuns, with a frame each time it is that eye's turn.
   */
  method RenderFrames(e: EyeController, calls: seq<Call>, ghost c: Gaze.Config, ghost s: Tracked, ghost now: nat)
    returns (ghost events: seq<seq<Event>>)
    requires e.Valid() && e.autoMove && SharesMap(e, c) && InTurn(now, calls) && s.m == e.Motion()
    modifies e`inMotion, e`eyeOldX, e`eyeOldY, e`eyeNewX, e`eyeNewY, e`moveStartTimeMs, e`moveDurationMs,
             e`lastSaccadeStopMs, e`saccadeIntervalMs, e`timeOfLastBlinkMs, e`timeToNextBlinkMs, e`fixate, e`eyeIndex,
             e`pupilAmount, e`resizing, e`irisFrame, e.irisPrev, e.irisNext,
             e.eyes`x, e.eyes`y, e.eyes`currentIrisAngle, e.eyes`currentScleraAngle, e.eyes`upperLidFactor,
             e.eyes`lowerLidFactor, e.eyes`drawAll, set eye | eye in e.eyes :: eye.blink,
             set eye | eye in e.eyes :: eye.display.pixels
    ensures e.Valid() && SharesMap(e, c)
    ensures e.Motion() == Tracks(c, s, StepsOf(calls)).m
    ensures Followed(events, old(LidsOf(e)), LidsOf(e), now, calls, old(e.eyeIndex))
    ensures TimerOf(e) == TimerAfter(e.autoBlink, e.meanBlinkIntervalMs, old(TimerOf(e)), calls)
  {
    hide EyeController.Valid, EyeController.Motion, EyeController.BlinkIsDue, SharesMap, LidsOf, LidsFollow;
    hide AllExplained, TakesTurns, Extended, StepsOf, Tracks, InTurn, Call.Valid, Followed, TimerAfter, Ticked, TimerOf;
    Distinct(e);
    ghost var first, start := LidsOf(e), e.eyeIndex;
    events := seq(|e.eyes|, _ => []);
    NothingYet(events, first, now, calls, start);
    ghost var latest, cur, timer := now, s, TimerOf(e);
    assert calls[0..] == calls;
    for k := 0 to |calls|
      invariant e.Valid() && SharesMap(e, c) && e.eyeIndex < |e.eyes|
      invariant now <= latest && InTurn(latest, calls[k..])
      invariant cur.m == e.Motion() && Tracks(c, cur, StepsOf(calls[k..])) == Tracks(c, s, StepsOf(calls))
      invariant |events| == |e.eyes| && AllExplained(events, first, LidsOf(e), now, latest)
      invariant TakesTurns(events, calls[k..], e.eyeIndex, calls, start)
      invariant TimerAfter(e.autoBlink, e.meanBlinkIntervalMs, TimerOf(e), calls[k..])
             == TimerAfter(e.autoBlink, e.meanBlinkIntervalMs, timer, calls)
    {
      ghost var rest, was, due, drawn := calls[k..], LidsOf(e), e.BlinkIsDue(calls[k].f.blinkTime), e.eyeIndex;
      assert rest[1..] == calls[k + 1..];
      FirstInTurn(latest, rest);
      NextStep(c, cur, rest);
      NextTick(e.autoBlink, e.meanBlinkIntervalMs, TimerOf(e), rest);
      RenderOnce(e, calls[k], c);
      CallExplainedForAll(events, first, was, LidsOf(e), now, latest, rest, due, drawn, calls, start);
      events := Extended(events, calls[k], due, drawn);
      cur := StepOf(c, cur, calls[k]);
      latest := calls[k].lidsAt;
      Distinct(e);
    }
    assert calls[|calls|..] == [];
    NoMoreSteps(c, cur);
    NoMoreTicks(e.autoBlink, e.meanBlinkIntervalMs, TimerOf(e));
    AllDone(events, first, LidsOf(e), now, latest, e.eyeIndex, calls, start);
  }

  lemma NextTick(auto: bool, meanMs: nat, s: Timer, rest: seq<Call>)
    requires rest != []
    ensures TimerAfter(auto, meanMs, s, rest) == TimerAfter(auto, meanMs, Ticked(auto, meanMs, s, rest[0]), rest[1..])
  {
    hide Ticked;
  }

  lemma NoMoreTicks(auto: bool, meanMs: nat, s: Timer)
    ensures TimerAfter(auto, meanMs, s, []) == s
  {
  }

  lemma NoMoreSteps(c: Gaze.Config, s: Tracked)
    ensures Tracks(c, s, StepsOf([])) == s
  {
  }

  lemma FirstInTurn(now: nat, rest: seq<Call>)
    requires rest != [] && InTurn(now, rest)
    ensures rest[0].Valid() && now <= rest[0].moveAt <= rest[0].lidsAt && InTurn(rest[0].lidsAt, rest[1..])
  {
  }

  ghost function StepOf(c: Gaze.Config, s: Tracked, call: Call): Tracked {
    if call.available then Track(c, s, Step(call.moveAt, call.f.move)) else s
  }

  lemma NextStep(c: Gaze.Config, s: Tracked, rest: seq<Call>)
    requires rest != [] && rest[0].Valid()
    ensures Tracks(c, s, StepsOf(rest)) == Tracks(c, StepOf(c, s, rest[0]), StepsOf(rest[1..]))
    ensures StepOf(c, s, rest[0]).m
         == if rest[0].available then Gaze.Moved(c, s.m, true, rest[0].f.moveTime, rest[0].f.move) else s.m
  {
    var step := Step(rest[0].moveAt, rest[0].f.move);
    assert ([step] + StepsOf(rest[1..]))[1..] == StepsOf(rest[1..]) && [] + StepsOf(rest[1..]) == StepsOf(rest[1..]);
    hide Gaze.Moved;
  }

  lemma NothingYet(events: seq<seq<Event>>, first: seq<Lids.Lid>, now: nat, calls: seq<Call>, start: nat)
    requires |events| == |first| && forall i :: 0 <= i < |events| ==> events[i] == []
    ensures AllExplained(events, first, first, now, now) && TakesTurns(events, calls, start, calls, start)
  {
  }

  lemma AllDone(events: seq<seq<Event>>, first: seq<Lids.Lid>, lids: seq<Lids.Lid>, now: nat, latest: nat, at: nat,
                calls: seq<Call>, start: nat)
    requires AllExplained(events, first, lids, now, latest) && TakesTurns(events, [], at, calls, start)
    ensures Followed(events, first, lids, now, calls, start)
  {
    hide Ordered, BlinksAreUsual, LastTime, Run, FrameTimes;
    forall i | 0 <= i < |events| ensures FrameTimes(events[i]) == Turns(calls, i, start, |events|) {
      assert FrameTimes(events[i]) + Turns([], i, at, |events|) == FrameTimes(events[i]) + [];
      assert FrameTimes(events[i]) + [] == FrameTimes(events[i]);
    }
  }
  // ---------------------------------------------------------------- from the start

  /** The events of an eye that starts with open lids are drawn as they should be exactly if they are all recognised. */
  ghost predicate RunsFromOpen(es: seq<Event>, lids: Lids.Lid) {
    && Ordered(0, es) && BlinksAreUsual(es) && lids == Run(Lids.OPEN_LID, es)
    && (Drawn(Lids.OPEN_LID, es) == IdealDrawn(Idle, 0, es) <==> AllRecognised(Idle, 0, es))
  }

  lemma FollowedFromOpen(events: seq<seq<Event>>, first: seq<Lids.Lid>, lids: seq<Lids.Lid>,
                         calls: seq<Call>, start: nat)
    requires Followed(events, first, lids, 0, calls, start)
    requires forall i :: 0 <= i < |first| ==> first[i] == Lids.OPEN_LID
    ensures |events| == |lids| && forall i :: 0 <= i < |events| ==>
      RunsFromOpen(events[i], lids[i]) && FrameTimes(events[i]) == Turns(calls, i, start, |events|)
  {
    forall i | 0 <= i < |events| ensures RunsFromOpen(events[i], lids[i]) {
      RunRefines(Lids.OPEN_LID, Idle, 0, events[i]);
    }
  }

  /** A new controller: at rest, with open lids. */
  method NewController(displays: seq<R.Display>, definitions: seq<Definition>, sqrt: real -> real, trig: Trigonometry,
                       autoBlink: bool, autoPupils: bool)
    returns (e: EyeController, ghost c: Gaze.Config)
    requires 0 < |displays| == |definitions|
    requires forall d :: d in displays ==> d.Valid()
    requires forall i, j :: 0 <= i < |displays| && 0 <= j < |displays| && i != j ==>
      displays[i].pixels != displays[j].pixels
    requires forall d :: d in definitions ==> d.polar.mapRadius == definitions[0].polar.mapRadius
    ensures e.Valid() && e.autoMove && e.eyeIndex == 0 && SharesMap(e, c) && c.sqrt == sqrt
    ensures e.Motion() == AtRest(c, 0).m
    ensures |e.eyes| == |displays| && forall i :: 0 <= i < |e.eyes| ==> LidsOf(e)[i] == Lids.OPEN_LID
    ensures e.autoBlink == autoBlink && e.meanBlinkIntervalMs == 2225 && TimerOf(e) == Timer(0, 0)
    ensures fresh(e) && fresh(e.irisPrev) && fresh(e.irisNext)
    ensures forall i :: 0 <= i < |e.eyes| ==>
      fresh(e.eyes[i]) && fresh(e.eyes[i].blink) && e.eyes[i].display == displays[i]
  {
    hide EyeController.Valid, LidsOfFirst, R.Eye.Valid, R.Eye.PoseNow, R.EyeBlink.View, R.StartingPose;
    e := new EyeController(displays, definitions, sqrt, trig, true, autoBlink, autoPupils);
    c := e.GazeConfig(e.eyes[0]);
  }

  /**
   A controller left to itself from the start: the gaze never drifts further than the microsaccades since the last
   big saccade can take it, automatic blinks wait for each other, and they are drawn as the unbounded automaton
   draws them exactly if the clock does not show any phase again that is over.
   */
  method RunFromStart(displays: seq<R.Display>, definitions: seq<Definition>, sqrt: real -> real, trig: Trigonometry,
                      autoBlink: bool, autoPupils: bool, calls: seq<Call>)
    returns (e: EyeController, ghost c: Gaze.Config, ghost events: seq<seq<Event>>)
    requires 0 < |displays| == |definitions| && IsSqrt(sqrt) && InTurn(0, calls)
    requires forall d :: d in displays ==> d.Valid()
    requires forall i, j :: 0 <= i < |displays| && 0 <= j < |displays| && i != j ==>
      displays[i].pixels != displays[j].pixels
    requires forall d :: d in definitions ==> d.polar.mapRadius == definitions[0].polar.mapRadius
    modifies set d | d in displays :: d.pixels
    ensures e.Valid() && SharesMap(e, c) && |e.eyes| == |displays|
    ensures e.Motion() == Tracks(c, AtRest(c, 0), StepsOf(calls)).m && StaysNear(c, AtRest(c, 0), StepsOf(calls))
    ensures |events| == |e.eyes| && forall i :: 0 <= i < |events| ==>
      RunsFromOpen(events[i], LidsOf(e)[i]) && FrameTimes(events[i]) == Turns(calls, i, 0, |events|)
    ensures TimerOf(e) == TimerAfter(autoBlink, 2225, Timer(0, 0), calls)
    ensures Spaced(0, 0, BlinkTimes(autoBlink, 2225, Timer(0, 0), calls))
  {
    hide Spaced, BlinkTimes, TimerAfter;
    hide EyeController.Valid, EyeController.Motion, SharesMap, LidsOfFirst, Followed, RunsFromOpen, AtRest, Ok;
    e, c := NewController(displays, definitions, sqrt, trig, autoBlink, autoPupils);
    ghost var first := LidsOf(e);
    events := RenderFrames(e, calls, c, AtRest(c, 0), 0);
    FollowedFromOpen(events, first, LidsOf(e), calls, 0);
    StartIsOk(c, 0, 0);
    GazeRun(c, AtRest(c, 0), StepsOf(calls));
    BlinksAreSpaced(autoBlink, 2225, Timer(0, 0), 0, 0, calls);
  }
}
