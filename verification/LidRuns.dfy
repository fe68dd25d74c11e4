/**
 Whole runs of one eye's lids: frames, blink requests and openness requests in any order, on a
 clock that wraps.  The blink automaton is compared with one that keeps unbounded times.
 */
module LidRuns {
  import opened Arithmetic
  import opened Clock
  import opened Lids

  /** What happens to an eye's lids, at true time t. */
  datatype Event =
    | Frame(t: nat)
    | Wink(t: nat, duration: nat)
    | SetOpenness(t: nat, level: real, holdMs: nat, durationMs: nat)

  function Apply(b: Lid, e: Event): Lid {
    match e
    case Frame(t) => Framed(b, Reading(t))
    case Wink(t, duration) => Winked(b, duration, Reading(t))
    case SetOpenness(t, level, holdMs, durationMs) => HeldOpen(b, level, holdMs, durationMs, Reading(t))
  }

  function Run(b: Lid, es: seq<Event>): Lid
    decreases |es|
  {
    if es == [] then b else Run(Apply(b, es[0]), es[1..])
  }

  /** The blink contributions drawn by the frames of a run. */
  function Drawn(b: Lid, es: seq<Event>): seq<real>
    decreases |es|
  {
    if es == [] then []
    else DrawnOnce(b, es[0]) + Drawn(Apply(b, es[0]), es[1..])
  }

  function DrawnOnce(b: Lid, e: Event): seq<real> {
    if e.Frame? then [BlinkAmount(b, Reading(e.t))] else []
  }

  // ---------------------------------------------------------------- the blink with unbounded times

  datatype Ideal = Idle | Closing(start: nat, length: nat) | Opening(start: nat, length: nat)

  function IdealApply(i: Ideal, e: Event): Ideal {
    match e
    case Wink(t, duration) => if i.Idle? then Closing(t, duration) else i
    case Frame(t) =>
      if i.Idle? || t < i.start + i.length then i
      else if i.Closing? then Opening(t, 2 * i.length)
      else Idle
    case SetOpenness(_, _, _, _) => i
  }

  function IdealRun(i: Ideal, es: seq<Event>): Ideal
    decreases |es|
  {
    if es == [] then i else IdealRun(IdealApply(i, es[0]), es[1..])
  }

  /** The share of the phase that has passed, going up while closing and down while opening. */
  function IdealAmount(i: Ideal, t: nat): real
    requires i.Idle? || (i.start <= t && i.length > 0)
  {
    if i.Idle? then 0.0
    else
      var f := if t >= i.start + i.length then 1.0 else (t - i.start) as real / i.length as real;
      if i.Opening? then 1.0 - f else f
  }

  predicate Started(i: Ideal, now: nat) {
    i.Idle? || (i.start <= now && i.length > 0)
  }

  function IdealDrawn(i: Ideal, now: nat, es: seq<Event>): seq<real>
    requires Started(i, now) && Ordered(now, es)
    decreases |es|
  {
    if es == [] then []
    else IdealDrawnOnce(i, es[0]) + IdealDrawn(IdealApply(i, es[0]), es[0].t, es[1..])
  }

  function IdealDrawnOnce(i: Ideal, e: Event): seq<real>
    requires Started(i, e.t)
  {
    if e.Frame? then [IdealAmount(i, e.t)] else []
  }

  /** Times do not go back. */
  predicate Ordered(now: nat, es: seq<Event>)
    decreases |es|
  {
    es == [] || (es[0].t >= now && (es[0].Wink? ==> es[0].duration > 0) && Ordered(es[0].t, es[1..]))
  }

  /** Blinks are as long as the eyes make them. */
  predicate BlinksAreUsual(es: seq<Event>) {
    forall e :: e in es && e.Wink? ==> 50 <= e.duration < 100
  }

  /** The lid is in the phase that the unbounded automaton is in. */
  predicate Represents(b: Lid, i: Ideal, now: nat) {
    && b.Valid()
    && match i
       case Idle => b.state == NotBlinking
       case Closing(start, length) =>
         b.state == BlinkClosing && b.durationMs == length && start <= now && b.startTimeMs == Reading(start)
       case Opening(start, length) =>
         b.state == BlinkOpening && b.durationMs == length && start <= now && b.startTimeMs == Reading(start)
  }

  /** The clock at time t does not show a phase that is over as one still going on. */
  predicate Recognised(i: Ideal, t: nat)
    requires Started(i, t)
  {
    i.Idle? || t < i.start + i.length || (t - i.start) % WRAP >= i.length
  }

  predicate AllRecognised(i: Ideal, now: nat, es: seq<Event>)
    requires Started(i, now) && Ordered(now, es)
    decreases |es|
  {
    es == [] ||
    (var e := es[0]; (e.Frame? ==> Recognised(i, e.t)) && AllRecognised(IdealApply(i, e), e.t, es[1..]))
  }

  lemma PhaseSeen(b: Lid, start: nat, t: nat)
    requires b.state != NotBlinking && 0 < b.durationMs < WRAP && b.startTimeMs == Reading(start) && start <= t
    ensures var i := if b.state == BlinkClosing then Closing(start, b.durationMs) else Opening(start, b.durationMs);
      && (Recognised(i, t) ==> (PhaseIsOver(b, Reading(t)) <==> t >= start + b.durationMs))
      && (BlinkAmount(b, Reading(t)) == IdealAmount(i, t) <==> Recognised(i, t))
  {
    SinceIsElapsed(t, start);
    var dt := (t - start) % WRAP;
    if dt < b.durationMs { FractionOrder(dt, dt, b.durationMs); }
  }

  /** A frame's effect on the blink alone. */
  lemma FramedPhase(b: Lid, t: nat)
    requires b.Valid()
    ensures var b', a := Framed(b, t), Advanced(b, t);
      b'.Valid() && b'.state == a.state && b'.durationMs == a.durationMs && b'.startTimeMs == a.startTimeMs
  {
    FrameKeepsRange(b, t);
  }

  /** A frame does and draws what the unbounded automaton does and draws exactly if it recognises the phase. */
  lemma FrameRefines(b: Lid, i: Ideal, now: nat, t: nat)
    requires Represents(b, i, now) && now <= t
    ensures BlinkAmount(b, Reading(t)) == IdealAmount(i, t) <==> Recognised(i, t)
    ensures Recognised(i, t) ==> Represents(Framed(b, Reading(t)), IdealApply(i, Frame(t)), t)
  {
    hide BlinkAmount, IdealAmount, PhaseIsOver, Since, Reading, Recognised, Framed, Advanced;
    if i.Idle? {
      NoBlinkAmount(b, t);
    } else {
      PhaseSeen(b, i.start, t);
    }
    FramedPhase(b, Reading(t));
    if Recognised(i, t) { AdvancedRefines(b, i, now, t, Framed(b, Reading(t))); }
  }

  lemma AdvancedRefines(b: Lid, i: Ideal, now: nat, t: nat, b': Lid)
    requires Represents(b, i, now) && now <= t && b'.Valid()
    requires PhaseIsOver(b, Reading(t)) <==> !i.Idle? && t >= i.start + i.length
    requires var a := Advanced(b, Reading(t));
      b'.state == a.state && b'.durationMs == a.durationMs && b'.startTimeMs == a.startTimeMs
    ensures Represents(b', IdealApply(i, Frame(t)), t)
  {
    hide PhaseIsOver, Reading;
  }

  lemma NoBlinkAmount(b: Lid, t: nat)
    ensures b.state == NotBlinking ==> BlinkAmount(b, Reading(t)) == 0.0 && !PhaseIsOver(b, Reading(t))
    ensures IdealAmount(Idle, t) == 0.0 && Recognised(Idle, t)
  {
  }

  lemma RequestRefines(b: Lid, i: Ideal, now: nat, e: Event)
    requires Represents(b, i, now) && now <= e.t && !e.Frame? && (e.Wink? ==> 50 <= e.duration < 100)
    ensures Represents(Apply(b, e), IdealApply(i, e), e.t)
  {
    match e
    case Wink(t, duration) =>
    case SetOpenness(t, level, holdMs, durationMs) =>
      RequestsKeepRange(b, Reading(t), 50, level, holdMs, durationMs);
  }

  function LastTime(now: nat, es: seq<Event>): nat {
    if es == [] then now else es[|es| - 1].t
  }

  /**
   Over a run, the 32-bit automaton draws what the unbounded one draws exactly if every frame recognises
   the phase it is in, clock wraps included.
   */
  lemma {:induction false} RunRefines(b: Lid, i: Ideal, now: nat, es: seq<Event>)
    requires Represents(b, i, now) && Started(i, now) && Ordered(now, es) && BlinksAreUsual(es)
    ensures Drawn(b, es) == IdealDrawn(i, now, es) <==> AllRecognised(i, now, es)
    ensures AllRecognised(i, now, es) ==> Represents(Run(b, es), IdealRun(i, es), LastTime(now, es))
    decreases |es|
  {
    if es != [] {
      var e := es[0];
      assert e in es;
      hide BlinkAmount, IdealAmount, Recognised, Represents, Apply, BlinksAreUsual;
      if e.Frame? { StepOfFrame(b, i, now, e.t); } else { UsualRequest(b, i, now, es); }
      if e.Frame? && !Recognised(i, e.t) {
        assert Drawn(b, es)[0] == BlinkAmount(b, Reading(e.t)) && IdealDrawn(i, now, es)[0] == IdealAmount(i, e.t);
      } else {
        UsualRest(es);
        RunRefines(Apply(b, e), IdealApply(i, e), e.t, es[1..]);
        assert LastTime(now, es) == LastTime(e.t, es[1..]);
        SameFront(DrawnOnce(b, e), Drawn(Apply(b, e), es[1..]), IdealDrawn(IdealApply(i, e), e.t, es[1..]));
        assert DrawnOnce(b, e) == IdealDrawnOnce(i, e);
      }
    }
  }

  lemma UsualRest(es: seq<Event>)
    requires es != [] && BlinksAreUsual(es)
    ensures BlinksAreUsual(es[1..])
  {
  }

  lemma UsualRequest(b: Lid, i: Ideal, now: nat, es: seq<Event>)
    requires es != [] && BlinksAreUsual(es) && !es[0].Frame? && Represents(b, i, now) && now <= es[0].t
    ensures Represents(Apply(b, es[0]), IdealApply(i, es[0]), es[0].t)
  {
    assert es[0] in es;
    RequestRefines(b, i, now, es[0]);
  }

  lemma StepOfFrame(b: Lid, i: Ideal, now: nat, t: nat)
    requires Represents(b, i, now) && now <= t
    ensures BlinkAmount(b, Reading(t)) == IdealAmount(i, t) <==> Recognised(i, t)
    ensures Recognised(i, t) ==> Represents(Apply(b, Frame(t)), IdealApply(i, Frame(t)), t)
  {
    FrameRefines(b, i, now, t);
  }

  lemma SameFront(front: seq<real>, a: seq<real>, b: seq<real>)
    ensures front + a == front + b <==> a == b
  {
    assert (front + a)[|front|..] == a && (front + b)[|front|..] == b;
  }

  // ---------------------------------------------------------------- how far apart frames may be

  /** The longest phase is that of a blink of 99 ms opening. */
  const LONGEST_PHASE: nat := 198

  /** Times do not go back, and frames keep coming; `last` is the latest frame, `now` the latest event. */
  predicate Paced(gap: nat, last: nat, now: nat, es: seq<Event>)
    decreases |es|
  {
    es == [] ||
    (var e := es[0];
     && now <= e.t <= last + gap
     && (e.Wink? ==> 50 <= e.duration < 100)
     && Paced(gap, if e.Frame? then e.t else last, e.t, es[1..]))
  }

  lemma {:induction false} PacedIsOrdered(gap: nat, last: nat, now: nat, es: seq<Event>)
    requires Paced(gap, last, now, es)
    ensures Ordered(now, es) && BlinksAreUsual(es)
    decreases |es|
  {
    if es != [] {
      PacedIsOrdered(gap, if es[0].Frame? then es[0].t else last, es[0].t, es[1..]);
      assert es == [es[0]] + es[1..];
    }
  }

  /** The phase was not over at the latest frame. */
  predicate IsCurrent(i: Ideal, last: nat) {
    i.Idle? || (last < i.start + i.length && i.length <= if i.Closing? then LONGEST_PHASE / 2 else LONGEST_PHASE)
  }

  lemma {:induction false} PacedIsRecognised(gap: nat, i: Ideal, last: nat, now: nat, es: seq<Event>)
    requires gap <= WRAP - LONGEST_PHASE && Paced(gap, last, now, es) && last <= now
    requires Started(i, now) && IsCurrent(i, last) && Ordered(now, es)
    ensures AllRecognised(i, now, es)
    decreases |es|
  {
    if es != [] {
      var e := es[0];
      PacedIsRecognised(gap, IdealApply(i, e), if e.Frame? then e.t else last, e.t, es[1..]);
    }
  }

  /** Frames a clock wrap less 197 ms apart can see an opening again that is over. */
  const SLOW_FRAMES: seq<Event> := [Frame(99), Frame(296), Frame(99 + WRAP)]

  lemma DrawnOfThree(b: Lid, t0: nat, t1: nat, t2: nat)
    ensures var b1 := Apply(b, Frame(t0));
      Drawn(b, [Frame(t0), Frame(t1), Frame(t2)])
      == [BlinkAmount(b, Reading(t0)), BlinkAmount(b1, Reading(t1)), BlinkAmount(Apply(b1, Frame(t1)), Reading(t2))]
  {
    hide Apply, BlinkAmount, Reading;
    var b1 := Apply(b, Frame(t0));
    var b2 := Apply(b1, Frame(t1));
    assert Drawn(b2, [Frame(t2)]) == [BlinkAmount(b2, Reading(t2))];
    assert [Frame(t1), Frame(t2)][1..] == [Frame(t2)];
    assert Drawn(b1, [Frame(t1), Frame(t2)]) == [BlinkAmount(b1, Reading(t1)), BlinkAmount(b2, Reading(t2))];
    assert [Frame(t0), Frame(t1), Frame(t2)][1..] == [Frame(t1), Frame(t2)];
  }

  lemma OrderedThree(gap: nat, now: nat, t0: nat, t1: nat, t2: nat)
    requires now <= t0 <= t1 <= t2 && t0 <= now + gap && t1 <= t0 + gap && t2 <= t1 + gap
    ensures var es := [Frame(t0), Frame(t1), Frame(t2)]; Paced(gap, now, now, es) && Ordered(now, es)
  {
    assert Paced(gap, t1, t1, [Frame(t2)]);
    assert [Frame(t1), Frame(t2)][1..] == [Frame(t2)];
    assert Paced(gap, t0, t0, [Frame(t1), Frame(t2)]);
    assert [Frame(t0), Frame(t1), Frame(t2)][1..] == [Frame(t1), Frame(t2)];
    PacedIsOrdered(gap, now, now, [Frame(t0), Frame(t1), Frame(t2)]);
  }

  lemma IdealDrawnOfThree(i: Ideal, now: nat, t0: nat, t1: nat, t2: nat)
    requires Started(i, now) && now <= t0 <= t1 <= t2
    ensures var es := [Frame(t0), Frame(t1), Frame(t2)];
      var i1 := IdealApply(i, Frame(t0));
      && Ordered(now, es)
      && IdealDrawn(i, now, es)
      == [IdealAmount(i, t0), IdealAmount(i1, t1), IdealAmount(IdealApply(i1, Frame(t1)), t2)]
  {
    OrderedThree(t2, now, t0, t1, t2);
    hide IdealAmount;
    var i1 := IdealApply(i, Frame(t0));
    var i2 := IdealApply(i1, Frame(t1));
    assert IdealDrawn(i2, t1, [Frame(t2)]) == [IdealAmount(i2, t2)];
    assert [Frame(t1), Frame(t2)][1..] == [Frame(t2)];
    assert IdealDrawn(i1, t0, [Frame(t1), Frame(t2)]) == [IdealAmount(i1, t1), IdealAmount(i2, t2)];
    assert [Frame(t0), Frame(t1), Frame(t2)][1..] == [Frame(t1), Frame(t2)];
  }

  lemma SlowStates(b: Lid)
    requires b.state == BlinkClosing && b.durationMs == 99 && b.startTimeMs == 0
    ensures var b1 := Apply(b, Frame(99));
      && BlinkAmount(b, Reading(99)) == 1.0 && BlinkAmount(b1, Reading(296)) == 1.0 / 198.0
      && BlinkAmount(Apply(b1, Frame(296)), Reading(99 + WRAP)) == 1.0
  {
    hide Openness, Closure;
    var b1 := Apply(b, Frame(99));
    assert b1.state == BlinkOpening && b1.durationMs == 198 && b1.startTimeMs == 99;
    var b2 := Apply(b1, Frame(296));
    assert b2.state == BlinkOpening && b2.durationMs == 198 && b2.startTimeMs == 99;
    assert Reading(99 + WRAP) == 99 && Since(99, 99) == 0;
  }

  lemma IdealStates()
    ensures var i := Closing(0, 99);
      var i1 := IdealApply(i, Frame(99));
      && IdealAmount(i, 99) == 1.0 && IdealAmount(i1, 296) == 1.0 / 198.0
      && IdealAmount(IdealApply(i1, Frame(296)), 99 + WRAP) == 0.0
  {
  }

  lemma SlowFramesReplay()
    ensures var b := Winked(OPEN_LID, 99, 0);
      && Ordered(0, SLOW_FRAMES) && Paced(WRAP - LONGEST_PHASE + 1, 0, 0, SLOW_FRAMES)
      && Drawn(b, SLOW_FRAMES) == [1.0, 1.0 / 198.0, 1.0]
      && IdealDrawn(Closing(0, 99), 0, SLOW_FRAMES) == [1.0, 1.0 / 198.0, 0.0]
  {
    var b := Winked(OPEN_LID, 99, 0);
    SlowStates(b);
    IdealStates();
    hide Apply, BlinkAmount, Reading, IdealAmount, IdealApply, Winked;
    DrawnOfThree(b, 99, 296, 99 + WRAP);
    OrderedThree(WRAP - LONGEST_PHASE + 1, 0, 99, 296, 99 + WRAP);
    IdealDrawnOfThree(Closing(0, 99), 0, 99, 296, 99 + WRAP);
  }

  /**
   The 32-bit automaton draws what the unbounded one draws, for every run of frames at most `gap` apart,
   exactly if the gap and the longest phase together are at most a clock wrap.
   */
  lemma RefinesExactlyWhen(gap: nat)
    ensures (forall es :: Paced(gap, 0, 0, es) ==>
              Ordered(0, es) && Drawn(OPEN_LID, es) == IdealDrawn(Idle, 0, es))
            <==> gap <= WRAP - LONGEST_PHASE
  {
    if gap <= WRAP - LONGEST_PHASE {
      forall es | Paced(gap, 0, 0, es)
        ensures Ordered(0, es) && Drawn(OPEN_LID, es) == IdealDrawn(Idle, 0, es)
      {
        PacedIsOrdered(gap, 0, 0, es);
        PacedIsRecognised(gap, Idle, 0, 0, es);
        RunRefines(OPEN_LID, Idle, 0, es);
      }
    } else {
      var es := [Wink(0, 99)] + SLOW_FRAMES;
      SlowFramesReplay();
      PacedMore(WRAP - LONGEST_PHASE + 1, gap, 0, 0, SLOW_FRAMES);
      hide Drawn, IdealDrawn;
      assert es[1..] == SLOW_FRAMES;
      WinkFirst(SLOW_FRAMES);
      assert Paced(gap, 0, 0, es);
    }
  }

  lemma WinkFirst(es: seq<Event>)
    requires Ordered(0, es)
    ensures var e := Wink(0, 99);
      && Ordered(0, [e] + es)
      && Drawn(OPEN_LID, [e] + es) == Drawn(Winked(OPEN_LID, 99, 0), es)
      && IdealDrawn(Idle, 0, [e] + es) == IdealDrawn(Closing(0, 99), 0, es)
  {
    var e := Wink(0, 99);
    assert ([e] + es)[1..] == es;
    assert [] + Drawn(Winked(OPEN_LID, 99, 0), es) == Drawn(Winked(OPEN_LID, 99, 0), es);
    assert [] + IdealDrawn(Closing(0, 99), 0, es) == IdealDrawn(Closing(0, 99), 0, es);
  }

  lemma {:induction false} PacedMore(gap: nat, gap': nat, last: nat, now: nat, es: seq<Event>)
    requires gap <= gap' && Paced(gap, last, now, es)
    ensures Paced(gap', last, now, es)
    decreases |es|
  {
    if es != [] { PacedMore(gap, gap', if es[0].Frame? then es[0].t else last, es[0].t, es[1..]); }
  }

  // ---------------------------------------------------------------- the life of a blink

  /** A phase lasts: whatever is requested and drawn before its time is up, it goes on unchanged. */
  lemma {:induction false} PhaseLasts(i: Ideal, es: seq<Event>)
    requires !i.Idle? && forall k :: 0 <= k < |es| ==> es[k].t < i.start + i.length
    ensures IdealRun(i, es) == i
  {
    if es != [] { PhaseLasts(i, es[1..]); }
  }

  /** The first frame after its time ends a phase: closing becomes opening, twice as long, which ends the blink. */
  lemma PhaseEnds(i: Ideal, es: seq<Event>, t: nat)
    requires !i.Idle? && i.length > 0 && forall k :: 0 <= k < |es| ==> es[k].t < i.start + i.length
    requires t >= i.start + i.length
    ensures IdealRun(i, es + [Frame(t)]) == if i.Closing? then Opening(t, 2 * i.length) else Idle
    ensures IdealAmount(i, t) == if i.Closing? then 1.0 else 0.0
  {
    PhaseLasts(i, es);
    RunSplits(i, es, [Frame(t)]);
    assert IdealRun(i, [Frame(t)]) == IdealApply(i, Frame(t));
  }

  lemma {:induction false} RunSplits(i: Ideal, es: seq<Event>, fs: seq<Event>)
    ensures IdealRun(i, es + fs) == IdealRun(IdealRun(i, es), fs)
    decreases |es|
  {
    if es == [] {
      assert es + fs == fs;
    } else {
      assert (es + fs)[1..] == es[1..] + fs;
      RunSplits(IdealApply(i, es[0]), es[1..], fs);
    }
  }

  /** Contributions that only fall, from `from` to no less than 0. */
  predicate Falling(from: real, a: seq<real>)
    decreases |a|
  {
    a == [] || (from >= a[0] >= 0.0 && Falling(a[0], a[1..]))
  }

  /** Contributions that rise until they reach exactly 1, and fall from then on. */
  predicate Pulse(from: real, a: seq<real>)
    decreases |a|
  {
    a == [] || (from <= a[0] <= 1.0 && if a[0] == 1.0 then Falling(1.0, a[1..]) else Pulse(a[0], a[1..]))
  }

  /** Blinks may be requested, but not once this one is over. */
  predicate NoNewBlink(i: Ideal, es: seq<Event>)
    decreases |es|
  {
    es == [] || ((i.Idle? ==> !es[0].Wink?) && NoNewBlink(IdealApply(i, es[0]), es[1..]))
  }

  /** While a phase lasts its amount moves one way, and stays in range. */
  lemma AmountMoves(i: Ideal, now: nat, t: nat)
    requires Started(i, now) && now <= t
    ensures InUnit(IdealAmount(i, now)) && InUnit(IdealAmount(i, t))
    ensures i.Closing? ==> IdealAmount(i, now) <= IdealAmount(i, t)
    ensures !i.Closing? ==> IdealAmount(i, now) >= IdealAmount(i, t)
    ensures i.Closing? ==> (IdealAmount(i, t) == 1.0 <==> t >= i.start + i.length)
  {
    if !i.Idle? {
      FractionOrder(now - i.start, t - i.start, i.length);
    }
  }

  lemma FractionOrder(a: nat, b: nat, c: nat)
    requires c > 0 && a <= b
    ensures 0.0 <= a as real / c as real <= b as real / c as real
    ensures b < c ==> b as real / c as real < 1.0
    ensures a < c ==> a as real / c as real < 1.0
  {
    DivMono(a as real, b as real, c as real);
    DivMono(0.0, a as real, c as real);
  }

  lemma {:induction false} OpeningFalls(i: Ideal, now: nat, es: seq<Event>)
    requires !i.Closing? && Started(i, now) && NoNewBlink(i, es) && Ordered(now, es)
    ensures Falling(IdealAmount(i, now), IdealDrawn(i, now, es))
    decreases |es|
  {
    if es != [] {
      var e, i' := es[0], IdealApply(i, es[0]);
      AmountMoves(i, now, e.t);
      OpeningFalls(i', e.t, es[1..]);
      var rest := IdealDrawn(i', e.t, es[1..]);
      FallsFromHigher(IdealAmount(i, e.t), IdealAmount(i', e.t), rest);
      if e.Frame? {
        assert ([IdealAmount(i, e.t)] + rest)[1..] == rest;
      } else {
        FallsFromHigher(IdealAmount(i, now), IdealAmount(i, e.t), rest);
        assert [] + rest == rest;
      }
    }
  }

  lemma FallsFromHigher(from: real, from': real, a: seq<real>)
    requires from >= from' && Falling(from', a)
    ensures Falling(from, a)
  {
  }

  lemma RisesFromLower(from: real, from': real, a: seq<real>)
    requires from <= from' && Pulse(from', a)
    ensures Pulse(from, a)
  {
  }

  /** From the moment it starts, a blink's contribution rises to exactly 1 and then falls, in every run. */
  lemma {:induction false} BlinkIsPulse(i: Ideal, now: nat, es: seq<Event>)
    requires i.Closing? && Started(i, now) && NoNewBlink(i, es) && Ordered(now, es)
    ensures Pulse(IdealAmount(i, now), IdealDrawn(i, now, es))
    decreases |es|
  {
    if es != [] {
      var e, i' := es[0], IdealApply(i, es[0]);
      AmountMoves(i, now, e.t);
      var rest := IdealDrawn(i', e.t, es[1..]);
      if i'.Opening? {
        OpeningFalls(i', e.t, es[1..]);
        assert IdealAmount(i', e.t) <= 1.0 by { AmountMoves(i', e.t, e.t); }
        FallsFromHigher(1.0, IdealAmount(i', e.t), rest);
        assert ([IdealAmount(i, e.t)] + rest)[1..] == rest;
      } else {
        BlinkIsPulse(i', e.t, es[1..]);
        if e.Frame? {
          assert ([IdealAmount(i, e.t)] + rest)[1..] == rest;
        } else {
          RisesFromLower(IdealAmount(i, now), IdealAmount(i, e.t), rest);
          assert [] + rest == rest;
        }
      }
    }
  }

  /**
   The life of a blink: started at true time t on lids that are not blinking, its contributions rise
   to exactly 1 and then fall, over every run of frames and requests up to the next blink, clock wraps
   included, if its frames recognise its phases.
   */
  lemma BlinkRun(b: Lid, t: nat, duration: nat, es: seq<Event>)
    requires b.Valid() && b.state == NotBlinking && 50 <= duration < 100
    requires Ordered(t, es) && BlinksAreUsual(es) && NoNewBlink(Closing(t, duration), es)
    requires AllRecognised(Closing(t, duration), t, es)
    ensures Pulse(0.0, Drawn(Winked(b, duration, Reading(t)), es))
  {
    var i := Closing(t, duration);
    RunRefines(Winked(b, duration, Reading(t)), i, t, es);
    BlinkIsPulse(i, t, es);
  }

  /** The frames of a run show a blink of duration d, begun at time 0 on open lids, as a pulse. */
  predicate PulsesAfter(d: nat, es: seq<Event>) {
    Pulse(0.0, Drawn(Winked(OPEN_LID, d, 0), es))
  }

  /** Every blink is such a pulse, in every run of frames at most `gap` apart, for exactly the same gaps. */
  lemma PulsesExactlyWhen(gap: nat)
    ensures (forall d: nat, es :: 50 <= d < 100 && Paced(gap, 0, 0, es) && NoNewBlink(Closing(0, d), es) ==>
              PulsesAfter(d, es))
            <==> gap <= WRAP - LONGEST_PHASE
  {
    hide PulsesAfter, Paced, NoNewBlink;
    if gap <= WRAP - LONGEST_PHASE {
      forall d: nat, es | 50 <= d < 100 && Paced(gap, 0, 0, es) && NoNewBlink(Closing(0, d), es)
        ensures PulsesAfter(d, es)
      {
        PacedPulse(gap, d, es);
      }
    } else {
      var d, es := NoPulse(gap);
    }
  }

  lemma PacedPulse(gap: nat, d: nat, es: seq<Event>)
    requires gap <= WRAP - LONGEST_PHASE && 50 <= d < 100 && Paced(gap, 0, 0, es) && NoNewBlink(Closing(0, d), es)
    ensures PulsesAfter(d, es)
  {
    PacedIsOrdered(gap, 0, 0, es);
    PacedIsRecognised(gap, Closing(0, d), 0, 0, es);
    BlinkRun(OPEN_LID, 0, d, es);
  }

  lemma NoPulse(gap: nat) returns (d: nat, es: seq<Event>)
    requires gap > WRAP - LONGEST_PHASE
    ensures 50 <= d < 100 && Paced(gap, 0, 0, es) && NoNewBlink(Closing(0, d), es)
    ensures !PulsesAfter(d, es)
  {
    d, es := 99, SLOW_FRAMES;
    SlowFramesReplay();
    PacedMore(WRAP - LONGEST_PHASE + 1, gap, 0, 0, es);
    RisesTwice(1.0 / 198.0);
    NoRequests(Closing(0, d), es);
  }

  lemma RisesTwice(a: real)
    requires a < 1.0
    ensures !Pulse(0.0, [1.0, a, 1.0])
  {
    assert [1.0, a, 1.0][1..] == [a, 1.0] && [a, 1.0][1..] == [1.0];
    assert !Falling(a, [1.0]);
  }

  lemma {:induction false} NoRequests(i: Ideal, es: seq<Event>)
    requires forall e :: e in es ==> e.Frame?
    ensures NoNewBlink(i, es)
    decreases |es|
  {
    if es != [] { NoRequests(IdealApply(i, es[0]), es[1..]); }
  }

  // ---------------------------------------------------------------- timed holds

  /** Events that leave a hold alone: frames and blinks, all before the deadline. */
  predicate HoldUndisturbed(es: seq<Event>, deadline: nat) {
    forall k :: 0 <= k < |es| ==> !es[k].SetOpenness? && es[k].t < deadline
  }

  /** A deadline less than half a wrap away is recognised on the right side, across clock wraps. */
  lemma DeadlineIsRecognised(t: nat, deadline: nat)
    requires t < deadline + HALF_WRAP && deadline <= t + HALF_WRAP
    ensures NotNegative(Since(Reading(t), Reading(deadline))) <==> t >= deadline
  {
    if t >= deadline {
      SinceIsElapsed(t, deadline);
    } else {
      SinceIsElapsed(deadline, t);
      var a, d := Reading(t), Reading(deadline);
      assert (d - a) % WRAP == deadline - t;
      assert (a - d) % WRAP == WRAP - (deadline - t) by {
        ShiftedByWraps(deadline - t - WRAP, 0);
        NegatedModulo(d - a);
      }
    }
  }

  lemma NegatedModulo(x: int)
    requires x % WRAP != 0
    ensures (-x) % WRAP == WRAP - x % WRAP
  {
    ShiftedByWraps(WRAP - x % WRAP, -(x / WRAP) - 1);
    assert -x == WRAP - x % WRAP + WRAP * (-(x / WRAP) - 1);
  }

  lemma {:induction false} HoldPersists(b: Lid, es: seq<Event>, deadline: nat, since: nat)
    requires b.reopenPending && b.reopenAtMs == Reading(deadline) && deadline <= since + HALF_WRAP
    requires HoldUndisturbed(es, deadline) && Ordered(since, es)
    ensures var b' := Run(b, es);
      && b'.reopenPending && b'.reopenAtMs == Reading(deadline)
      && b'.openFrom == b.openFrom && b'.openTo == b.openTo
      && b'.openStartMs == b.openStartMs && b'.openDurationMs == b.openDurationMs
    decreases |es|
  {
    if es != [] {
      DeadlineIsRecognised(es[0].t, deadline);
      HoldPersists(Apply(b, es[0]), es[1..], deadline, es[0].t);
    }
  }

  /**
   A timed hold: in every run of frames and blinks it is kept until its deadline.  From then on a frame
   reopens the lids exactly if it comes in the first half of a clock wrap after the deadline: at once if
   frames are less than half a wrap apart.
   */
  lemma HoldEndsOnTime(b: Lid, t0: nat, level: real, holdMs: nat, durationMs: nat, es: seq<Event>, t: nat)
    requires holdMs > 0 && durationMs + holdMs <= HALF_WRAP
    requires HoldUndisturbed(es, t0 + durationMs + holdMs) && Ordered(t0, es) && LastTime(t0, es) <= t
    ensures var b' := Run(HeldOpen(b, level, holdMs, durationMs, Reading(t0)), es);
      var late := t - (t0 + durationMs + holdMs);
      && b'.openTo == Clamped(level)
      && (ReopensAt(b', Reading(t)) <==> late >= 0 && late % WRAP < HALF_WRAP)
  {
    var deadline := t0 + durationMs + holdMs;
    ReadingOfSum(t0, durationMs + holdMs);
    HoldPersists(HeldOpen(b, level, holdMs, durationMs, Reading(t0)), es, deadline, t0);
    if es != [] { OrderedEnds(t0, es); }
    if t >= deadline { SinceIsElapsed(t, deadline); } else { DeadlineIsRecognised(t, deadline); }
  }

  lemma {:induction false} OrderedEnds(now: nat, es: seq<Event>)
    requires Ordered(now, es)
    ensures now <= LastTime(now, es)
    decreases |es|
  {
    if es != [] {
      OrderedEnds(es[0].t, es[1..]);
      assert LastTime(now, es) == LastTime(es[0].t, es[1..]);
    }
  }

  lemma ReadingOfSum(t: nat, d: nat)
    ensures (Reading(t) + d) % WRAP == Reading(t + d)
  {
    ShiftedByWraps(t % WRAP + d, t / WRAP);
    assert t + d == t % WRAP + d + WRAP * (t / WRAP);
  }

  /** A hold is kept, whenever its frames come, exactly if its movement and hold together take at most half a wrap. */
  lemma HoldIsKeptExactlyWhen(b: Lid, t0: nat, level: real, holdMs: nat, durationMs: nat)
    requires holdMs > 0
    ensures var b' := HeldOpen(b, level, holdMs, durationMs, Reading(t0));
      (forall t :: t0 <= t < t0 + durationMs + holdMs ==> !ReopensAt(b', Reading(t)))
      <==> durationMs + holdMs <= HALF_WRAP
  {
    hide Reading, Since;
    var total := durationMs + holdMs;
    var b' := HeldOpen(b, level, holdMs, durationMs, Reading(t0));
    ReadingOfSum(t0, total);
    if total <= HALF_WRAP {
      forall t | t0 <= t < t0 + total ensures !ReopensAt(b', Reading(t)) {
        DeadlineIsRecognised(t, t0 + total);
      }
    } else {
      var t := EarlyReading(t0, total);
      assert ReopensAt(b', Reading(t));
    }
  }

  /** A time before a deadline more than half a wrap away at which the deadline seems to have passed. */
  lemma EarlyReading(t0: nat, total: nat) returns (t: nat)
    requires total > HALF_WRAP
    ensures t0 <= t < t0 + total && NotNegative(Since(Reading(t), Reading(t0 + total)))
  {
    var deadline := t0 + total;
    if total < WRAP {
      t := t0;
      SinceIsElapsed(deadline, t0);
      NegatedModulo(Reading(deadline) - Reading(t0));
    } else {
      t := deadline - WRAP;
      ShiftedByWraps(t, 1);
      SinceIsElapsed(t, t);
    }
  }

  lemma RunOfThree(b: Lid, e0: Event, e1: Event, e2: Event)
    ensures Run(b, [e0, e1, e2]) == Apply(Apply(Apply(b, e0), e1), e2)
  {
    hide Apply;
    var b1 := Apply(b, e0);
    var b2 := Apply(b1, e1);
    assert [e2][1..] == [] && [e1, e2][1..] == [e2] && [e0, e1, e2][1..] == [e1, e2];
    assert Run(b2, [e2]) == Apply(b2, e2);
    assert Run(b1, [e1, e2]) == Run(b2, [e2]);
  }

  lemma RunOfFour(b: Lid, e0: Event, e1: Event, e2: Event, e3: Event)
    ensures Run(b, [e0, e1, e2, e3]) == Apply(Run(b, [e0, e1, e2]), e3)
  {
    hide Apply;
    RunOfThree(b, e0, e1, e2);
    RunOfThree(Apply(b, e0), e1, e2, e3);
    assert [e0, e1, e2, e3][1..] == [e1, e2, e3];
  }

  /** A hold asked to last a whole clock wrap ends before its lids have even stopped moving. */
  lemma LongHoldEndsEarly()
    ensures var hold := SetOpenness(0, 0.0, WRAP - 1, LID_MOVE_MS);
      var held := Run(OPEN_LID, [hold, Frame(0), Frame(100)]);
      var b := Run(OPEN_LID, [hold, Frame(0), Frame(100), Frame(149)]);
      && held.reopenPending && held.openTo == 0.0
      && !b.reopenPending && b.openTo == 1.0
  {
    var hold := SetOpenness(0, 0.0, WRAP - 1, LID_MOVE_MS);
    var b0 := Apply(OPEN_LID, hold);
    var b1 := Apply(b0, Frame(0));
    FrameOnHold(b0, 0);
    FrameOnHold(b1, 100);
    FrameOnHold(Apply(b1, Frame(100)), 149);
    hide Apply;
    RunOfThree(OPEN_LID, hold, Frame(0), Frame(100));
    RunOfFour(OPEN_LID, hold, Frame(0), Frame(100), Frame(149));
  }

  lemma FrameOnHold(b: Lid, t: nat)
    requires b.reopenPending && b.reopenAtMs == 149 && t <= 149
    ensures var b' := Apply(b, Frame(t));
      && b'.reopenPending == (t < 149) && b'.reopenAtMs == 149
      && b'.openTo == if t < 149 then b.openTo else 1.0
  {
    hide Openness, BlinkAmount, Closure, PhaseIsOver;
    assert NotNegative(Since(Reading(t), 149)) == (t == 149);
    hide Since, Reading;
  }

  // ---------------------------------------------------------------- what the wrap does to settled lids

  /**
   Lids that have finished moving stay where they were moved to exactly when the clock has not
   wrapped back into the movement: every 2^32 ms the movement is replayed from its start.
   */
  lemma SettledExactlyWhen(b: Lid, start: nat, t: nat)
    requires b.openStartMs == Reading(start) && start + b.openDurationMs <= t
    ensures Openness(b, Reading(t)) == b.openTo
       <==> (t - start) % WRAP >= b.openDurationMs || b.openFrom == b.openTo
  {
    SinceIsElapsed(t, start);
    var dt := (t - start) % WRAP;
    if dt < b.openDurationMs {
      var f := dt as real / b.openDurationMs as real;
      FractionInUnit(dt, b.openDurationMs);
      LerpReaches(b.openFrom, b.openTo, f);
    }
  }

  /** How closed the lids are drawn by the frames of a run. */
  function Closures(b: Lid, es: seq<Event>): seq<real>
    decreases |es|
  {
    if es == [] then []
    else ClosedOnce(b, es[0]) + Closures(Apply(b, es[0]), es[1..])
  }

  function ClosedOnce(b: Lid, e: Event): seq<real> {
    if e.Frame? then [Closure(b, Reading(e.t))] else []
  }

  /**
   A run whose frames show eyes told to close for good: closed when the movement is over, closed just
   before the clock wraps, and wide open at the wrap.
   */
  lemma ClosedLidsFlashOpen()
    ensures Closures(OPEN_LID, [SetOpenness(0, 0.0, 0, LID_MOVE_MS), Frame(LID_MOVE_MS), Frame(WRAP - 1), Frame(WRAP)])
         == [1.0, 1.0, 0.0]
  {
    var b0 := Apply(OPEN_LID, SetOpenness(0, 0.0, 0, LID_MOVE_MS));
    var b1 := Apply(b0, Frame(LID_MOVE_MS));
    var b2 := Apply(b1, Frame(WRAP - 1));
    assert Closure(b0, Reading(LID_MOVE_MS)) == 1.0;
    assert Closure(b1, Reading(WRAP - 1)) == 1.0;
    assert Closure(b2, Reading(WRAP)) == 0.0;
    ClosuresOfThree(OPEN_LID, SetOpenness(0, 0.0, 0, LID_MOVE_MS), LID_MOVE_MS, WRAP - 1, WRAP);
  }

  lemma ClosuresOfThree(b: Lid, e: Event, t0: nat, t1: nat, t2: nat)
    requires !e.Frame?
    ensures var b0 := Apply(b, e);
      var b1 := Apply(b0, Frame(t0));
      Closures(b, [e, Frame(t0), Frame(t1), Frame(t2)])
      == [Closure(b0, Reading(t0)), Closure(b1, Reading(t1)), Closure(Apply(b1, Frame(t1)), Reading(t2))]
  {
    hide Apply, Closure, Reading;
    var b0 := Apply(b, e);
    var b1 := Apply(b0, Frame(t0));
    var b2 := Apply(b1, Frame(t1));
    assert Closures(b2, [Frame(t2)]) == [Closure(b2, Reading(t2))];
    assert [Frame(t1), Frame(t2)][1..] == [Frame(t2)];
    assert Closures(b1, [Frame(t1), Frame(t2)]) == [Closure(b1, Reading(t1)), Closure(b2, Reading(t2))];
    assert [Frame(t0), Frame(t1), Frame(t2)][1..] == [Frame(t1), Frame(t2)];
    assert [e, Frame(t0), Frame(t1), Frame(t2)][1..] == [Frame(t0), Frame(t1), Frame(t2)];
  }
  // ---------------------------------------------------------------- what is drawn

  /** Lids held at a level until something else is asked for. */
  predicate IsHeldAt(b: Lid, level: real) {
    b.openFrom == b.openTo == level && !b.reopenPending
  }

  lemma HeldStays(b: Lid, level: real, e: Event)
    requires IsHeldAt(b, level) && !e.SetOpenness?
    ensures IsHeldAt(Apply(b, e), level)
    ensures Openness(b, Reading(e.t)) == level
  {
    LerpBetween(level, level, 0.0);
    if Since(Reading(e.t), b.openStartMs) < b.openDurationMs {
      FractionInUnit(Since(Reading(e.t), b.openStartMs), b.openDurationMs);
      LerpBetween(level, level, Since(Reading(e.t), b.openStartMs) as real / b.openDurationMs as real);
    }
  }

  /** The opening left by each closure is the share of the level that the contribution leaves. */
  predicate Scales(closures: seq<real>, drawn: seq<real>, level: real) {
    |closures| == |drawn| && forall i :: 0 <= i < |drawn| ==> 1.0 - closures[i] == level * (1.0 - drawn[i])
  }

  lemma ScalesBoth(closures: seq<real>, drawn: seq<real>, closures': seq<real>, drawn': seq<real>, level: real)
    requires Scales(closures, drawn, level) && Scales(closures', drawn', level)
    ensures Scales(closures + closures', drawn + drawn', level)
  {
  }

  lemma ScalesOnce(b: Lid, level: real, e: Event)
    requires IsHeldAt(b, level) && !e.SetOpenness?
    ensures Scales(ClosedOnce(b, e), DrawnOnce(b, e), level)
  {
    HeldStays(b, level, e);
    ClosureIsShare(b, Reading(e.t));
    hide Closure, BlinkAmount, Openness, Reading, IsHeldAt;
  }

  /** A blink closes the lids from wherever they are held, and returns them there. */
  lemma {:induction false} BlinkScalesHold(b: Lid, level: real, es: seq<Event>)
    requires IsHeldAt(b, level) && forall e :: e in es ==> !e.SetOpenness?
    ensures Scales(Closures(b, es), Drawn(b, es), level)
    decreases |es|
  {
    if es != [] {
      var e, b' := es[0], Apply(b, es[0]);
      assert e in es;
      HeldStays(b, level, e);
      ScalesOnce(b, level, e);
      hide Apply, ClosedOnce, DrawnOnce, Scales, IsHeldAt;
      BlinkScalesHold(b', level, es[1..]);
      ScalesBoth(ClosedOnce(b, e), DrawnOnce(b, e), Closures(b', es[1..]), Drawn(b', es[1..]), level);
    }
  }

  /** So on open lids the closure drawn is the blink's contribution, and a blink is drawn as a pulse. */
  lemma ClosureIsPulse(b: Lid, t: nat, duration: nat, es: seq<Event>)
    requires b.Valid() && b.state == NotBlinking && 50 <= duration < 100 && IsHeldAt(b, 1.0)
    requires Ordered(t, es) && BlinksAreUsual(es) && NoNewBlink(Closing(t, duration), es)
    requires AllRecognised(Closing(t, duration), t, es) && forall e :: e in es ==> !e.SetOpenness?
    ensures var b' := Winked(b, duration, Reading(t));
      Closures(b', es) == Drawn(b', es) && Pulse(0.0, Closures(b', es))
  {
    var b' := Winked(b, duration, Reading(t));
    BlinkScalesHold(b', 1.0, es);
    BlinkRun(b, t, duration, es);
    hide Pulse, Drawn, Closures;
    assert Closures(b', es) == Drawn(b', es);
  }

  /** A phase of a blink as long as the eyes make them. */
  predicate IsUsual(i: Ideal) {
    i.Idle? || (i.Closing? && i.length >= 50) || (i.Opening? && i.length >= 100)
  }

  /** From one frame to the next a blink's contribution changes by at most 1 in 50 ms, through all its phases. */
  lemma AmountIsSmooth(i: Ideal, t: nat, t': nat)
    requires Started(i, t) && IsUsual(i) && t <= t'
    ensures var i' := IdealApply(i, Frame(t));
      && IsUsual(i') && Started(i', t')
      && -((t' - t) as real / 50.0) <= IdealAmount(i', t') - IdealAmount(i, t) <= (t' - t) as real / 50.0
  {
    var i' := IdealApply(i, Frame(t));
    if !i'.Idle? {
      PhaseIsSmooth(i', t, t');
    }
  }

  /** Within a phase it changes evenly. */
  lemma PhaseIsSmooth(i: Ideal, t: nat, t': nat)
    requires !i.Idle? && IsUsual(i) && i.start <= t <= t'
    ensures var most := (t' - t) as real / 50.0; -most <= IdealAmount(i, t') - IdealAmount(i, t) <= most
    ensures t' < i.start + i.length ==>
      IdealAmount(i, t') - IdealAmount(i, t)
      == (if i.Closing? then (t' - t) as real else -((t' - t) as real)) / i.length as real
  {
    var p, p' := Progress(t - i.start, i.length), Progress(t' - i.start, i.length);
    ProgressIsSmooth(t - i.start, t' - i.start, i.length);
    Slower((t' - t) as real, i.length as real);
    assert IdealAmount(i, t) == (if i.Closing? then p else 1.0 - p);
    assert IdealAmount(i, t') == (if i.Closing? then p' else 1.0 - p');
    if t' < i.start + i.length {
      QuotientDifference((t - i.start) as real, (t' - i.start) as real, i.length as real);
      NegatedQuotient((t' - t) as real, i.length as real);
    }
  }

  lemma NegatedQuotient(x: real, k: real)
    requires k > 0.0
    ensures (-x) / k == -(x / k)
  {
    Quotient(-x, k, -(x / k));
  }

  lemma Slower(x: real, k: real)
    requires x >= 0.0 && k >= 50.0
    ensures x / k <= x / 50.0
  {
    var q, r := x / k, x / 50.0;
    assert q * k == x && r * 50.0 == x;
    SignOfProduct(k, q, x);
    MulMono(q, 50.0, k);
  }

  /**
   From one frame to the next the closure drawn moves no faster than the blink and the movement of the hold
   together: 1 in 50 ms, and 1 in the time the hold's movement takes.
   */
  lemma ClosureIsSmooth(b: Lid, i: Ideal, now: nat, t: nat, t': nat)
    requires Represents(b, i, now) && Started(i, now) && IsUsual(i) && now <= t <= t'
    requires Recognised(i, t) && Recognised(IdealApply(i, Frame(t)), t')
    requires var r := Reopened(b, Reading(t)); r.openDurationMs > 0 && MovesEvenly(r, t, t')
    ensures var r, b' := Reopened(b, Reading(t)), Framed(b, Reading(t));
      var most := (t' - t) as real / 50.0 + (t' - t) as real / r.openDurationMs as real;
      -most <= Closure(b', Reading(t')) - Closure(b, Reading(t)) <= most
  {
    var r, b', i' := Reopened(b, Reading(t)), Framed(b, Reading(t)), IdealApply(i, Frame(t));
    FrameRefines(b, i, now, t);
    FrameRefines(b', i', t, t');
    AmountIsSmooth(i, t, t');
    FrameKeepsRange(b, Reading(t));
    assert b'.Valid() && r.Valid() by { ReopenedIsValid(b, Reading(t)); }
    FramedOpenness(b, Reading(t), Reading(t'));
    OpennessInUnit(r, Reading(t));
    OpennessInUnit(r, Reading(t'));
    BlinkAmountInUnit(b, Reading(t));
    BlinkAmountInUnit(b', Reading(t'));
    hide Openness, BlinkAmount, IdealAmount, Reopened, Framed, Represents, Recognised, Reading;
    CombinedIsSmooth(Openness(r, Reading(t)), Openness(r, Reading(t')),
                     BlinkAmount(b, Reading(t)), BlinkAmount(b', Reading(t')));
  }

  /** What a frame shows is the openness of the lids it has perhaps reopened; the next frame goes on from there. */
  lemma FramedOpenness(b: Lid, t: nat, t': nat)
    ensures var r, b' := Reopened(b, t), Framed(b, t);
      && Closure(b, t) == Combined(Openness(r, t), BlinkAmount(b, t))
      && Closure(b', t') == Combined(Openness(r, t'), BlinkAmount(b', t'))
  {
    ReopeningIsContinuous(Framed(b, t), t');
  }
}
