/**
 The controller of one or more eyes (src/eyes/EyeController.h): one object whose methods move the
 gaze, the lids and the pupils and draw a frame.  Clock readings and random draws are parameters.
 */
module EyeController {
  import opened Arithmetic
  import opened Clock
  import opened EyeTypes
  import opened Sampling
  import opened Renderer
  import opened Tracking
  import Lids
  import Gaze
  import Pupils

  /**
   What one frame takes from outside: clock readings in the order they are made, random draws, and what the
   memory past the lid tables would hold if it were read.
   */
  datatype FrameInput = FrameInput(
    moveTime: nat, blinkTime: nat, winkTime: nat, pupilTime: nat, lidTime: nat, spinTime: nat,
    move: Gaze.Draws, blink: nat, nextBlink: nat, noise: seq<nat>, stray: Stray)
  {
    predicate Valid() {
      |noise| == Pupils.LEVELS
    }
  }

  class EyeController {
    const eyes: seq<Eye>
    const sqrt: real -> real
    const trig: Trigonometry
    var eyeIndex: nat

    var autoMove: bool
    var autoBlink: bool
    var autoPupils: bool
    var meanBlinkIntervalMs: nat
    var maxGazeMs: nat
    const nufix: int := 7

    // The eyes' motion
    var inMotion: bool
    var eyeOldX: real
    var eyeOldY: real
    var eyeNewX: real
    var eyeNewY: real
    var moveStartTimeMs: nat
    var moveDurationMs: nat
    var lastSaccadeStopMs: nat
    var saccadeIntervalMs: nat

    var timeToNextBlinkMs: nat
    var timeOfLastBlinkMs: nat

    // The pupils
    var irisFrame: nat
    var pupilAmount: real
    var resizing: bool
    var resizeStart: real
    var resizeTarget: real
    var resizeStartTimeMs: nat
    var resizeDurationMs: nat
    const irisPrev: array<real>
    const irisNext: array<real>

    var fixate: int

    ghost function Motion(): Gaze.Motion
      reads this`inMotion, this`eyeOldX, this`eyeOldY, this`eyeNewX, this`eyeNewY, this`moveStartTimeMs,
            this`moveDurationMs, this`lastSaccadeStopMs, this`saccadeIntervalMs
    {
      Gaze.Motion(inMotion, eyeOldX, eyeOldY, eyeNewX, eyeNewY, moveStartTimeMs, moveDurationMs,
                  lastSaccadeStopMs, saccadeIntervalMs)
    }

    ghost function PupilState(): Pupils.Pupils
      reads this`irisFrame, this`pupilAmount, this`resizing, this`resizeStart, this`resizeTarget,
            this`resizeStartTimeMs, this`resizeDurationMs, irisPrev, irisNext
    {
      Pupils.Pupils(irisFrame, pupilAmount, resizing, resizeStart, resizeTarget, resizeStartTimeMs, resizeDurationMs,
                    irisPrev[..], irisNext[..])
    }

    /** No two eyes share anything. */
    ghost predicate EyesAreSeparate() {
      |eyes| > 0 && AreSeparate(eyes)
    }

    ghost predicate EyesAreValid()
      reads eyes`definition, eyes`upperLidFactor, eyes`lowerLidFactor, eyes`drawAll
      reads set e | e in eyes :: e.blink, set e | e in eyes :: e.display.pixels
    {
      forall e :: e in eyes ==> e.Valid()
    }

    ghost predicate Valid()
      reads this`eyeIndex, this`fixate, this`irisFrame, this`pupilAmount, this`resizing, this`resizeStart,
            this`resizeTarget, this`resizeStartTimeMs, this`resizeDurationMs, irisPrev, irisNext
      reads eyes`definition, eyes`upperLidFactor, eyes`lowerLidFactor, eyes`drawAll
      reads set e | e in eyes :: e.blink, set e | e in eyes :: e.display.pixels
    {
      && EyesAreSeparate() && EyesAreValid()
      && irisPrev != irisNext && eyeIndex < |eyes|
      && PupilState().Valid()
      && fixate == nufix
    }

    static ghost predicate AreSeparate(eyes: seq<Eye>) {
      forall i, j :: 0 <= i < |eyes| && 0 <= j < |eyes| && i != j ==>
        eyes[i] != eyes[j] && eyes[i].blink != eyes[j].blink && eyes[i].display.pixels != eyes[j].display.pixels
    }

    /** One eye per display, looking straight ahead, to be drawn in full on its first frame. */
    static method MakeEyes(displays: seq<Display>, definitions: seq<Definition>) returns (eyes: seq<Eye>)
      requires |displays| == |definitions|
      requires forall d :: d in displays ==> d.Valid()
      requires forall i, j :: 0 <= i < |displays| && 0 <= j < |displays| && i != j ==>
        displays[i].pixels != displays[j].pixels
      ensures |eyes| == |displays| && AreSeparate(eyes)
      ensures forall i :: 0 <= i < |eyes| ==>
        && eyes[i].display == displays[i] && eyes[i].definition == definitions[i] && eyes[i].drawAll
        && eyes[i].blink.View() == Lids.OPEN_LID && eyes[i].PoseNow() == StartingPose(definitions[i])
      ensures forall e :: e in eyes ==> e.Valid()
      ensures forall e :: e in eyes ==> fresh(e) && fresh(e.blink)
    {
      eyes := [];
      for n := 0 to |displays|
        invariant |eyes| == n
        invariant forall i :: 0 <= i < n ==>
          && eyes[i].display == displays[i] && eyes[i].definition == definitions[i] && eyes[i].drawAll
          && eyes[i].blink.View() == Lids.OPEN_LID && eyes[i].PoseNow() == StartingPose(definitions[i])
          && fresh(eyes[i]) && fresh(eyes[i].blink)
        invariant forall i, j :: 0 <= i < n && 0 <= j < n && i != j ==>
          eyes[i] != eyes[j] && eyes[i].blink != eyes[j].blink
        invariant forall e :: e in eyes ==> e.Valid()
      {
        var eye := new Eye(displays[n], definitions[n]);
        eyes := eyes + [eye];
      }
    }

    constructor (displays: seq<Display>, definitions: seq<Definition>, sqrt: real -> real, trig: Trigonometry,
                 autoMove: bool, autoBlink: bool, autoPupils: bool)
      requires 0 < |displays| == |definitions|
      requires forall d :: d in displays ==> d.Valid()
      requires forall i, j :: 0 <= i < |displays| && 0 <= j < |displays| && i != j ==>
        displays[i].pixels != displays[j].pixels
      ensures Valid() && |eyes| == |displays| && eyeIndex == 0
      ensures forall i :: 0 <= i < |eyes| ==>
        && eyes[i].display == displays[i] && eyes[i].definition == definitions[i] && eyes[i].drawAll
        && eyes[i].blink.View() == Lids.OPEN_LID && eyes[i].PoseNow() == StartingPose(definitions[i])
      ensures var centre := definitions[|definitions| - 1].polar.mapRadius as real;
        Motion() == Gaze.Motion(false, centre, centre, centre, centre, 0, 0, 0, 0)
      ensures this.autoMove == autoMove && this.autoBlink == autoBlink && this.autoPupils == autoPupils
      ensures maxGazeMs == 3000 && meanBlinkIntervalMs == 2225 && timeToNextBlinkMs == timeOfLastBlinkMs == 0
      ensures irisFrame == 0 && pupilAmount == 0.5 && !resizing
      ensures this.sqrt == sqrt && this.trig == trig
      ensures (forall e :: e in eyes ==> fresh(e) && fresh(e.blink)) && fresh(irisPrev) && fresh(irisNext)
    {
      hide Eye.Valid, AreSeparate, Eye.PoseNow, EyeBlink.View, StartingPose;
      var prev := new real[Pupils.LEVELS](_ => 0.0);
      var next := new real[Pupils.LEVELS](_ => 0.0);
      assert Pupils.AreNoise(prev[..]) && Pupils.AreNoise(next[..]);
      var made := MakeEyes(displays, definitions);
      var centre := definitions[|definitions| - 1].polar.mapRadius as real;
      eyes := made;
      this.sqrt, this.trig := sqrt, trig;
      this.autoMove, this.autoBlink, this.autoPupils := autoMove, autoBlink, autoPupils;
      eyeIndex, meanBlinkIntervalMs, maxGazeMs, fixate := 0, 2225, 3000, 7;
      inMotion, eyeOldX, eyeOldY, eyeNewX, eyeNewY := false, centre, centre, centre, centre;
      moveStartTimeMs, moveDurationMs, lastSaccadeStopMs, saccadeIntervalMs := 0, 0, 0, 0;
      timeToNextBlinkMs, timeOfLastBlinkMs := 0, 0;
      irisFrame, pupilAmount, resizing := 0, 0.5, false;
      resizeStart, resizeTarget, resizeStartTimeMs, resizeDurationMs := 0.0, 0.0, 0, 0;
      irisPrev, irisNext := prev, next;
      new;
      assert EyesAreValid();
    }

    function CurrentEye(): Eye
      requires eyeIndex < |eyes|
      reads this`eyeIndex
    {
      eyes[eyeIndex]
    }

    ghost function GazeConfig(eye: Eye): Gaze.Config
      reads this`maxGazeMs, eye`definition
    {
      Gaze.Config(eye.definition.polar.mapRadius, Reach(eye.definition), maxGazeMs, sqrt)
    }

    /** How much of the map is wider than the screen's half turn. */
    function Reach(def: EyeDefinition): real {
      (def.polar.mapRadius * 2) as real - SCREEN as real * trig.halfPi
    }

    // ---------------------------------------------------------------- movement

    /** The destination is reached: the move becomes a hold. */
    method Arrive(t: nat, d: Gaze.Draws)
      requires Gaze.HasArrived(Motion(), t)
      modifies this`inMotion, this`eyeOldX, this`eyeOldY, this`moveStartTimeMs,
               this`moveDurationMs, this`lastSaccadeStopMs, this`saccadeIntervalMs
      ensures forall c: Gaze.Config :: c.maxGazeMs == maxGazeMs ==> Motion() == Gaze.Arrived(c, old(Motion()), t, d)
    {
      inMotion := false;
      var limit := Gaze.Min(1000, maxGazeMs);
      moveDurationMs := Gaze.Random(35, limit, d.first);
      if saccadeIntervalMs == 0 {
        lastSaccadeStopMs := t;
        saccadeIntervalMs := Gaze.Random(moveDurationMs, maxGazeMs, d.second);
      }
      moveStartTimeMs := t;
      eyeOldX := eyeNewX;
      eyeOldY := eyeNewY;
    }

    /** Picks a new point to look at, up to r from the centre. */
    method AimBigSaccade(eye: Eye, d: Gaze.Draws)
      modifies this`eyeNewX, this`eyeNewY, this`moveDurationMs, this`saccadeIntervalMs
      ensures Motion() == Gaze.BigMove(GazeConfig(eye), old(Motion()), d)
    {
      var mapRadius := eye.definition.polar.mapRadius as real;
      var r := Reach(eye.definition) * 0.75;
      eyeNewX := Gaze.DiscX(r, d);
      eyeNewY := Gaze.DiscY(r, eyeNewX, d, sqrt);
      moveDurationMs := Gaze.Random(83, 166, d.third);
      saccadeIntervalMs := 0;
      eyeNewX := eyeNewX + mapRadius;
      eyeNewY := eyeNewY + mapRadius;
    }

    /** Picks a point near the present one; it is not clipped. */
    method AimMicrosaccade(eye: Eye, d: Gaze.Draws)
      requires eye.x == eyeOldX && eye.y == eyeOldY
      modifies this`eyeNewX, this`eyeNewY, this`moveDurationMs
      ensures Motion() == Gaze.MicroMove(GazeConfig(eye), old(Motion()), d)
    {
      var mapRadius := eye.definition.polar.mapRadius as real;
      var r := Reach(eye.definition) * 0.07;
      var dx := Gaze.DiscX(r, d);
      eyeNewX := eye.x - mapRadius + dx;
      eyeNewY := eye.y - mapRadius + Gaze.DiscY(r, dx, d, sqrt);
      moveDurationMs := Gaze.Random(7, 25, d.third);
      eyeNewX := eyeNewX + mapRadius;
      eyeNewY := eyeNewY + mapRadius;
    }

    /** The hold is over: sets off for the next point. */
    method Depart(eye: Eye, t: nat, d: Gaze.Draws)
      requires eye.x == eyeOldX && eye.y == eyeOldY
      modifies this`inMotion, this`eyeNewX, this`eyeNewY, this`moveStartTimeMs, this`moveDurationMs, this`saccadeIntervalMs
      ensures Motion() == Gaze.Departed(GazeConfig(eye), old(Motion()), t, d)
    {
      if Since(t, lastSaccadeStopMs) > saccadeIntervalMs {
        AimBigSaccade(eye, d);
      } else {
        AimMicrosaccade(eye, d);
      }
      moveStartTimeMs := t;
      inMotion := true;
    }

    method ApplyAutoMove(eye: Eye, t: nat, d: Gaze.Draws)
      modifies this`inMotion, this`eyeOldX, this`eyeOldY, this`eyeNewX, this`eyeNewY, this`moveStartTimeMs,
               this`moveDurationMs, this`lastSaccadeStopMs, this`saccadeIntervalMs, eye`x, eye`y
      ensures Motion() == Gaze.Moved(old(GazeConfig(eye)), old(Motion()), autoMove, t, d)
      ensures eye.x == Gaze.GazeX(old(Motion()), t) && eye.y == Gaze.GazeY(old(Motion()), t)
    {
      LerpEnds(eyeOldX, eyeNewX);
      LerpEnds(eyeOldY, eyeNewY);
      if !autoMove && !inMotion {
        eye.x := eyeOldX;
        eye.y := eyeOldY;
        return;
      }
      var dt := Since(t, moveStartTimeMs);
      if inMotion {
        if dt >= moveDurationMs {
          // The move is over
          Arrive(t, d);
          eye.x := eyeOldX;
          eye.y := eyeOldY;
        } else {
          // Interpolate the position
          var e := Gaze.Eased(dt as real / moveDurationMs as real);
          eye.x := Lerp(eyeOldX, eyeNewX, e);
          eye.y := Lerp(eyeOldY, eyeNewY, e);
        }
      } else {
        eye.x := eyeOldX;
        eye.y := eyeOldY;
        if dt > moveDurationMs {
          Depart(eye, t, d);
        }
      }
    }

    // ---------------------------------------------------------------- pupils

    method ApplyAutoPupils(t: nat, draws: seq<nat>)
      requires irisPrev != irisNext && PupilState().Valid() && |draws| == Pupils.LEVELS
      modifies this`pupilAmount, this`resizing, this`irisFrame, irisPrev, irisNext
      ensures PupilState() == Pupils.Applied(old(PupilState()), autoPupils, t, draws)
      ensures PupilState().Valid()
    {
      Pupils.StepIsValid(PupilState(), autoPupils, t, draws);
      if !autoPupils && !resizing {
        return;
      }
      if resizing {
        var dt := Since(t, resizeStartTimeMs);
        if dt < resizeDurationMs {
          var fraction := dt as real / resizeDurationMs as real;
          pupilAmount := resizeStart + fraction * (resizeTarget - resizeStart);
        } else {
          resizing := false;
          pupilAmount := resizeTarget;
        }
        return;
      }
      var sum := Pupils.AutoLevels(irisPrev, irisNext, irisFrame, draws);
      pupilAmount := Clamped(sum);
      irisFrame := irisFrame + 1;
      if irisFrame >= Pupils.FRAMES {
        irisFrame := 0;
      }
    }

    // ---------------------------------------------------------------- lids

    static method WinkEye(eye: Eye, duration: nat, t: nat)
      modifies eye.blink
      ensures eye.blink.View() == Lids.Winked(old(eye.blink.View()), duration, t)
    {
      if eye.blink.state == Lids.NotBlinking {
        eye.blink.state := Lids.BlinkClosing;
        eye.blink.startTimeMs := t;
        eye.blink.durationMs := duration;
      }
    }

    static function Openness(blink: EyeBlink, t: nat): (r: real)
      reads blink
      ensures r == Lids.Openness(blink.View(), t)
    {
      var dt := Since(t, blink.openStartMs);
      if dt >= blink.openDurationMs then blink.openTo
      else
        var fraction := dt as real / blink.openDurationMs as real;
        blink.openFrom + (blink.openTo - blink.openFrom) * fraction
    }

    static method ReopenLids(blink: EyeBlink, t: nat)
      modifies blink
      ensures blink.View() == Lids.Reopened(old(blink.View()), t)
    {
      if blink.reopenPending && Lids.NotNegative(Since(t, blink.reopenAtMs)) {
        blink.reopenPending := false;
        blink.openFrom := Openness(blink, t);
        blink.openTo := 1.0;
        blink.openStartMs := t;
        blink.openDurationMs := Lids.LID_MOVE_MS;
      }
    }

    static method AdvanceBlink(blink: EyeBlink, t: nat) returns (blinkFactor: real)
      modifies blink`state, blink`durationMs, blink`startTimeMs
      ensures blink.View() == Lids.Advanced(old(blink.View()), t)
      ensures blinkFactor == Lids.BlinkAmount(old(blink.View()), t)
    {
      blinkFactor := 0.0;
      if blink.state != Lids.NotBlinking {
        if Since(t, blink.startTimeMs) >= blink.durationMs {
          match blink.state {
            case BlinkClosing =>
              blink.state := Lids.BlinkOpening;
              blink.durationMs := blink.durationMs * 2 % WRAP;
              blink.startTimeMs := t;
              blinkFactor := 1.0;
            case BlinkOpening =>
              blink.state := Lids.NotBlinking;
              blinkFactor := 0.0;
          }
        } else {
          blinkFactor := Since(t, blink.startTimeMs) as real / blink.durationMs as real;
          if blink.state == Lids.BlinkOpening {
            blinkFactor := 1.0 - blinkFactor;
          }
        }
      }
    }

    /** Moves the lids' state on to time t; returns how closed they are. */
    static method UpdateBlinkState(eye: Eye, t: nat) returns (closure: real)
      requires eye.Valid()
      modifies eye.blink
      ensures eye.Valid() && InUnit(closure)
      ensures eye.blink.View() == Lids.Updated(old(eye.blink.View()), t)
      ensures closure == Lids.Closure(old(eye.blink.View()), t)
    {
      Lids.FrameKeepsRange(eye.blink.View(), t);
      ReopenLids(eye.blink, t);
      var blinkFactor := AdvanceBlink(eye.blink, t);
      closure := Lids.Combined(Openness(eye.blink, t), blinkFactor);
      assert eye.UpperF() == old(eye.UpperF()) && eye.LowerF() == old(eye.LowerF());
    }

    /** Where the pupil of the current eye is on screen. */
    method FindPupil(eye: Eye) returns (ix: int, iy: int)
      requires eye.definition.polar.mapRadius > 0
      ensures ix == PupilColumn(trig, eye.definition, eyeIndex, eye.x) && iy == PupilRow(trig, eye.definition, eye.y)
    {
      hide ScreenOffset;
      var def := eye.definition;
      ix := ScreenOffset(trig, def, eye.x) + SCREEN / 2;
      iy := ScreenOffset(trig, def, eye.y) + SCREEN / 2;
      iy := Trunc(iy as real - def.irisRadius as real * def.squint);
      if eyeIndex % 2 == 1 {
        ix := SCREEN - 1 - ix;
      }
    }

    /** How open each lid of the current eye is before blinks. */
    method ComputeEyelids(eye: Eye, stray: Stray) returns (upperQ: real, lowerQ: real)
      ensures InUnit(upperQ) && upperQ == UpperTarget(trig, eyeIndex, eye.definition, eye.x, eye.y, stray)
      ensures InUnit(lowerQ) && lowerQ == LowerTarget(trig, eyeIndex, eye.definition, eye.x, eye.y, stray)
    {
      hide PupilColumn, PupilRow, AsByte, TrackedLid, OpenRow, ClosedRow;
      if eye.definition.tracking {
        var ix, iy := FindPupil(eye);
        var eyelids := eye.definition.eyelids;
        upperQ := TrackedLid(iy, OpenRow(eyelids, AsByte(ix), stray), ClosedRow(eyelids, AsByte(ix), stray));
        lowerQ := 1.0 - upperQ;
      } else {
        upperQ, lowerQ := 1.0, 1.0;
      }
    }

    /** How long a blink takes to close. */
    static function BlinkDuration(raw: nat): (d: nat)
      ensures 50 <= d < 100 && (raw < 50 ==> d == 50 + raw)
    {
      Gaze.Random(50, 100, raw)
    }

    method DoBlink(raw: nat, t: nat) returns (blinkDuration: nat)
      requires EyesAreSeparate() && EyesAreValid()
      modifies set e | e in eyes :: e.blink
      ensures EyesAreValid()
      ensures blinkDuration == BlinkDuration(raw)
      ensures forall e :: e in eyes ==> e.blink.View() == Lids.Winked(old(e.blink.View()), blinkDuration, t)
    {
      blinkDuration := Gaze.Random(50, 100, raw);
      for i := 0 to |eyes|
        invariant forall j :: 0 <= j < i ==>
          eyes[j].blink.View() == Lids.Winked(old(eyes[j].blink.View()), blinkDuration, t)
        invariant forall j :: i <= j < |eyes| ==> eyes[j].blink.View() == old(eyes[j].blink.View())
      {
        WinkEye(eyes[i], blinkDuration, t);
      }
      forall e | e in eyes ensures e.Valid() {
        Lids.RequestsKeepRange(old(e.blink.View()), t, blinkDuration, 0.0, 0, 0);
        assert old(e.Valid());
        assert e.UpperF() == old(e.UpperF()) && e.LowerF() == old(e.LowerF());
      }
    }

    /** How much the times between automatic blinks vary: evenly about the mean, if there is room for that. */
    static function BlinkSpread(meanMs: nat, blinkDuration: nat): (spread: nat)
      ensures 3 * blinkDuration < meanMs < HALF_WRAP ==> spread == 2 * (meanMs - 3 * blinkDuration)
    {
      var minGapMs := blinkDuration * 3;
      if meanMs > minGapMs then 2 * (meanMs - minGapMs) % WRAP else 1
    }

    /** A time to the next automatic blink. */
    static function NextBlinkGap(meanMs: nat, blinkDuration: nat, raw: nat): (gap: nat)
      ensures gap < WRAP
      ensures 3 * blinkDuration < meanMs < HALF_WRAP ==> gap < 2 * meanMs - 3 * blinkDuration
    {
      (blinkDuration * 3 + Gaze.Random(0, BlinkSpread(meanMs, blinkDuration), raw)) % WRAP
    }

    /** Whatever is drawn, the blink is over by the time of the next, exactly when the longest gap fits 32 bits. */
    static lemma BlinkIsOverExactlyWhen(meanMs: nat, blinkDuration: nat)
      requires 50 <= blinkDuration < 100
      ensures (forall raw :: 3 * blinkDuration <= NextBlinkGap(meanMs, blinkDuration, raw))
              <==> 3 * blinkDuration + BlinkSpread(meanMs, blinkDuration) <= WRAP
    {
      var spread := BlinkSpread(meanMs, blinkDuration);
      if 3 * blinkDuration + spread > WRAP {
        var raw := WRAP - 3 * blinkDuration;
        assert Gaze.Random(0, spread, raw) == raw;
        assert NextBlinkGap(meanMs, blinkDuration, raw) == 0;
      }
    }

    /** With a mean of 2^31 + 149 ms the next blink can be due before the last, of 150 ms, is over. */
    static lemma GapCutShort()
      ensures NextBlinkGap(0x8000_0095, 50, WRAP - 3) == 147
    {
      assert BlinkSpread(0x8000_0095, 50) == WRAP - 2;
    }

    /** The times are spread evenly about the mean: every draw has an opposite one. */
    static lemma GapsAreEven(meanMs: nat, blinkDuration: nat, raw: nat)
      requires 3 * blinkDuration < meanMs < HALF_WRAP && raw < BlinkSpread(meanMs, blinkDuration)
      ensures NextBlinkGap(meanMs, blinkDuration, raw) == 3 * blinkDuration + raw
      ensures var opposite := BlinkSpread(meanMs, blinkDuration) - 1 - raw;
        NextBlinkGap(meanMs, blinkDuration, raw) + NextBlinkGap(meanMs, blinkDuration, opposite) == 2 * meanMs - 1
    {
    }

    /** By true times: a blink is due once the time drawn has passed, and then as long as the clock shows that. */
    lemma BlinkIsDueExactlyWhen(last: nat, t: nat)
      requires timeOfLastBlinkMs == Reading(last) && last <= t
      ensures BlinkIsDue(Reading(t)) <==> autoBlink && (t - last) % WRAP >= timeToNextBlinkMs
      ensures t - last < WRAP ==> (BlinkIsDue(Reading(t)) <==> autoBlink && t - last >= timeToNextBlinkMs)
    {
      SinceIsElapsed(t, last);
    }

    /** It is time for an automatic blink. */
    predicate BlinkIsDue(t: nat)
      reads this`autoBlink, this`timeOfLastBlinkMs, this`timeToNextBlinkMs
    {
      autoBlink && Since(t, timeOfLastBlinkMs) >= timeToNextBlinkMs
    }

    /** An eye's lids after an automatic blink, if it is due. */
    static function AutoBlinked(b: Lids.Lid, due: bool, raw: nat, t: nat): Lids.Lid {
      if due then Lids.Winked(b, BlinkDuration(raw), t) else b
    }

    method ApplyAutoBlink(t: nat, winkTime: nat, raw: nat, rawNext: nat)
      requires Valid()
      modifies this`timeOfLastBlinkMs, this`timeToNextBlinkMs, set e | e in eyes :: e.blink
      ensures Valid() && Motion() == old(Motion()) && PupilState() == old(PupilState())
      ensures forall e :: e in eyes ==>
        e.blink.View() == AutoBlinked(old(e.blink.View()), old(BlinkIsDue(t)), raw, winkTime)
      ensures timeOfLastBlinkMs == if old(BlinkIsDue(t)) then t else old(timeOfLastBlinkMs)
      ensures timeToNextBlinkMs ==
        if old(BlinkIsDue(t)) then NextBlinkGap(meanBlinkIntervalMs, BlinkDuration(raw), rawNext)
        else old(timeToNextBlinkMs)
    {
      if !autoBlink {
        return;
      }
      if Since(t, timeOfLastBlinkMs) >= timeToNextBlinkMs {
        timeOfLastBlinkMs := t;
        var blinkDuration := DoBlink(raw, winkTime);
        timeToNextBlinkMs := NextBlinkGap(meanBlinkIntervalMs, blinkDuration, rawNext);
      }
    }

    // ---------------------------------------------------------------- drawing a frame

    /** Nearest integer, halves away from zero. */
    static function LRound(r: real): int {
      if r >= 0.0 then Trunc(r + 0.5) else -Trunc(-r + 0.5)
    }

    /** A texture's angle at clock reading t: a fixed step per frame, or by the clock. */
    static function SpunAngle(s: Surface, current: nat, t: nat): (a: nat)
      requires s.Valid()
      ensures a < 0x10000
    {
      if s.iSpin != 0 then (current + s.iSpin) % 0x10000
      else LRound(SpunBy(s.startAngle as real, s.spin, t as real / 60000.0)) % 0x10000
    }

    static function SpunBy(start: real, spin: real, minutes: real): real {
      start + spin * minutes * -1024.0
    }

    /**
     A texture turned by the clock is, to the nearest unit of 1/1024 turn, where `spin` turns a minute against its
     angles take it from its first angle.
     */
    static lemma SpinIsEven(s: Surface, current: nat, t: nat, exact: real) returns (turns: int)
      requires s.Valid() && s.iSpin == 0
      requires 60000.0 * (s.startAngle as real - exact) == 1024.0 * (s.spin * t as real)
      ensures -0.5 <= (SpunAngle(s, current, t) + 0x10000 * turns) as real - exact <= 0.5
    {
      var v := LRound(exact);
      turns := v / 0x10000;
      RoundIsNear(exact);
      SpunByClock(s, current, t, exact);
      hide SpunAngle, LRound;
      assert v == v % 0x10000 + 0x10000 * turns;
    }

    static lemma SpunByClock(s: Surface, current: nat, t: nat, exact: real)
      requires s.Valid() && s.iSpin == 0
      requires 60000.0 * (s.startAngle as real - exact) == 1024.0 * (s.spin * t as real)
      ensures SpunAngle(s, current, t) == LRound(exact) % 0x10000
    {
      SpunExactly(s.startAngle as real, s.spin, t as real, t as real / 60000.0, exact);
      hide LRound, SpunBy;
    }

    static lemma SpunExactly(start: real, spin: real, t: real, minutes: real, exact: real)
      requires minutes == t / 60000.0 && 60000.0 * (start - exact) == 1024.0 * (spin * t)
      ensures SpunBy(start, spin, minutes) == exact
    {
      assert minutes * 60000.0 == t;
      Reassociated(spin, minutes, 60000.0);
    }

    static lemma RoundIsNear(r: real)
      ensures -0.5 <= LRound(r) as real - r <= 0.5
    {
    }

    /** A texture turned by the frame goes on by its step, whatever the clock shows. */
    static lemma SpinByFrame(s: Surface, current: nat, t: nat)
      requires s.Valid() && s.iSpin != 0 && current < 0x10000
      ensures var a := SpunAngle(s, current, t); a == current + s.iSpin || a == current + s.iSpin - 0x10000
    {
    }

    /** Makes a pair of eyes slightly cross-eyed. */
    method ApplyFixation(eye: Eye)
      requires fixate == nufix
      modifies this`fixate, eye`x
      ensures fixate == nufix
      ensures eye.x == FixatedX(eyeIndex, old(eye.x))
    {
      if |eyes| == 1 {
        return;
      }
      fixate := (fixate * 15 + nufix) / 16;
      eye.x := if eyeIndex % 2 == 1 then eye.x - fixate as real else eye.x + fixate as real;
    }

    /** Eye `index` looking towards x, cross-eyed. */
    function FixatedX(index: nat, x: real): real {
      if |eyes| == 1 then x else if index % 2 == 1 then x - nufix as real else x + nufix as real
    }

    /** The first display is mirrored. */
    function DrawnX(index: nat, def: EyeDefinition, x: real): real {
      if index == 0 then (def.polar.mapRadius * 2) as real - x else x
    }

    /**
     A pair of eyes: on its own display each is drawn 7 further to the same side, and what takes the gaze of one
     to the right takes that of the other, whose display is mirrored, to the left.  A single eye is only mirrored.
     */
    lemma PairLooksTogether(def: EyeDefinition, off: real)
      ensures var m := def.polar.mapRadius as real;
        if |eyes| == 1 then DrawnX(0, def, FixatedX(0, m + off)) == m - off
        else
          && DrawnX(0, def, FixatedX(0, m + off)) == m - 7.0 - off
          && DrawnX(1, def, FixatedX(1, m + off)) == m - 7.0 + off
    {
    }

    /** Flips the X value of a mirrored eye. */
    method Flip(eye: Eye)
      modifies eye`x
      ensures eye.x == DrawnX(eyeIndex, eye.definition, old(eye.x))
      ensures DrawnX(eyeIndex, eye.definition, eye.x) == old(eye.x)
    {
      if eyeIndex == 0 {
        eye.x := (eye.definition.polar.mapRadius * 2) as real - eye.x;
      }
    }

    /** Draws an eye's picture, temporarily flipped if it is mirrored. */
    method DrawMirrored(eye: Eye, upperQ: real, lowerQ: real, closure: real)
      requires eye.Valid() && InUnit(pupilAmount) && InUnit(upperQ) && InUnit(lowerQ) && InUnit(closure)
      modifies eye`x, eye`upperLidFactor, eye`lowerLidFactor, eye`drawAll, eye.blink`blinkFactor, eye.display.pixels
      ensures eye.Valid() && !eye.drawAll
      ensures eye.PoseNow() == old(eye.PoseNow()).(
        upperLidFactor := Damped(old(eye.upperLidFactor), upperQ), lowerLidFactor := Damped(old(eye.lowerLidFactor), lowerQ))
      ensures eye.blink.blinkFactor == closure
      ensures Shows(eye.display, eye.definition, eye.ViewFrom(DrawnX(eyeIndex, eye.definition, eye.x), pupilAmount),
                    eye.UpperF(), eye.LowerF())
    {
      Flip(eye);
      ghost var drawn := eye.x;
      RenderEye(eye, pupilAmount, upperQ, lowerQ, closure);
      assert eye.SceneView(pupilAmount) == eye.ViewFrom(drawn, pupilAmount);
      Flip(eye);
    }

    /** An eye's pose after a frame. */
    function Posed(index: nat, def: EyeDefinition, p: Pose, f: FrameInput): Pose
      requires def.Valid()
    {
      var x := FixatedX(index, p.x);
      p.(x := x,
         irisAngle := SpunAngle(def.iris, p.irisAngle, f.spinTime),
         scleraAngle := SpunAngle(def.sclera, p.scleraAngle, f.spinTime),
         upperLidFactor := Damped(p.upperLidFactor, UpperTarget(trig, index, def, x, p.y, f.stray)),
         lowerLidFactor := Damped(p.lowerLidFactor, LowerTarget(trig, index, def, x, p.y, f.stray)))
    }

    /** In a frame each texture is turned by its own spin, and each lid goes three tenths of its way. */
    lemma PosedTextures(index: nat, def: EyeDefinition, p: Pose, f: FrameInput, iris: real, sclera: real)
      returns (turns: int, turns': int)
      requires def.Valid() && def.iris.iSpin == def.sclera.iSpin == 0
      requires 60000.0 * (def.iris.startAngle as real - iris) == 1024.0 * (def.iris.spin * f.spinTime as real)
      requires 60000.0 * (def.sclera.startAngle as real - sclera) == 1024.0 * (def.sclera.spin * f.spinTime as real)
      ensures var p' := Posed(index, def, p, f);
        && -0.5 <= (p'.irisAngle + 0x10000 * turns) as real - iris <= 0.5
        && -0.5 <= (p'.scleraAngle + 0x10000 * turns') as real - sclera <= 0.5
        && p'.y == p.y && p'.x == FixatedX(index, p.x)
        && p'.upperLidFactor == Lerp(p.upperLidFactor, UpperTarget(trig, index, def, p'.x, p.y, f.stray), 0.3)
        && p'.lowerLidFactor == Lerp(p.lowerLidFactor, LowerTarget(trig, index, def, p'.x, p.y, f.stray), 0.3)
    {
      turns := SpinIsEven(def.iris, p.irisAngle, f.spinTime, iris);
      turns' := SpinIsEven(def.sclera, p.scleraAngle, f.spinTime, sclera);
      hide SpunAngle, UpperTarget, LowerTarget;
      var x := FixatedX(index, p.x);
      DampedIsShare(p.upperLidFactor, UpperTarget(trig, index, def, x, p.y, f.stray));
      DampedIsShare(p.lowerLidFactor, LowerTarget(trig, index, def, x, p.y, f.stray));
    }

    /** Time-based changes to the current eye, and its picture on its display. */
    method DrawEye(eye: Eye, f: FrameInput)
      requires eye.Valid() && InUnit(pupilAmount) && fixate == nufix
      modifies this`fixate, eye`x, eye`currentIrisAngle, eye`currentScleraAngle, eye`upperLidFactor,
               eye`lowerLidFactor, eye`drawAll, eye.blink, eye.display.pixels
      ensures eye.Valid() && !eye.drawAll && fixate == nufix
      ensures eye.blink.View() == Lids.Framed(old(eye.blink.View()), f.lidTime)
      ensures eye.PoseNow() == old(Posed(eyeIndex, eye.definition, eye.PoseNow(), f))
      ensures IsShown(eye, DrawnX(eyeIndex, eye.definition, eye.x), pupilAmount)
    {
      var closure := UpdateBlinkState(eye, f.lidTime);
      ApplyFixation(eye);
      eye.currentIrisAngle := SpunAngle(eye.definition.iris, eye.currentIrisAngle, f.spinTime);
      eye.currentScleraAngle := SpunAngle(eye.definition.sclera, eye.currentScleraAngle, f.spinTime);
      var upperQ, lowerQ := ComputeEyelids(eye, f.stray);
      DrawMirrored(eye, upperQ, lowerQ, closure);
    }

    /** Draws the current eye; the others, and what they remember of their pictures, are left alone. */
    method DrawCurrentEye(eye: Eye, f: FrameInput)
      requires Valid() && eye == eyes[eyeIndex]
      modifies this`fixate, eye`x, eye`currentIrisAngle, eye`currentScleraAngle, eye`upperLidFactor,
               eye`lowerLidFactor, eye`drawAll, eye.blink, eye.display.pixels
      ensures Valid()
      ensures eye.blink.View() == Lids.Framed(old(eye.blink.View()), f.lidTime)
      ensures eye.PoseNow() == old(Posed(eyeIndex, eye.definition, eye.PoseNow(), f))
      ensures IsShown(eye, DrawnX(eyeIndex, eye.definition, eye.x), pupilAmount)
    {
      hide Posed, Lids.Framed, IsShown, Eye.Valid, Eye.PoseNow, EyeBlink.View;
      assert eye in eyes;
      DrawEye(eye, f);
      forall e | e in eyes ensures e.Valid() {
        if e != eye {
          assert old(e.Valid());
        }
      }
    }

    /** ApplyAutoMove leaves everything but the gaze alone. */
    method MoveGaze(eye: Eye, t: nat, d: Gaze.Draws)
      requires Valid()
      modifies this`inMotion, this`eyeOldX, this`eyeOldY, this`eyeNewX, this`eyeNewY, this`moveStartTimeMs,
               this`moveDurationMs, this`lastSaccadeStopMs, this`saccadeIntervalMs, eye`x, eye`y
      ensures Valid() && PupilState() == old(PupilState())
      ensures Motion() == Gaze.Moved(old(GazeConfig(eye)), old(Motion()), autoMove, t, d)
      ensures eye.x == Gaze.GazeX(old(Motion()), t) && eye.y == Gaze.GazeY(old(Motion()), t)
    {
      ApplyAutoMove(eye, t, d);
      forall e | e in eyes ensures e.Valid() {
        assert old(e.Valid());
      }
    }

    /** ApplyAutoPupils leaves everything but the pupils alone. */
    method MovePupils(t: nat, draws: seq<nat>)
      requires Valid() && |draws| == Pupils.LEVELS
      modifies this`pupilAmount, this`resizing, this`irisFrame, irisPrev, irisNext
      ensures Valid() && Motion() == old(Motion())
      ensures PupilState() == Pupils.Applied(old(PupilState()), autoPupils, t, draws)
    {
      ApplyAutoPupils(t, draws);
      forall e | e in eyes ensures e.Valid() {
        assert old(e.Valid());
      }
    }

    /** The automatic movements of a frame, before anything is drawn. */
    method MoveOn(eye: Eye, f: FrameInput)
      requires Valid() && f.Valid() && eye == eyes[eyeIndex]
      modifies this`inMotion, this`eyeOldX, this`eyeOldY, this`eyeNewX, this`eyeNewY, this`moveStartTimeMs,
               this`moveDurationMs, this`lastSaccadeStopMs, this`saccadeIntervalMs,
               this`timeOfLastBlinkMs, this`timeToNextBlinkMs,
               this`pupilAmount, this`resizing, this`irisFrame, irisPrev, irisNext,
               eye`x, eye`y, set e | e in eyes :: e.blink
      ensures Valid()
      ensures Motion() == Gaze.Moved(old(GazeConfig(eye)), old(Motion()), autoMove, f.moveTime, f.move)
      ensures eye.PoseNow() == old(Looking(eye.PoseNow(), f.moveTime))
      ensures PupilState() == Pupils.Applied(old(PupilState()), autoPupils, f.pupilTime, f.noise)
      ensures forall e :: e in eyes ==>
        e.blink.View() == AutoBlinked(old(e.blink.View()), old(BlinkIsDue(f.blinkTime)), f.blink, f.winkTime)
      ensures BlinkTimesFollow(old(BlinkIsDue(f.blinkTime)), old(timeOfLastBlinkMs), old(timeToNextBlinkMs), f)
    {
      hide AutoBlinked, NextBlinkGap, Gaze.Moved, Pupils.Applied;
      hide Valid, EyesAreValid, EyesAreSeparate, AreSeparate, Eye.Valid, PupilState, BlinkIsDue, EyeBlink.View;
      MoveGaze(eye, f.moveTime, f.move);
      ApplyAutoBlink(f.blinkTime, f.winkTime, f.blink, f.nextBlink);
      MovePupils(f.pupilTime, f.noise);
    }

    /** A pose looking where the gaze is at time t. */
    ghost function Looking(p: Pose, t: nat): Pose
      reads this`inMotion, this`eyeOldX, this`eyeOldY, this`eyeNewX, this`eyeNewY, this`moveStartTimeMs,
            this`moveDurationMs, this`lastSaccadeStopMs, this`saccadeIntervalMs
    {
      p.(x := Gaze.GazeX(Motion(), t), y := Gaze.GazeY(Motion(), t))
    }

    /** The times of automatic blinking after a frame, a blink having been due or not. */
    ghost predicate BlinkTimesFollow(due: bool, last: nat, toNext: nat, f: FrameInput)
      reads this`timeOfLastBlinkMs, this`timeToNextBlinkMs, this`meanBlinkIntervalMs
    {
      if due then
        && timeOfLastBlinkMs == f.blinkTime
        && timeToNextBlinkMs == NextBlinkGap(meanBlinkIntervalMs, BlinkDuration(f.blink), f.nextBlink)
      else timeOfLastBlinkMs == last && timeToNextBlinkMs == toNext
    }

    lemma Separate(eye: Eye)
      requires Valid() && eye == eyes[eyeIndex]
      ensures eyeIndex < |eyes| && eye in eyes && irisPrev != irisNext
      ensures forall e :: e in eyes && e != eye ==> e.blink != eye.blink
    {
    }

    /**
     One frame of the current eye.  Whatever happened since that eye's last frame, its display afterwards
     holds the full picture; the motion, pupils and lids move on by one step.
     */
    method RenderCurrent(eye: Eye, f: FrameInput)
      requires Valid() && f.Valid() && eye == eyes[eyeIndex]
      modifies this`inMotion, this`eyeOldX, this`eyeOldY, this`eyeNewX, this`eyeNewY, this`moveStartTimeMs,
               this`moveDurationMs, this`lastSaccadeStopMs, this`saccadeIntervalMs,
               this`timeOfLastBlinkMs, this`timeToNextBlinkMs, this`fixate,
               this`pupilAmount, this`resizing, this`irisFrame, irisPrev, irisNext,
               eye`x, eye`y, eye`currentIrisAngle, eye`currentScleraAngle, eye`upperLidFactor, eye`lowerLidFactor,
               eye`drawAll, eye.display.pixels, set e | e in eyes :: e.blink
      ensures Valid()
      ensures Motion() == Gaze.Moved(old(GazeConfig(eye)), old(Motion()), autoMove, f.moveTime, f.move)
      ensures PupilState() == Pupils.Applied(old(PupilState()), autoPupils, f.pupilTime, f.noise)
      ensures eye.PoseNow() == old(Posed(eyeIndex, eye.definition, Looking(eye.PoseNow(), f.moveTime), f))
      ensures forall e :: e in eyes ==>
        var b := AutoBlinked(old(e.blink.View()), old(BlinkIsDue(f.blinkTime)), f.blink, f.winkTime);
        e.blink.View() == if e == eye then Lids.Framed(b, f.lidTime) else b
      ensures BlinkTimesFollow(old(BlinkIsDue(f.blinkTime)), old(timeOfLastBlinkMs), old(timeToNextBlinkMs), f)
      ensures IsShown(eye, DrawnX(eyeIndex, eye.definition, eye.x), pupilAmount)
    {
      hide Posed, AutoBlinked, NextBlinkGap, Gaze.Moved, Pupils.Applied, Lids.Framed, Looking;
      hide IsShown, BlinkTimesFollow;
      hide Valid, EyesAreValid, EyesAreSeparate, AreSeparate, Eye.Valid;
      hide Motion, PupilState, GazeConfig, BlinkIsDue, Eye.PoseNow, EyeBlink.View;
      Separate(eye);
      MoveOn(eye, f);
      DrawCurrentEye(eye, f);
    }

    /** The next frame is the next eye's. */
    method AdvanceEye()
      requires Valid()
      modifies this`eyeIndex
      ensures Valid() && eyeIndex == (old(eyeIndex) + 1) % |eyes|
    {
      eyeIndex := (eyeIndex + 1) % |eyes|;
    }

    /**
     Renders a frame if the current display is available, then moves on to the next eye.  The eye just
     drawn shows its full picture; the others, apart from an automatic blink, are left alone.
     */
    method RenderFrame(available: bool, f: FrameInput) returns (rendered: bool)
      requires Valid() && f.Valid()
      modifies this`inMotion, this`eyeOldX, this`eyeOldY, this`eyeNewX, this`eyeNewY, this`moveStartTimeMs,
               this`moveDurationMs, this`lastSaccadeStopMs, this`saccadeIntervalMs,
               this`timeOfLastBlinkMs, this`timeToNextBlinkMs, this`fixate, this`eyeIndex,
               this`pupilAmount, this`resizing, this`irisFrame, irisPrev, irisNext,
               CurrentEye()`x, CurrentEye()`y, CurrentEye()`currentIrisAngle, CurrentEye()`currentScleraAngle,
               CurrentEye()`upperLidFactor, CurrentEye()`lowerLidFactor, CurrentEye()`drawAll,
               CurrentEye().display.pixels, set e | e in eyes :: e.blink
      ensures Valid()
      ensures rendered == available
      ensures !rendered ==>
        && unchanged(this, irisPrev, irisNext, eyes[old(eyeIndex)], eyes[old(eyeIndex)].display.pixels)
        && forall e :: e in eyes ==> unchanged(e.blink)
      ensures rendered ==>
        && eyeIndex == (old(eyeIndex) + 1) % |eyes|
        && Motion() == Gaze.Moved(old(GazeConfig(eyes[eyeIndex])), old(Motion()), autoMove, f.moveTime, f.move)
        && PupilState() == Pupils.Applied(old(PupilState()), autoPupils, f.pupilTime, f.noise)
        && BlinkTimesFollow(old(BlinkIsDue(f.blinkTime)), old(timeOfLastBlinkMs), old(timeToNextBlinkMs), f)
      ensures rendered ==> forall e :: e in eyes ==>
        var b := AutoBlinked(old(e.blink.View()), old(BlinkIsDue(f.blinkTime)), f.blink, f.winkTime);
        e.blink.View() == if e == eyes[old(eyeIndex)] then Lids.Framed(b, f.lidTime) else b
      ensures rendered ==> var eye := eyes[old(eyeIndex)];
        && eye.PoseNow() == old(Posed(eyeIndex, CurrentEye().definition, Looking(CurrentEye().PoseNow(), f.moveTime), f))
        && IsShown(eye, DrawnX(old(eyeIndex), eye.definition, eye.x), pupilAmount)
    {
      hide Posed, AutoBlinked, NextBlinkGap, Gaze.Moved, Pupils.Applied, Lids.Framed, Looking;
      hide IsShown, BlinkTimesFollow, Eye.Valid, AreSeparate, Motion, GazeConfig, BlinkIsDue, Eye.PoseNow, EyeBlink.View;
      if !available {
        return false;
      }
      RenderCurrent(CurrentEye(), f);
      AdvanceEye();
      rendered := true;
    }

    // ---------------------------------------------------------------- requests between frames

    /** Blinks all eyes now, and lets the automatic blinking restart its timing. */
    method Blink(raw: nat, t: nat) returns (blinkDuration: nat)
      requires Valid()
      modifies this`timeToNextBlinkMs, set e | e in eyes :: e.blink
      ensures Valid() && blinkDuration == BlinkDuration(raw) && timeToNextBlinkMs == 0
      ensures forall e :: e in eyes ==> e.blink.View() == Lids.Winked(old(e.blink.View()), blinkDuration, t)
    {
      blinkDuration := DoBlink(raw, t);
      timeToNextBlinkMs := 0;
    }

    /** Winks one eye; an index out of range does nothing. */
    method Wink(index: nat, raw: nat, t: nat)
      requires Valid()
      modifies set e | e in eyes :: e.blink
      ensures Valid()
      ensures forall i :: 0 <= i < |eyes| ==>
        eyes[i].blink.View() == if i == index then Lids.Winked(old(eyes[i].blink.View()), BlinkDuration(raw), t)
                                else old(eyes[i].blink.View())
    {
      if index < |eyes| {
        var duration := Gaze.Random(50, 100, raw);
        assert eyes[index].Valid();
        Lids.RequestsKeepRange(eyes[index].blink.View(), t, duration, 0.0, 0, 0);
        WinkEye(eyes[index], duration, t);
      }
    }

    static method HoldLids(blink: EyeBlink, level: real, holdMs: nat, durationMs: nat, t: nat)
      modifies blink
      ensures blink.View() == Lids.HeldOpen(old(blink.View()), level, holdMs, durationMs, t)
    {
      blink.openFrom := Openness(blink, t);
      blink.openTo := Clamped(level);
      blink.openStartMs := t;
      blink.openDurationMs := durationMs;
      blink.reopenPending := holdMs > 0;
      blink.reopenAtMs := (t + durationMs + holdMs) % WRAP;
    }

    /** Moves one eye's lids to a level, to stay there for holdMs (0: until changed); an index out of range does nothing. */
    method SetOpenness(index: nat, level: real, holdMs: nat, durationMs: nat, t: nat)
      requires Valid() && holdMs < WRAP && durationMs < WRAP
      modifies set e | e in eyes :: e.blink
      ensures Valid()
      ensures forall i :: 0 <= i < |eyes| ==>
        eyes[i].blink.View() == if i == index then Lids.HeldOpen(old(eyes[i].blink.View()), level, holdMs, durationMs, t)
                                else old(eyes[i].blink.View())
    {
      if index < |eyes| {
        assert eyes[index].Valid();
        Lids.RequestsKeepRange(eyes[index].blink.View(), t, 50, level, holdMs, durationMs);
        HoldLids(eyes[index].blink, level, holdMs, durationMs, t);
      }
    }

    /** A cast of a float that is not negative to uint32_t, which gives any value for one that does not fit. */
    static function CastTo32(v: real, any: nat): (n: nat)
      requires v >= 0.0
      ensures n < WRAP
      ensures v < WRAP as real ==> n as real <= v < (n + 1) as real
    {
      if v < WRAP as real then Trunc(v) else any % WRAP
    }

    /**
     Automatic blinking at so many blinks a minute, or none for a rate that is not positive.  The mean
     interval is that of the rate, unless it is too long for 32 bits.
     */
    method SetBlinkRate(perMinute: real, t: nat, raw: nat, any: nat)
      requires Valid()
      modifies this`autoBlink, this`meanBlinkIntervalMs, this`timeOfLastBlinkMs, this`timeToNextBlinkMs
      ensures Valid() && (autoBlink <==> perMinute > 0.0)
      ensures autoBlink ==>
        && 60000.0 / perMinute >= 0.0 && meanBlinkIntervalMs == CastTo32(60000.0 / perMinute, any)
        && timeOfLastBlinkMs == t
        && timeToNextBlinkMs == Gaze.Random(0, meanBlinkIntervalMs * 2 % WRAP, raw)
      ensures !autoBlink ==>
        && meanBlinkIntervalMs == old(meanBlinkIntervalMs)
        && timeOfLastBlinkMs == old(timeOfLastBlinkMs) && timeToNextBlinkMs == old(timeToNextBlinkMs)
    {
      autoBlink := perMinute > 0.0;
      if autoBlink {
        DivMono(0.0, 60000.0, perMinute);
        Quotient(0.0, perMinute, 0.0);
        meanBlinkIntervalMs := CastTo32(60000.0 / perMinute, any);
        timeOfLastBlinkMs := t;
        timeToNextBlinkMs := Gaze.Random(0, meanBlinkIntervalMs * 2 % WRAP, raw);
      }
    }

    /** The interval fits its 32 bits, and is the mean that was asked for, exactly for rates above one in 2^32 ms. */
    static lemma IntervalFitsExactlyWhen(perMinute: real)
      requires perMinute > 0.0
      ensures 60000.0 / perMinute < WRAP as real <==> perMinute * WRAP as real > 60000.0
    {
      var q := 60000.0 / perMinute;
      assert q * perMinute == 60000.0;
      QuotientBelow(q, perMinute, 60000.0, WRAP as real);
    }

    method AimAt(eye: Eye, xTarget: real, yTarget: real, durationMs: nat, t: nat)
      requires IsSqrt(sqrt)
      modifies this`eyeNewX, this`eyeNewY, this`inMotion, this`moveDurationMs, this`moveStartTimeMs
      ensures Motion() == Gaze.Targeted(GazeConfig(eye), old(Motion()), xTarget, yTarget, durationMs, t)
    {
      var def := eye.definition;
      var target := Gaze.TargetPoint(def.polar.mapRadius as real, Reach(def) * 0.75, xTarget, yTarget, sqrt);
      eyeNewX := target.0;
      eyeNewY := target.1;
      if !inMotion {
        inMotion := true;
        moveDurationMs := durationMs;
        moveStartTimeMs := t;
      }
    }

    /**
     Starts a smooth move; a move already under way keeps its timing and is redirected.  A negative
     duration becomes a very long one.
     */
    method SetTargetPosition(xTarget: real, yTarget: real, durationMs: int, t: nat)
      requires Valid() && IsSqrt(sqrt)
      modifies this`eyeNewX, this`eyeNewY, this`inMotion, this`moveDurationMs, this`moveStartTimeMs
      ensures Valid()
      ensures Motion() == Gaze.Targeted(GazeConfig(eyes[eyeIndex]), old(Motion()), xTarget, yTarget, durationMs % WRAP, t)
    {
      AimAt(eyes[eyeIndex], xTarget, yTarget, durationMs % WRAP, t);
    }

    /** Moves the gaze at once, to where a move under way then seems to have started. */
    method SetPosition(x: real, y: real)
      requires Valid() && IsSqrt(sqrt)
      modifies this`eyeOldX, this`eyeOldY
      ensures Valid()
      ensures Motion() == Gaze.Positioned(GazeConfig(eyes[eyeIndex]), old(Motion()), x, y)
    {
      var def := eyes[eyeIndex].definition;
      var point := Gaze.TargetPoint(def.polar.mapRadius as real, Reach(def) * 0.75, x, y, sqrt);
      eyeOldX := point.0;
      eyeOldY := point.1;
    }

    /** Resizes the pupils smoothly.  They stay in range if and only if the new ratio, which is not clamped, is. */
    method SetTargetPupil(ratio: real, durationMs: int, t: nat)
      requires Valid()
      modifies this`resizing, this`resizeStart, this`resizeTarget, this`resizeDurationMs, this`resizeStartTimeMs
      ensures PupilState() == Pupils.Resized(old(PupilState()), ratio, durationMs % WRAP, t)
      ensures Valid() <==> InUnit(ratio)
    {
      resizing := true;
      resizeStart := pupilAmount;
      resizeTarget := ratio;
      resizeDurationMs := durationMs % WRAP;
      resizeStartTimeMs := t;
    }

    /** Resizes the pupils at once. */
    method SetPupil(ratio: real)
      requires Valid()
      modifies this`pupilAmount
      ensures Valid() && PupilState() == old(PupilState()).(amount := Clamped(ratio))
    {
      pupilAmount := Clamped(ratio);
    }

    /** An eye with this definition, its textures unspun, due to be drawn in full. */
    static predicate IsUpdated(eye: Eye, def: Definition)
      reads eye`definition, eye`currentIrisAngle, eye`currentScleraAngle, eye`drawAll
    {
      && eye.definition == def && eye.drawAll
      && eye.currentIrisAngle == def.iris.startAngle && eye.currentScleraAngle == def.sclera.startAngle
    }

    /** A new definition: the next frame repaints all of the display. */
    static method UpdateDefinition(eye: Eye, def: Definition)
      requires eye.Valid()
      modifies eye`definition, eye`currentIrisAngle, eye`currentScleraAngle, eye`drawAll
      ensures eye.Valid() && IsUpdated(eye, def)
    {
      eye.definition := def;
      eye.currentIrisAngle := def.iris.startAngle;
      eye.currentScleraAngle := def.sclera.startAngle;
      eye.drawAll := true;
    }

    /** Gives each eye a new definition. */
    method UpdateDefinitions(definitions: seq<Definition>)
      requires Valid() && |definitions| == |eyes|
      modifies eyes`definition, eyes`currentIrisAngle, eyes`currentScleraAngle, eyes`drawAll
      ensures Valid()
      ensures forall i :: 0 <= i < |eyes| ==> IsUpdated(eyes[i], definitions[i])
    {
      for i := 0 to |eyes|
        invariant forall j :: 0 <= j < i ==> IsUpdated(eyes[j], definitions[j])
        invariant EyesAreValid()
      {
        UpdateDefinition(eyes[i], definitions[i]);
      }
    }
  }
}
