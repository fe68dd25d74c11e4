/**
 Drawing one eye (src/eyes/EyeController.h, renderEye) onto a framebuffer.

 Only the strip of each column that may have changed is repainted; the result is proved to be the
 full picture: eyelid above the upper lid and from the lower lid down, the scene between.
 */
module Renderer {
  import opened Arithmetic
  import opened EyeTypes
  import opened Sampling
  import opened Lids

  class Display {
    const pixels: array2<int>

    constructor ()
      ensures fresh(pixels) && pixels.Length0 == pixels.Length1 == SCREEN
    {
      pixels := new int[SCREEN, SCREEN];
    }

    predicate Valid() {
      pixels.Length0 == pixels.Length1 == SCREEN
    }

    method DrawPixel(x: nat, y: nat, color: int)
      requires Valid() && x < SCREEN && y < SCREEN
      modifies pixels
      ensures forall i, j :: 0 <= i < SCREEN && 0 <= j < SCREEN ==>
        pixels[i, j] == if i == x && j == y then color else old(pixels[i, j])
    {
      pixels[x, y] := color;
    }

    method DrawFastVLine(x: nat, y: nat, h: nat, color: int)
      requires Valid() && x < SCREEN && y + h <= SCREEN
      modifies pixels
      ensures forall i, j :: 0 <= i < SCREEN && 0 <= j < SCREEN ==>
        pixels[i, j] == if i == x && y <= j < y + h then color else old(pixels[i, j])
    {
      for k := 0 to h
        invariant forall i, j :: 0 <= i < SCREEN && 0 <= j < SCREEN ==>
          pixels[i, j] == if i == x && y <= j < y + k then color else old(pixels[i, j])
      {
        pixels[x, y + k] := color;
      }
    }
  }

  /** What a pixel of the full picture holds, with the lid factors at upperF and lowerF. */
  function FullPicture(def: EyeDefinition, view: View, upperF: real, lowerF: real, x: nat, y: nat): int
    requires def.Valid() && InUnit(view.pupilAmount) && x < SCREEN && y < SCREEN
  {
    if y < def.eyelids.UpperLid(x, upperF) || y >= def.eyelids.LowerLid(x, lowerF) then def.eyelids.color
    else SceneColour(def, view, x, y)
  }

  // ---------------------------------------------------------------- one pixel

  /** Reading the quadrant tables directly, as the renderer does, is turning the point back. */
  lemma AngleByQuadrant(radius: nat, angle: seq<int>, p: Point)
    requires IsSquareTable(angle, radius) && OnMap(radius, p)
    ensures var x, y, r := p.x, p.y, radius;
      AngleAt(r, angle, p) ==
        if y >= r then if x >= r then Entry(angle, r, x - r, y - r) else Entry(angle, r, y - r, r - x - 1) + 768
        else if x < r then Entry(angle, r, r - x - 1, r - y - 1) + 512
        else Entry(angle, r, r - y - 1, x - r) + 256
  {
    hide Entry;
    var p1 := Turn(radius, p);
    var p2 := Turn(radius, p1);
    var n := TurnsLeft(radius, p);
    if n > 0 { OneTurn(radius, angle, p); }
    if n > 1 { OneTurn(radius, angle, p1); }
    if n > 2 { OneTurn(radius, angle, p2); }
    hide AngleAt;
    NoTurn(radius, angle, if n == 0 then p else if n == 1 then p1 else if n == 2 then p2 else Turn(radius, p2));
  }

  lemma OneTurn(radius: nat, angle: seq<int>, p: Point)
    requires IsSquareTable(angle, radius) && OnMap(radius, p) && TurnsLeft(radius, p) > 0
    ensures var q := Turn(radius, p);
      OnMap(radius, q) && TurnsLeft(radius, q) == TurnsLeft(radius, p) - 1
      && AngleAt(radius, angle, p) == AngleAt(radius, angle, q) + 256
  {
    hide Entry, IsSquareTable;
  }

  lemma NoTurn(radius: nat, angle: seq<int>, p: Point)
    requires IsSquareTable(angle, radius) && OnMap(radius, p) && TurnsLeft(radius, p) == 0
    ensures AngleAt(radius, angle, p) == Entry(angle, radius, p.x - radius, p.y - radius)
  {
    hide Entry, IsSquareTable;
  }

  method LookUpPolar(polar: PolarParams, x: int, y: int) returns (angle: int, distance: int)
    requires polar.Valid() && OnMap(polar.mapRadius, Point(x, y))
    ensures angle == AngleAt(polar.mapRadius, polar.angle, Point(x, y))
    ensures distance == DistanceAt(polar.mapRadius, polar.distance, Point(x, y))
  {
    var mapRadius := polar.mapRadius;
    AngleByQuadrant(mapRadius, polar.angle, Point(x, y));
    var mx, my := x, y;
    if my >= mapRadius {
      my := my - mapRadius;
      if mx >= mapRadius {
        // Bottom right: direct
        mx := mx - mapRadius;
        IndexInGrid(mapRadius, mapRadius, mx, my);
        var moff := my * mapRadius + mx;
        angle := polar.angle[moff];
        distance := polar.distance[moff];
      } else {
        // Bottom left: three quarter turns, mirrored in X
        mx := mapRadius - mx - 1;
        IndexInGrid(mapRadius, mapRadius, mx, my);
        IndexInGrid(mapRadius, mapRadius, my, mx);
        angle := polar.angle[mx * mapRadius + my] + 768;
        distance := polar.distance[my * mapRadius + mx];
      }
    } else {
      if mx < mapRadius {
        // Top left: half a turn, mirrored in X and Y
        mx := mapRadius - mx - 1;
        my := mapRadius - my - 1;
        IndexInGrid(mapRadius, mapRadius, mx, my);
        var moff := my * mapRadius + mx;
        angle := polar.angle[moff] + 512;
        distance := polar.distance[moff];
      } else {
        // Top right: a quarter turn, mirrored in Y
        mx := mx - mapRadius;
        my := mapRadius - my - 1;
        IndexInGrid(mapRadius, mapRadius, mx, my);
        IndexInGrid(mapRadius, mapRadius, my, mx);
        angle := polar.angle[mx * mapRadius + my] + 256;
        distance := polar.distance[my * mapRadius + mx];
      }
    }
  }

  method TextureColour(s: Surface, angle: nat, current: nat, ty: nat) returns (p: int)
    requires s.Valid() && s.texture.Texture? && ty < s.texture.height
    ensures p == SurfaceColour(s, angle, current, ty)
  {
    var a := (angle + current) % 1024;
    if s.mirror != 0 {
      a := 1023 - a;
    }
    var tx := a * s.texture.width / 1024;
    ScaledColumn(a, s.texture.width);
    p := s.texture.Get(tx, ty);
  }

  /** The integer factors the inner loop uses in place of the pupil amount. */
  predicate IsHoisted(def: EyeDefinition, view: View, irisSize: int, iPupilFactor: int) {
    var irisValue := IrisValue(def.pupil, view.pupilAmount);
    && irisValue != 0.0
    && irisSize == IrisSize(irisValue)
    && iPupilFactor == PupilFactor(TextureHeight(def.iris.texture), irisValue)
  }

  method PickColour(def: EyeDefinition, view: View, irisSize: int, iPupilFactor: int, angle: nat, distance: nat)
    returns (p: int)
    requires def.Valid() && InUnit(view.pupilAmount) && distance < 256
    requires IsHoisted(def, view, irisSize, iPupilFactor)
    ensures p == Shade(def, view, angle, distance)
  {
    IrisValueBounds(def.pupil, view.pupilAmount);
    ghost var irisValue := IrisValue(def.pupil, view.pupilAmount);
    if distance < 128 {
      if def.sclera.texture.Texture? {
        ScleraRow(distance, def.sclera.texture.height);
        var ty := distance * def.sclera.texture.height / 128;
        p := TextureColour(def.sclera, angle, view.scleraAngle, ty);
      } else {
        p := def.sclera.color;
      }
    } else if distance < 255 {
      if distance >= irisSize {
        p := def.pupil.color;
      } else if def.iris.texture.Texture? {
        IrisRowInTexture(distance, def.iris.texture.height, irisValue);
        var ty := (distance - 128) * iPupilFactor / 32768;
        p := TextureColour(def.iris, angle, view.irisAngle, ty);
      } else {
        p := def.iris.color;
      }
    } else {
      p := def.backColor;
    }
  }

  method ShadePixel(def: EyeDefinition, view: View, irisSize: int, iPupilFactor: int, screenX: nat, screenY: nat)
    returns (p: int)
    requires def.Valid() && InUnit(view.pupilAmount) && screenX < SCREEN && screenY < SCREEN
    requires IsHoisted(def, view, irisSize, iPupilFactor)
    ensures p == SceneColour(def, view, screenX, screenY)
  {
    var mapDiameter := def.polar.mapRadius * 2;
    // Offsets into the displacement table; its axes are swapped for the Y displacement
    var column := if screenX < HALF then HALF - 1 - screenX else screenX - HALF;
    var xmul := if screenX < HALF then -1 else 1;
    var xx, yy := view.corner.x + screenX, view.corner.y + screenY;
    var doff, dy;
    if screenY < HALF {
      doff := HALF - screenY - 1;
      IndexInGrid(HALF, HALF, doff, column);
      dy := -def.displacement[column * HALF + doff];
    } else {
      doff := screenY - HALF;
      IndexInGrid(HALF, HALF, doff, column);
      dy := def.displacement[column * HALF + doff];
    }
    IndexInGrid(HALF, HALF, column, doff);
    var dx := def.displacement[column + doff * HALF];
    assert dx == Displacement(def.displacement, HALF, screenX, screenY);
    if dx < 255 {
      dx := dx * xmul;
      var mx, my := xx + dx, yy + dy;
      assert Point(mx, my) == MapPoint(def.displacement, HALF, view.corner, screenX, screenY);
      if mx >= 0 && mx < mapDiameter && my >= 0 && my < mapDiameter {
        var angle, distance := LookUpPolar(def.polar, mx, my);
        p := PickColour(def, view, irisSize, iPupilFactor, angle, distance);
      } else {
        p := def.backColor;
      }
    } else {
      p := def.eyelids.color;
    }
  }

  // ---------------------------------------------------------------- one column

  /** Where the column's lids were when the lid factors were upperF and lowerF, its rows hold the lid colour. */
  ghost predicate LidsPaintedIn(display: Display, lids: EyelidParams, upperF: real, lowerF: real, x: nat)
    requires display.Valid() && lids.Valid() && x < SCREEN
    reads display.pixels
  {
    forall y :: 0 <= y < SCREEN && (y < lids.UpperLid(x, upperF) || y >= lids.LowerLid(x, lowerF)) ==>
      display.pixels[x, y] == lids.color
  }

  /** What renderEye works out once per frame. */
  datatype Frame = Frame(def: EyeDefinition, view: View, irisSize: int, iPupilFactor: int,
                         upperF: real, lowerF: real, prevUpperF: real, prevLowerF: real)
  {
    predicate Valid() {
      && def.Valid() && InUnit(view.pupilAmount)
      && InUnit(upperF) && InUnit(lowerF) && InUnit(prevUpperF) && InUnit(prevLowerF)
      && IsHoisted(def, view, irisSize, iPupilFactor)
    }

    /** The pixel of the full picture. */
    function Pixel(x: nat, y: nat): int
      requires Valid() && x < SCREEN && y < SCREEN
    {
      FullPicture(def, view, upperF, lowerF, x, y)
    }
  }

  method RenderColumn(display: Display, f: Frame, drawAll: bool, screenX: nat)
    requires display.Valid() && f.Valid() && screenX < SCREEN
    requires drawAll || LidsPaintedIn(display, f.def.eyelids, f.prevUpperF, f.prevLowerF, screenX)
    modifies display.pixels
    ensures forall y :: 0 <= y < SCREEN ==> display.pixels[screenX, y] == f.Pixel(screenX, y)
    ensures forall i, j :: 0 <= i < SCREEN && 0 <= j < SCREEN && i != screenX ==>
      display.pixels[i, j] == old(display.pixels[i, j])
  {
    var eyelids := f.def.eyelids;
    LidsStayInColumn(eyelids, screenX, f.upperF);
    LidsStayInColumn(eyelids, screenX, f.lowerF);
    LidsStayInColumn(eyelids, screenX, f.prevUpperF);
    LidsStayInColumn(eyelids, screenX, f.prevLowerF);
    var color := eyelids.color;
    var currentUpper := eyelids.UpperLid(screenX, f.upperF);
    var currentLower := eyelids.LowerLid(screenX, f.lowerF);
    var minY, maxY := 0, SCREEN;
    if !drawAll {
      var previousUpper := eyelids.UpperLid(screenX, f.prevUpperF);
      minY := if currentUpper < previousUpper then currentUpper else previousUpper;
      var previousLower := eyelids.LowerLid(screenX, f.prevLowerF);
      maxY := if currentLower > previousLower then currentLower else previousLower;
    }
    // The part of the upper lid that needs repainting
    if currentUpper > minY {
      display.DrawFastVLine(screenX, minY, currentUpper - minY, color);
      minY := currentUpper;
    }
    // The part of the lower lid that needs repainting
    if currentLower < maxY {
      display.DrawFastVLine(screenX, currentLower, maxY - currentLower, color);
      maxY := currentLower;
    }
    assert forall y :: 0 <= y < SCREEN && (y < currentUpper || y >= currentLower) ==>
      display.pixels[screenX, y] == color;
    var screenY := minY;
    while screenY < maxY
      invariant minY <= screenY
      invariant forall y :: 0 <= y < SCREEN && (y < currentUpper || y >= currentLower) ==>
        display.pixels[screenX, y] == color
      invariant forall y :: minY <= y < screenY && y < maxY ==>
        display.pixels[screenX, y] == SceneColour(f.def, f.view, screenX, y)
      invariant forall i, j :: 0 <= i < SCREEN && 0 <= j < SCREEN && i != screenX ==>
        display.pixels[i, j] == old(display.pixels[i, j])
    {
      var p := ShadePixel(f.def, f.view, f.irisSize, f.iPupilFactor, screenX, screenY);
      display.DrawPixel(screenX, screenY, p);
      screenY := screenY + 1;
    }
  }

  // ---------------------------------------------------------------- one eye

  class EyeBlink {
    var state: BlinkState
    var durationMs: nat
    var startTimeMs: nat
    var blinkFactor: real
    var openFrom: real
    var openTo: real
    var openStartMs: nat
    var openDurationMs: nat
    var reopenPending: bool
    var reopenAtMs: nat

    constructor ()
      ensures View() == OPEN_LID
    {
      state, durationMs, startTimeMs, blinkFactor := NotBlinking, 0, 0, 0.0;
      openFrom, openTo, openStartMs, openDurationMs := 1.0, 1.0, 0, 0;
      reopenPending, reopenAtMs := false, 0;
    }

    ghost function View(): Lid
      reads this
    {
      Lid(state, durationMs, startTimeMs, blinkFactor, openFrom, openTo, openStartMs, openDurationMs,
          reopenPending, reopenAtMs)
    }
  }

  /** Where an eye looks, how its textures are turned and how far its lids have come. */
  datatype Pose = Pose(x: real, y: real, irisAngle: nat, scleraAngle: nat, upperLidFactor: real, lowerLidFactor: real)

  /** Looking straight ahead. */
  function StartingPose(def: EyeDefinition): Pose {
    var centre := def.polar.mapRadius as real;
    Pose(centre, centre, def.iris.startAngle, def.sclera.startAngle, 0.0, 0.0)
  }

  class Eye {
    const display: Display
    const blink: EyeBlink
    var definition: Definition
    var x: real
    var y: real
    var currentIrisAngle: nat
    var currentScleraAngle: nat
    var upperLidFactor: real
    var lowerLidFactor: real
    var drawAll: bool

    constructor (display: Display, definition: Definition)
      requires display.Valid()
      ensures Valid() && drawAll && fresh(blink) && this.display == display && this.definition == definition
      ensures blink.View() == OPEN_LID && PoseNow() == StartingPose(definition)
    {
      this.display := display;
      blink := new EyeBlink();
      this.definition := definition;
      x, y := definition.polar.mapRadius as real, definition.polar.mapRadius as real;
      currentIrisAngle, currentScleraAngle := definition.iris.startAngle, definition.sclera.startAngle;
      upperLidFactor, lowerLidFactor := 0.0, 0.0;
      drawAll := true;
    }

    /** In range, and either everything is to be redrawn or the lids on the display are those of the last frame. */
    ghost predicate Valid()
      reads this`definition, this`upperLidFactor, this`lowerLidFactor, this`drawAll, blink, display.pixels
    {
      && display.Valid() && blink.View().Valid()
      && InUnit(upperLidFactor) && InUnit(lowerLidFactor)
      && (drawAll || LidsPainted(display, definition.eyelids, UpperF(), LowerF()))
    }

    ghost function PoseNow(): Pose
      reads this`x, this`y, this`currentIrisAngle, this`currentScleraAngle, this`upperLidFactor, this`lowerLidFactor
    {
      Pose(x, y, currentIrisAngle, currentScleraAngle, upperLidFactor, lowerLidFactor)
    }

    /** How open the lids were in the last frame, blink included. */
    function UpperF(): real
      reads this`upperLidFactor, blink`blinkFactor
    {
      LidFactor(upperLidFactor, blink.blinkFactor)
    }

    function LowerF(): real
      reads this`lowerLidFactor, blink`blinkFactor
    {
      LidFactor(lowerLidFactor, blink.blinkFactor)
    }

    /** What a frame rendered now shows under the lids. */
    function SceneView(pupilAmount: real): View
      reads this`x, this`y, this`currentIrisAngle, this`currentScleraAngle
    {
      ViewFrom(x, pupilAmount)
    }

    /** The same, looking from another x. */
    function ViewFrom(x: real, pupilAmount: real): View
      reads this`y, this`currentIrisAngle, this`currentScleraAngle
    {
      View(Point(Trunc(x - HALF as real), Trunc(y - HALF as real)), currentIrisAngle, currentScleraAngle, pupilAmount)
    }
  }

  /** An eye's display holds its full picture, seen from x. */
  ghost predicate IsShown(eye: Eye, x: real, pupilAmount: real)
    reads eye`definition, eye`y, eye`currentIrisAngle, eye`currentScleraAngle, eye`upperLidFactor, eye`lowerLidFactor
    reads eye.blink`blinkFactor, eye.display.pixels
  {
    && eye.display.Valid() && InUnit(pupilAmount)
    && Shows(eye.display, eye.definition, eye.ViewFrom(x, pupilAmount), eye.UpperF(), eye.LowerF())
  }

  /** A lid's own openness, closed further by a blink. */
  function LidFactor(factor: real, blinkFactor: real): real {
    factor * (1.0 - blinkFactor)
  }

  /** The eyelid movement is dampened a bit. */
  function Damped(previous: real, factor: real): real {
    previous * 0.7 + factor * 0.3
  }

  lemma LidFactorInUnit(factor: real, blinkFactor: real)
    requires InUnit(factor) && InUnit(blinkFactor)
    ensures InUnit(LidFactor(factor, blinkFactor))
  {
    PartOf(factor, 1.0 - blinkFactor);
  }

  /** As LidsPaintedIn, in every column. */
  ghost predicate LidsPainted(display: Display, lids: EyelidParams, upperF: real, lowerF: real)
    requires display.Valid() && lids.Valid()
    reads display.pixels
  {
    forall i :: 0 <= i < SCREEN ==> LidsPaintedIn(display, lids, upperF, lowerF, i)
  }

  /** The full picture is on the display. */
  ghost predicate Shows(display: Display, def: Definition, view: View, upperF: real, lowerF: real)
    requires display.Valid() && InUnit(view.pupilAmount)
    reads display.pixels
  {
    forall i, j :: 0 <= i < SCREEN && 0 <= j < SCREEN ==>
      display.pixels[i, j] == FullPicture(def, view, upperF, lowerF, i, j)
  }

  method RenderColumns(display: Display, f: Frame, drawAll: bool)
    requires display.Valid() && f.Valid()
    requires drawAll || LidsPainted(display, f.def.eyelids, f.prevUpperF, f.prevLowerF)
    modifies display.pixels
    ensures Shows(display, f.def, f.view, f.upperF, f.lowerF)
  {
    for screenX := 0 to SCREEN
      invariant forall i, j :: 0 <= i < screenX && 0 <= j < SCREEN ==> display.pixels[i, j] == f.Pixel(i, j)
      invariant forall i, j :: screenX <= i < SCREEN && 0 <= j < SCREEN ==>
        display.pixels[i, j] == old(display.pixels[i, j])
    {
      if !drawAll {
        assert old(LidsPaintedIn(display, f.def.eyelids, f.prevUpperF, f.prevLowerF, screenX));
      }
      RenderColumn(display, f, drawAll, screenX);
    }
  }

  lemma ShownLidsArePainted(display: Display, def: Definition, view: View, upperF: real, lowerF: real)
    requires display.Valid() && InUnit(view.pupilAmount)
    requires Shows(display, def, view, upperF, lowerF)
    ensures LidsPainted(display, def.eyelids, upperF, lowerF)
  {
  }

  /** Hoists what does not change within a frame. */
  function MakeFrame(def: EyeDefinition, view: View, oldUpper: real, oldLower: real, oldBlink: real,
                     upper: real, lower: real, blink: real): (f: Frame)
    requires def.Valid() && InUnit(view.pupilAmount)
    requires InUnit(oldUpper) && InUnit(oldLower) && InUnit(oldBlink) && InUnit(upper) && InUnit(lower) && InUnit(blink)
    ensures f.Valid() && f.def == def && f.view == view
    ensures f.upperF == LidFactor(upper, blink) && f.lowerF == LidFactor(lower, blink)
    ensures f.prevUpperF == LidFactor(oldUpper, oldBlink) && f.prevLowerF == LidFactor(oldLower, oldBlink)
  {
    LidFactorInUnit(upper, blink); LidFactorInUnit(lower, blink);
    LidFactorInUnit(oldUpper, oldBlink); LidFactorInUnit(oldLower, oldBlink);
    IrisValueBounds(def.pupil, view.pupilAmount);
    var irisValue := IrisValue(def.pupil, view.pupilAmount);
    Frame(def, view, IrisSize(irisValue), PupilFactor(TextureHeight(def.iris.texture), irisValue),
          LidFactor(upper, blink), LidFactor(lower, blink), LidFactor(oldUpper, oldBlink), LidFactor(oldLower, oldBlink))
  }

  lemma DampedInUnit(previous: real, factor: real)
    requires InUnit(previous) && InUnit(factor)
    ensures InUnit(Damped(previous, factor))
  {
  }

  /** Draws an eye: afterwards its display holds the full picture, whatever was repainted. */
  method RenderEye(eye: Eye, pupilAmount: real, upperFactor: real, lowerFactor: real, blinkFactor: real)
    requires eye.Valid() && InUnit(pupilAmount)
    requires InUnit(upperFactor) && InUnit(lowerFactor) && InUnit(blinkFactor)
    modifies eye`upperLidFactor, eye`lowerLidFactor, eye`drawAll, eye.blink`blinkFactor, eye.display.pixels
    ensures eye.Valid() && !eye.drawAll
    ensures eye.upperLidFactor == Damped(old(eye.upperLidFactor), upperFactor)
    ensures eye.lowerLidFactor == Damped(old(eye.lowerLidFactor), lowerFactor)
    ensures eye.blink.blinkFactor == blinkFactor
    ensures Shows(eye.display, eye.definition, eye.SceneView(pupilAmount), eye.UpperF(), eye.LowerF())
  {
    var upper := Damped(eye.upperLidFactor, upperFactor);
    var lower := Damped(eye.lowerLidFactor, lowerFactor);
    DampedInUnit(eye.upperLidFactor, upperFactor);
    DampedInUnit(eye.lowerLidFactor, lowerFactor);
    var view := eye.SceneView(pupilAmount);
    var f := MakeFrame(eye.definition, view, eye.upperLidFactor, eye.lowerLidFactor,
                       eye.blink.blinkFactor, upper, lower, blinkFactor);

    // What the next frame will compare with
    eye.upperLidFactor := upper;
    eye.lowerLidFactor := lower;
    eye.blink.blinkFactor := blinkFactor;

    RenderColumns(eye.display, f, eye.drawAll);
    eye.drawAll := false;
    assert eye.SceneView(pupilAmount) == view;
    ShownLidsArePainted(eye.display, eye.definition, view, eye.UpperF(), eye.LowerF());
  }
  // ---------------------------------------------------------------- what the lids do

  /** A lid is drawn at the share of its own openness that hold and blink leave. */
  lemma LidFactorIsShare(factor: real, open: real, blink: real)
    ensures LidFactor(factor, Combined(open, blink)) == factor * (open * (1.0 - blink))
  {
  }

  /** Each frame a lid comes three tenths of the way that is left. */
  lemma DampedIsShare(previous: real, factor: real)
    ensures Damped(previous, factor) == Lerp(previous, factor, 0.3)
  {
  }

  /** A lid after n frames with the same aim. */
  function DampedOver(previous: real, factor: real, n: nat): real {
    if n == 0 then previous else Damped(DampedOver(previous, factor, n - 1), factor)
  }

  /** What is left of its way. */
  function WayLeft(n: nat): real {
    if n == 0 then 1.0 else 0.7 * WayLeft(n - 1)
  }

  lemma {:induction false} DampedSettles(previous: real, factor: real, n: nat)
    ensures factor - DampedOver(previous, factor, n) == WayLeft(n) * (factor - previous)
  {
    if n > 0 {
      DampedSettles(previous, factor, n - 1);
      Reassociated(0.7, WayLeft(n - 1), factor - previous);
    }
  }

  /** Fully open lids leave exactly the rows between their open ones, and closed lids that meet leave nothing. */
  lemma PictureOfLids(def: EyeDefinition, view: View, x: nat, y: nat)
    requires def.Valid() && InUnit(view.pupilAmount) && x < SCREEN && y < SCREEN
    ensures FullPicture(def, view, 1.0, 1.0, x, y)
         == if def.eyelids.UpperOpen(x) <= y < def.eyelids.LowerOpen(x) then SceneColour(def, view, x, y)
            else def.eyelids.color
    ensures def.eyelids.LowerClosed(x) <= def.eyelids.UpperClosed(x) ==>
      FullPicture(def, view, 0.0, 0.0, x, y) == def.eyelids.color
  {
    hide SceneColour;
    LidsStayInColumn(def.eyelids, x, 1.0);
    LidsStayInColumn(def.eyelids, x, 0.0);
  }
  /** The picture is seen from where the eye looks: the screen's corner is half a screen from the gaze on both axes. */
  lemma ViewFollowsGaze(eye: Eye, x: real, pupilAmount: real)
    ensures var view := eye.ViewFrom(x, pupilAmount);
      && -1.0 < view.corner.x as real - (x - 120.0) < 1.0 && -1.0 < view.corner.y as real - (eye.y - 120.0) < 1.0
      && view.irisAngle == eye.currentIrisAngle && view.scleraAngle == eye.currentScleraAngle
      && view.pupilAmount == pupilAmount
  {
  }
}
