/**
 What the renderer shows of generated tables: the generator (PolarMap) and the renderer (Sampling)
 agree on which part of the eye every pixel belongs to.
 */
module GeneratedEyes {
  import opened Arithmetic
  import opened EyeTypes
  import opened Sampling
  import opened PolarMap
  import H = HexTable

  /** The tables of `polar` are the generator's for this geometry. */
  ghost predicate Generated(polar: PolarParams, g: Geometry, sqrt: real -> real, angle: (real, real) -> real)
    requires IsSqrt(sqrt) && g.iRad >= 0.0
  {
    && polar.mapRadius == g.mapRadius < 0x8000
    && TablesDone(g, sqrt, angle, polar.angle, polar.distance, g.mapRadius * g.mapRadius)
  }

  lemma AngleIsByte(g: Geometry, angle: (real, real) -> real, x: nat, y: nat)
    requires IsAngle(angle)
    ensures IsByte(StoredAngle(g, angle, x, y))
  {
    assert 0.0 <= angle(Offset(x), Offset(y)) < 256.0;
  }

  lemma DistanceIsByte(g: Geometry, sqrt: real -> real, x: nat, y: nat)
    requires IsSqrt(sqrt) && g.iRad >= 0.0
    ensures IsByte(StoredDistance(g, sqrt, x, y))
  {
    RegionsAreExact(g, sqrt, x, y);
  }

  /** Generated tables hold bytes, one for every point of the quadrant. */
  lemma GeneratedIsValid(polar: PolarParams, g: Geometry, sqrt: real -> real, angle: (real, real) -> real)
    requires IsSqrt(sqrt) && IsAngle(angle) && g.iRad >= 0.0 && Generated(polar, g, sqrt, angle)
    ensures polar.Valid()
  {
    hide IsByte;
    var n := g.mapRadius * g.mapRadius;
    assert g.mapRadius == 0 ==> n == 0;
    forall k | 0 <= k < n ensures IsByte(polar.angle[k]) && IsByte(polar.distance[k]) {
      EntryIsByte(g, sqrt, angle, polar.angle, polar.distance, n, k);
    }
  }

  lemma EntryIsByte(g: Geometry, sqrt: real -> real, angle: (real, real) -> real,
                    polarAngle: seq<int>, polarDist: seq<int>, n: nat, k: nat)
    requires IsSqrt(sqrt) && IsAngle(angle) && g.iRad >= 0.0 && g.mapRadius > 0
    requires TablesDone(g, sqrt, angle, polarAngle, polarDist, n) && k < n
    ensures IsByte(polarAngle[k]) && IsByte(polarDist[k])
  {
    hide IsByte, StoredDistance, StoredAngle;
    DistanceIsByte(g, sqrt, k % g.mapRadius, k / g.mapRadius);
    AngleIsByte(g, angle, k % g.mapRadius, k / g.mapRadius);
  }

  lemma EntryIsStored(polar: PolarParams, g: Geometry, sqrt: real -> real, angle: (real, real) -> real, x: nat, y: nat)
    requires IsSqrt(sqrt) && g.iRad >= 0.0 && Generated(polar, g, sqrt, angle) && polar.Valid()
    requires x < g.mapRadius && y < g.mapRadius
    ensures Entry(polar.distance, g.mapRadius, x, y) == StoredDistance(g, sqrt, x, y)
    ensures Entry(polar.angle, g.mapRadius, x, y) == StoredAngle(g, angle, x, y)
  {
    IndexInGrid(g.mapRadius, g.mapRadius, x, y);
    TableEntry(g, sqrt, angle, polar.angle, polar.distance, g.mapRadius * g.mapRadius, x, y, y * g.mapRadius + x);
  }

  /** A round pupil's map is its own transpose, so the rotated scene is the scene rotated (Sampling.TurnedScene). */
  lemma RoundMapIsTransposed(polar: PolarParams, g: Geometry, sqrt: real -> real, angle: (real, real) -> real)
    requires IsSqrt(sqrt) && IsAngle(angle) && g.iRad >= 0.0 && Generated(polar, g, sqrt, angle) && g.slit == 0
    ensures polar.Valid() && IsTransposed(polar.distance, g.mapRadius)
  {
    GeneratedIsValid(polar, g, sqrt, angle);
    forall x, y | 0 <= x < g.mapRadius && 0 <= y < g.mapRadius
      ensures Entry(polar.distance, g.mapRadius, x, y) == Entry(polar.distance, g.mapRadius, y, x)
    {
      EntryIsStored(polar, g, sqrt, angle, x, y);
      EntryIsStored(polar, g, sqrt, angle, y, x);
      RoundTableIsSymmetric(g, sqrt, x, y);
    }
  }

  // ---------------------------------------------------------------- the parts of the eye

  datatype Part = Back | Sclera | Iris | Pupil

  /** Where the renderer's thresholds put a stored distance. */
  function PartAt(distance: int, irisValue: real): Part {
    if distance < 128 then Sclera
    else if distance == 255 then Back
    else if distance >= IrisSize(irisValue) then Pupil
    else Iris
  }

  /** The part of the eye shown at a map point. */
  function PartShown(polar: PolarParams, irisValue: real, p: Point): Part
    requires polar.Valid() && OnMap(polar.mapRadius, p)
  {
    PartAt(DistanceAt(polar.mapRadius, polar.distance, p), irisValue)
  }

  predicate IsColourOf(s: Surface, color: int) {
    if s.texture.Texture? then color in s.texture.data else color == s.color
  }

  predicate IsColourOfPart(def: EyeDefinition, part: Part, color: int) {
    match part
    case Back => color == def.backColor
    case Pupil => color == def.pupil.color
    case Sclera => IsColourOf(def.sclera, color)
    case Iris => IsColourOf(def.iris, color)
  }

  lemma SurfaceHasItsColours(s: Surface, angle: nat, current: nat, row: nat)
    requires s.Valid() && row < TextureHeight(s.texture)
    ensures IsColourOf(s, SurfaceColour(s, angle, current, row))
  {
    if s.texture.Texture? {
      var column := ScaleColumn(Spun(angle, current, s.mirror), s.texture.width);
      ScaledColumn(Spun(angle, current, s.mirror), s.texture.width);
      TexelIsInTexture(s.texture, column, row);
    }
  }

  lemma TexelIsInTexture(t: Texture, x: nat, y: nat)
    requires t.Valid() && t.Texture? && x < t.width && y < t.height
    ensures t.Get(x, y) in t.data
  {
    IndexInGrid(t.width, t.height, x, y);
  }

  /** The renderer colours a pixel by the part it shows: a texel of that part's texture, or its plain colour. */
  lemma ShadeByPart(def: EyeDefinition, view: View, angle: nat, distance: nat)
    requires def.Valid() && InUnit(view.pupilAmount) && distance < 256
    ensures IsColourOfPart(def, PartAt(distance, IrisValue(def.pupil, view.pupilAmount)), Shade(def, view, angle, distance))
  {
    hide SurfaceColour, IsColourOf, IrisValue, IrisSize, IrisRow;
    IrisValueBounds(def.pupil, view.pupilAmount);
    var irisValue := IrisValue(def.pupil, view.pupilAmount);
    if distance < 128 {
      var height := TextureHeight(def.sclera.texture);
      ScleraRow(distance, height);
      SurfaceHasItsColours(def.sclera, angle, view.scleraAngle, distance * height / 128);
    } else if distance < IrisSize(irisValue) {
      IrisSizeBounds(irisValue);
      IrisRowInTexture(distance, TextureHeight(def.iris.texture), irisValue);
      SurfaceHasItsColours(def.iris, angle, view.irisAngle, IrisRow(distance, TextureHeight(def.iris.texture), irisValue));
    }
  }

  /** The part shown at a map point is the one its place in the eye says. */
  lemma PartByGeometry(polar: PolarParams, g: Geometry, sqrt: real -> real, angle: (real, real) -> real,
                       irisValue: real, p: Point)
    requires IsSqrt(sqrt) && IsAngle(angle) && g.iRad >= 0.0 && Generated(polar, g, sqrt, angle) && polar.Valid()
    requires OnMap(g.mapRadius, p) && 0.0 < irisValue <= 1.0
    ensures var x, y := Folded(g.mapRadius, p.x), Folded(g.mapRadius, p.y);
      && (PartShown(polar, irisValue, p) == Back <==> Outside(g, x, y))
      && (PartShown(polar, irisValue, p) == Sclera <==> InSclera(g, x, y))
      && (PartShown(polar, irisValue, p) in {Iris, Pupil} <==> !Outside(g, x, y) && InIris(g, x, y))
  {
    var x, y := Folded(g.mapRadius, p.x), Folded(g.mapRadius, p.y);
    EntryIsStored(polar, g, sqrt, angle, x, y);
    RegionsAreExact(g, sqrt, x, y);
    IrisSizeBounds(irisValue);
  }

  /** A point is nearer the centre: in distance for a round pupil, on both axes for a slit. */
  predicate Nearer(g: Geometry, p: Point, q: Point)
    requires OnMap(g.mapRadius, p) && OnMap(g.mapRadius, q)
  {
    var x, y, x', y' := Folded(g.mapRadius, q.x), Folded(g.mapRadius, q.y), Folded(g.mapRadius, p.x), Folded(g.mapRadius, p.y);
    if g.slit == 0 then DistSquared(x', y') <= DistSquared(x, y) else x' <= x && y' <= y
  }

  /** The points drawn as pupil are closed under moving towards the centre. */
  lemma PupilIsClosedInwards(polar: PolarParams, g: Geometry, sqrt: real -> real, angle: (real, real) -> real,
                             irisValue: real, p: Point, q: Point)
    requires IsSqrt(sqrt) && IsAngle(angle) && g.iRad >= 0.0 && Generated(polar, g, sqrt, angle) && polar.Valid()
    requires OnMap(g.mapRadius, p) && OnMap(g.mapRadius, q) && Nearer(g, p, q) && 0.0 < irisValue <= 1.0
    requires PartShown(polar, irisValue, q) == Pupil
    ensures PartShown(polar, irisValue, p) == Pupil
  {
    var m := g.mapRadius;
    var x, y, x', y' := Folded(m, q.x), Folded(m, q.y), Folded(m, p.x), Folded(m, p.y);
    PartByGeometry(polar, g, sqrt, angle, irisValue, q);
    EntryIsStored(polar, g, sqrt, angle, x, y);
    EntryIsStored(polar, g, sqrt, angle, x', y');
    IrisFallsOutwards(g, sqrt, x, y, x', y');
    RegionsAreExact(g, sqrt, x', y');
    IrisSizeBounds(irisValue);
  }

  /** A round pupil is drawn as a disc about the centre, its radius shrinking as the iris grows. */
  lemma RoundPupilIsDisc(polar: PolarParams, g: Geometry, sqrt: real -> real, angle: (real, real) -> real,
                         irisValue: real, p: Point)
    requires IsSqrt(sqrt) && IsAngle(angle) && g.iRad > 0.0 && Generated(polar, g, sqrt, angle) && polar.Valid()
    requires OnMap(g.mapRadius, p) && 0.0 < irisValue <= 1.0 && g.slit == 0
    ensures var x, y := Folded(g.mapRadius, p.x), Folded(g.mapRadius, p.y);
      PartShown(polar, irisValue, p) == Pupil
      <==> !Outside(g, x, y) && sqrt(DistSquared(x, y)) <= g.iRad * (127 - Level(irisValue)) as real / 127.0
  {
    hide Outside, DistSquared, TablesDone, PartAt, StoredDistance, Trunc;
    var x, y := Folded(g.mapRadius, p.x), Folded(g.mapRadius, p.y);
    EntryIsStored(polar, g, sqrt, angle, x, y);
    PupilLevels(StoredDistance(g, sqrt, x, y), irisValue);
    RoundLevel(g, sqrt, x, y, Level(irisValue));
  }

  lemma PupilLevels(distance: int, irisValue: real)
    requires 0.0 < irisValue <= 1.0
    ensures PartAt(distance, irisValue) == Pupil <==> 128 + Level(irisValue) <= distance != 255
  {
    TruncBetween(126.0 * irisValue, 0, 126);
  }

  lemma RoundLevel(g: Geometry, sqrt: real -> real, x: nat, y: nat, n: nat)
    requires IsSqrt(sqrt) && g.iRad > 0.0 && g.slit == 0 && n <= 126
    ensures var v := StoredDistance(g, sqrt, x, y);
      128 + n <= v != 255 <==> !Outside(g, x, y) && sqrt(DistSquared(x, y)) <= g.iRad * (127 - n) as real / 127.0
  {
    RegionsAreExact(g, sqrt, x, y);
    assert DistSquared(x, y) >= 0.0;
    SqrtAbove(sqrt, DistSquared(x, y), g.iRad);
    LevelReached(g.iRad, sqrt(DistSquared(x, y)), n);
  }

  /** A slit pupil is drawn as one of the generator's circles: a later, wider one as the iris gets less. */
  lemma SlitPupilIsCircle(polar: PolarParams, g: Geometry, sqrt: real -> real, angle: (real, real) -> real,
                          irisValue: real, p: Point)
    requires IsSqrt(sqrt) && IsAngle(angle) && 0.0 < g.iRad && 0.0 < g.slit as real <= g.iRad
    requires Generated(polar, g, sqrt, angle) && polar.Valid() && OnMap(g.mapRadius, p) && 0.0 < irisValue <= 1.0
    ensures var x, y := Folded(g.mapRadius, p.x), Folded(g.mapRadius, p.y);
      PartShown(polar, irisValue, p) == Pupil
      <==> !Outside(g, x, y) && InCircle(g, LEVELS - Level(irisValue), Offset(x), Offset(y))
  {
    hide Outside, DistSquared, TablesDone, PartAt, StoredDistance, Trunc, InCircle;
    var x, y := Folded(g.mapRadius, p.x), Folded(g.mapRadius, p.y);
    EntryIsStored(polar, g, sqrt, angle, x, y);
    PupilLevels(StoredDistance(g, sqrt, x, y), irisValue);
    SlitLevel(g, sqrt, x, y, Level(irisValue));
  }

  /** The number of iris levels that show. */
  function Level(irisValue: real): (n: nat)
    requires 0.0 < irisValue <= 1.0
    ensures n <= 126
  {
    TruncBetween(126.0 * irisValue, 0, 126);
    Trunc(126.0 * irisValue)
  }

  lemma SlitLevel(g: Geometry, sqrt: real -> real, x: nat, y: nat, n: nat)
    requires IsSqrt(sqrt) && 0.0 < g.iRad && 0.0 < g.slit as real <= g.iRad && n <= 126
    ensures var v := StoredDistance(g, sqrt, x, y);
      128 + n <= v != 255 <==> !Outside(g, x, y) && InCircle(g, LEVELS - n, Offset(x), Offset(y))
  {
    hide InCircle, Outside, DistSquared, Offset;
    RegionsAreExact(g, sqrt, x, y);
    CircleIsReached(g, x, y, LEVELS - n);
    InnerCircleIsInIris(g, x, y, LEVELS - n);
  }

  lemma InnerCircleIsInIris(g: Geometry, x: nat, y: nat, m: nat)
    requires 0.0 < g.iRad && g.slit as real <= g.iRad && 0 < m <= LEVELS
    ensures InCircle(g, m, Offset(x), Offset(y)) ==> InIris(g, x, y)
  {
    if InCircle(g, m, Offset(x), Offset(y)) {
      CirclesNested(g, m, LEVELS, Offset(x), Offset(y));
      LastCircleIsIris(g, Offset(x), Offset(y));
    }
  }

  /** The first circle that holds a pixel is no later than m exactly when circle m holds it. */
  lemma CircleIsReached(g: Geometry, x: nat, y: nat, m: nat)
    requires 0.0 < g.iRad && g.slit as real <= g.iRad && 0 < m <= LEVELS
    ensures FirstCircle(g, x, y, 1) <= m <==> InCircle(g, m, Offset(x), Offset(y))
  {
    hide InCircle;
    var first := FirstCircle(g, x, y, 1);
    if first <= m { CirclesNested(g, first, m, Offset(x), Offset(y)); }
  }

  /** Where the pupil is when so many iris levels show. */
  predicate InPupil(g: Geometry, sqrt: real -> real, n: nat, x: nat, y: nat)
    requires g.iRad > 0.0 && n <= 126
  {
    if g.slit == 0 then sqrt(DistSquared(x, y)) <= g.iRad * (127 - n) as real / 127.0
    else InCircle(g, LEVELS - n, Offset(x), Offset(y))
  }

  /** The part of the eye at a place in the first quadrant. */
  function PartOfPlace(g: Geometry, sqrt: real -> real, n: nat, x: nat, y: nat): Part
    requires g.iRad > 0.0 && n <= 126
  {
    if Outside(g, x, y) then Back
    else if InPupil(g, sqrt, n, x, y) then Pupil
    else if InIris(g, x, y) then Iris
    else Sclera
  }

  /** What is shown is where it is: the renderer's part of the eye is the one at the point's place. */
  lemma PartIsByPlace(polar: PolarParams, g: Geometry, sqrt: real -> real, angle: (real, real) -> real,
                      irisValue: real, p: Point)
    requires IsSqrt(sqrt) && IsAngle(angle) && 0.0 < g.iRad && g.slit as real <= g.iRad
    requires Generated(polar, g, sqrt, angle) && polar.Valid() && OnMap(g.mapRadius, p) && 0.0 < irisValue <= 1.0
    ensures PartShown(polar, irisValue, p)
         == PartOfPlace(g, sqrt, Level(irisValue), Folded(g.mapRadius, p.x), Folded(g.mapRadius, p.y))
  {
    hide Outside, InIris, InCircle, DistSquared, TablesDone, PartShown, Offset;
    PartByGeometry(polar, g, sqrt, angle, irisValue, p);
    if g.slit == 0 {
      RoundPupilIsDisc(polar, g, sqrt, angle, irisValue, p);
    } else {
      SlitPupilIsCircle(polar, g, sqrt, angle, irisValue, p);
    }
  }

  // ---------------------------------------------------------------- how large the pupil is

  /** A stored iris distance is pupil exactly if it is beyond the share of the 126 levels that is left of the iris. */
  lemma PupilByShare(distance: int, irisValue: real)
    requires 128 <= distance && irisValue > 0.0
    ensures PartAt(distance, irisValue) == Pupil <==> distance != 255 && (distance - 127) as real > 126.0 * irisValue
  {
  }

  /** A map point that is pupil stays pupil when the pupil widens. */
  lemma PupilWidens(polar: PolarParams, pupil: PupilParams, amount: real, wider: real, p: Point)
    requires polar.Valid() && pupil.Valid() && OnMap(polar.mapRadius, p) && amount <= wider
    requires PartShown(polar, IrisValue(pupil, amount), p) == Pupil
    ensures PartShown(polar, IrisValue(pupil, wider), p) == Pupil
  {
    IrisShrinks(pupil, amount, wider);
  }

  /** The screen pixel shows the pupil. */
  predicate ShowsPupil(def: EyeDefinition, view: View, sx: int, sy: int)
    requires def.Valid() && 0 <= sx < SCREEN && 0 <= sy < SCREEN
  {
    var p := MapPoint(def.displacement, HALF, view.corner, sx, sy);
    && Displacement(def.displacement, HALF, sx, sy) != 255 && OnMap(def.polar.mapRadius, p)
    && PartShown(def.polar, IrisValue(def.pupil, view.pupilAmount), p) == Pupil
  }

  /**
   On screen too: what shows the pupil has its colour, and goes on showing it when the pupil widens; what shows
   the sclera or what is round the eye does not change with the pupil.
   */
  lemma WiderPupilOnScreen(def: EyeDefinition, view: View, wider: real, sx: int, sy: int)
    requires def.Valid() && 0.0 <= view.pupilAmount <= wider <= 1.0 && 0 <= sx < SCREEN && 0 <= sy < SCREEN
    ensures var view' := view.(pupilAmount := wider);
      && (ShowsPupil(def, view, sx, sy) ==>
            && ShowsPupil(def, view', sx, sy)
            && SceneColour(def, view', sx, sy) == SceneColour(def, view, sx, sy) == def.pupil.color)
      && (!ShowsPupil(def, view', sx, sy) && !ShowsIris(def, view', sx, sy) ==>
            SceneColour(def, view', sx, sy) == SceneColour(def, view, sx, sy))
  {
    var p := MapPoint(def.displacement, HALF, view.corner, sx, sy);
    var view' := view.(pupilAmount := wider);
    SceneCases(def, view, sx, sy);
    SceneCases(def, view', sx, sy);
    IrisShrinks(def.pupil, view.pupilAmount, wider);
    hide MapPoint, Displacement, IrisSize, IrisValue, IrisRow, SurfaceColour, AngleAt;
    if OnMap(def.polar.mapRadius, p) {
      var distance := DistanceAt(def.polar.mapRadius, def.polar.distance, p);
      IrisSizeIsOverHalf(def.pupil, view.pupilAmount);
      IrisSizeIsOverHalf(def.pupil, wider);
    }
  }

  /** The screen pixel shows the iris. */
  predicate ShowsIris(def: EyeDefinition, view: View, sx: int, sy: int)
    requires def.Valid() && 0 <= sx < SCREEN && 0 <= sy < SCREEN
  {
    var p := MapPoint(def.displacement, HALF, view.corner, sx, sy);
    && Displacement(def.displacement, HALF, sx, sy) != 255 && OnMap(def.polar.mapRadius, p)
    && PartShown(def.polar, IrisValue(def.pupil, view.pupilAmount), p) == Iris
  }

  lemma IrisSizeIsOverHalf(pupil: PupilParams, amount: real)
    requires pupil.Valid() && InUnit(amount)
    ensures 128 <= IrisSize(IrisValue(pupil, amount)) <= 254
  {
    IrisValueBounds(pupil, amount);
    IrisSizeBounds(IrisValue(pupil, amount));
  }

  // ---------------------------------------------------------------- on the screen

  /**
   What a screen pixel shows of an eye with generated tables: its colour is that of the part of the eye
   where the pixel, displaced, falls on the map.
   */
  lemma SceneByGeometry(def: EyeDefinition, g: Geometry, sqrt: real -> real, angle: (real, real) -> real,
                        view: View, sx: int, sy: int)
    requires def.Valid() && InUnit(view.pupilAmount) && 0 <= sx < SCREEN && 0 <= sy < SCREEN
    requires IsSqrt(sqrt) && IsAngle(angle) && 0.0 < g.iRad && g.slit as real <= g.iRad
    requires Generated(def.polar, g, sqrt, angle)
    ensures var color := SceneColour(def, view, sx, sy);
      var p := MapPoint(def.displacement, HALF, view.corner, sx, sy);
      if Displacement(def.displacement, HALF, sx, sy) == 255 then color == def.eyelids.color
      else if !OnMap(g.mapRadius, p) then color == def.backColor
      else IsColourOfPlace(def, g, sqrt, view, color, Folded(g.mapRadius, p.x), Folded(g.mapRadius, p.y))
  {
    hide Shade, Displacement, MapPoint, IsColourOfPlace;
    SceneCases(def, view, sx, sy);
    var p := MapPoint(def.displacement, HALF, view.corner, sx, sy);
    if Displacement(def.displacement, HALF, sx, sy) != 255 && OnMap(g.mapRadius, p) {
      PlaceShown(def, g, sqrt, angle, view, p);
    }
  }

  /** A colour of the part of the eye at a place in the first quadrant. */
  predicate IsColourOfPlace(def: EyeDefinition, g: Geometry, sqrt: real -> real, view: View, color: int, x: nat, y: nat)
    requires def.Valid() && InUnit(view.pupilAmount) && g.iRad > 0.0
  {
    IrisValueBounds(def.pupil, view.pupilAmount);
    IsColourOfPart(def, PartOfPlace(g, sqrt, Level(IrisValue(def.pupil, view.pupilAmount)), x, y), color)
  }

  lemma SceneCases(def: EyeDefinition, view: View, sx: int, sy: int)
    requires def.Valid() && InUnit(view.pupilAmount) && 0 <= sx < SCREEN && 0 <= sy < SCREEN
    ensures var p, r := MapPoint(def.displacement, HALF, view.corner, sx, sy), def.polar.mapRadius;
      SceneColour(def, view, sx, sy) ==
        if Displacement(def.displacement, HALF, sx, sy) == 255 then def.eyelids.color
        else if !OnMap(r, p) then def.backColor
        else Shade(def, view, AngleAt(r, def.polar.angle, p), DistanceAt(r, def.polar.distance, p))
  {
    hide Shade;
  }

  lemma PlaceShown(def: EyeDefinition, g: Geometry, sqrt: real -> real, angle: (real, real) -> real, view: View, p: Point)
    requires def.Valid() && InUnit(view.pupilAmount) && OnMap(g.mapRadius, p)
    requires IsSqrt(sqrt) && IsAngle(angle) && 0.0 < g.iRad && g.slit as real <= g.iRad
    requires Generated(def.polar, g, sqrt, angle)
    ensures IsColourOfPlace(def, g, sqrt, view, ShadeAt(def, view, p), Folded(g.mapRadius, p.x), Folded(g.mapRadius, p.y))
  {
    hide Shade, TablesDone, PartOfPlace, IsColourOf, PartAt, IrisValue, Level;
    var irisValue := IrisValue(def.pupil, view.pupilAmount);
    IrisValueBounds(def.pupil, view.pupilAmount);
    PartIsByPlace(def.polar, g, sqrt, angle, irisValue, p);
    ShadeByPart(def, view, AngleAt(g.mapRadius, def.polar.angle, p), DistanceAt(g.mapRadius, def.polar.distance, p));
  }

  function ShadeAt(def: EyeDefinition, view: View, p: Point): int
    requires def.Valid() && InUnit(view.pupilAmount) && OnMap(def.polar.mapRadius, p)
  {
    Shade(def, view, AngleAt(def.polar.mapRadius, def.polar.angle, p),
          DistanceAt(def.polar.mapRadius, def.polar.distance, p))
  }

  // ---------------------------------------------------------------- in the generated code

  const LAYOUT: H.Layout := H.Layout(16, 2, 0)
  const IMAGE_LAYOUT: H.Layout := H.Layout(12, 4, 2)

  function Bytes(t: seq<int>): (r: seq<nat>)
    requires forall i :: 0 <= i < |t| ==> IsByte(t[i])
    ensures |r| == |t| && forall i :: 0 <= i < |t| ==> r[i] == t[i]
  {
    seq(|t|, i requires 0 <= i < |t| && IsByte(t[i]) => t[i] as nat)
  }

  /** A table printed as outputGreyscale does reads back to the entries that the renderer looks up. */
  lemma TableReadsBack(t: seq<int>, side: nat, x: nat, y: nat)
    requires IsSquareTable(t, side) && x < side && y < side
    ensures var s := H.Lex(H.Lexer([], H.Between), H.Text(LAYOUT, side * side, Bytes(t)));
      && s.mode == H.Between && H.Numbers(s.tokens) == Bytes(t)
      && 0 <= y * side + x < |H.Numbers(s.tokens)| && H.Numbers(s.tokens)[y * side + x] == Entry(t, side, x, y)
    ensures |H.Numeral(Entry(t, side, x, y), LAYOUT.digits)| == 4
  {
    hide H.Lex, H.Text, H.Numbers, H.Numeral;
    IndexInGrid(side, side, x, y);
    H.TableReadsBack(LAYOUT, Bytes(t));
    assert Power(16, 2) == 256;
    H.NumeralWidth(Entry(t, side, x, y), 2);
  }

  /**
   An image printed as outputImageFile does reads back, as the texture's data, to the packed pixel wherever the
   renderer looks.
   */
  lemma TextureReadsBack(t: Texture, pixels: (nat, nat) -> H.Pixel, x: nat, y: nat)
    requires t.Texture? && t.Valid() && x < t.width && y < t.height
    requires var values := H.RowMajor(t.width, t.height, pixels);
      t.data == H.Numbers(H.Lex(H.Lexer([], H.Between), H.Text(IMAGE_LAYOUT, |values|, values)).tokens)
    ensures t.Get(x, y) == H.Packed(pixels(x, y)) < 0x1_0000
    ensures |H.Numeral(t.Get(x, y), IMAGE_LAYOUT.digits)| == 6
  {
    hide H.Lex, H.Text, H.Numbers, H.Numeral, H.RowMajor, H.Packed;
    var values := H.RowMajor(t.width, t.height, pixels);
    H.ImageIsReadWhereWritten(t.width, t.height, pixels, x, y);
    assert |values| == t.width * t.height && values != [];
    H.TableReadsBack(IMAGE_LAYOUT, values);
    H.PackedReadsBack(pixels(x, y));
    assert Power(16, 4) == 0x1_0000;
    H.NumeralWidth(t.Get(x, y), 4);
  }

  /** So do both generated polar tables. */
  lemma PolarTablesReadBack(polar: PolarParams, g: Geometry, sqrt: real -> real, angle: (real, real) -> real, x: nat, y: nat)
    requires IsSqrt(sqrt) && IsAngle(angle) && g.iRad >= 0.0 && Generated(polar, g, sqrt, angle)
    requires x < g.mapRadius && y < g.mapRadius
    ensures polar.Valid()
    ensures var m, start := g.mapRadius, H.Lexer([], H.Between);
      var angles := H.Numbers(H.Lex(start, H.Text(LAYOUT, m * m, Bytes(polar.angle))).tokens);
      var distances := H.Numbers(H.Lex(start, H.Text(LAYOUT, m * m, Bytes(polar.distance))).tokens);
      && 0 <= y * m + x < |angles| == |distances|
      && angles[y * m + x] == StoredAngle(g, angle, x, y) && distances[y * m + x] == StoredDistance(g, sqrt, x, y)
  {
    hide H.Lex, H.Text, H.Numbers, StoredAngle, StoredDistance, TablesDone;
    GeneratedIsValid(polar, g, sqrt, angle);
    TableReadsBack(polar.angle, g.mapRadius, x, y);
    TableReadsBack(polar.distance, g.mapRadius, x, y);
    EntryIsStored(polar, g, sqrt, angle, x, y);
  }
}
