/**
 From a screen pixel to its colour (the inner loop of src/eyes/EyeController.h, renderEye).

 A pixel is displaced onto the polar map, its polar angle and distance are looked up in tables
 that hold one quadrant, and these pick a colour.  Here a point outside the first quadrant is
 looked up by turning it back quarter by quarter; the renderer's four-way case split is proved
 against this in module Renderer.
 */
module Sampling {
  import opened Arithmetic
  import opened EyeTypes

  datatype Point = Point(x: int, y: int)

  /** How far a coordinate is from the middle of a span of 2 * half, mirrored onto one half. */
  function Folded(half: nat, s: int): nat
    requires 0 <= s < 2 * half
  {
    if s < half then half - 1 - s else s - half
  }

  /** The displacement along x; the eye is symmetrical, so swapped axes give the displacement along y. */
  function Displacement(disp: seq<int>, half: nat, sx: int, sy: int): (d: int)
    requires IsSquareTable(disp, half) && 0 <= sx < 2 * half && 0 <= sy < 2 * half
    ensures IsByte(d)
  {
    Entry(disp, half, Folded(half, sx), Folded(half, sy))
  }

  function Outwards(half: nat, s: int, d: int): int {
    if s < half then -d else d
  }

  /** Where a screen pixel falls on the map when the screen's corner is at `corner`. */
  function MapPoint(disp: seq<int>, half: nat, corner: Point, sx: int, sy: int): Point
    requires IsSquareTable(disp, half) && 0 <= sx < 2 * half && 0 <= sy < 2 * half
  {
    Point(corner.x + sx + Outwards(half, sx, Displacement(disp, half, sx, sy)),
          corner.y + sy + Outwards(half, sy, Displacement(disp, half, sy, sx)))
  }

  predicate OnMap(radius: nat, p: Point) {
    0 <= p.x < 2 * radius && 0 <= p.y < 2 * radius
  }

  /** A quarter turn about the middle of the map; bottom right goes to bottom left. */
  function Turn(radius: nat, p: Point): Point {
    Point(2 * radius - 1 - p.y, p.x)
  }

  function TurnsLeft(radius: nat, p: Point): nat {
    if p.y >= radius then if p.x >= radius then 0 else 3
    else if p.x < radius then 2 else 1
  }

  /** The polar angle of a map point: read in the first quadrant, a quarter turn more for each turn that takes. */
  function AngleAt(radius: nat, angle: seq<int>, p: Point): (a: int)
    requires IsSquareTable(angle, radius) && OnMap(radius, p)
    ensures 0 <= a < 1024
    ensures 256 * TurnsLeft(radius, p) <= a < 256 * TurnsLeft(radius, p) + 256
    decreases TurnsLeft(radius, p)
  {
    if TurnsLeft(radius, p) == 0 then Entry(angle, radius, p.x - radius, p.y - radius)
    else AngleAt(radius, angle, Turn(radius, p)) + 256
  }

  /** The distance table is mirrored into every quadrant. */
  function DistanceAt(radius: nat, distance: seq<int>, p: Point): (d: int)
    requires IsSquareTable(distance, radius) && OnMap(radius, p)
    ensures IsByte(d)
  {
    Entry(distance, radius, Folded(radius, p.x), Folded(radius, p.y))
  }

  // ---------------------------------------------------------------- from map to colour

  /** How much of the iris is not pupil. */
  function IrisValue(pupil: PupilParams, amount: real): real {
    IrisShare(pupil.min, pupil.max - pupil.min, amount)
  }

  function IrisShare(min: real, range: real, amount: real): real {
    1.0 - (min + range * amount)
  }

  /** The first stored distance that is pupil. */
  function IrisSize(irisValue: real): int {
    Trunc(126.0 * irisValue) + 128
  }

  /** Texture rows per stored distance, times 32768. */
  function PupilFactor(textureHeight: nat, irisValue: real): int
    requires irisValue != 0.0
  {
    Trunc(32768.0 / 126.0 * (textureHeight - 1) as real / irisValue)
  }

  function TextureHeight(t: Texture): nat {
    if t.Texture? then t.height else 1
  }

  /** An angle after spinning and mirroring; mirror is 0 or 1023, which flips all ten bits. */
  function Spun(angle: nat, current: nat, mirror: nat): (a: nat)
    ensures a < 1024
  {
    var a := (angle + current) % 1024;
    if mirror == 0 then a else 1023 - a
  }

  function ScaleColumn(angle: nat, width: nat): nat {
    angle * width / 1024
  }

  /** What one frame looks like apart from the lids. */
  datatype View = View(corner: Point, irisAngle: nat, scleraAngle: nat, pupilAmount: real)

  lemma IrisValueBounds(pupil: PupilParams, amount: real)
    requires pupil.Valid() && InUnit(amount)
    ensures 0.0 < IrisValue(pupil, amount) <= 1.0
  {
    IrisShareBounds(pupil.min, pupil.max - pupil.min, amount);
  }

  lemma IrisShareBounds(min: real, range: real, amount: real)
    requires 0.0 <= min && 0.0 <= range && min + range < 1.0 && InUnit(amount)
    ensures 0.0 < IrisShare(min, range, amount) <= 1.0
  {
    var part := range * amount;
    assert 0.0 <= part <= range by { PartOf(range, amount); }
    assert IrisShare(min, range, amount) == 1.0 - (min + part);
  }

  /** A pupil of its least size leaves all but `min` of the iris, one of its largest size all but `max`. */
  lemma IrisValueEnds(pupil: PupilParams, amount: real)
    ensures IrisValue(pupil, 0.0) == 1.0 - pupil.min && IrisValue(pupil, 1.0) == 1.0 - pupil.max
    ensures IrisValue(pupil, amount) == Lerp(1.0 - pupil.min, 1.0 - pupil.max, amount)
  {
    var part := (pupil.max - pupil.min) * amount;
    assert (1.0 - pupil.max - (1.0 - pupil.min)) * amount == -part;
  }

  /** The larger the pupil, the less of the iris is left. */
  lemma IrisShrinks(pupil: PupilParams, a: real, a': real)
    requires pupil.min <= pupil.max && a <= a'
    ensures IrisValue(pupil, a') <= IrisValue(pupil, a)
    ensures IrisSize(IrisValue(pupil, a')) <= IrisSize(IrisValue(pupil, a))
  {
    MulMono(pupil.max - pupil.min, a, a');
    TruncMono(126.0 * IrisValue(pupil, a'), 126.0 * IrisValue(pupil, a));
  }

  lemma TruncMono(r: real, r': real)
    requires r <= r'
    ensures Trunc(r) <= Trunc(r')
  {
  }

  lemma IrisSizeBounds(irisValue: real)
    requires 0.0 < irisValue <= 1.0
    ensures 128 <= IrisSize(irisValue) <= 254
  {
    TruncBetween(126.0 * irisValue, 0, 126);
  }

  /** The row of the iris texture for a stored distance. */
  function IrisRow(distance: int, textureHeight: nat, irisValue: real): int
    requires irisValue != 0.0
  {
    (distance - 128) * PupilFactor(textureHeight, irisValue) / 32768
  }

  lemma TruncIsBelow(r: real)
    requires r >= 0.0
    ensures 0 <= Trunc(r) && Trunc(r) as real <= r
  {
  }

  /**
   The fixed-point iris row stays inside the texture, and the products fit 32 bits, because the
   rows per unit of distance and the size of the iris are both derived from irisValue.
   */
  lemma IrisRowInTexture(distance: int, height: nat, irisValue: real)
    requires 0 < height < 0x10000 && irisValue > 0.0
    requires 128 <= distance < IrisSize(irisValue)
    ensures 0 <= IrisRow(distance, height, irisValue) < height
    ensures 0 <= PupilFactor(height, irisValue) < 0x8000_0000
    ensures 0 <= (distance - 128) * PupilFactor(height, irisValue) < 0x8000_0000
  {
    var n := distance - 128;
    var rows := (height - 1) as real;
    var exact := 32768.0 / 126.0 * rows / irisValue;
    assert exact * irisValue == 32768.0 / 126.0 * rows;
    TruncIsBelow(126.0 * irisValue);
    ExactIsBounded(exact, 126.0 * irisValue, 32768.0 * rows, n as real);
    TruncatedRow(n, exact, height - 1);
  }

  /**
   The factor fits its 32 bits exactly when the iris is not too thin for the texture.  Any iris that shows
   is thick enough, but the factor is worked out for every iris.
   */
  lemma FactorFitsExactlyWhen(height: nat, irisValue: real)
    requires 0 < height && irisValue > 0.0
    ensures PupilFactor(height, irisValue) < 0x8000_0000 <==> (height - 1) as real < 8257536.0 * irisValue
  {
    var rows := (height - 1) as real;
    var exact := 32768.0 / 126.0 * rows / irisValue;
    assert exact * irisValue == 32768.0 / 126.0 * rows;
    QuotientBelow(exact, irisValue, 32768.0 / 126.0 * rows, 2147483648.0);
    QuotientBelow(exact, irisValue, 32768.0 / 126.0 * rows, 0.0);
    TruncBelow(exact, 0x8000_0000);
  }

  lemma QuotientBelow(q: real, k: real, x: real, limit: real)
    requires k > 0.0 && q * k == x
    ensures q < limit <==> x < k * limit
  {
    assert k * (limit - q) == k * limit - x;
    SignOfProduct(k, limit - q, k * limit - x);
  }

  lemma TruncBelow(r: real, n: int)
    requires r >= 0.0
    ensures Trunc(r) < n <==> r < n as real
  {
  }

  /** A thousandth of the iris left by a pupil is too thin for the tallest textures. */
  lemma ThinIrisOverflows()
    ensures PupilFactor(0xFFFF, 0.001) >= 0x8000_0000 && IrisSize(0.001) == 128
  {
    FactorFitsExactlyWhen(0xFFFF, 0.001);
  }

  lemma TruncatedRow(n: int, exact: real, rows: nat)
    requires n >= 0 && rows < 0xFFFF
    requires 0.0 <= exact <= 32768.0 * rows as real && n as real * exact <= 32768.0 * rows as real
    ensures 0 <= Trunc(exact) <= 32768 * rows
    ensures 0 <= n * Trunc(exact) <= 32768 * rows
    ensures 0 <= n * Trunc(exact) / 32768 <= rows
  {
    var f := Trunc(exact);
    TruncIsBelow(exact);
    MulMono(n as real, f as real, exact);
    ProductOfInts(n, f, 32768 * rows);
  }

  lemma ProductOfInts(n: int, f: int, bound: int)
    requires n >= 0 && f >= 0 && n as real * f as real <= bound as real
    ensures 0 <= n * f <= bound
  {
  }

  lemma ExactIsBounded(exact: real, size: real, rows: real, n: real)
    requires exact * size == rows >= 0.0 && size >= 1.0 && 0.0 <= n <= size
    ensures 0.0 <= exact <= rows
    ensures 0.0 <= n * exact <= rows
  {
    if exact < 0.0 { MulStrict(size, exact, 0.0); }
    MulMono(exact, 1.0, size);
    MulMono(exact, n, size);
    MulMono(n, 0.0, exact);
  }

  lemma ScaledColumn(angle: nat, width: nat)
    requires angle < 1024 && 0 < width
    ensures ScaleColumn(angle, width) < width
    ensures width < 0x10000 ==> angle * width < 0x8000_0000
  {
    var k := angle * width / 1024;
    MulMonoInt(width, angle, 1023);
  }

  lemma ScleraRow(distance: nat, height: nat)
    requires distance < 128 && 0 < height
    ensures distance * height / 128 < height
    ensures height < 0x10000 ==> distance * height < 0x8000_0000
  {
    MulMonoInt(height, distance, 127);
  }

  /** A surface's colour at an angle: a texel of the given row, or its plain colour. */
  function SurfaceColour(s: Surface, angle: nat, current: nat, row: nat): int
    requires s.Valid() && row < TextureHeight(s.texture)
  {
    if s.texture.Texture? then
      ScaledColumn(Spun(angle, current, s.mirror), s.texture.width);
      s.texture.Get(ScaleColumn(Spun(angle, current, s.mirror), s.texture.width), row)
    else s.color
  }

  /** The colour for a polar angle and distance: 0..127 sclera, then iris, then pupil, 255 back of the eye. */
  function Shade(def: EyeDefinition, view: View, angle: nat, distance: nat): int
    requires def.Valid() && InUnit(view.pupilAmount) && distance < 256
  {
    IrisValueBounds(def.pupil, view.pupilAmount);
    var irisValue := IrisValue(def.pupil, view.pupilAmount);
    if distance < 128 then
      ScleraRow(distance, TextureHeight(def.sclera.texture));
      SurfaceColour(def.sclera, angle, view.scleraAngle, distance * TextureHeight(def.sclera.texture) / 128)
    else if distance == 255 then def.backColor
    else if distance >= IrisSize(irisValue) then def.pupil.color
    else
      IrisRowInTexture(distance, TextureHeight(def.iris.texture), irisValue);
      SurfaceColour(def.iris, angle, view.irisAngle, IrisRow(distance, TextureHeight(def.iris.texture), irisValue))
  }

  /** What lies under the lids at a screen pixel. */
  function SceneColour(def: EyeDefinition, view: View, sx: int, sy: int): int
    requires def.Valid() && InUnit(view.pupilAmount) && 0 <= sx < SCREEN && 0 <= sy < SCREEN
  {
    var p := MapPoint(def.displacement, HALF, view.corner, sx, sy);
    if Displacement(def.displacement, HALF, sx, sy) == 255 then def.eyelids.color
    else if !OnMap(def.polar.mapRadius, p) then def.backColor
    else Shade(def, view, AngleAt(def.polar.mapRadius, def.polar.angle, p),
               DistanceAt(def.polar.mapRadius, def.polar.distance, p))
  }

  // ---------------------------------------------------------------- which texel

  /** An angle shown: turned on by the surface's present angle, and flipped if the surface is mirrored. */
  ghost predicate IsShownAngle(s: Surface, angle: nat, current: nat, shown: nat) {
    exists a: nat, turns: nat :: IsTurnedTo(s, angle, current, shown, a, turns)
  }

  predicate IsTurnedTo(s: Surface, angle: nat, current: nat, shown: nat, a: nat, turns: nat) {
    a < 1024 && angle + current == a + 1024 * turns && shown == if s.mirror == 0 then a else 1023 - a
  }

  /** A whole number of parts out of n, rounded down, of a length: part / n <= index / length < (part + 1) / n. */
  predicate IsShare(index: nat, length: nat, part: nat, n: nat) {
    index * n <= part * length < (index + 1) * n
  }

  lemma QuotientOf(v: nat, n: nat, q: nat)
    requires n > 0 && q * n <= v < (q + 1) * n
    ensures v / n == q
  {
    IndexSplit(n, v - q * n, q);
  }

  /** A textured surface shows the texel whose column is the angle's share of the width. */
  lemma SurfaceShows(s: Surface, angle: nat, current: nat, row: nat, shown: nat, column: nat)
    requires s.Valid() && s.texture.Texture? && row < s.texture.height && column < s.texture.width
    requires IsShownAngle(s, angle, current, shown) && IsShare(column, s.texture.width, shown, 1024)
    ensures SurfaceColour(s, angle, current, row) == s.texture.Get(column, row)
  {
    var a: nat, turns: nat :| IsTurnedTo(s, angle, current, shown, a, turns);
    WholeTurns(a, turns);
    assert Spun(angle, current, s.mirror) == shown;
    QuotientOf(shown * s.texture.width, 1024, column);
  }

  /** A sclera point shows the sclera's texel of its angle and of its distance's share of the height. */
  lemma ScleraShows(def: EyeDefinition, view: View, angle: nat, distance: nat, shown: nat, column: nat, row: nat)
    requires def.Valid() && InUnit(view.pupilAmount) && distance < 128 && def.sclera.texture.Texture?
    requires column < def.sclera.texture.width && row < def.sclera.texture.height
    requires IsShownAngle(def.sclera, angle, view.scleraAngle, shown)
    requires IsShare(column, def.sclera.texture.width, shown, 1024)
    requires IsShare(row, def.sclera.texture.height, distance, 128)
    ensures Shade(def, view, angle, distance) == def.sclera.texture.Get(column, row)
  {
    hide SurfaceColour, IsShownAngle, IrisValue, IrisSize, IrisRow;
    QuotientOf(distance * def.sclera.texture.height, 128, row);
    SurfaceShows(def.sclera, angle, view.scleraAngle, row, shown, column);
  }

  /** The share of the iris crossed at a stored distance, in texture rows. */
  function RowsCrossed(distance: int, textureHeight: nat, irisValue: real): real
    requires irisValue > 0.0
  {
    (distance - 128) as real * (textureHeight - 1) as real / (126.0 * irisValue)
  }

  /** The iris rows start at the edge of the iris and end at the pupil: the row is the share of the iris crossed. */
  lemma IrisRowIsShare(distance: int, height: nat, irisValue: real)
    requires 0 < height < 0x10000 && 0.0 < irisValue <= 1.0 && 128 <= distance < IrisSize(irisValue)
    ensures var exact := RowsCrossed(distance, height, irisValue);
      exact - 1.01 < IrisRow(distance, height, irisValue) as real <= exact
    ensures distance == 128 ==> IrisRow(distance, height, irisValue) == 0
  {
    IrisSizeBounds(irisValue);
    hide IrisSize;
    var exact := FactorRoundsDown(height, irisValue);
    var rows, share := (height - 1) as real, RowsCrossed(distance, height, irisValue);
    RowsCrossedInAll(distance, height, irisValue);
    ShareOfRows((distance - 128) as real, rows, irisValue, exact, share);
    hide PupilFactor, RowsCrossed;
    RowOfFactor(distance - 128, PupilFactor(height, irisValue), exact, share);
  }

  lemma RowsCrossedInAll(distance: int, height: nat, irisValue: real)
    requires irisValue > 0.0
    ensures RowsCrossed(distance, height, irisValue) * (126.0 * irisValue)
         == (distance - 128) as real * (height - 1) as real
  {
  }

  /** The factor is the exact one rounded down. */
  lemma FactorRoundsDown(height: nat, irisValue: real) returns (exact: real)
    requires 0 < height && irisValue > 0.0
    ensures exact * irisValue == 32768.0 / 126.0 * (height - 1) as real
    ensures var f := PupilFactor(height, irisValue); 0 <= f && f as real <= exact < f as real + 1.0
  {
    var rows := (height - 1) as real;
    exact := 32768.0 / 126.0 * rows / irisValue;
    SignOfProduct(irisValue, exact, 32768.0 / 126.0 * rows);
  }

  lemma ShareOfRows(n: real, rows: real, v: real, exact: real, share: real)
    requires v > 0.0 && exact * v == 32768.0 / 126.0 * rows && share * (126.0 * v) == n * rows
    ensures Product(n, exact) == 32768.0 * share
  {
    var k := 126.0 * v;
    assert exact * k == 32768.0 * rows;
    Reassociated(n, exact, k);
    Reassociated(32768.0, share, k);
    Exchanged(n, 32768.0, rows);
    SameFactor(n * exact, 32768.0 * share, k);
  }

  lemma Exchanged(a: real, b: real, c: real)
    ensures a * (b * c) == b * (a * c)
  {
  }

  lemma SameFactor(a: real, b: real, k: real)
    requires k > 0.0 && a * k == b * k
    ensures a == b
  {
    assert (a - b) * k == 0.0;
  }

  lemma RowOfFactor(n: int, f: int, exact: real, share: real)
    requires 0 <= n <= 126 && 0 <= f && f as real <= exact < f as real + 1.0
    requires Product(n as real, exact) == 32768.0 * share
    ensures share - 1.01 < (n * f / 32768) as real <= share
  {
    hide Product;
    ProductStep(n as real, f as real, exact);
    ProductAsReal(n, f);
    RowBetween(n * f, share, n);
  }

  lemma RowBetween(p: int, share: real, n: int)
    requires 0 <= n <= 126 && p as real <= 32768.0 * share <= p as real + n as real
    ensures share - 1.01 < (p / 32768) as real <= share
  {
    var q := p / 32768;
    assert 32768 * q <= p < 32768 * q + 32768;
  }

  /** An iris point shows the iris's texel of its angle and of that row. */
  lemma IrisShows(def: EyeDefinition, view: View, angle: nat, distance: nat, shown: nat, column: nat)
    requires def.Valid() && InUnit(view.pupilAmount) && def.iris.texture.Texture? && column < def.iris.texture.width
    requires IrisValue(def.pupil, view.pupilAmount) > 0.0
    requires 128 <= distance < IrisSize(IrisValue(def.pupil, view.pupilAmount)) && distance < 255
    requires IsShownAngle(def.iris, angle, view.irisAngle, shown)
    requires IsShare(column, def.iris.texture.width, shown, 1024)
    ensures var row := IrisRow(distance, def.iris.texture.height, IrisValue(def.pupil, view.pupilAmount));
      0 <= row < def.iris.texture.height && Shade(def, view, angle, distance) == def.iris.texture.Get(column, row)
  {
    hide SurfaceColour, IsShownAngle, IrisValue, IrisSize, IrisRow;
    var irisValue := IrisValue(def.pupil, view.pupilAmount);
    IrisRowInTexture(distance, def.iris.texture.height, irisValue);
    SurfaceShows(def.iris, angle, view.irisAngle, IrisRow(distance, def.iris.texture.height, irisValue), shown, column);
  }

  // ---------------------------------------------------------------- symmetry

  /** The screen corner when the gaze is centred on the map. */
  function Centred(half: nat, radius: nat): Point {
    Point(radius - half, radius - half)
  }

  /** With centred gaze, a quarter turn of the screen is a quarter turn of the map, for any table and screen size. */
  lemma TurnedPixelTurnsMapPoint(disp: seq<int>, half: nat, radius: nat, sx: int, sy: int)
    requires IsSquareTable(disp, half) && 0 <= sx < 2 * half && 0 <= sy < 2 * half
    ensures MapPoint(disp, half, Centred(half, radius), 2 * half - 1 - sy, sx)
         == Turn(radius, MapPoint(disp, half, Centred(half, radius), sx, sy))
  {
    assert Folded(half, 2 * half - 1 - sy) == Folded(half, sy);
  }

  /** The looked-up angle changes by a quarter turn. */
  lemma TurnedPointTurnsAngle(radius: nat, angle: seq<int>, p: Point)
    requires IsSquareTable(angle, radius) && OnMap(radius, p)
    ensures AngleAt(radius, angle, Turn(radius, p)) == (AngleAt(radius, angle, p) + 768) % 1024
  {
    if TurnsLeft(radius, p) == 0 {
      var p1 := Turn(radius, p);
      var p2 := Turn(radius, p1);
      var p3 := Turn(radius, p2);
      assert Turn(radius, p3) == p;
      assert AngleAt(radius, angle, p3) == AngleAt(radius, angle, p) + 256;
      assert AngleAt(radius, angle, p2) == AngleAt(radius, angle, p3) + 256;
      assert AngleAt(radius, angle, p1) == AngleAt(radius, angle, p2) + 256;
    }
  }

  /** The looked-up distance is unchanged by mirroring the map point in either axis. */
  lemma MirroredPointKeepsDistance(radius: nat, distance: seq<int>, p: Point)
    requires IsSquareTable(distance, radius) && OnMap(radius, p)
    ensures DistanceAt(radius, distance, Point(2 * radius - 1 - p.x, p.y)) == DistanceAt(radius, distance, p)
    ensures DistanceAt(radius, distance, Point(p.x, 2 * radius - 1 - p.y)) == DistanceAt(radius, distance, p)
  {
  }

  /** Mirroring the screen in either axis mirrors the map point. */
  lemma MirroredPixelMirrorsMapPoint(disp: seq<int>, half: nat, radius: nat, sx: int, sy: int)
    requires IsSquareTable(disp, half) && 0 <= sx < 2 * half && 0 <= sy < 2 * half
    ensures var p := MapPoint(disp, half, Centred(half, radius), sx, sy);
      && MapPoint(disp, half, Centred(half, radius), 2 * half - 1 - sx, sy) == Point(2 * radius - 1 - p.x, p.y)
      && MapPoint(disp, half, Centred(half, radius), sx, 2 * half - 1 - sy) == Point(p.x, 2 * radius - 1 - p.y)
  {
    assert Folded(half, 2 * half - 1 - sx) == Folded(half, sx);
    assert Folded(half, 2 * half - 1 - sy) == Folded(half, sy);
  }

  predicate IsTransposed(t: seq<int>, side: nat)
    requires IsSquareTable(t, side)
  {
    forall x, y | 0 <= x < side && 0 <= y < side :: Entry(t, side, x, y) == Entry(t, side, y, x)
  }

  /** The edge of the eye, marked 255, is the same seen from both axes. */
  predicate HasSymmetricEdge(disp: seq<int>, half: nat)
    requires IsSquareTable(disp, half)
  {
    forall x, y | 0 <= x < half && 0 <= y < half :: Entry(disp, half, x, y) == 255 <==> Entry(disp, half, y, x) == 255
  }

  /** A view with both textures spun on by a quarter turn. */
  function SpunOn(view: View): View {
    view.(irisAngle := view.irisAngle + 256, scleraAngle := view.scleraAngle + 256)
  }

  lemma SpunBack(angle: nat, turned: nat, current: nat, mirror: nat)
    requires turned == (angle + 768) % 1024
    ensures Spun(turned, current + 256, mirror) == Spun(angle, current, mirror)
  {
    var k := (angle + 768) / 1024;
    assert turned + (current + 256) == angle + current + 1024 * (1 - k);
    WholeTurns(angle + current, 1 - k);
  }

  lemma WholeTurns(a: int, k: int)
    ensures (a + 1024 * k) % 1024 == a % 1024
  {
  }

  /**
   Rotational equivariance of the whole pipeline: with centred gaze and a round pupil, turning a
   screen pixel a quarter turn shows the colour it had before both textures are spun a quarter turn.
   */
  lemma TurnedScene(def: EyeDefinition, view: View, sx: int, sy: int)
    requires def.Valid() && InUnit(view.pupilAmount) && 0 <= sx < SCREEN && 0 <= sy < SCREEN
    requires view.corner == Centred(HALF, def.polar.mapRadius)
    requires IsTransposed(def.polar.distance, def.polar.mapRadius) && HasSymmetricEdge(def.displacement, HALF)
    ensures SceneColour(def, SpunOn(view), SCREEN - 1 - sy, sx) == SceneColour(def, view, sx, sy)
  {
    var r := def.polar.mapRadius;
    var p := MapPoint(def.displacement, HALF, view.corner, sx, sy);
    TurnedPixelTurnsMapPoint(def.displacement, HALF, r, sx, sy);
    assert Folded(HALF, SCREEN - 1 - sy) == Folded(HALF, sy);
    if OnMap(r, p) {
      TurnedPointTurnsAngle(r, def.polar.angle, p);
      assert Folded(r, 2 * r - 1 - p.y) == Folded(r, p.y);
      var angle, turned := AngleAt(r, def.polar.angle, p), AngleAt(r, def.polar.angle, Turn(r, p));
      SpunBack(angle, turned, view.irisAngle, def.iris.mirror);
      SpunBack(angle, turned, view.scleraAngle, def.sclera.mirror);
    }
  }

  /** Without textures the scene is its own mirror image in both axes, whatever the shape of the pupil. */
  lemma MirroredScene(def: EyeDefinition, view: View, sx: int, sy: int)
    requires def.Valid() && InUnit(view.pupilAmount) && 0 <= sx < SCREEN && 0 <= sy < SCREEN
    requires view.corner == Centred(HALF, def.polar.mapRadius)
    requires def.iris.texture.NoTexture? && def.sclera.texture.NoTexture?
    ensures SceneColour(def, view, SCREEN - 1 - sx, sy) == SceneColour(def, view, sx, sy)
    ensures SceneColour(def, view, sx, SCREEN - 1 - sy) == SceneColour(def, view, sx, sy)
  {
    var r := def.polar.mapRadius;
    var p := MapPoint(def.displacement, HALF, view.corner, sx, sy);
    MirroredPixelMirrorsMapPoint(def.displacement, HALF, r, sx, sy);
    assert Folded(HALF, SCREEN - 1 - sx) == Folded(HALF, sx);
    assert Folded(HALF, SCREEN - 1 - sy) == Folded(HALF, sy);
    if OnMap(r, p) {
      MirroredPointKeepsDistance(r, def.polar.distance, p);
    }
  }
  // ---------------------------------------------------------------- the width of coordinates

  predicate FitsInt(v: int) {
    -0x8000_0000 <= v < 0x8000_0000
  }

  /** A coordinate of the screen's corner on the map that leaves room for the screen and its displacement. */
  predicate LeavesRoom(corner: int) {
    -0x8000_0000 + 255 <= corner < 0x8000_0000 - (SCREEN - 1) - 255
  }

  /** The coordinates worked out for pixel s and displacement d. */
  predicate PixelFits(corner: int, s: int, d: int) {
    FitsInt(corner) && FitsInt(corner + s) && FitsInt(corner + s + Outwards(HALF, s, d))
  }

  /** No coordinate worked out for any pixel overflows, for any displacement, exactly when the corner leaves room. */
  lemma CoordinatesFitExactlyWhen(corner: int)
    ensures (forall s, d :: 0 <= s < SCREEN && IsByte(d) ==> PixelFits(corner, s, d)) <==> LeavesRoom(corner)
  {
    if !LeavesRoom(corner) {
      assert IsByte(255) && !(PixelFits(corner, 0, 255) && PixelFits(corner, SCREEN - 1, 255));
    }
  }
}
