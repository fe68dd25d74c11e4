/**
 Where the pupil is on screen, and the lids that follow it (src/eyes/EyeController.h, mapToScreen and
 computeEyelids).  The lid tables are indexed with the pupil's column, cut to a byte but not otherwise
 checked: here it is worked out for which gazes they are read past their ends, and that eyes left to
 themselves can get there.
 */
module Tracking {
  import opened Arithmetic
  import opened Clock
  import opened EyeTypes
  import opened Gaze
  import opened GazeRuns
  import opened Sampling

  /** Half of pi and the sine, as the eyes compute with them. */
  datatype Trigonometry = Trigonometry(halfPi: real, sin: real -> real)

  function MapToScreen(g: Trigonometry, value: int, mapRadius: nat, eyeRadius: nat): real
    requires mapRadius > 0
  {
    g.sin(value as real / mapRadius as real) * g.halfPi * eyeRadius as real
  }

  /** How far the pupil is from the middle of the screen along one axis, in pixels. */
  function ScreenOffset(g: Trigonometry, def: EyeDefinition, v: real): int
    requires def.polar.mapRadius > 0
  {
    Trunc(MapToScreen(g, Trunc(def.polar.mapRadius as real - v), def.polar.mapRadius, def.radius))
  }

  /** The column, which is mirrored for the eyes of odd index. */
  function PupilColumn(g: Trigonometry, def: EyeDefinition, index: nat, x: real): int
    requires def.polar.mapRadius > 0
  {
    var ix := ScreenOffset(g, def, x) + HALF;
    if index % 2 == 1 then SCREEN - 1 - ix else ix
  }

  /** The row, higher up for eyes that squint. */
  function PupilRow(g: Trigonometry, def: EyeDefinition, y: real): int
    requires def.polar.mapRadius > 0
  {
    Trunc((ScreenOffset(g, def, y) + HALF) as real - def.irisRadius as real * def.squint)
  }

  /** A cast to uint8_t. */
  function AsByte(v: int): (b: Byte) {
    v % 256
  }

  /** What a lid table seems to say of a column past its end: whatever bytes the memory there holds. */
  datatype Stray = Stray(open: Byte, closed: Byte)

  /** How open the upper lid should be to track a pupil at row iy of a column. */
  function TrackedLid(iy: int, upperOpen: int, upperClosed: int): (q: real)
    ensures InUnit(q)
  {
    if iy <= upperOpen then 1.0
    else if iy >= upperClosed then 0.0
    else
      FractionInUnit(upperClosed - iy, upperClosed - upperOpen);
      (upperClosed - iy) as real / (upperClosed - upperOpen) as real
  }

  /** A tracked lid's edge is at the pupil's row wherever that is between the lid's own rows. */
  lemma TrackedLidMeetsPupil(iy: int, upperOpen: int, upperClosed: int)
    requires 0 <= upperOpen <= iy <= upperClosed
    ensures UpperEdge(upperOpen, upperClosed, TrackedLid(iy, upperOpen, upperClosed)) == iy
  {
    var q, way := TrackedLid(iy, upperOpen, upperClosed), (upperClosed - upperOpen) as real;
    assert q * way == (upperClosed - iy) as real;
  }

  function OpenRow(lids: EyelidParams, ix: Byte, stray: Stray): int
    requires lids.Valid()
  {
    if ix < SCREEN then lids.UpperOpen(ix) else stray.open
  }

  function ClosedRow(lids: EyelidParams, ix: Byte, stray: Stray): int
    requires lids.Valid()
  {
    if ix < SCREEN then lids.UpperClosed(ix) else stray.closed
  }

  /** How open the lids of eye `index` should be before blinks: they follow the pupil together, or are fully open. */
  function UpperTarget(g: Trigonometry, index: nat, def: EyeDefinition, x: real, y: real, stray: Stray): (q: real)
    requires def.Valid()
    ensures InUnit(q)
  {
    if def.tracking then
      var ix := AsByte(PupilColumn(g, def, index, x));
      TrackedLid(PupilRow(g, def, y), OpenRow(def.eyelids, ix, stray), ClosedRow(def.eyelids, ix, stray))
    else 1.0
  }

  function LowerTarget(g: Trigonometry, index: nat, def: EyeDefinition, x: real, y: real, stray: Stray): (q: real)
    requires def.Valid()
    ensures InUnit(q) && (def.tracking ==> UpperTarget(g, index, def, x, y, stray) + q == 1.0)
  {
    if def.tracking then 1.0 - UpperTarget(g, index, def, x, y, stray) else 1.0
  }

  /** The lid tables have an entry for the pupil's column, or it is not looked for. */
  predicate TracksInTable(g: Trigonometry, def: EyeDefinition, index: nat, x: real)
    requires def.Valid()
  {
    def.tracking ==> AsByte(PupilColumn(g, def, index, x)) < SCREEN
  }

  /** Where the lids track a pupil in the table and between the rows of its column, the upper edge is at the pupil. */
  lemma LidsFollowPupil(g: Trigonometry, index: nat, def: EyeDefinition, x: real, y: real, stray: Stray)
    requires def.Valid() && def.tracking && TracksInTable(g, def, index, x)
    requires var column := AsByte(PupilColumn(g, def, index, x));
      def.eyelids.UpperOpen(column) <= PupilRow(g, def, y) <= def.eyelids.UpperClosed(column)
    ensures var column := AsByte(PupilColumn(g, def, index, x));
      def.eyelids.UpperLid(column, UpperTarget(g, index, def, x, y, stray)) == PupilRow(g, def, y)
  {
    hide PupilColumn, PupilRow, TrackedLid, UpperEdge;
    var column := AsByte(PupilColumn(g, def, index, x));
    TrackedLidMeetsPupil(PupilRow(g, def, y), def.eyelids.UpperOpen(column), def.eyelids.UpperClosed(column));
  }

  // ---------------------------------------------------------------- reading past the tables

  lemma ByteOf(v: int, b: nat, k: int)
    requires v == b + 256 * k && b < 256
    ensures AsByte(v) == b
  {
  }

  /**
   The tables are read past their ends exactly for a pupil that is, but for multiples of 256, from 120 to 135
   pixels off the middle.  It does not matter which way the eye is mirrored.
   */
  lemma InTableExactlyWhen(g: Trigonometry, def: EyeDefinition, index: nat, x: real)
    requires def.Valid() && def.tracking
    ensures TracksInTable(g, def, index, x) <==> !(HALF <= AsByte(ScreenOffset(g, def, x)) < HALF + 16)
  {
    hide ScreenOffset, AsByte;
    var d := ScreenOffset(g, def, x);
    var b, k := d % 256, d / 256;
    ByteOf(d, b, k);
    if index % 2 == 1 {
      if b < HALF { ByteOf(SCREEN - 1 - (d + HALF), HALF - 1 - b, -k); }
      else { ByteOf(SCREEN - 1 - (d + HALF), 256 + HALF - 1 - b, -k - 1); }
    } else {
      if b < 256 - HALF { ByteOf(d + HALF, b + HALF, k); } else { ByteOf(d + HALF, b + HALF - 256, k + 1); }
    }
  }

  /** What is in memory past the tables decides how open an eye's lids are. */
  ghost predicate StrayDecides(g: Trigonometry, index: nat, def: EyeDefinition, x: real, y: real)
    requires def.Valid()
  {
    exists p, p' :: UpperTarget(g, index, def, x, y, p) != UpperTarget(g, index, def, x, y, p')
  }

  /**
   It does exactly when the tables are read past their ends and the pupil's row is one that a byte can lie on
   either side of.
   */
  lemma StrayDecidesExactlyWhen(g: Trigonometry, index: nat, def: EyeDefinition, x: real, y: real)
    requires def.Valid()
    ensures StrayDecides(g, index, def, x, y)
            <==> !TracksInTable(g, def, index, x) && 0 < PupilRow(g, def, y) < 256
  {
    hide PupilColumn, PupilRow;
    if !TracksInTable(g, def, index, x) && 0 < PupilRow(g, def, y) < 256 {
      var iy := PupilRow(g, def, y);
      assert UpperTarget(g, index, def, x, y, Stray(iy, 0)) == 1.0;
      assert UpperTarget(g, index, def, x, y, Stray(0, iy)) == 0.0;
    }
  }

  /** A sine that is no steeper than its angle. */
  ghost predicate IsGentle(sin: real -> real) {
    forall v: real {:trigger sin(v)} :: -Abs(v) <= sin(v) <= Abs(v)
  }

  lemma TruncTowardsZero(v: real, b: real)
    requires -b <= v <= b
    ensures -b <= Trunc(v) as real <= b
  {
  }

  lemma SmallProduct(s: real, k: real, b: real, limit: real)
    requires -b <= s <= b && k >= 0.0 && b * k < limit
    ensures -limit < s * k < limit
  {
    MulMono(k, s, b);
    MulMono(k, -b, s);
  }

  /** How many pixels a gaze `far` off the centre can take the pupil off the middle, for a gentle sine. */
  function PixelsOff(g: Trigonometry, def: EyeDefinition, far: real): real
    requires def.polar.mapRadius > 0
  {
    far / def.polar.mapRadius as real * (g.halfPi * def.radius as real)
  }

  /** Gazes near enough to the centre keep the pupil in the table. */
  lemma CentralGazeIsInTable(g: Trigonometry, def: EyeDefinition, index: nat, x: real, far: real)
    requires def.Valid() && def.tracking && IsGentle(g.sin) && g.halfPi >= 0.0
    requires -far <= x - def.polar.mapRadius as real <= far
    requires PixelsOff(g, def, far) < HALF as real
    ensures TracksInTable(g, def, index, x)
  {
    hide TracksInTable, IsGentle, Trunc, ScreenOffset, MapToScreen, AsByte;
    var r := def.polar.mapRadius as real;
    var value := Trunc(r - x);
    TruncTowardsZero(r - x, far);
    var s, b, k := g.sin(value as real / r), far / r, g.halfPi * def.radius as real;
    SineWithin(g.sin, value as real, far, r);
    MulMono(g.halfPi, 0.0, def.radius as real);
    SmallProduct(s, k, b, HALF as real);
    Reassociated(s, g.halfPi, def.radius as real);
    var v := s * g.halfPi * def.radius as real;
    OffsetInside(v);
    OffsetIsTruncated(g, def, x, s, v);
    InTableExactlyWhen(g, def, index, x);
  }

  lemma OffsetIsTruncated(g: Trigonometry, def: EyeDefinition, x: real, s: real, v: real)
    requires def.polar.mapRadius > 0
    requires var r := def.polar.mapRadius as real; s == g.sin(Trunc(r - x) as real / r)
    requires v == s * g.halfPi * def.radius as real
    ensures ScreenOffset(g, def, x) == Trunc(v)
  {
    var r := def.polar.mapRadius;
    var value := Trunc(r as real - x);
    assert MapToScreen(g, value, r, def.radius) == v;
    hide Trunc, MapToScreen;
  }

  lemma SineWithin(sin: real -> real, value: real, far: real, r: real)
    requires IsGentle(sin) && r > 0.0 && -far <= value <= far
    ensures -(far / r) <= sin(value / r) <= far / r
  {
    DivMono(value, far, r);
    DivMono(-far, value, r);
    Quotient(-far, r, -(far / r));
    var v := value / r;
    assert -Abs(v) <= sin(v) <= Abs(v);
  }

  lemma OffsetInside(v: real)
    requires -(HALF as real) < v < HALF as real
    ensures 0 < Trunc(v) + HALF < 2 * HALF
    ensures !(HALF <= AsByte(Trunc(v)) < HALF + 16)
  {
    var d := Trunc(v);
    if d < 0 { ByteOf(d, d + 256, -1); }
  }

  /** So automatic movement is safe as long as its drift bound, and the fixation of 7, keep it near the centre. */
  lemma BoundedDriftIsInTable(g: Trigonometry, def: EyeDefinition, index: nat, c: Config, k: nat,
                              x: real, y: real, x': real)
    requires def.Valid() && def.tracking && IsGentle(g.sin) && g.halfPi >= 0.0 && c.mapRadius == def.polar.mapRadius
    requires Near(c, x, y, k) && -7.0 <= x' - x <= 7.0
    requires PixelsOff(g, def, Bound(c, k) + 7.0) < HALF as real
    ensures TracksInTable(g, def, index, x')
  {
    WithinAlongX(x - c.mapRadius as real, y - c.mapRadius as real, Bound(c, k));
    CentralGazeIsInTable(g, def, index, x', Bound(c, k) + 7.0);
  }

  lemma WithinAlongX(x: real, y: real, b: real)
    requires Within(x, y, b)
    ensures -b <= x <= b
  {
    assert x * x <= b * b by { assert y * y >= 0.0; }
    if x >= 0.0 {
      SquareOrder(x, b);
    } else {
      assert (-x) * (-x) == x * x;
      SquareOrder(-x, b);
    }
  }

  /** With the usual sizes they do for targets and positions that are set, and for up to nine microsaccades. */
  lemma UsualDriftIsInTable(g: Trigonometry, def: EyeDefinition, index: nat, c: Config, k: nat,
                            x: real, y: real, x': real)
    requires def.Valid() && def.tracking && def.radius == 120 && def.polar.mapRadius == c.mapRadius == 240
    requires IsGentle(g.sin) && 1.57 <= g.halfPi <= 1.571 && 102.9 <= c.reach <= 103.2
    requires k <= 9 && Near(c, x, y, k) && -7.0 <= x' - x <= 7.0
    ensures TracksInTable(g, def, index, x')
  {
    UsualBound(c, k);
    hide Bound, PixelsOff, IsGentle, TracksInTable;
    UsualReach(g, def, Bound(c, k) + 7.0);
    BoundedDriftIsInTable(g, def, index, c, k, x, y, x');
  }

  lemma UsualBound(c: Config, k: nat)
    requires 102.9 <= c.reach <= 103.2 && k <= 9
    ensures 0.0 <= Bound(c, k) <= 142.5
  {
    var rho := Abs(MicroRadius(c));
    var drift := k as real * rho;
    assert 0.0 <= rho <= 7.23;
    MulMono(rho, k as real, 9.0);
    MulMono(rho, 0.0, k as real);
    assert Bound(c, k) == Abs(BigRadius(c)) + drift && 0.0 <= Abs(BigRadius(c)) <= 77.4;
  }

  lemma UsualReach(g: Trigonometry, def: EyeDefinition, far: real)
    requires 1.57 <= g.halfPi <= 1.571 && def.radius == 120 && def.polar.mapRadius == 240 && 0.0 <= far <= 149.5
    ensures PixelsOff(g, def, far) < HALF as real
  {
    var f, p := far / 240.0, g.halfPi * 120.0;
    ProductGrows(f, 0.623, p, 188.6);
    assert PixelsOff(g, def, far) == f * p;
  }

  /** With the usual sizes, a gaze as far off the centre as these sines say reads past the tables. */
  lemma DistantGazeIsNot(g: Trigonometry, def: EyeDefinition, x: real)
    requires def.Valid() && def.tracking && def.radius == 120 && def.polar.mapRadius == 240
    requires 1.57 <= g.halfPi <= 1.58 && 0.64 <= g.sin(Trunc(240.0 - x) as real / 240.0) <= 0.67
    ensures !TracksInTable(g, def, 0, x) && !TracksInTable(g, def, 1, x)
  {
    hide TracksInTable, Trunc, AsByte, ScreenOffset;
    var r, eyeRadius := def.polar.mapRadius as real, def.radius as real;
    assert r == 240.0 && eyeRadius == 120.0;
    var s := g.sin(Trunc(r - x) as real / r);
    var v := s * g.halfPi * eyeRadius;
    OffsetOf(s, g.halfPi, v);
    OffsetIsTruncated(g, def, x, s, v);
    OnTheEdge(ScreenOffset(g, def, x));
    InTableExactlyWhen(g, def, 0, x);
    InTableExactlyWhen(g, def, 1, x);
  }

  lemma OnTheEdge(v: int)
    requires 120 <= v <= 128
    ensures HALF <= AsByte(v) < HALF + 16
  {
  }

  lemma OffsetOf(s: real, p: real, v: real)
    requires 0.64 <= s <= 0.67 && 1.57 <= p <= 1.58 && v == s * p * 120.0
    ensures 120 <= Trunc(v) <= 128
  {
    var q := s * p;
    ProductGrows(0.64, s, 1.57, p);
    ProductGrows(s, 0.67, p, 1.58);
    assert v == q * 120.0;
    TruncBetween(v, 120, 128);
  }

  // ---------------------------------------------------------------- which side

  /** A sine with the sign of its angle. */
  ghost predicate KeepsSign(sin: real -> real) {
    forall v: real {:trigger sin(v)} ::
      (v > 0.0 ==> sin(v) > 0.0) && (v < 0.0 ==> sin(v) < 0.0) && (v == 0.0 ==> sin(v) == 0.0)
  }

  /** Once there, the pupil is on the side of the screen that was asked for, on both axes. */
  lemma TargetOnItsSide(g: Trigonometry, def: EyeDefinition, c: Config, m: Motion, x: real, y: real,
                        durationMs: nat, start: nat, t: nat)
    requires def.Valid() && def.polar.mapRadius == c.mapRadius > 0 && KeepsSign(g.sin) && g.halfPi > 0.0
    requires IsSqrt(c.sqrt) && BigRadius(c) > 0.0 && Within(x, y, 1.0) && !m.inMotion
    requires start <= t && (t - start) % WRAP >= durationMs
    ensures var m' := Targeted(c, m, x, y, durationMs, Reading(start));
      var gx, gy := GazeX(m', Reading(t)), GazeY(m', Reading(t));
      && OnSide(ScreenOffset(g, def, gx), x) && OnSide(ScreenOffset(g, def, gy), y)
      && Coordinate(c, gx) == x && Coordinate(c, gy) == y
      && OnSide(PupilColumn(g, def, 0, gx) - 120, x) && OnSide(119 - PupilColumn(g, def, 1, gx), x)
      && (def.squint == 0.0 ==> OnSide(PupilRow(g, def, gy) - 120, y))
  {
    TargetIsReached(c, m, x, y, durationMs, start, t);
    TargetTellsPlace(c, m, x, y, durationMs, Reading(start));
    var m' := Targeted(c, m, x, y, durationMs, Reading(start));
    hide Within, Targeted, GazeX, GazeY, KeepsSign, ScreenOffset;
    OffsetKeepsSide(g, def, c, m'.newX, x);
    OffsetKeepsSide(g, def, c, m'.newY, y);
  }

  /** Not on the other side of the middle. */
  predicate OnSide(offset: int, v: real) {
    (v >= 0.0 ==> offset >= 0) && (v <= 0.0 ==> offset <= 0)
  }

  lemma OffsetKeepsSide(g: Trigonometry, def: EyeDefinition, c: Config, v: real, x: real)
    requires def.polar.mapRadius == c.mapRadius > 0 && KeepsSign(g.sin) && g.halfPi > 0.0
    requires BigRadius(c) > 0.0 && Coordinate(c, v) == x
    ensures OnSide(ScreenOffset(g, def, v), x)
  {
    var r := c.mapRadius as real;
    var off := r - v;
    assert off == BigRadius(c) * x;
    SignOfProduct(BigRadius(c), x, off);
    SignOfProduct(BigRadius(c), -x, -off);
    var value := Trunc(off) as real;
    var angle := value / r;
    assert angle * r == value;
    SignOfProduct(r, angle, value);
    SignOfProduct(r, -angle, -value);
    var s, eyeRadius := g.sin(angle), def.radius as real;
    var w := s * g.halfPi * eyeRadius;
    ScaledSign(s, g.halfPi, eyeRadius, w);
    OffsetIsTruncated(g, def, v, s, w);
    hide Coordinate, ScreenOffset;
  }

  lemma ScaledSign(s: real, p: real, r: real, w: real)
    requires p > 0.0 && r >= 0.0 && w == s * p * r
    ensures (s >= 0.0 ==> w >= 0.0) && (s <= 0.0 ==> w <= 0.0)
  {
    SignOfProduct(p, s, s * p);
    SignOfProduct(p, -s, -(s * p));
    if s >= 0.0 { ProductGrows(0.0, s * p, 0.0, r); } else { ProductGrows(0.0, -(s * p), 0.0, r); }
  }

  // ---------------------------------------------------------------- the drift on the map

  lemma BoundIsSmall(c: Config, k: nat)
    requires -65536.0 <= c.reach <= 65536.0 && k <= 465116
    ensures Bound(c, k) <= 2_133_900_000.0
  {
    var rho := Abs(MicroRadius(c));
    assert 0.0 <= rho <= 4587.52;
    var drift := k as real * rho;
    MulMono(rho, k as real, 465116.0);
    assert drift <= 465116.0 * rho;
    assert Bound(c, k) == Abs(BigRadius(c)) + drift && Abs(BigRadius(c)) <= 49152.0;
  }

  /**
   As long as microsaccades are counted right and big saccades are at most five and a half hours apart, the
   gaze, fixated or mirrored, leaves room for the screen within 32 bits.
   */
  lemma DriftLeavesRoom(c: Config, s: Tracked, x: real, y: real, x': real)
    requires Near(c, x, y, s.k) && !TooMany(s) && s.interval <= 20_000_000
    requires c.mapRadius < 0x8000 && -65536.0 <= c.reach <= 65536.0
    requires -7.0 <= x' - x <= 7.0 || -7.0 <= (c.mapRadius * 2) as real - x' - x <= 7.0
    ensures LeavesRoom(Trunc(x' - HALF as real)) && LeavesRoom(Trunc(y - HALF as real))
  {
    var centre, b := c.mapRadius as real, Bound(c, s.k);
    BoundIsSmall(c, s.k);
    WithinAlongX(x - centre, y - centre, b);
    WithinSwapped(x - centre, y - centre, b);
    WithinAlongX(y - centre, x - centre, b);
    hide Bound, Within, Near, Trunc;
    TruncBetween(x' - HALF as real, -2_140_000_000, 2_140_000_000);
    TruncBetween(y - HALF as real, -2_140_000_000, 2_140_000_000);
  }

  lemma WithinSwapped(x: real, y: real, b: real)
    requires Within(x, y, b)
    ensures Within(y, x, b)
  {
  }

  // ---------------------------------------------------------------- a run that gets there

  const NONE: Draws := Draws(0, 0, 0)

  /** After n microsaccades of 7 to the left since the big saccade: a hold begins at 84 + 43 n. */
  predicate Drifted(s: Tracked, n: nat) {
    && !s.m.inMotion && s.m.durationMs == 35 && s.m.startMs == s.last == 84 + 43 * n
    && s.m.saccadeIntervalMs == 2999 && s.m.lastSaccadeStopMs == 84
    && s.m.oldX == 163.0 - 7.0 * n as real && s.m.oldY == 240.0
  }

  /** The eyes of the usual sizes. */
  ghost predicate IsUsual(c: Config) {
    c.mapRadius == 240 && 102.9 <= c.reach <= 103.2 && c.maxGazeMs == 3000 && IsSqrt(c.sqrt)
  }

  /** A draw of 0 for y is always possible, and the least draw for x. */
  lemma LeftDraw(r: real, n: nat, sqrt: real -> real) returns (d: Draws)
    requires IsSqrt(sqrt) && n as real <= r < (n + 1) as real
    ensures DiscX(r, d) == -(n as real) && DiscY(r, -(n as real), d, sqrt) == 0.0 && d.third == 0
  {
    var x := -(n as real);
    var v := r * r - x * x;
    LeastSquare(r, x, v);
    assert sqrt(v) >= 0.0;
    var raw: nat := Trunc(sqrt(v));
    d := Draws(0, raw, 0);
    hide RandomBetween, Trunc, IsSqrt;
    LeastDraw(r, n, 0);
    MiddleDraw(sqrt(v), raw);
    DiscYFrom(r, x, d, sqrt, v);
    hide DiscY;
  }

  lemma LeastDraw(r: real, n: nat, raw: nat)
    requires n as real <= r < (n + 1) as real && raw == 0
    ensures RandomBetween(-r, r, raw) == -(n as real)
  {
    assert Trunc(r) == n && -Trunc(-r) == n;
  }

  lemma MiddleDraw(h: real, raw: nat)
    requires h >= 0.0 && raw == Trunc(h)
    ensures RandomBetween(-h, h, raw) == 0.0
  {
    assert Trunc(-h) == -Trunc(h);
  }

  lemma LeastSquare(r: real, x: real, v: real)
    requires x <= 0.0 && -x <= r && v == r * r - x * x
    ensures v >= 0.0
  {
    MulMono(r, -x, r);
    MulMono(-x, -x, r);
  }

  lemma FirstMove(c: Config) returns (es: seq<Step>)
    requires IsUsual(c)
    ensures Paced(83, 0, es) && Drifted(Tracks(c, AtRest(c, 0), es), 0)
  {
    var d := LeftDraw(BigRadius(c), 77, c.sqrt);
    hide DiscX, DiscY;
    var e, e' := Step(1, d), Step(84, Draws(0, 2964, 0));
    es := [e, e'];
    var s := Track(c, AtRest(c, 0), e);
    assert s.m.inMotion && s.m.durationMs == 83 && s.m.startMs == 1 && s.m.saccadeIntervalMs == 0;
    assert Drifted(Track(c, s, e'), 0);
    TwoSteps(c, AtRest(c, 0), e, e');
  }

  lemma TwoSteps(c: Config, s: Tracked, e: Step, e': Step)
    requires s.last <= e.t <= s.last + 83 && e.t <= e'.t <= e.t + 83
    ensures Paced(83, s.last, [e, e']) && Tracks(c, s, [e, e']) == Track(c, Track(c, s, e), e')
  {
    hide Track;
    var s' := Track(c, s, e);
    assert [e, e'][1..] == [e'];
    assert Tracks(c, s', [e']) == Track(c, s', e') && Paced(83, e.t, [e']);
  }

  lemma DriftOnce(c: Config, s: Tracked, n: nat) returns (e: Step, e': Step)
    requires IsUsual(c) && Drifted(s, n) && n < 60
    ensures s.last <= e.t <= s.last + 83 && e.t <= e'.t <= e.t + 83
    ensures Drifted(Track(c, Track(c, s, e), e'), n + 1)
  {
    var d := LeftDraw(MicroRadius(c), 7, c.sqrt);
    hide DiscX, DiscY;
    e, e' := Step(s.last + 36, d), Step(s.last + 43, NONE);
    var s' := DriftAway(c, s, n, d);
    assert Track(c, s', e').m == Arrived(c, s'.m, e'.t, NONE);
  }

  lemma DriftAway(c: Config, s: Tracked, n: nat, d: Draws) returns (s': Tracked)
    requires IsUsual(c) && Drifted(s, n) && n < 60
    requires DiscX(MicroRadius(c), d) == -7.0 && DiscY(MicroRadius(c), -7.0, d, c.sqrt) == 0.0 && d.third == 0
    ensures var t := s.last + 36;
      && s' == Track(c, s, Step(t, d)) && s'.last == t
      && s'.m.inMotion && s'.m.durationMs == 7 && s'.m.startMs == t
      && s'.m.saccadeIntervalMs == 2999 && s'.m.lastSaccadeStopMs == 84
      && s'.m.newX == s.m.oldX - 7.0 && s'.m.newY == 240.0
  {
    hide DiscX, DiscY, MicroRadius, IsUsual;
    var t := s.last + 36;
    assert Since(t, s.m.startMs) == 36 && Since(t, 84) == t - 84;
    s' := Track(c, s, Step(t, d));
  }

  lemma {:induction false} DriftOn(c: Config, s: Tracked, n: nat, j: nat) returns (es: seq<Step>)
    requires IsUsual(c) && Drifted(s, n) && n + j <= 60
    ensures Paced(83, s.last, es) && Drifted(Tracks(c, s, es), n + j)
    decreases j
  {
    if j == 0 {
      es := [];
    } else {
      var e, e' := DriftOnce(c, s, n);
      TwoSteps(c, s, e, e');
      var s' := Track(c, Track(c, s, e), e');
      assert s'.last == e'.t;
      var rest := DriftOn(c, s', n + 1, j - 1);
      es := [e] + ([e'] + rest);
      hide Track, Drifted;
      assert es[1..] == [e'] + rest && ([e'] + rest)[1..] == rest;
    }
  }

  lemma {:induction false} RunThenRun(c: Config, s: Tracked, es: seq<Step>, fs: seq<Step>)
    requires Paced(83, s.last, es) && Paced(83, Tracks(c, s, es).last, fs)
    ensures Paced(83, s.last, es + fs) && Tracks(c, s, es + fs) == Tracks(c, Tracks(c, s, es), fs)
    decreases |es|
  {
    if es == [] {
      assert es + fs == fs;
    } else {
      var s' := Track(c, s, es[0]);
      assert s'.last == es[0].t;
      hide Track;
      assert (es + fs)[1..] == es[1..] + fs;
      RunThenRun(c, s', es[1..], fs);
    }
  }

  /**
   Eyes left to themselves can read past the tables: a run of automatic movement, with frames at most 83 ms
   apart, at whose end eyes of the usual sizes rest at a gaze where what is there decides about the lids of a
   single eye, and of the second one of a pair, which the fixation takes 7 further.
   */
  lemma DriftReadsPast(g: Trigonometry, def: EyeDefinition, c: Config) returns (es: seq<Step>)
    requires def.Valid() && def.tracking && def.radius == 120 && def.polar.mapRadius == c.mapRadius
    requires 1.57 <= g.halfPi <= 1.571 && g.sin(0.0) == 0.0
    requires 0.64 <= g.sin(168.0 / 240.0) <= 0.67 && 0.64 <= g.sin(175.0 / 240.0) <= 0.67
    requires 0.0 <= def.irisRadius as real * def.squint <= 119.0
    requires IsUsual(c) && c.reach == 480.0 - SCREEN as real * g.halfPi
    ensures Paced(83, 0, es)
    ensures var m := Tracks(c, AtRest(c, 0), es).m;
      forall t :: GazeX(m, t) == 72.0 && GazeY(m, t) == 240.0
    ensures StrayDecides(g, 0, def, 72.0, 240.0) && StrayDecides(g, 1, def, 72.0 - 7.0, 240.0)
  {
    hide Track, Tracks, Paced, ScreenOffset, TracksInTable, UpperTarget;
    var first := FirstMove(c);
    var rest := DriftOn(c, Tracks(c, AtRest(c, 0), first), 0, 13);
    RunThenRun(c, AtRest(c, 0), first, rest);
    es := first + rest;
    var m := Tracks(c, AtRest(c, 0), es).m;
    LerpEnds(m.oldX, m.newX);
    LerpEnds(m.oldY, m.newY);
    MiddleRow(g, def);
    assert Trunc(240.0 - 72.0) == 168 && Trunc(240.0 - 65.0) == 175;
    DistantGazeIsNot(g, def, 72.0);
    DistantGazeIsNot(g, def, 65.0);
    StrayDecidesExactlyWhen(g, 0, def, 72.0, 240.0);
    StrayDecidesExactlyWhen(g, 1, def, 65.0, 240.0);
  }

  lemma MiddleRow(g: Trigonometry, def: EyeDefinition)
    requires def.polar.mapRadius == 240 && g.sin(0.0) == 0.0 && 0.0 <= def.irisRadius as real * def.squint <= 119.0
    ensures 0 < PupilRow(g, def, 240.0) <= 120
  {
    assert 0 as real / 240 as real == 0.0;
    assert Trunc(240 as real - 240.0) == 0;
    assert ScreenOffset(g, def, 240.0) == 0;
    TruncBetween(120.0 - def.irisRadius as real * def.squint, 1, 120);
  }
}
