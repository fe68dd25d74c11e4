/**
 Where the eyes look (src/eyes/EyeController.h, applyAutoMove, setTargetPosition, setPosition).
 Random draws are arbitrary raw numbers; random(lo, hi) cuts them off to [lo, hi), or gives lo when that is empty.
 */
module Gaze {
  import opened Arithmetic
  import opened Clock

  /** The fields of the eyes' motion. */
  datatype Motion = Motion(
    inMotion: bool, oldX: real, oldY: real, newX: real, newY: real,
    startMs: nat, durationMs: nat, lastSaccadeStopMs: nat, saccadeIntervalMs: nat)

  /** reach is twice the map radius less the screen width times pi/2. */
  datatype Config = Config(mapRadius: nat, reach: real, maxGazeMs: nat, sqrt: real -> real)

  /** The draws of one frame, in the order the code makes them. */
  datatype Draws = Draws(first: nat, second: nat, third: nat)

  function Random(lo: int, hi: int, raw: nat): (v: int)
    ensures if lo < hi then lo <= v < hi else v == lo
  {
    if lo >= hi then lo else lo + if raw < hi - lo then raw else hi - lo - 1
  }

  /** random() takes whole numbers, so its bounds are cast. */
  function RandomBetween(lo: real, hi: real, raw: nat): real {
    Random(Trunc(lo), Trunc(hi), raw) as real
  }

  /** 3e^2 - 2e^3 */
  function Eased(e: real): real {
    e * e * (3.0 - 2.0 * e)
  }

  predicate HasArrived(m: Motion, t: nat) {
    m.inMotion && Since(t, m.startMs) >= m.durationMs
  }

  predicate StartsMove(m: Motion, t: nat) {
    !m.inMotion && Since(t, m.startMs) > m.durationMs
  }

  predicate IsBigMove(m: Motion, t: nat) {
    Since(t, m.lastSaccadeStopMs) > m.saccadeIntervalMs
  }

  function Min(a: nat, b: nat): nat {
    if a < b then a else b
  }

  function Arrived(c: Config, m: Motion, t: nat, d: Draws): Motion {
    var hold := Random(35, Min(1000, c.maxGazeMs), d.first);
    var m' := if m.saccadeIntervalMs == 0
              then m.(lastSaccadeStopMs := t, saccadeIntervalMs := Random(hold, c.maxGazeMs, d.second)) else m;
    m'.(inMotion := false, durationMs := hold, startMs := t, oldX := m.newX, oldY := m.newY)
  }

  /** A whole-number point at most r from the origin. */
  function DiscX(r: real, d: Draws): real {
    RandomBetween(-r, r, d.first)
  }

  function DiscY(r: real, x: real, d: Draws, sqrt: real -> real): real {
    var h := sqrt(r * r - x * x);
    RandomBetween(-h, h, d.second)
  }

  function BigRadius(c: Config): real {
    c.reach * 0.75
  }

  function MicroRadius(c: Config): real {
    c.reach * 0.07
  }

  function BigMove(c: Config, m: Motion, d: Draws): Motion {
    var centre := c.mapRadius as real;
    var x := DiscX(BigRadius(c), d);
    m.(newX := x + centre, newY := DiscY(BigRadius(c), x, d, c.sqrt) + centre,
       durationMs := Random(83, 166, d.third), saccadeIntervalMs := 0)
  }

  function MicroMove(c: Config, m: Motion, d: Draws): Motion {
    var centre := c.mapRadius as real;
    var dx := DiscX(MicroRadius(c), d);
    m.(newX := m.oldX - centre + dx + centre,
       newY := m.oldY - centre + DiscY(MicroRadius(c), dx, d, c.sqrt) + centre,
       durationMs := Random(7, 25, d.third))
  }

  function Departed(c: Config, m: Motion, t: nat, d: Draws): Motion {
    var m' := if IsBigMove(m, t) then BigMove(c, m, d) else MicroMove(c, m, d);
    m'.(startMs := t, inMotion := true)
  }

  function Moved(c: Config, m: Motion, auto: bool, t: nat, d: Draws): Motion {
    if !auto && !m.inMotion then m
    else if HasArrived(m, t) then Arrived(c, m, t, d)
    else if StartsMove(m, t) then Departed(c, m, t, d)
    else m
  }

  /** How far along a move is, eased; 0 when there is none. */
  function Along(m: Motion, t: nat): real {
    if !m.inMotion then 0.0
    else if HasArrived(m, t) then 1.0
    else Eased(Since(t, m.startMs) as real / m.durationMs as real)
  }

  function GazeX(m: Motion, t: nat): real {
    Lerp(m.oldX, m.newX, Along(m, t))
  }

  function GazeY(m: Motion, t: nat): real {
    Lerp(m.oldY, m.newY, Along(m, t))
  }

  // ---------------------------------------------------------------- aiming

  /** Brings a coordinate outside the unit circle onto it. */
  function Constrained(x: real, y: real, sqrt: real -> real): (real, real)
    requires IsSqrt(sqrt)
  {
    var d2 := x * x + y * y;
    if d2 > 1.0 then
      RootIsPositive(sqrt, d2);
      OverLength(x, y, sqrt(d2))
    else (x, y)
  }

  lemma RootIsPositive(sqrt: real -> real, v: real)
    requires IsSqrt(sqrt) && v > 0.0
    ensures sqrt(v) > 0.0 && sqrt(v) * sqrt(v) == v
  {
    var d := sqrt(v);
    assert d * d == v;
  }

  function OverLength(x: real, y: real, d: real): (real, real)
    requires d > 0.0
  {
    (x / d, y / d)
  }

  /** The map position for a coordinate: the map is seen from behind. */
  function Aim(middle: real, v: real, r: real): real {
    middle - v * r
  }

  function TargetPoint(middle: real, r: real, x: real, y: real, sqrt: real -> real): (real, real)
    requires IsSqrt(sqrt)
  {
    var p := Constrained(x, y, sqrt);
    (Aim(middle, p.0, r), Aim(middle, p.1, r))
  }

  /** A new target; a move already under way keeps its timing. */
  function Targeted(c: Config, m: Motion, x: real, y: real, durationMs: nat, t: nat): Motion
    requires IsSqrt(c.sqrt)
  {
    var p := TargetPoint(c.mapRadius as real, BigRadius(c), x, y, c.sqrt);
    var m' := m.(newX := p.0, newY := p.1);
    if m.inMotion then m' else m'.(inMotion := true, durationMs := durationMs, startMs := t)
  }

  /** Looking somewhere at once: where the gaze rests, or where the present move started, is put there. */
  function Positioned(c: Config, m: Motion, x: real, y: real): Motion
    requires IsSqrt(c.sqrt)
  {
    var p := TargetPoint(c.mapRadius as real, BigRadius(c), x, y, c.sqrt);
    m.(oldX := p.0, oldY := p.1)
  }

  // ---------------------------------------------------------------- plane geometry

  /** (x, y) is at most b from the origin. */
  predicate Within(x: real, y: real, b: real) {
    b >= 0.0 && x * x + y * y <= b * b
  }

  lemma Wider(x: real, y: real, b: real, b': real)
    requires Within(x, y, b) && b <= b'
    ensures Within(x, y, b')
  {
    SquareOrder(b, b');
  }

  /** Cauchy and Schwarz in the plane. */
  lemma DotBound(px: real, py: real, qx: real, qy: real, A: real, B: real)
    requires Within(px, py, A) && Within(qx, qy, B)
    ensures px * qx + py * qy <= A * B
  {
    var dot, cross := px * qx + py * qy, px * qy - py * qx;
    var na, nb := px * px + py * py, qx * qx + qy * qy;
    Lagrange(px, py, qx, qy);
    assert cross * cross >= 0.0;
    assert dot * dot <= na * nb;
    ProductGrows(na, A * A, nb, B * B);
    assert (A * A) * (B * B) == (A * B) * (A * B);
    assert A * B >= 0.0;
    if dot > 0.0 { SquareOrder(dot, A * B); }
  }

  lemma Lagrange(px: real, py: real, qx: real, qy: real)
    ensures (px * qx + py * qy) * (px * qx + py * qy) + (px * qy - py * qx) * (px * qy - py * qx)
         == (px * px + py * py) * (qx * qx + qy * qy)
  {
  }

  lemma Triangle(px: real, py: real, qx: real, qy: real, A: real, B: real)
    requires Within(px, py, A) && Within(qx, qy, B)
    ensures Within(px + qx, py + qy, A + B)
  {
    var dot := px * qx + py * qy;
    DotBound(px, py, qx, qy, A, B);
    assert (px + qx) * (px + qx) + (py + qy) * (py + qy)
        == (px * px + py * py) + (qx * qx + qy * qy) + 2.0 * dot;
    assert (A + B) * (A + B) == A * A + B * B + 2.0 * (A * B);
  }

  lemma Scaled(x: real, y: real, b: real, s: real)
    requires Within(x, y, b) && s >= 0.0
    ensures Within(s * x, s * y, s * b)
  {
    var n := x * x + y * y;
    assert (s * x) * (s * x) + (s * y) * (s * y) == (s * s) * n;
    assert (s * b) * (s * b) == (s * s) * (b * b);
    MulMono(s * s, n, b * b);
    assert s * b >= 0.0;
  }

  lemma EasedInUnit(e: real)
    requires InUnit(e)
    ensures InUnit(Eased(e))
  {
    var r := 1.0 - e;
    assert 1.0 - Eased(e) == r * r * (1.0 + 2.0 * e);
    ProductGrows(0.0, r * r, 0.0, 1.0 + 2.0 * e);
    ProductGrows(0.0, e * e, 0.0, 3.0 - 2.0 * e);
  }

  /** Interpolating between two points of a disc stays in the disc. */
  lemma Convex(px: real, py: real, qx: real, qy: real, f: real, b: real)
    requires Within(px, py, b) && Within(qx, qy, b) && InUnit(f)
    ensures Within(Lerp(px, qx, f), Lerp(py, qy, f), b)
  {
    var s := 1.0 - f;
    Scaled(px, py, b, s);
    Scaled(qx, qy, b, f);
    Triangle(s * px, s * py, f * qx, f * qy, s * b, f * b);
    assert s * b + f * b == b;
    assert s * px + f * qx == Lerp(px, qx, f);
    assert s * py + f * qy == Lerp(py, qy, f);
  }

  lemma RandomIsInside(r: real, raw: nat)
    ensures -Abs(r) <= RandomBetween(-r, r, raw) <= Abs(r)
  {
  }

  lemma SquareWithin(v: real, b: real)
    requires -b <= v <= b
    ensures v * v <= b * b
  {
    if v >= 0.0 { SquareOrder(v, b); } else { SquareOrder(-v, b); assert (-v) * (-v) == v * v; }
  }

  lemma UnderArc(x: real, y: real, h: real, r: real)
    requires h * h == r * r - x * x && -h <= y <= h
    ensures Within(x, y, Abs(r))
  {
    SquareWithin(y, h);
    assert Abs(r) * Abs(r) == r * r;
  }

  lemma DiscXIsInside(r: real, d: Draws)
    ensures DiscX(r, d) * DiscX(r, d) <= r * r
  {
    RandomIsInside(r, d.first);
    SquareWithin(DiscX(r, d), Abs(r));
    if r < 0.0 { assert (-r) * (-r) == r * r; }
  }

  lemma DiscYIsInside(r: real, x: real, d: Draws, sqrt: real -> real)
    requires IsSqrt(sqrt) && x * x <= r * r
    ensures Within(x, DiscY(r, x, d, sqrt), Abs(r))
  {
    var h := sqrt(r * r - x * x);
    RandomIsInside(h, d.second);
    UnderArc(x, RandomBetween(-h, h, d.second), h, r);
  }

  /** A drawn point is at most its radius from the origin. */
  lemma DiscPointIsInside(r: real, d: Draws, sqrt: real -> real)
    requires IsSqrt(sqrt)
    ensures Within(DiscX(r, d), DiscY(r, DiscX(r, d), d, sqrt), Abs(r))
  {
    DiscXIsInside(r, d);
    DiscYIsInside(r, DiscX(r, d), d, sqrt);
  }

  lemma ConstrainedIsInCircle(x: real, y: real, sqrt: real -> real)
    requires IsSqrt(sqrt)
    ensures var p := Constrained(x, y, sqrt); Within(p.0, p.1, 1.0)
    ensures Within(x, y, 1.0) ==> Constrained(x, y, sqrt) == (x, y)
  {
    hide Within, OverLength;
    WithinUnit(x, y);
    var d2 := x * x + y * y;
    if d2 > 1.0 {
      RootIsPositive(sqrt, d2);
      NormalizedIsInCircle(x, y, d2, sqrt(d2));
    }
  }

  lemma WithinUnit(x: real, y: real)
    ensures Within(x, y, 1.0) <==> x * x + y * y <= 1.0
  {
  }

  lemma NormalizedIsInCircle(x: real, y: real, d2: real, d: real)
    requires d2 == x * x + y * y && d > 0.0 && d * d == d2
    ensures var p := OverLength(x, y, d); Within(p.0, p.1, 1.0)
  {
    var s := 1.0 / d;
    Scaled(x, y, d, s);
    assert s * d == 1.0;
    Quotient(x, d, s * x);
    Quotient(y, d, s * y);
  }

  /** Wherever the eyes are told to look, the target is within a big saccade's radius of the centre. */
  lemma TargetIsInside(c: Config, m: Motion, x: real, y: real, durationMs: nat, t: nat)
    requires IsSqrt(c.sqrt)
    ensures var m' := Targeted(c, m, x, y, durationMs, t);
      Within(m'.newX - c.mapRadius as real, m'.newY - c.mapRadius as real, Abs(BigRadius(c)))
  {
    var p, r := Constrained(x, y, c.sqrt), BigRadius(c);
    ConstrainedIsInCircle(x, y, c.sqrt);
    ScaledBack(p.0, p.1, r, c.mapRadius as real);
  }

  lemma PositionIsInside(c: Config, m: Motion, x: real, y: real)
    requires IsSqrt(c.sqrt)
    ensures var m' := Positioned(c, m, x, y);
      Within(m'.oldX - c.mapRadius as real, m'.oldY - c.mapRadius as real, Abs(BigRadius(c)))
  {
    var p := Constrained(x, y, c.sqrt);
    ConstrainedIsInCircle(x, y, c.sqrt);
    ScaledBack(p.0, p.1, BigRadius(c), c.mapRadius as real);
  }

  lemma ScaledBack(u: real, v: real, r: real, middle: real)
    requires Within(u, v, 1.0)
    ensures Within(Aim(middle, u, r) - middle, Aim(middle, v, r) - middle, Abs(r))
  {
    var n := u * u + v * v;
    assert (-(u * r)) * (-(u * r)) + (-(v * r)) * (-(v * r)) == n * (r * r);
    MulMono(r * r, n, 1.0);
    assert Abs(r) * Abs(r) == r * r;
    assert Aim(middle, u, r) - middle == -(u * r) && Aim(middle, v, r) - middle == -(v * r);
  }

  // ---------------------------------------------------------------- which way

  /** The coordinate that a map position stands for: how far it is off the centre, against the map's direction. */
  function Coordinate(c: Config, v: real): real
    requires BigRadius(c) != 0.0
  {
    (c.mapRadius as real - v) / BigRadius(c)
  }

  lemma AimIsInverse(c: Config, v: real)
    requires BigRadius(c) != 0.0
    ensures Coordinate(c, Aim(c.mapRadius as real, v, BigRadius(c))) == v
  {
    AimBack(c.mapRadius as real, v, BigRadius(c));
  }

  lemma AimBack(middle: real, v: real, r: real)
    requires r != 0.0
    ensures (middle - Aim(middle, v, r)) / r == v
  {
    assert middle - Aim(middle, v, r) == v * r;
    var q := v * r / r;
    assert (q - v) * r == 0.0;
  }

  /** Inside the unit circle, the place asked for can be told from the target, and from a position set at once. */
  lemma TargetTellsPlace(c: Config, m: Motion, x: real, y: real, durationMs: nat, t: nat)
    requires IsSqrt(c.sqrt) && BigRadius(c) != 0.0 && Within(x, y, 1.0)
    ensures var a, b := Targeted(c, m, x, y, durationMs, t), Positioned(c, m, x, y);
      && Coordinate(c, a.newX) == x && Coordinate(c, a.newY) == y
      && Coordinate(c, b.oldX) == x && Coordinate(c, b.oldY) == y
  {
    ConstrainedIsInCircle(x, y, c.sqrt);
    AimIsInverse(c, x);
    AimIsInverse(c, y);
    hide Within, Aim, Coordinate, BigRadius;
  }

  /** Outside it, the direction is kept, and the length is 1. */
  lemma TargetKeepsDirection(c: Config, m: Motion, x: real, y: real, durationMs: nat, t: nat)
    requires IsSqrt(c.sqrt) && BigRadius(c) != 0.0 && !Within(x, y, 1.0)
    ensures var a, b := Targeted(c, m, x, y, durationMs, t), Positioned(c, m, x, y);
      && a.newX == b.oldX && a.newY == b.oldY
      && IsDirection(Coordinate(c, a.newX), Coordinate(c, a.newY), x, y)
  {
    WithinUnit(x, y);
    var d2 := x * x + y * y;
    RootIsPositive(c.sqrt, d2);
    var d := c.sqrt(d2);
    var p := OverLength(x, y, d);
    UnitDirection(x, y, d2, d);
    assert Constrained(x, y, c.sqrt) == p;
    AimIsInverse(c, p.0);
    AimIsInverse(c, p.1);
    hide Within, Aim, Coordinate, BigRadius, Constrained, OverLength;
  }

  /** (u, v) is of length 1 and a positive share of (x, y). */
  predicate IsDirection(u: real, v: real, x: real, y: real) {
    u * u + v * v == 1.0 && u * y == v * x && u * x + v * y > 0.0
  }

  lemma UnitDirection(x: real, y: real, d2: real, d: real)
    requires d2 == x * x + y * y && d > 0.0 && d * d == d2
    ensures var p := OverLength(x, y, d); IsDirection(p.0, p.1, x, y)
  {
    var u, v := x / d, y / d;
    assert u * d == x && v * d == y;
    UnitLength(u, v, x, y, d);
    assert u * x + v * y == (u * u + v * v) * d;
    assert u * y == (u * v) * d == v * x;
  }

  lemma UnitLength(u: real, v: real, x: real, y: real, d: real)
    requires d > 0.0 && u * d == x && v * d == y && d * d == x * x + y * y
    ensures u * u + v * v == 1.0
  {
    var n := u * u + v * v - 1.0;
    assert n * (d * d) == 0.0;
    ProductStrict(d, 0.0, d, 0.0);
  }

  /** A move under way that is redirected keeps its start and its time; eyes at rest set off, in the time given. */
  lemma RedirectedKeepsTiming(c: Config, m: Motion, x: real, y: real, durationMs: nat, t: nat)
    requires IsSqrt(c.sqrt)
    ensures var m' := Targeted(c, m, x, y, durationMs, t);
      && m'.inMotion && m'.oldX == m.oldX && m'.oldY == m.oldY
      && m'.lastSaccadeStopMs == m.lastSaccadeStopMs && m'.saccadeIntervalMs == m.saccadeIntervalMs
      && (m.inMotion ==> m'.startMs == m.startMs && m'.durationMs == m.durationMs)
      && (!m.inMotion ==> m'.startMs == t && m'.durationMs == durationMs)
  {
    hide Aim, Constrained;
  }

  /** Eyes at rest are seen to look at a position as soon as it is set. */
  lemma PositionIsSeen(c: Config, m: Motion, x: real, y: real, t: nat)
    requires IsSqrt(c.sqrt) && !m.inMotion
    ensures var m' := Positioned(c, m, x, y); GazeX(m', t) == m'.oldX && GazeY(m', t) == m'.oldY
  {
    hide Aim, Constrained;
    var m' := Positioned(c, m, x, y);
    LerpEnds(m'.oldX, m'.newX);
    LerpEnds(m'.oldY, m'.newY);
  }

  /** Every whole-number point that the two casts leave inside the circle can be drawn. */
  lemma DiscPointCanBeDrawn(r: real, sqrt: real -> real, x: int, y: int, v: real) returns (d: Draws)
    requires -Trunc(r) <= x < Trunc(r) && v == r * r - x as real * x as real
    requires -Trunc(sqrt(v)) <= y < Trunc(sqrt(v))
    ensures DiscX(r, d) == x as real && DiscY(r, x as real, d, sqrt) == y as real
  {
    var u := x as real;
    d := Draws(x + Trunc(r), y + Trunc(sqrt(v)), 0);
    DiscYFrom(r, u, d, sqrt, v);
    hide DiscY;
    AnyDraw(r, x, d.first);
    AnyDraw(sqrt(v), y, d.second);
  }

  lemma AnyDraw(h: real, y: int, raw: nat)
    requires -Trunc(h) <= y < Trunc(h) && raw == y + Trunc(h)
    ensures RandomBetween(-h, h, raw) == y as real
  {
    TruncOfNegative(h);
    hide Trunc;
  }

  lemma DiscYFrom(r: real, x: real, d: Draws, sqrt: real -> real, v: real)
    requires v == r * r - x * x
    ensures DiscY(r, x, d, sqrt) == RandomBetween(-sqrt(v), sqrt(v), d.second)
  {
    hide RandomBetween;
  }

  lemma TruncOfNegative(r: real)
    ensures Trunc(-r) == -Trunc(r)
  {
  }

  // ---------------------------------------------------------------- no jumps

  lemma NoTimeSince(t: nat, d: nat)
    ensures Since(t, t) == 0
    ensures d > 0 ==> Eased(0 as real / d as real) == 0.0
  {
    if d > 0 { Quotient(0.0, d as real, 0.0); }
  }

  /** Setting off and arriving leave the gaze where it is at that frame, whatever is drawn. */
  lemma GazeIsContinuous(c: Config, m: Motion, auto: bool, t: nat, d: Draws)
    ensures var m' := Moved(c, m, auto, t, d); GazeX(m', t) == GazeX(m, t) && GazeY(m', t) == GazeY(m, t)
  {
    hide Lerp, Eased;
    LerpEnds(m.oldX, m.newX);
    LerpEnds(m.oldY, m.newY);
    if HasArrived(m, t) {
      LerpEnds(m.newX, m.newX);
      LerpEnds(m.newY, m.newY);
    } else if StartsMove(m, t) && auto {
      var m' := Departed(c, m, t, d);
      NoTimeSince(t, m'.durationMs);
      LerpEnds(m.oldX, m'.newX);
      LerpEnds(m.oldY, m'.newY);
    }
  }

  /** So does a target given to eyes at rest, with time to get there. */
  lemma TargetingIsContinuous(c: Config, m: Motion, x: real, y: real, durationMs: nat, t: nat)
    requires IsSqrt(c.sqrt) && !m.inMotion && durationMs > 0
    ensures var m' := Targeted(c, m, x, y, durationMs, t); GazeX(m', t) == GazeX(m, t) && GazeY(m', t) == GazeY(m, t)
  {
    var m' := Targeted(c, m, x, y, durationMs, t);
    NoTimeSince(t, durationMs);
    LerpEnds(m.oldX, m.newX);
    LerpEnds(m.oldY, m.newY);
    LerpEnds(m.oldX, m'.newX);
    LerpEnds(m.oldY, m'.newY);
  }

  /**
   A frame finds the eyes at their target exactly when the clock shows that the time is up: always from then
   on, but for the time that the move takes after every clock wrap since it began.
   */
  lemma TargetIsReached(c: Config, m: Motion, x: real, y: real, durationMs: nat, start: nat, t: nat)
    requires IsSqrt(c.sqrt) && !m.inMotion && start <= t
    ensures var m' := Targeted(c, m, x, y, durationMs, Reading(start));
      && (HasArrived(m', Reading(t)) <==> (t - start) % WRAP >= durationMs)
      && (start + durationMs <= t < start + WRAP ==> HasArrived(m', Reading(t)))
      && (HasArrived(m', Reading(t)) ==> GazeX(m', Reading(t)) == m'.newX && GazeY(m', Reading(t)) == m'.newY)
  {
    SinceIsElapsed(t, start);
    var m' := Targeted(c, m, x, y, durationMs, Reading(start));
    LerpEnds(m'.oldX, m'.newX);
    LerpEnds(m'.oldY, m'.newY);
  }

  /** The easing only goes forward, and at most one and a half times as fast as an even pace. */
  lemma EasedIsSmooth(e: real, e': real)
    requires 0.0 <= e <= e' <= 1.0
    ensures 0.0 <= Eased(e') - Eased(e) <= 1.5 * (e' - e)
  {
    hide Eased, EasedPace;
    EasedStep(e, e');
    PaceBounds(e, e');
    PacedStep(Eased(e') - Eased(e), e' - e, EasedPace(e, e'));
  }

  /** The easing goes all the way, the second half like the first, and starts and ends at rest. */
  lemma EasedEnds(e: real)
    ensures Eased(0.0) == 0.0 && Eased(1.0) == 1.0 && Eased(1.0 - e) == 1.0 - Eased(e)
    ensures InUnit(e) ==> Eased(e) <= 3.0 * (e * e) && 1.0 - Eased(e) <= 3.0 * ((1.0 - e) * (1.0 - e))
  {
    EasedMirrored(e);
    if InUnit(e) {
      GentleStart(e);
      GentleStart(1.0 - e);
    }
  }

  lemma EasedMirrored(e: real)
    ensures Eased(1.0 - e) == 1.0 - Eased(e)
  {
  }

  lemma GentleStart(e: real)
    requires InUnit(e)
    ensures Eased(e) <= 3.0 * (e * e)
  {
    ProductGrows(0.0, e * e, 0.0, 2.0 * e);
    assert e * e >= 0.0;
    assert Eased(e) == 3.0 * (e * e) - e * e * (2.0 * e);
  }

  lemma EasedStep(e: real, e': real)
    ensures Eased(e') - Eased(e) == (e' - e) * EasedPace(e, e')
  {
  }

  lemma PacedStep(d: real, step: real, pace: real)
    requires d == step * pace && 0.0 <= pace <= 1.5 && step >= 0.0
    ensures 0.0 <= d <= 1.5 * step
  {
    MulMono(step, 0.0, pace);
    MulMono(step, pace, 1.5);
  }

  function EasedPace(e: real, e': real): real {
    3.0 * (e + e') - 2.0 * (e * e + e * e' + e' * e')
  }

  lemma PaceBounds(e: real, e': real)
    requires 0.0 <= e <= e' <= 1.0
    ensures 0.0 <= EasedPace(e, e') <= 1.5
  {
    var r, r' := 1.0 - e, 1.0 - e';
    assert EasedPace(e, e') == 2.0 * (e * r) + 2.0 * (e' * r') + e * r' + e' * r;
    ProductGrows(0.0, e, 0.0, r);
    ProductGrows(0.0, e', 0.0, r');
    ProductGrows(0.0, e, 0.0, r');
    ProductGrows(0.0, e', 0.0, r);
    var s, d := 1.0 - e - e', e' - e;
    assert 1.5 - EasedPace(e, e') == 1.5 * (s * s) + 0.5 * (d * d);
    assert s * s >= 0.0 && d * d >= 0.0;
  }
}
