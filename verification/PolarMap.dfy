/**
 The polar map generator (resources/eyes/240x240/tablegen.py, outputPolarMaps).

 One quadrant of a polar map is stored row by row.  A stored distance is 255 outside the
 map circle, 0..126 in the sclera and 128..254 in the iris.  For a slit pupil the stored iris
 value is 255 - i, where i is the first of 127 circles that contains the pixel; the generator
 starts looking for it at the circle its neighbour was found in.
 */
module PolarMap {
  import opened Arithmetic

  const LEVELS: nat := 127  // the innermost circle is 1, the iris edge is LEVELS

  /** What a table is generated for: sizes in map pixels, slit == 0 for a round pupil. */
  datatype Geometry = Geometry(mapRadius: nat, iRad: real, slit: nat)

  /** Clockwise angle from the top in units of 1/1024 turn; below 256 in the first quadrant. */
  ghost predicate IsAngle(angle: (real, real) -> real) {
    forall dx: real, dy: real {:trigger angle(dx, dy)} :: dx > 0.0 && dy > 0.0 ==> 0.0 <= angle(dx, dy) < 256.0
  }

  /** Distance of a pixel centre from the map centre along one axis. */
  function Offset(n: nat): real {
    n as real + 0.5
  }

  /** Squared distance of a pixel centre from the map centre. */
  function DistSquared(x: nat, y: nat): real {
    Square(Offset(x)) + Square(Offset(y))
  }

  // ---------------------------------------------------------------- the slit circles

  /** From just over 0 (open) to 1 (slit). */
  function Ratio(i: nat): real {
    i as real / 127.0
  }

  /** Where circle i meets the y axis. */
  function TopOf(g: Geometry, i: nat): real {
    g.slit as real + (g.iRad - g.slit as real) * Ratio(i)
  }

  /** Where circle i meets the x axis. */
  function RightOf(g: Geometry, i: nat): real {
    g.iRad * Ratio(i)
  }

  /** The generator's test: the circle through both points, with its centre on the x axis. */
  predicate InCircle(g: Geometry, i: nat, xp: real, dy: real)
    requires g.iRad > 0.0 && i > 0
  {
    var y1, x2 := TopOf(g, i), RightOf(g, i);
    var xc := (x2 * x2 - y1 * y1) / (2.0 * x2);
    Square(xp - xc) + Square(dy) <= Square(x2 - xc)
  }

  /** The first circle, from `from` on, that holds the pixel; LEVELS + 1 when none does. */
  function FirstCircle(g: Geometry, x: nat, y: nat, from: nat): (i: nat)
    requires g.iRad > 0.0 && 0 < from <= LEVELS + 1
    ensures from <= i <= LEVELS + 1
    ensures i <= LEVELS ==> InCircle(g, i, Offset(x), Offset(y))
    ensures forall j :: from <= j < i ==> !InCircle(g, j, Offset(x), Offset(y))
    decreases LEVELS + 1 - from
  {
    if from > LEVELS || InCircle(g, from, Offset(x), Offset(y)) then from
    else FirstCircle(g, x, y, from + 1)
  }

  /** The circle test without its division: p and q are the pixel, X and Y where the circle meets the axes. */
  predicate Inside(X: real, Y: real, p: real, q: real) {
    X * Square(q) <= (X - p) * (Square(Y) + X * p)
  }

  lemma CentreOfCircle(X: real, Y: real, p: real, q: real, xc: real)
    requires X > 0.0 && 2.0 * X * xc == X * X - Y * Y
    ensures Square(p - xc) + Square(q) <= Square(X - xc) <==> Inside(X, Y, p, q)
  {
    var lhs := Square(p - xc) + Square(q);
    var rhs := Square(X - xc);
    assert rhs - lhs == X * X - 2.0 * X * xc + 2.0 * p * xc - p * p - Square(q);
    assert rhs - lhs == Y * Y + 2.0 * p * xc - p * p - Square(q);
    assert X * (rhs - lhs) == X * (Y * Y) + p * (2.0 * X * xc) - X * (p * p) - X * Square(q);
    assert p * (2.0 * X * xc) == p * (X * X - Y * Y);
    assert (X - p) * (Square(Y) + X * p) == X * (Y * Y) + p * (X * X - Y * Y) - X * (p * p);
    assert X * (rhs - lhs) == (X - p) * (Square(Y) + X * p) - X * Square(q);
    if rhs >= lhs { assert X * (rhs - lhs) >= 0.0; } else { assert X * (rhs - lhs) < 0.0; }
  }

  lemma InCircleIsInside(g: Geometry, i: nat, p: real, q: real)
    requires g.iRad > 0.0 && i > 0
    ensures InCircle(g, i, p, q) <==> Inside(RightOf(g, i), TopOf(g, i), p, q)
  {
    var y1, x2 := TopOf(g, i), RightOf(g, i);
    var xc := (x2 * x2 - y1 * y1) / (2.0 * x2);
    assert 2.0 * x2 * xc == x2 * x2 - y1 * y1;
    CentreOfCircle(x2, y1, p, q, xc);
  }

  lemma FactorIsPositive(X: real, q2: real, x: real, b: real)
    requires X > 0.0 && q2 >= 0.0 && b > 0.0 && Product(X, q2) <= Product(x, b)
    ensures x >= 0.0
  {
    MulMono(X, 0.0, q2);
    if x < 0.0 { MulStrict(b, x, 0.0); }
  }

  lemma OuterFactorGrows(X: real, X': real, p: real)
    requires 0.0 < X <= X' && p > 0.0 && X - p >= 0.0
    ensures 0.0 <= Product(X', X - p) <= Product(X, X' - p)
  {
    MulMono(X', 0.0, X - p);
    MulMono(p, X, X');
    assert X * (X' - p) - X' * (X - p) == p * X' - p * X;
  }

  lemma TimesGrow(u: real, u': real, b: real, b': real)
    requires 0.0 <= u <= u' && 0.0 <= b <= b'
    ensures Product(u, b) <= Product(u', b')
  {
    ProductGrows(u, u', b, b');
  }

  lemma Regrouped(a: real, b: real, c: real)
    ensures Product(a, Product(b, c)) == Product(Product(a, b), c)
  {
  }

  lemma Exchanged(a: real, b: real, c: real)
    ensures Product(a, Product(b, c)) == Product(b, Product(a, c))
  {
  }

  lemma CancelThrough(k: real, k': real, a: real, b: real, a': real, b': real)
    requires k > 0.0 && k' >= 0.0 && a <= b && Product(k, a') == Product(k', a) && Product(k', b) <= Product(k, b')
    ensures a' <= b'
  {
    hide Product;
    TimesGrowRight(k', a, b);
    CancelTimes(k, a', b');
  }

  lemma TimesGrowRight(k: real, a: real, b: real)
    requires k >= 0.0 && a <= b
    ensures Product(k, a) <= Product(k, b)
  {
    MulMono(k, a, b);
  }

  lemma CancelTimes(k: real, a: real, b: real)
    requires k > 0.0 && Product(k, a) <= Product(k, b)
    ensures a <= b
  {
    if b < a { MulStrict(k, b, a); }
  }

  lemma FactorsGrow(X: real, X': real, p: real, q2: real, b: real, b': real)
    requires 0.0 < X <= X' && p > 0.0 && q2 >= 0.0 && 0.0 < b <= b'
    requires Product(X, q2) <= Product(X - p, b)
    ensures Product(X', q2) <= Product(X' - p, b')
  {
    hide Product;
    var d, d' := X - p, X' - p;
    FactorIsPositive(X, q2, d, b);
    OuterFactorGrows(X, X', p);
    var u, u' := Product(X', d), Product(X, d');
    TimesGrow(u, u', b, b');
    Regrouped(X', d, b);
    Regrouped(X, d', b');
    Exchanged(X, X', q2);
    CancelThrough(X, X', Product(X, q2), Product(d, b), Product(X', q2), Product(d', b'));
  }

  /** Circles grow outwards from the slit, so a pixel inside one is inside every later one. */
  lemma InsideGrows(X: real, Y: real, X': real, Y': real, p: real, q: real)
    requires 0.0 < X <= X' && 0.0 <= Y <= Y' && p > 0.0
    requires Inside(X, Y, p, q)
    ensures Inside(X', Y', p, q)
  {
    ProductGrows(Y, Y', Y, Y');
    MulMono(p, X, X');
    assert X * p > 0.0;
    assert Square(q) >= 0.0;
    FactorsGrow(X, X', p, Square(q), Square(Y) + X * p, Square(Y') + X' * p);
  }

  /** Moving a pixel towards the centre keeps it inside a circle that is taller than it is wide. */
  lemma InsideShrinks(X: real, Y: real, p: real, q: real, p': real, q': real)
    requires 0.0 < X <= Y
    requires 0.0 < p' <= p && 0.0 < q' <= q
    requires Inside(X, Y, p, q)
    ensures Inside(X, Y, p', q')
  {
    assert X * Square(q') <= X * Square(q) by {
      assert Square(q') <= Square(q) by { assert q' * q' <= q' * q <= q * q; }
      MulMono(X, Square(q'), Square(q));
    }
    var gain := Square(Y) - X * X + X * (p + p');
    assert gain >= 0.0 by { assert X * X <= X * Y <= Y * Y; assert X * (p + p') > 0.0; }
    assert (X - p') * (Square(Y) + X * p') - (X - p) * (Square(Y) + X * p) == (p - p') * gain;
  }

  /** The last circle is the iris itself. */
  lemma InsideLast(R: real, p: real, q: real)
    requires R > 0.0
    ensures Inside(R, R, p, q) <==> Square(p) + Square(q) <= Square(R)
  {
    assert (R - p) * (Square(R) + R * p) == R * (Square(R) - Square(p));
    var d := Square(R) - Square(p) - Square(q);
    assert R * (Square(R) - Square(p)) - R * Square(q) == R * d;
    if d >= 0.0 { assert R * d >= 0.0; } else { assert R * d < 0.0; }
  }

  lemma RatioBounds(i: nat)
    requires 0 < i <= LEVELS
    ensures 0.0 < Ratio(i) <= 1.0
    ensures i == LEVELS ==> Ratio(i) == 1.0
  {
  }

  /** Every circle is at least as tall as it is wide, whatever the slit. */
  lemma TallerThanWide(g: Geometry, i: nat)
    requires g.iRad > 0.0 && 0 < i <= LEVELS
    ensures 0.0 < RightOf(g, i) <= TopOf(g, i)
    ensures i == LEVELS ==> RightOf(g, i) == TopOf(g, i) == g.iRad
  {
    RatioBounds(i);
    var t := Ratio(i);
    var s := g.slit as real;
    assert g.iRad * t > 0.0;
    assert TopOf(g, i) - RightOf(g, i) == s * (1.0 - t);
    assert s * (1.0 - t) >= 0.0;
  }

  lemma EdgesGrow(g: Geometry, i: nat, j: nat)
    requires g.iRad >= g.slit as real && i <= j
    ensures RightOf(g, i) <= RightOf(g, j)
    ensures TopOf(g, i) <= TopOf(g, j)
  {
    assert Ratio(i) <= Ratio(j);
    MulMono(g.iRad, Ratio(i), Ratio(j));
    MulMono(g.iRad - g.slit as real, Ratio(i), Ratio(j));
  }

  /** Level sets are nested: with a slit no taller than the iris, circle i lies in circle j for i <= j. */
  lemma CirclesNested(g: Geometry, i: nat, j: nat, p: real, q: real)
    requires g.iRad > 0.0 && g.iRad >= g.slit as real && 0 < i <= j <= LEVELS
    requires p > 0.0 && InCircle(g, i, p, q)
    ensures InCircle(g, j, p, q)
  {
    InCircleIsInside(g, i, p, q);
    InCircleIsInside(g, j, p, q);
    TallerThanWide(g, i);
    EdgesGrow(g, i, j);
    InsideGrows(RightOf(g, i), TopOf(g, i), RightOf(g, j), TopOf(g, j), p, q);
  }

  /** A pixel nearer the centre on both axes is in every circle the further one is in. */
  lemma CircleShrinks(g: Geometry, i: nat, p: real, q: real, p': real, q': real)
    requires g.iRad > 0.0 && 0 < i <= LEVELS
    requires 0.0 < p' <= p && 0.0 < q' <= q
    requires InCircle(g, i, p, q)
    ensures InCircle(g, i, p', q')
  {
    InCircleIsInside(g, i, p, q);
    InCircleIsInside(g, i, p', q');
    TallerThanWide(g, i);
    InsideShrinks(RightOf(g, i), TopOf(g, i), p, q, p', q');
  }

  lemma LastCircleIsIris(g: Geometry, p: real, q: real)
    requires g.iRad > 0.0
    ensures InCircle(g, LEVELS, p, q) <==> Square(p) + Square(q) <= Square(g.iRad)
  {
    InCircleIsInside(g, LEVELS, p, q);
    TallerThanWide(g, LEVELS);
    InsideLast(g.iRad, p, q);
  }

  predicate InIris(g: Geometry, x: nat, y: nat) {
    DistSquared(x, y) <= Square(g.iRad)
  }

  /** Every iris pixel is found, so the generator's out-of-range warning cannot be reached. */
  lemma IrisPixelIsFound(g: Geometry, x: nat, y: nat)
    requires g.iRad > 0.0 && InIris(g, x, y)
    ensures FirstCircle(g, x, y, 1) <= LEVELS
  {
    LastCircleIsIris(g, Offset(x), Offset(y));
  }

  lemma IrisHasRadius(g: Geometry, x: nat, y: nat)
    requires g.iRad >= 0.0 && InIris(g, x, y)
    ensures g.iRad > 0.0
  {
    assert DistSquared(x, y) > 0.0 by { assert Square(Offset(x)) > 0.0 && Square(Offset(y)) > 0.0; }
  }

  /** What the fast search rests on: no neighbour to the left or above first shows up in a later circle. */
  lemma CircleMonotone(g: Geometry, x: nat, y: nat, x': nat, y': nat)
    requires g.iRad > 0.0 && x' <= x && y' <= y
    requires FirstCircle(g, x, y, 1) <= LEVELS
    ensures FirstCircle(g, x', y', 1) <= FirstCircle(g, x, y, 1)
  {
    CircleShrinks(g, FirstCircle(g, x, y, 1), Offset(x), Offset(y), Offset(x'), Offset(y'));
  }

  /** Starting from a circle no later than the answer finds the same answer. */
  lemma {:induction false} ScanFrom(g: Geometry, x: nat, y: nat, from: nat, start: nat)
    requires g.iRad > 0.0 && 0 < from <= LEVELS + 1 && from <= start <= FirstCircle(g, x, y, from)
    ensures FirstCircle(g, x, y, start) == FirstCircle(g, x, y, from)
    decreases start - from
  {
    if from < start { ScanFrom(g, x, y, from + 1, start); }
  }

  /** Fast search equals brute force: the scan may start at the circle of a neighbour to the left or above. */
  lemma FastSearchIsBruteForce(g: Geometry, x: nat, y: nat, x': nat, y': nat)
    requires g.iRad > 0.0 && x' <= x && y' <= y && InIris(g, x, y)
    ensures FirstCircle(g, x, y, FirstCircle(g, x', y', 1)) == FirstCircle(g, x, y, 1) <= LEVELS
  {
    IrisPixelIsFound(g, x, y);
    CircleMonotone(g, x, y, x', y');
    ScanFrom(g, x, y, 1, FirstCircle(g, x', y', 1));
  }

  // ---------------------------------------------------------------- the stored tables

  predicate Outside(g: Geometry, x: nat, y: nat) {
    DistSquared(x, y) > Square(g.mapRadius as real)
  }

  predicate InSclera(g: Geometry, x: nat, y: nat) {
    !Outside(g, x, y) && !InIris(g, x, y)
  }

  lemma NearerOnBothAxes(x: nat, y: nat, x': nat, y': nat)
    requires x' <= x && y' <= y
    ensures DistSquared(x', y') <= DistSquared(x, y)
  {
    ProductGrows(Offset(x'), Offset(x), Offset(x'), Offset(x));
    ProductGrows(Offset(y'), Offset(y), Offset(y'), Offset(y));
  }

  lemma SqrtAbove(sqrt: real -> real, v: real, r: real)
    requires IsSqrt(sqrt) && v >= 0.0 && r >= 0.0
    ensures v > Square(r) ==> sqrt(v) > r
    ensures v <= Square(r) ==> sqrt(v) <= r
    ensures v > 0.0 ==> sqrt(v) > 0.0
  {
    var d := sqrt(v);
    SquareOrder(d, r);
  }

  /** What belongs at a pixel of the distance table, every slit circle tried from the first. */
  ghost function StoredDistance(g: Geometry, sqrt: real -> real, x: nat, y: nat): int
    requires IsSqrt(sqrt) && g.iRad >= 0.0
  {
    var d2 := DistSquared(x, y);
    var m := g.mapRadius as real;
    if Outside(g, x, y) then 255
    else if !InIris(g, x, y) then
      SqrtAbove(sqrt, d2, g.iRad); SqrtAbove(sqrt, d2, m);
      ((m - sqrt(d2)) / (m - g.iRad) * 127.0).Floor
    else
      IrisHasRadius(g, x, y);
      if g.slit == 0 then ((g.iRad - sqrt(d2)) / g.iRad * 127.0).Floor + 128
      else 255 - FirstCircle(g, x, y, 1)
  }

  ghost function StoredAngle(g: Geometry, angle: (real, real) -> real, x: nat, y: nat): int {
    if Outside(g, x, y) then 0 else angle(Offset(x), Offset(y)).Floor
  }

  lemma Fraction(part: real, whole: real)
    requires 0.0 <= part < whole
    ensures 0.0 <= part / whole * 127.0 < 127.0
  {
    var f := part / whole;
    assert f * whole == part;
    if f < 0.0 { MulMono(whole, f, 0.0); }
    if f >= 1.0 { MulMono(whole, 1.0, f); }
  }

  /** Regions: the thresholds 128 and 255 classify every pixel by its geometry. */
  lemma RegionsAreExact(g: Geometry, sqrt: real -> real, x: nat, y: nat)
    requires IsSqrt(sqrt) && g.iRad >= 0.0
    ensures var v := StoredDistance(g, sqrt, x, y);
      && (v == 255 <==> Outside(g, x, y))
      && (0 <= v < 128 <==> InSclera(g, x, y))
      && (128 <= v <= 254 <==> !Outside(g, x, y) && InIris(g, x, y))
      && (InSclera(g, x, y) ==> v <= 126)
  {
    var d2 := DistSquared(x, y);
    var m := g.mapRadius as real;
    assert d2 > 0.0 by { assert Square(Offset(x)) > 0.0 && Square(Offset(y)) > 0.0; }
    SqrtAbove(sqrt, d2, g.iRad);
    SqrtAbove(sqrt, d2, m);
    if InSclera(g, x, y) {
      Fraction(m - sqrt(d2), m - g.iRad);
    } else if !Outside(g, x, y) {
      IrisHasRadius(g, x, y);
      if g.slit == 0 {
        Fraction(g.iRad - sqrt(d2), g.iRad);
      } else {
        IrisPixelIsFound(g, x, y);
      }
    }
  }

  /** Stored iris values never increase away from the centre: on both axes for a slit, in distance for a round pupil. */
  lemma IrisFallsOutwards(g: Geometry, sqrt: real -> real, x: nat, y: nat, x': nat, y': nat)
    requires IsSqrt(sqrt) && g.iRad >= 0.0
    requires !Outside(g, x, y) && InIris(g, x, y)
    requires if g.slit == 0 then DistSquared(x', y') <= DistSquared(x, y) else x' <= x && y' <= y
    ensures !Outside(g, x', y') && InIris(g, x', y')
    ensures StoredDistance(g, sqrt, x', y') >= StoredDistance(g, sqrt, x, y)
  {
    IrisHasRadius(g, x, y);
    if g.slit == 0 {
      RoundFallsOutwards(g, sqrt, DistSquared(x, y), DistSquared(x', y'));
    } else {
      NearerOnBothAxes(x, y, x', y');
      IrisPixelIsFound(g, x, y);
      CircleMonotone(g, x, y, x', y');
    }
  }

  lemma RoundFallsOutwards(g: Geometry, sqrt: real -> real, d2: real, d2': real)
    requires IsSqrt(sqrt) && g.iRad > 0.0 && 0.0 <= d2' <= d2
    ensures ((g.iRad - sqrt(d2')) / g.iRad * 127.0).Floor >= ((g.iRad - sqrt(d2)) / g.iRad * 127.0).Floor
  {
    SquareOrder(sqrt(d2'), sqrt(d2));
    DivMono(g.iRad - sqrt(d2), g.iRad - sqrt(d2'), g.iRad);
    FloorMono((g.iRad - sqrt(d2)) / g.iRad * 127.0, (g.iRad - sqrt(d2')) / g.iRad * 127.0);
  }

  /** A level of 127 towards the inside of a ring is reached exactly within its share of the width. */
  lemma LevelReached(radius: real, d: real, n: nat)
    requires radius > 0.0 && d >= 0.0 && n <= 126
    ensures ((radius - d) / radius * 127.0).Floor >= n <==> d <= radius * (127 - n) as real / 127.0
    ensures d <= radius * (127 - n) as real / 127.0 ==> d <= radius
  {
    var f := (radius - d) / radius;
    assert f * radius == radius - d;
    var e := f * 127.0 - n as real;
    var share := radius * n as real;
    var limit := radius * (127 - n) as real / 127.0;
    assert 127.0 * limit == 127.0 * radius - share;
    assert radius * e == 127.0 * (limit - d);
    SignOfProduct(radius, e, 127.0 * (limit - d));
    MulMono(radius, 0.0, n as real);
  }

  /** Sclera levels go from 0 at the edge of the map to 126 at the iris, in equal rings. */
  lemma ScleraLevel(g: Geometry, sqrt: real -> real, x: nat, y: nat, n: nat)
    requires IsSqrt(sqrt) && g.iRad >= 0.0 && InSclera(g, x, y) && n <= 126
    ensures var m := g.mapRadius as real;
      StoredDistance(g, sqrt, x, y) >= n <==> sqrt(DistSquared(x, y)) <= m - (m - g.iRad) * n as real / 127.0
  {
    var d2, m := DistSquared(x, y), g.mapRadius as real;
    assert d2 >= 0.0;
    SqrtAbove(sqrt, d2, g.iRad);
    SqrtAbove(sqrt, d2, m);
    hide DistSquared, InIris, Outside;
    var width := m - g.iRad;
    LevelReached(width, sqrt(d2) - g.iRad, n);
    assert (width - (sqrt(d2) - g.iRad)) / width == (m - sqrt(d2)) / (m - g.iRad);
    RingLimit(width, n);
  }

  lemma RingLimit(width: real, n: nat)
    ensures width * (127 - n) as real / 127.0 == width - width * n as real / 127.0
  {
    var share := width * n as real;
    assert width * (127 - n) as real == width * 127.0 - share;
  }

  /** Stored sclera values never increase away from the centre either. */
  lemma ScleraFallsOutwards(g: Geometry, sqrt: real -> real, x: nat, y: nat, x': nat, y': nat)
    requires IsSqrt(sqrt) && g.iRad >= 0.0 && InSclera(g, x, y) && InSclera(g, x', y')
    requires DistSquared(x', y') <= DistSquared(x, y)
    ensures StoredDistance(g, sqrt, x', y') >= StoredDistance(g, sqrt, x, y)
  {
    var n := StoredDistance(g, sqrt, x, y);
    RegionsAreExact(g, sqrt, x, y);
    assert DistSquared(x', y') >= 0.0;
    SqrtMono(sqrt, DistSquared(x', y'), DistSquared(x, y));
    hide StoredDistance, DistSquared, IsSqrt, Outside, InIris;
    ScleraLevel(g, sqrt, x, y, n);
    ScleraLevel(g, sqrt, x', y', n);
  }

  lemma SqrtMono(sqrt: real -> real, v: real, v': real)
    requires IsSqrt(sqrt) && 0.0 <= v <= v'
    ensures sqrt(v) <= sqrt(v')
  {
    SquareOrder(sqrt(v), sqrt(v'));
  }

  /** An angle that turns from the y axis to the x axis. */
  ghost predicate IsTurning(angle: (real, real) -> real) {
    forall dx: real, dy: real, dx': real, dy': real {:trigger angle(dx, dy), angle(dx', dy')} ::
      dx > 0.0 && dy > 0.0 && dx' > 0.0 && dy' > 0.0 && dx * dy' <= dx' * dy ==> angle(dx, dy) <= angle(dx', dy')
  }

  /** Stored angles grow from the y axis to the x axis. */
  lemma AngleGrows(g: Geometry, angle: (real, real) -> real, x: nat, y: nat, x': nat, y': nat)
    requires IsTurning(angle) && !Outside(g, x, y) && !Outside(g, x', y')
    requires Offset(x) * Offset(y') <= Offset(x') * Offset(y)
    ensures StoredAngle(g, angle, x, y) <= StoredAngle(g, angle, x', y')
  {
    hide Outside;
    assert angle(Offset(x), Offset(y)) <= angle(Offset(x'), Offset(y'));
  }

  /** Circle i goes through the two points it is made from, and has its centre on the x axis. */
  lemma CircleCrosses(g: Geometry, i: nat, p: real, q: real)
    requires g.iRad > 0.0 && 0 < i <= LEVELS && p >= 0.0 && q >= 0.0
    ensures InCircle(g, i, 0.0, q) <==> q <= g.slit as real + (g.iRad - g.slit as real) * i as real / 127.0
    ensures InCircle(g, i, p, 0.0) <==> p <= g.iRad * i as real / 127.0
  {
    var X, Y := RightOf(g, i), TopOf(g, i);
    TallerThanWide(g, i);
    InCircleIsInside(g, i, 0.0, q);
    InCircleIsInside(g, i, p, 0.0);
    EdgesWrittenOut(g, i);
    hide RightOf, TopOf, InCircle;
    AtTheTop(X, Y, q);
    AtTheRight(X, Y, p);
  }

  lemma EdgesWrittenOut(g: Geometry, i: nat)
    ensures TopOf(g, i) == g.slit as real + (g.iRad - g.slit as real) * i as real / 127.0
    ensures RightOf(g, i) == g.iRad * i as real / 127.0
  {
  }

  lemma AtTheTop(X: real, Y: real, q: real)
    requires 0.0 < X <= Y && q >= 0.0
    ensures Inside(X, Y, 0.0, q) <==> q <= Y
  {
    SquareOrder(q, Y);
    MulStrictly(X, Square(q), Square(Y));
  }

  lemma MulStrictly(k: real, a: real, b: real)
    requires k > 0.0
    ensures k * a <= k * b <==> a <= b
  {
    if a <= b { MulMono(k, a, b); } else { MulStrict(k, b, a); }
  }

  lemma AtTheRight(X: real, Y: real, p: real)
    requires 0.0 < X <= Y && p >= 0.0
    ensures Inside(X, Y, p, 0.0) <==> p <= X
  {
    ProductGrows(0.0, X, 0.0, p);
    ProductStrict(Y, 0.0, Y, 0.0);
    AtTheRightBy(X, p, Square(Y), X * p);
  }

  lemma AtTheRightBy(X: real, p: real, yy: real, xp: real)
    requires yy + xp > 0.0
    ensures X * Square(0.0) <= (X - p) * (yy + xp) <==> p <= X
  {
    SignOfProduct(yy + xp, X - p, (yy + xp) * (X - p));
  }

  /** A round pupil's distance table is its own transpose, as the renderer's rotations expect. */
  lemma RoundTableIsSymmetric(g: Geometry, sqrt: real -> real, x: nat, y: nat)
    requires IsSqrt(sqrt) && g.iRad >= 0.0 && g.slit == 0
    ensures StoredDistance(g, sqrt, x, y) == StoredDistance(g, sqrt, y, x)
  {
    assert DistSquared(x, y) == DistSquared(y, x);
  }

  // ---------------------------------------------------------------- the generator

  /** The first n entries of both tables hold what belongs there, row by row. */
  ghost predicate TablesDone(g: Geometry, sqrt: real -> real, angle: (real, real) -> real,
                             polarAngle: seq<int>, polarDist: seq<int>, n: nat)
    requires IsSqrt(sqrt) && g.iRad >= 0.0
  {
    var m := g.mapRadius;
    && |polarAngle| == |polarDist| == m * m
    && n <= m * m
    && (m > 0 ==> forall k :: 0 <= k < n ==>
         && polarDist[k] == StoredDistance(g, sqrt, k % m, k / m)
         && polarAngle[k] == StoredAngle(g, angle, k % m, k / m))
  }

  /** Reading a finished table at row y, column x. */
  lemma TableEntry(g: Geometry, sqrt: real -> real, angle: (real, real) -> real,
                   polarAngle: seq<int>, polarDist: seq<int>, n: nat, x: nat, y: nat, index: nat)
    requires IsSqrt(sqrt) && g.iRad >= 0.0
    requires TablesDone(g, sqrt, angle, polarAngle, polarDist, n)
    requires x < g.mapRadius && index == y * g.mapRadius + x < n
    ensures polarDist[index] == StoredDistance(g, sqrt, x, y)
    ensures polarAngle[index] == StoredAngle(g, angle, x, y)
  {
    IndexSplit(g.mapRadius, x, y);
  }

  /** The scan of one slit pixel: stores 255 - i for the first circle from `start` on that holds it. */
  method ScanSlit(g: Geometry, x: nat, y: nat, start: nat, polarDist: array<int>, distIndex: nat)
    requires g.iRad > 0.0 && 0 < start <= LEVELS + 1 && distIndex < polarDist.Length
    modifies polarDist
    ensures var i := FirstCircle(g, x, y, start);
      polarDist[..] == if i <= LEVELS then old(polarDist[..])[distIndex := 255 - i] else old(polarDist[..])
  {
    for i := start to LEVELS + 1
      invariant FirstCircle(g, x, y, start) >= i
      invariant polarDist[..] == old(polarDist[..])
    {
      if InCircle(g, i, Offset(x), Offset(y)) {
        polarDist[distIndex] := 255 - i;
        return;
      }
    }
  }

  /** Filling in the next entry of both tables. */
  lemma TablesGrow(g: Geometry, sqrt: real -> real, angle: (real, real) -> real,
                   polarAngle: seq<int>, polarDist: seq<int>, x: nat, y: nat, n: nat)
    requires IsSqrt(sqrt) && g.iRad >= 0.0 && x < g.mapRadius
    requires n == y * g.mapRadius + x < |polarDist| && TablesDone(g, sqrt, angle, polarAngle, polarDist, n)
    ensures TablesDone(g, sqrt, angle, polarAngle[n := StoredAngle(g, angle, x, y)],
                       polarDist[n := StoredDistance(g, sqrt, x, y)], n + 1)
  {
    IndexSplit(g.mapRadius, x, y);
  }

  /** The neighbour whose stored value starts the scan holds its own brute-force answer. */
  lemma NeighbourStart(g: Geometry, sqrt: real -> real, angle: (real, real) -> real,
                       polarAngle: seq<int>, polarDist: seq<int>, n: nat, x: nat, y: nat, x': nat, y': nat, index: nat)
    requires IsSqrt(sqrt) && g.iRad > 0.0 && g.slit > 0 && x' < g.mapRadius
    requires TablesDone(g, sqrt, angle, polarAngle, polarDist, n) && index == y' * g.mapRadius + x' < n
    requires x' <= x && y' <= y && InIris(g, x, y) && !Outside(g, x, y)
    ensures polarDist[index] == 255 - FirstCircle(g, x', y', 1)
    ensures FirstCircle(g, x, y, FirstCircle(g, x', y', 1)) == FirstCircle(g, x, y, 1) <= LEVELS
    ensures 0 < FirstCircle(g, x', y', 1) <= LEVELS
  {
    TableEntry(g, sqrt, angle, polarAngle, polarDist, n, x', y', index);
    NearerOnBothAxes(x, y, x', y');
    IrisPixelIsFound(g, x', y');
    FastSearchIsBruteForce(g, x, y, x', y');
  }

  /** The scan's starting circle, read off the neighbour to the left, or above in column 0. */
  method StartOfScan(g: Geometry, ghost sqrt: real -> real, ghost angle: (real, real) -> real, x: nat, y: nat,
                     ghost polarAngle: seq<int>, polarDist: array<int>, ghost n: nat)
    returns (start: nat)
    requires IsSqrt(sqrt) && g.iRad > 0.0 && g.slit > 0 && x < g.mapRadius && y < g.mapRadius
    requires n == y * g.mapRadius + x && TablesDone(g, sqrt, angle, polarAngle, polarDist[..], n)
    requires !Outside(g, x, y) && InIris(g, x, y)
    ensures 0 < start <= LEVELS
    ensures FirstCircle(g, x, y, start) == FirstCircle(g, x, y, 1) <= LEVELS
  {
    var m := g.mapRadius;
    var stored := 254;
    if x == 0 && y == 0 {
      IrisPixelIsFound(g, x, y);
    } else if x == 0 {
      assert (y - 1) * m + m == y * m;
      stored := NeighbourValue(g, sqrt, angle, polarAngle, polarDist, n, x, y, 0, y - 1, (y - 1) * m);
    } else {
      stored := NeighbourValue(g, sqrt, angle, polarAngle, polarDist, n, x, y, x - 1, y, y * m + x - 1);
    }
    start := 255 - stored;
  }

  method NeighbourValue(g: Geometry, ghost sqrt: real -> real, ghost angle: (real, real) -> real,
                        ghost polarAngle: seq<int>, polarDist: array<int>, ghost n: nat,
                        ghost x: nat, ghost y: nat, ghost x': nat, ghost y': nat, index: nat)
    returns (stored: int)
    requires IsSqrt(sqrt) && g.iRad > 0.0 && g.slit > 0 && x' < g.mapRadius
    requires TablesDone(g, sqrt, angle, polarAngle, polarDist[..], n)
    requires index == y' * g.mapRadius + x' < n
    requires x' <= x && y' <= y && InIris(g, x, y) && !Outside(g, x, y)
    ensures 0 < 255 - stored <= LEVELS
    ensures FirstCircle(g, x, y, 255 - stored) == FirstCircle(g, x, y, 1) <= LEVELS
  {
    NeighbourStart(g, sqrt, angle, polarAngle, polarDist[..], n, x, y, x', y', index);
    stored := polarDist[index];
    assert stored == polarDist[..][index];
  }

  /** One step of the pixel loops. */
  method StorePixel(g: Geometry, sqrt: real -> real, angle: (real, real) -> real, x: nat, y: nat,
                    polarAngle: array<int>, polarDist: array<int>, index: nat)
    returns (warned: bool)
    requires IsSqrt(sqrt) && IsAngle(angle) && g.iRad >= 0.0 && x < g.mapRadius && y < g.mapRadius
    requires polarAngle != polarDist && index == y * g.mapRadius + x < polarDist.Length
    requires TablesDone(g, sqrt, angle, polarAngle[..], polarDist[..], index)
    modifies polarAngle, polarDist
    ensures TablesDone(g, sqrt, angle, polarAngle[..], polarDist[..], index + 1)
    ensures !warned
  {
    ghost var a, d := polarAngle[..], polarDist[..];
    RegionsAreExact(g, sqrt, x, y);
    warned := false;
    var d2 := DistSquared(x, y);
    if d2 > Square(g.mapRadius as real) {
      // Beyond the map circle
      polarAngle[index] := 0;
      polarDist[index] := 255;
    } else {
      polarAngle[index] := angle(Offset(x), Offset(y)).Floor;
      if d2 > Square(g.iRad) {
        SqrtAbove(sqrt, d2, g.iRad);
        SqrtAbove(sqrt, d2, g.mapRadius as real);
        polarDist[index] := ((g.mapRadius as real - sqrt(d2)) / (g.mapRadius as real - g.iRad) * 127.0).Floor;
      } else {
        IrisHasRadius(g, x, y);
        if g.slit == 0 {
          polarDist[index] := ((g.iRad - sqrt(d2)) / g.iRad * 127.0).Floor + 128;
        } else {
          var start := StartOfScan(g, sqrt, angle, x, y, a, polarDist, index);
          ScanSlit(g, x, y, start, polarDist, index);
        }
        warned := polarDist[index] < 128;
      }
    }
    TablesGrow(g, sqrt, angle, a, d, x, y, index);
    assert polarAngle[..] == a[index := StoredAngle(g, angle, x, y)];
    assert polarDist[..] == d[index := StoredDistance(g, sqrt, x, y)];
  }

  /** Both tables of a map; refuses a slit that does not fit the iris.  Counts the out-of-range warnings. */
  method OutputPolarMaps(mapRadius: nat, iRad: real, irisRadius: int, slitPupilRadius: int,
                         sqrt: real -> real, angle: (real, real) -> real)
    returns (ok: bool, polarAngle: array<int>, polarDist: array<int>, warnings: int)
    requires iRad >= 0.0 && IsSqrt(sqrt) && IsAngle(angle)
    ensures ok <==> 0 <= slitPupilRadius <= irisRadius
    ensures ok ==> TablesDone(Geometry(mapRadius, iRad, slitPupilRadius), sqrt, angle,
                              polarAngle[..], polarDist[..], mapRadius * mapRadius)
    ensures warnings == 0
  {
    warnings := 0;
    if slitPupilRadius < 0 || slitPupilRadius > irisRadius {
      polarAngle, polarDist := new int[0], new int[0];
      return false, polarAngle, polarDist, 0;
    }
    ok := true;
    var m := mapRadius;
    var g := Geometry(mapRadius, iRad, slitPupilRadius);
    polarAngle := new int[m * m](_ => 0);
    polarDist := new int[m * m](_ => 0);
    var angleIndex, distIndex := 0, 0;
    for y := 0 to m
      invariant angleIndex == distIndex == y * m <= m * m
      invariant TablesDone(g, sqrt, angle, polarAngle[..], polarDist[..], distIndex)
      invariant warnings == 0
    {
      for x := 0 to m
        invariant angleIndex == distIndex == y * m + x <= m * m
        invariant TablesDone(g, sqrt, angle, polarAngle[..], polarDist[..], distIndex)
        invariant warnings == 0
      {
        IndexInGrid(m, m, x, y);
        var warned := StorePixel(g, sqrt, angle, x, y, polarAngle, polarDist, distIndex);
        if warned {
          warnings := warnings + 1;
        }
        angleIndex := angleIndex + 1;
        distIndex := distIndex + 1;
      }
    }
  }
}
