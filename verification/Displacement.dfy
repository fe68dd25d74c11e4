/**
 The displacement table (resources/eyes/240x240/tablegen.py, outputDisplacement): how far each screen pixel of
 a sphere seen from the front is from its place on the polar map.  One quadrant is stored, along x; the renderer
 swaps the axes for y.  Together they show, at every pixel, the point of the sphere that is there.
 */
module Displacement {
  import opened Arithmetic
  import opened EyeTypes
  import opened Sampling
  import P = PolarMap

  /** The angle atan2(d, h) as a share of a quarter turn. */
  type Arc = (real, real) -> real

  /** The sizes of a sphere on screen and of its map, in pixels. */
  datatype Sphere = Sphere(eyeRadius: nat, mapRadius: nat)

  predicate OnSphere(s: Sphere, x: nat, y: nat) {
    P.DistSquared(x, y) <= (s.eyeRadius * s.eyeRadius) as real
  }

  /** The distance of a point of the sphere from the middle of the map, along the surface. */
  ghost function MapDistance(s: Sphere, sqrt: real -> real, arc: Arc, x: nat, y: nat): real {
    var d2 := P.DistSquared(x, y);
    arc(sqrt(d2), sqrt((s.eyeRadius * s.eyeRadius) as real - d2)) * s.mapRadius as real
  }

  lemma DistanceIsPositive(sqrt: real -> real, x: nat, y: nat)
    requires IsSqrt(sqrt)
    ensures P.DistSquared(x, y) > 0.0 && sqrt(P.DistSquared(x, y)) >= P.Offset(x) > 0.0
    ensures sqrt(P.DistSquared(x, y)) >= P.Offset(y)
  {
    var dx, dy := P.Offset(x), P.Offset(y);
    ProductGrows(0.5, dx, 0.5, dx);
    ProductGrows(0.5, dy, 0.5, dy);
    var d := sqrt(P.DistSquared(x, y));
    assert d * d == dx * dx + dy * dy;
    SquareOrder(dx, d);
    SquareOrder(dy, d);
  }

  /** Where the sphere's point at a pixel of the first quadrant is on the map, along x: in the pixel's direction. */
  ghost function Projected(s: Sphere, sqrt: real -> real, arc: Arc, x: nat, y: nat): real
    requires IsSqrt(sqrt)
  {
    DistanceIsPositive(sqrt, x, y);
    AtDistance(P.Offset(x), sqrt(P.DistSquared(x, y)), MapDistance(s, sqrt, arc, x, y))
  }

  /** A coordinate scaled from distance d to another. */
  function AtDistance(dx: real, d: real, far: real): real
    requires d > 0.0
  {
    dx / d * far
  }

  ghost function Stored(s: Sphere, sqrt: real -> real, arc: Arc, x: nat, y: nat): int
    requires IsSqrt(sqrt)
  {
    if OnSphere(s, x, y) then Trunc(Projected(s, sqrt, arc, x, y) - x as real) else 255
  }

  // ---------------------------------------------------------------- the generator

  /** The first n entries hold what belongs there, row by row. */
  ghost predicate Done(t: seq<int>, size: nat, s: Sphere, sqrt: real -> real, arc: Arc, n: nat)
    requires IsSqrt(sqrt)
  {
    && |t| == size * size && n <= size * size
    && (size > 0 ==> forall k :: 0 <= k < n ==> t[k] == Stored(s, sqrt, arc, k % size, k / size))
  }

  lemma OneMore(t: seq<int>, size: nat, s: Sphere, sqrt: real -> real, arc: Arc, x: nat, y: nat, v: int)
    requires IsSqrt(sqrt) && x < size && y * size + x < |t|
    requires Done(t, size, s, sqrt, arc, y * size + x) && v == Stored(s, sqrt, arc, x, y)
    ensures Done(t[y * size + x := v], size, s, sqrt, arc, y * size + x + 1)
  {
    hide Stored;
    IndexSplit(size, x, y);
  }

  lemma NothingYet(t: seq<int>, size: nat, s: Sphere, sqrt: real -> real, arc: Arc)
    requires IsSqrt(sqrt) && |t| == size * size
    ensures Done(t, size, s, sqrt, arc, 0)
  {
  }

  lemma SquaresAdded(x: nat, y: nat, dx: real, dy: real)
    requires dx == x as real + 0.5 && dy == y as real + 0.5
    ensures dx * dx + dy * dy == P.DistSquared(x, y)
  {
  }

  /** One step of the pixel loops. */
  method PixelDisplacement(s: Sphere, sqrt: real -> real, arc: Arc, x: nat, y: nat) returns (v: int)
    requires IsSqrt(sqrt)
    ensures v == Stored(s, sqrt, arc, x, y)
  {
    var dy := y as real + 0.5;
    var dx := x as real + 0.5;
    var d2 := dx * dx + dy * dy;
    SquaresAdded(x, y, dx, dy);
    hide P.DistSquared, IsSqrt;
    var eyeRadius2 := (s.eyeRadius * s.eyeRadius) as real;
    if d2 <= eyeRadius2 {
      DistanceIsPositive(sqrt, x, y);
      var d := sqrt(d2);
      var h := sqrt(eyeRadius2 - d2);
      var pa := arc(d, h) * s.mapRadius as real;
      assert pa == MapDistance(s, sqrt, arc, x, y);
      dx := dx / d;
      v := Trunc(dx * pa - x as real);
    } else {
      v := 255;
    }
  }

  method StoreDisplacement(size: nat, s: Sphere, sqrt: real -> real, arc: Arc, x: nat, y: nat,
                           t: array<int>, index: nat)
    requires IsSqrt(sqrt) && x < size && index == y * size + x < t.Length
    requires Done(t[..], size, s, sqrt, arc, index)
    modifies t
    ensures Done(t[..], size, s, sqrt, arc, index + 1)
  {
    hide Stored, Done;
    ghost var was := t[..];
    var v := PixelDisplacement(s, sqrt, arc, x, y);
    t[index] := v;
    OneMore(was, size, s, sqrt, arc, x, y, v);
    assert t[..] == was[index := v];
  }

  method OutputDisplacement(size: nat, s: Sphere, sqrt: real -> real, arc: Arc) returns (t: array<int>)
    requires IsSqrt(sqrt)
    ensures Done(t[..], size, s, sqrt, arc, size * size)
  {
    hide Stored, Done;
    t := new int[size * size](_ => 0);
    NothingYet(t[..], size, s, sqrt, arc);
    for y := 0 to size
      invariant y * size <= size * size
      invariant Done(t[..], size, s, sqrt, arc, y * size)
    {
      for x := 0 to size
        invariant y * size + x <= size * size
        invariant Done(t[..], size, s, sqrt, arc, y * size + x)
      {
        IndexInGrid(size, size, x, y);
        StoreDisplacement(size, s, sqrt, arc, x, y, t, y * size + x);
      }
    }
  }

  // ---------------------------------------------------------------- on screen

  /** The map is never smaller than the sphere seen from the front, and the angle never more than a quarter turn. */
  ghost predicate IsMapOf(s: Sphere, sqrt: real -> real, arc: Arc) {
    && 0 < s.mapRadius <= 255
    && forall x, y :: OnSphere(s, x, y) ==>
         sqrt(P.DistSquared(x, y)) <= MapDistance(s, sqrt, arc, x, y) <= s.mapRadius as real
  }

  /** A projected point is beyond its pixel, and less than the map's radius away. */
  lemma ProjectedBounds(s: Sphere, sqrt: real -> real, arc: Arc, x: nat, y: nat)
    requires IsSqrt(sqrt) && IsMapOf(s, sqrt, arc) && OnSphere(s, x, y)
    ensures P.Offset(x) <= Projected(s, sqrt, arc, x, y) < s.mapRadius as real
    ensures 0 <= Stored(s, sqrt, arc, x, y) < 255
    ensures x + Stored(s, sqrt, arc, x, y) == Projected(s, sqrt, arc, x, y).Floor
  {
    DistanceIsPositive(sqrt, x, y);
    Shorter(P.Offset(x), P.Offset(y), P.DistSquared(x, y), sqrt(P.DistSquared(x, y)));
    hide P.DistSquared, MapDistance, AtDistance, P.Offset, IsSqrt;
    assert P.Offset(x) == x as real + 0.5;
    Proportion(P.Offset(x), sqrt(P.DistSquared(x, y)), MapDistance(s, sqrt, arc, x, y), s.mapRadius as real);
    TruncFromHalf(Projected(s, sqrt, arc, x, y), x);
  }

  lemma Shorter(dx: real, dy: real, d2: real, d: real)
    requires dx > 0.0 && dy > 0.0 && d >= 0.0 && d * d == d2 == Square(dx) + Square(dy)
    ensures dx < d
  {
    ProductStrict(dy, 0.0, dy, 0.0);
    if d <= dx { SquareOrder(d, dx); }
  }

  lemma Proportion(dx: real, d: real, far: real, m: real)
    requires 0.0 < dx < d && d <= far <= m
    ensures dx <= AtDistance(dx, d, far) < m
  {
    var f := dx / d;
    assert f * d == dx;
    SignOfProduct(d, f, dx);
    MulMono(f, d, far);
    SignOfProduct(d, 1.0 - f, d - dx);
    MulStrict(far, f, 1.0);
  }

  lemma TruncFromHalf(v: real, x: nat)
    requires v >= x as real + 0.5
    ensures Trunc(v - x as real) >= 0 && x + Trunc(v - x as real) == v.Floor
    ensures v < 255.0 ==> Trunc(v - x as real) < 255
  {
  }

  /** A table of the sphere is what the renderer takes, with the edge of the eye the same from both axes. */
  lemma DisplacementIsValid(t: seq<int>, s: Sphere, sqrt: real -> real, arc: Arc)
    requires IsSqrt(sqrt) && IsMapOf(s, sqrt, arc) && Done(t, HALF, s, sqrt, arc, HALF * HALF)
    ensures IsSquareTable(t, HALF) && HasSymmetricEdge(t, HALF)
  {
    hide Stored;
    forall k | 0 <= k < |t| ensures IsByte(t[k]) {
      EntryInRange(s, sqrt, arc, k % HALF, k / HALF);
    }
    forall x, y | 0 <= x < HALF && 0 <= y < HALF ensures Entry(t, HALF, x, y) == 255 <==> Entry(t, HALF, y, x) == 255 {
      EntryIsStored(t, s, sqrt, arc, x, y);
      EntryIsStored(t, s, sqrt, arc, y, x);
      EntryInRange(s, sqrt, arc, x, y);
      EntryInRange(s, sqrt, arc, y, x);
    }
  }

  lemma EntryInRange(s: Sphere, sqrt: real -> real, arc: Arc, x: nat, y: nat)
    requires IsSqrt(sqrt) && IsMapOf(s, sqrt, arc)
    ensures IsByte(Stored(s, sqrt, arc, x, y)) && (Stored(s, sqrt, arc, x, y) == 255 <==> !OnSphere(s, x, y))
    ensures OnSphere(s, x, y) <==> OnSphere(s, y, x)
  {
    if OnSphere(s, x, y) { ProjectedBounds(s, sqrt, arc, x, y); }
  }

  lemma EntryIsStored(t: seq<int>, s: Sphere, sqrt: real -> real, arc: Arc, x: nat, y: nat)
    requires IsSqrt(sqrt) && Done(t, HALF, s, sqrt, arc, HALF * HALF) && IsSquareTable(t, HALF) && x < HALF && y < HALF
    ensures Entry(t, HALF, x, y) == Stored(s, sqrt, arc, x, y)
  {
    hide Stored;
    IndexInGrid(HALF, HALF, x, y);
    IndexSplit(HALF, x, y);
  }

  /** The coordinate of a map point, counted from the middle on its side of it. */
  predicate IsAt(radius: nat, c: int, outer: bool, n: int) {
    c == if outer then radius + n else radius - 1 - n
  }

  /**
   With the gaze centred, the map point of a screen pixel inside the eye is the one that holds the projection of
   the sphere's point at that pixel, on the same side of the middle on both axes.
   */
  lemma PixelShowsSphere(t: seq<int>, s: Sphere, sqrt: real -> real, arc: Arc, sx: int, sy: int)
    requires IsSqrt(sqrt) && IsMapOf(s, sqrt, arc) && Done(t, HALF, s, sqrt, arc, HALF * HALF) && IsSquareTable(t, HALF)
    requires 0 <= sx < SCREEN && 0 <= sy < SCREEN
    ensures var x, y := Folded(HALF, sx), Folded(HALF, sy);
      && (Displacement(t, HALF, sx, sy) == 255 <==> !OnSphere(s, x, y))
      && (OnSphere(s, x, y) ==>
            var p := MapPoint(t, HALF, Centred(HALF, s.mapRadius), sx, sy);
            && IsAt(s.mapRadius, p.x, sx >= HALF, Projected(s, sqrt, arc, x, y).Floor)
            && IsAt(s.mapRadius, p.y, sy >= HALF, Projected(s, sqrt, arc, y, x).Floor)
            && OnMap(s.mapRadius, p))
  {
    var x, y := Folded(HALF, sx), Folded(HALF, sy);
    EntryIsStored(t, s, sqrt, arc, x, y);
    EntryIsStored(t, s, sqrt, arc, y, x);
    EntryInRange(s, sqrt, arc, x, y);
    hide Stored, Projected, IsMapOf;
    if OnSphere(s, x, y) {
      ProjectedBounds(s, sqrt, arc, x, y);
      ProjectedBounds(s, sqrt, arc, y, x);
    }
  }

  /** The projection is in the pixel's direction, at the distance along the surface. */
  lemma ProjectedDirection(s: Sphere, sqrt: real -> real, arc: Arc, x: nat, y: nat)
    requires IsSqrt(sqrt)
    ensures var px, py := Projected(s, sqrt, arc, x, y), Projected(s, sqrt, arc, y, x);
      && px * P.Offset(y) == py * P.Offset(x)
      && Square(px) + Square(py) == Square(MapDistance(s, sqrt, arc, x, y))
  {
    hide P.DistSquared, AtDistance, P.Offset, IsSqrt, Square;
    DistanceIsPositive(sqrt, x, y);
    DistanceIsRoot(sqrt, x, y);
    DistanceIsSymmetric(s, sqrt, arc, x, y);
    hide MapDistance;
    var d2 := P.DistSquared(x, y);
    Direction(P.Offset(x), P.Offset(y), d2, sqrt(d2), MapDistance(s, sqrt, arc, x, y));
  }

  lemma DistanceIsSymmetric(s: Sphere, sqrt: real -> real, arc: Arc, x: nat, y: nat)
    ensures MapDistance(s, sqrt, arc, x, y) == MapDistance(s, sqrt, arc, y, x)
  {
    assert P.DistSquared(x, y) == P.DistSquared(y, x);
    hide P.DistSquared;
  }

  lemma DistanceIsRoot(sqrt: real -> real, x: nat, y: nat)
    requires IsSqrt(sqrt)
    ensures var d2 := P.DistSquared(x, y);
      sqrt(d2) * sqrt(d2) == d2 == Square(P.Offset(x)) + Square(P.Offset(y)) == P.DistSquared(y, x)
  {
    assert P.DistSquared(x, y) >= 0.0;
  }

  lemma Direction(dx: real, dy: real, d2: real, d: real, far: real)
    requires d > 0.0 && d * d == d2 == Square(dx) + Square(dy)
    ensures var px, py := AtDistance(dx, d, far), AtDistance(dy, d, far);
      px * dy == py * dx && Square(px) + Square(py) == Square(far)
  {
    var u, v := dx / d, dy / d;
    UnitVector(u, v, dx, dy, d);
    CrossProduct(u, v, dx, dy, d, far);
    SquaresScaled(u, v, far);
  }

  lemma CrossProduct(u: real, v: real, dx: real, dy: real, d: real, far: real)
    requires u * d == dx && v * d == dy
    ensures (u * far) * dy == (v * far) * dx
  {
  }

  lemma UnitVector(u: real, v: real, dx: real, dy: real, d: real)
    requires d > 0.0 && u * d == dx && v * d == dy && d * d == Square(dx) + Square(dy)
    ensures u * u + v * v == 1.0
  {
    ProductStrict(d, 0.0, d, 0.0);
    assert Square(dx) == (u * u) * (d * d) && Square(dy) == (v * v) * (d * d);
    SameFactor(u * u + v * v, 1.0, d * d);
  }

  lemma SquaresScaled(u: real, v: real, far: real)
    requires u * u + v * v == 1.0
    ensures Square(u * far) + Square(v * far) == Square(far)
  {
    assert Square(u * far) + Square(v * far) == (u * u + v * v) * Square(far);
  }
}
