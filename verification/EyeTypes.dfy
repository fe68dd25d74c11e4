/**
 The eye definitions (src/eyes/eyes.h): lookup tables, textures and parameters.
 Colours are 16-bit values, table entries are bytes.
 */
module EyeTypes {
  import opened Arithmetic

  const SCREEN: nat := 240  // screen width and height
  const HALF: nat := 120    // side of the displacement table, half the screen

  datatype Texture = NoTexture | Texture(data: seq<int>, width: nat, height: nat) {
    predicate Valid() {
      Texture? ==> 0 < width < 0x10000 && 0 < height < 0x10000 && |data| == width * height
    }

    function Get(x: nat, y: nat): int
      requires Valid() && Texture? && x < width && y < height
    {
      IndexInGrid(width, height, x, y);
      data[y * width + x]
    }
  }

  /** What the iris and the sclera have in common; mirror is 0 or 1023. */
  datatype Surface = Surface(texture: Texture, color: int, startAngle: nat, spin: real, iSpin: nat, mirror: nat) {
    predicate Valid() {
      && texture.Valid()
      && startAngle < 0x10000 && iSpin < 0x10000
      && (mirror == 0 || mirror == 1023)
    }
  }

  datatype PupilParams = PupilParams(color: int, min: real, max: real) {
    // The pupil never takes all of the iris
    predicate Valid() {
      0.0 <= min <= max < 1.0
    }
  }

  predicate IsByte(v: int) {
    0 <= v < 256
  }

  /** A square table of bytes, stored row by row. */
  predicate IsSquareTable(t: seq<int>, side: nat) {
    |t| == side * side && forall i :: 0 <= i < |t| ==> IsByte(t[i])
  }

  /** The entry of a square table in column x of row y. */
  function Entry(t: seq<int>, side: nat, x: nat, y: nat): (v: int)
    requires IsSquareTable(t, side) && x < side && y < side
    ensures IsByte(v)
  {
    IndexInGrid(side, side, x, y);
    t[y * side + x]
  }

  datatype PolarParams = PolarParams(mapRadius: nat, angle: seq<int>, distance: seq<int>) {
    predicate Valid() {
      && mapRadius < 0x8000
      && IsSquareTable(angle, mapRadius) && IsSquareTable(distance, mapRadius)
    }
  }

  function UpperEdge(start: int, end: int, proportion: real): int {
    Trunc(end as real - proportion * (end - start) as real)
  }

  function LowerEdge(start: int, end: int, proportion: real): int {
    Trunc(start as real + proportion * (end - start) as real)
  }

  /** Two rows per screen column: the upper lid's open then closed row, the lower lid's closed then open row. */
  datatype EyelidParams = EyelidParams(upper: seq<int>, lower: seq<int>, color: int) {
    predicate Valid() {
      && |upper| == |lower| == 2 * SCREEN
      && (forall i :: 0 <= i < |upper| ==> 0 <= upper[i] <= SCREEN)
      && (forall i :: 0 <= i < |lower| ==> 0 <= lower[i] <= SCREEN)
    }

    function UpperOpen(x: nat): int
      requires Valid() && x < SCREEN
    {
      upper[x * 2]
    }

    function UpperClosed(x: nat): int
      requires Valid() && x < SCREEN
    {
      upper[x * 2 + 1]
    }

    function LowerOpen(x: nat): int
      requires Valid() && x < SCREEN
    {
      lower[x * 2 + 1]
    }

    function LowerClosed(x: nat): int
      requires Valid() && x < SCREEN
    {
      lower[x * 2]
    }

    /** The edge of the upper lid in a column, from its closed row (0) to its open row (1). */
    function UpperLid(x: nat, proportion: real): int
      requires Valid() && x < SCREEN
    {
      UpperEdge(UpperOpen(x), UpperClosed(x), proportion)
    }

    /** The edge of the lower lid in a column. */
    function LowerLid(x: nat, proportion: real): int
      requires Valid() && x < SCREEN
    {
      LowerEdge(LowerClosed(x), LowerOpen(x), proportion)
    }
  }

  datatype EyeDefinition = EyeDefinition(
    radius: nat, backColor: int, tracking: bool, squint: real, displacement: seq<int>, pupil: PupilParams,
    irisRadius: nat, iris: Surface, sclera: Surface, eyelids: EyelidParams, polar: PolarParams)
  {
    predicate Valid() {
      && IsSquareTable(displacement, HALF)
      && pupil.Valid() && iris.Valid() && sclera.Valid() && eyelids.Valid() && polar.Valid()
      && (tracking ==> polar.mapRadius > 0)
    }
  }

  /** An eye without textures whose lids are always open. */
  function PlainEye(): (d: EyeDefinition)
    ensures d.Valid()
  {
    var blank := seq(HALF * HALF, i => 0);
    var upper := seq(2 * SCREEN, i => 0);
    var lower := seq(2 * SCREEN, i => SCREEN);
    var surface := Surface(NoTexture, 0, 0, 0.0, 0, 0);
    EyeDefinition(120, 0, false, 0.0, blank, PupilParams(0, 0.2, 0.8), 60, surface, surface,
                  EyelidParams(upper, lower, 0), PolarParams(0, [], []))
  }

  /** A definition whose tables have the shapes and ranges the generator gives them. */
  type Definition = d: EyeDefinition | d.Valid() witness PlainEye()

  /** A step of a fraction t of d. */
  lemma PartOfStep(d: real, t: real)
    requires InUnit(t)
    ensures if d >= 0.0 then 0.0 <= t * d <= d else d <= t * d <= 0.0
    ensures t == 0.0 ==> t * d == 0.0
    ensures t == 1.0 ==> t * d == d
  {
    if d >= 0.0 { PartOf(d, t); } else { PartOf(-d, t); }
  }

  /** Between two integers, a truncated interpolation stays between them. */
  lemma Interpolation(a: int, b: int, step: real, t: real)
    requires InUnit(t) && step == t * (b - a) as real
    ensures Between(Trunc(a as real + step), a, b)
    ensures t == 0.0 ==> Trunc(a as real + step) == a
    ensures t == 1.0 ==> Trunc(a as real + step) == b
  {
    PartOfStep((b - a) as real, t);
    StepBetween(a, b, step);
  }

  lemma StepBetween(a: int, b: int, step: real)
    requires if a <= b then 0.0 <= step <= (b - a) as real else (b - a) as real <= step <= 0.0
    ensures Between(Trunc(a as real + step), a, b)
    ensures step == 0.0 ==> Trunc(a as real + step) == a
    ensures step == (b - a) as real ==> Trunc(a as real + step) == b
  {
    assert a as real + (b - a) as real == b as real;
    if a <= b { TruncBetween(a as real + step, a, b); } else { TruncBetween(a as real + step, b, a); }
  }

  predicate Between(v: int, a: int, b: int) {
    a <= v <= b || b <= v <= a
  }

  /**
   A lid factor in [0,1] keeps each edge between its column's open and closed rows, so the cast to
   a byte only truncates; 1 and 0 reach the open and the closed row exactly.
   */
  lemma LidsStayInColumn(lids: EyelidParams, x: nat, proportion: real)
    requires lids.Valid() && x < SCREEN && InUnit(proportion)
    ensures Between(lids.UpperLid(x, proportion), lids.UpperClosed(x), lids.UpperOpen(x))
    ensures Between(lids.LowerLid(x, proportion), lids.LowerClosed(x), lids.LowerOpen(x))
    ensures 0 <= lids.UpperLid(x, proportion) <= SCREEN && 0 <= lids.LowerLid(x, proportion) <= SCREEN
    ensures proportion == 1.0 ==>
      lids.UpperLid(x, 1.0) == lids.UpperOpen(x) && lids.LowerLid(x, 1.0) == lids.LowerOpen(x)
    ensures proportion == 0.0 ==>
      lids.UpperLid(x, 0.0) == lids.UpperClosed(x) && lids.LowerLid(x, 0.0) == lids.LowerClosed(x)
  {
    UpperEdgeBetween(lids.UpperOpen(x), lids.UpperClosed(x), proportion);
    LowerEdgeBetween(lids.LowerClosed(x), lids.LowerOpen(x), proportion);
  }

  lemma UpperEdgeBetween(start: int, end: int, proportion: real)
    requires InUnit(proportion)
    ensures Between(UpperEdge(start, end, proportion), end, start)
    ensures proportion == 1.0 ==> UpperEdge(start, end, 1.0) == start
    ensures proportion == 0.0 ==> UpperEdge(start, end, 0.0) == end
  {
    var step := proportion * (end - start) as real;
    NegatedStep(proportion, start, end);
    Interpolation(end, start, -step, proportion);
  }

  lemma LowerEdgeBetween(start: int, end: int, proportion: real)
    requires InUnit(proportion)
    ensures Between(LowerEdge(start, end, proportion), start, end)
    ensures proportion == 1.0 ==> LowerEdge(start, end, 1.0) == end
    ensures proportion == 0.0 ==> LowerEdge(start, end, 0.0) == start
  {
    Interpolation(start, end, proportion * (end - start) as real, proportion);
  }

  lemma NegatedStep(t: real, a: int, b: int)
    ensures t * (a - b) as real == -(t * (b - a) as real)
  {
    var d := (b - a) as real;
    assert (a - b) as real == -d;
  }
  /** In between, an edge has come its share of the way from the closed row to the open one, rounded down. */
  lemma LidEdgeIsShare(lids: EyelidParams, x: nat, proportion: real)
    requires lids.Valid() && x < SCREEN && InUnit(proportion)
    ensures var exact := Lerp(lids.UpperClosed(x) as real, lids.UpperOpen(x) as real, proportion);
      exact - 1.0 < lids.UpperLid(x, proportion) as real <= exact
    ensures var exact := Lerp(lids.LowerClosed(x) as real, lids.LowerOpen(x) as real, proportion);
      exact - 1.0 < lids.LowerLid(x, proportion) as real <= exact
  {
    UpperEdgeIsShare(lids.UpperOpen(x), lids.UpperClosed(x), proportion);
    LowerEdgeIsShare(lids.LowerClosed(x), lids.LowerOpen(x), proportion);
  }

  lemma UpperEdgeIsShare(start: int, end: int, proportion: real)
    requires 0 <= start && 0 <= end && InUnit(proportion)
    ensures var exact := Lerp(end as real, start as real, proportion);
      exact - 1.0 < UpperEdge(start, end, proportion) as real <= exact
  {
    var d := (end - start) as real;
    LerpBetween(end as real, start as real, proportion);
    LerpAsStep(end as real, start as real, proportion, -d);
    NegatedProduct(d, proportion);
    RoundsDown(end as real - proportion * d);
  }

  lemma LowerEdgeIsShare(start: int, end: int, proportion: real)
    requires 0 <= start && 0 <= end && InUnit(proportion)
    ensures var exact := Lerp(start as real, end as real, proportion);
      exact - 1.0 < LowerEdge(start, end, proportion) as real <= exact
  {
    var d := (end - start) as real;
    LerpBetween(start as real, end as real, proportion);
    LerpAsStep(start as real, end as real, proportion, d);
    RoundsDown(start as real + proportion * d);
  }

  lemma LerpAsStep(a: real, b: real, p: real, d: real)
    requires d == b - a
    ensures Lerp(a, b, p) == a + p * d
  {
  }

  lemma NegatedProduct(d: real, p: real)
    ensures p * -d == -(p * d)
  {
  }

  lemma RoundsDown(v: real)
    requires v >= 0.0
    ensures v - 1.0 < Trunc(v) as real <= v
  {
  }
}
