/** Facts about products, quotients and casts that the solver does not find by itself. */
module Arithmetic {

  function Square(r: real): real {
    r * r
  }

  type Byte = b: nat | b < 256

  /** A square root over the reals. */
  ghost predicate IsSqrt(sqrt: real -> real) {
    forall v: real {:trigger sqrt(v)} :: v >= 0.0 ==> sqrt(v) >= 0.0 && sqrt(v) * sqrt(v) == v
  }

  /** A C++ cast of a float to an integer: towards zero. */
  function Trunc(r: real): int {
    if r >= 0.0 then r.Floor else -((-r).Floor)
  }

  function Abs(r: real): real {
    if r < 0.0 then -r else r
  }

  lemma TruncBetween(r: real, a: int, b: int)
    requires a as real <= r <= b as real
    ensures a <= Trunc(r) <= b
  {
  }

  lemma MulMono(k: real, a: real, b: real)
    requires k >= 0.0 && a <= b
    ensures k * a <= k * b
  {
    assert k * (b - a) >= 0.0;
  }

  /** A product that proofs can take as a whole. */
  function Product(a: real, b: real): real {
    a * b
  }

  /** A factor that grows by at most 1. */
  lemma ProductStep(x: real, y: real, z: real)
    requires x >= 0.0 && y <= z <= y + 1.0
    ensures Product(x, y) <= Product(x, z) <= Product(x, y) + x
  {
    hide Product;
    var e := z - y;
    assert y + e == z;
    PartOf(x, e);
    ProductOfSum(x, y, e);
  }

  lemma ProductOfSum(x: real, y: real, e: real)
    ensures Product(x, y + e) == Product(x, y) + x * e
  {
  }

  lemma ProductAsReal(n: int, f: int)
    ensures (n * f) as real == Product(n as real, f as real)
  {
  }

  lemma Reassociated(a: real, b: real, c: real)
    ensures a * b * c == a * (b * c)
  {
  }

  predicate InUnit(r: real) {
    0.0 <= r <= 1.0
  }

  /** A ratio brought into 0..1. */
  function Clamped(r: real): real {
    if r > 1.0 then 1.0 else if r < 0.0 then 0.0 else r
  }

  /** It is the nearest ratio there is. */
  lemma ClampedIsNearest(r: real, u: real)
    requires InUnit(u)
    ensures InUnit(Clamped(r)) && Abs(Clamped(r) - r) <= Abs(u - r)
  {
  }

  lemma PartOf(d: real, t: real)
    requires d >= 0.0 && InUnit(t)
    ensures 0.0 <= d * t <= d
  {
    assert d * (1.0 - t) >= 0.0;
  }

  /** From a (f == 0) to b (f == 1). */
  function Lerp(a: real, b: real, f: real): real {
    a + (b - a) * f
  }

  lemma StepBounds(d: real, f: real, p: real)
    requires InUnit(f) && p == d * f
    ensures if d >= 0.0 then 0.0 <= p <= d else d <= p <= 0.0
  {
    if d >= 0.0 { PartOf(d, f); } else { PartOf(-d, f); assert (-d) * f == -p; }
  }

  lemma LerpEnds(a: real, b: real)
    ensures Lerp(a, b, 0.0) == a && Lerp(a, b, 1.0) == b
  {
  }

  lemma LerpBetween(a: real, b: real, f: real)
    requires InUnit(f)
    ensures if a <= b then a <= Lerp(a, b, f) <= b else b <= Lerp(a, b, f) <= a
  {
    var p := (b - a) * f;
    StepBounds(b - a, f, p);
    assert Lerp(a, b, f) == a + p;
  }

  lemma LerpDifference(a: real, b: real, f: real, f': real)
    ensures Lerp(a, b, f') - Lerp(a, b, f) == (b - a) * (f' - f)
  {
    var d := b - a;
    assert Lerp(a, b, f) == a + d * f;
    assert Lerp(a, b, f') == a + d * f';
    assert d * (f' - f) == d * f' - d * f;
  }

  lemma ScaledStep(d: real, g: real, rate: real, p: real)
    requires -1.0 <= d <= 1.0 && 0.0 <= g <= rate && p == d * g
    ensures -rate <= p <= rate
  {
    if d >= 0.0 { PartOf(g, d); } else { PartOf(g, -d); assert g * (-d) == -p; }
  }

  /** An interpolation between values at most 1 apart moves no faster than its fraction. */
  lemma LerpIsSmooth(a: real, b: real, f: real, f': real, rate: real)
    requires InUnit(a) && InUnit(b) && 0.0 <= f' - f <= rate
    ensures -rate <= Lerp(a, b, f') - Lerp(a, b, f) <= rate
  {
    LerpDifference(a, b, f, f');
    ScaledStep(b - a, f' - f, rate, (b - a) * (f' - f));
  }

  lemma Quotient(x: real, k: real, q: real)
    requires k > 0.0 && q * k == x
    ensures x / k == q
  {
  }

  lemma QuotientDifference(x: real, y: real, k: real)
    requires k > 0.0
    ensures (y - x) / k == y / k - x / k
  {
    var a, b := x / k, y / k;
    assert (b - a) * k == y - x;
    Quotient(y - x, k, b - a);
  }

  lemma MulStrict(k: real, a: real, b: real)
    requires k > 0.0 && a < b
    ensures k * a < k * b
  {
    assert k * (b - a) > 0.0;
  }

  lemma SignOfProduct(k: real, d: real, p: real)
    requires k > 0.0 && p == k * d
    ensures p > 0.0 <==> d > 0.0
    ensures p >= 0.0 <==> d >= 0.0
  {
    if d > 0.0 { MulStrict(k, 0.0, d); } else { MulMono(k, d, 0.0); }
    if d < 0.0 { MulStrict(k, d, 0.0); }
  }

  lemma ProductGrows(u: real, u': real, b: real, b': real)
    requires 0.0 <= u <= u' && 0.0 <= b <= b'
    ensures 0.0 <= u * b <= u' * b'
  {
    MulMono(u, b, b');
    MulMono(b', u, u');
  }

  lemma ProductStrict(a: real, b: real, c: real, d: real)
    requires 0.0 <= b < a && 0.0 <= d < c
    ensures b * d < a * c
  {
    MulMono(b, d, c);
    MulStrict(c, b, a);
  }

  lemma SquareOrder(a: real, b: real)
    requires a >= 0.0 && b >= 0.0
    ensures a <= b <==> a * a <= b * b
  {
    if a <= b { ProductGrows(a, b, a, b); } else { ProductStrict(a, b, a, b); }
  }

  lemma DivMono(a: real, b: real, k: real)
    requires a <= b && k > 0.0
    ensures a / k <= b / k
  {
  }

  lemma FractionInUnit(a: nat, b: nat)
    requires a < b
    ensures 0.0 <= a as real / b as real < 1.0
  {
  }

  lemma FloorMono(a: real, b: real)
    requires a <= b
    ensures a.Floor <= b.Floor
  {
  }

  lemma MulMonoInt(k: int, a: int, b: int)
    requires k >= 0 && a <= b
    ensures k * a <= k * b
  {
  }

  lemma Multiples(d: int, m: int)
    requires m >= 0
    ensures d >= 1 ==> d * m >= m
    ensures d <= -1 ==> d * m <= -m
  {
  }

  /** Row and column of a row-major index. */
  lemma IndexSplit(m: nat, x: nat, y: nat)
    requires x < m
    ensures (y * m + x) % m == x && (y * m + x) / m == y
  {
    var k := y * m + x;
    assert (k / m - y) * m == x - k % m;
    Multiples(k / m - y, m);
  }

  lemma IndexInGrid(width: nat, height: nat, x: nat, y: nat)
    requires x < width && y < height
    ensures 0 <= y * width + x < width * height
  {
    MulMonoInt(width, y + 1, height);
  }

  /** b to the power of n. */
  function Power(b: nat, n: nat): (p: nat)
    requires b > 0
    ensures p > 0
  {
    if n == 0 then 1 else b * Power(b, n - 1)
  }
}
