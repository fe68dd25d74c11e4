/**
 Plain decimal numbers, and what of a number survives being printed as one with six significant digits, as
 the API does (number() in api/include/AnimatedEyes/Eyes.hpp) where no exponent is needed.
 */
module Decimals {
  import opened Arithmetic

  predicate IsDigit(c: char) {
    '0' <= c <= '9'
  }

  predicate AreDigits(s: string) {
    forall i :: 0 <= i < |s| ==> IsDigit(s[i])
  }

  function DigitsValue(s: string): nat
    requires AreDigits(s)
  {
    if s == "" then 0
    else
      var n := |s| - 1;
      10 * DigitsValue(s[..n]) + (s[n] as int - '0' as int)
  }

  /** Digits with at most one point among them, and a digit before it. */
  ghost predicate IsDecimal(w: string) {
    exists point: nat :: IsSplitAt(w, point)
  }

  predicate IsSplitAt(w: string, point: nat) {
    0 < point <= |w| && AreDigits(w[..point]) && (point < |w| ==> w[point] == '.' && AreDigits(w[point + 1..]))
  }

  /** The value of a decimal whose point (or end) is at `point`. */
  function ValueAt(w: string, point: nat): real
    requires IsSplitAt(w, point)
  {
    if point == |w| then DigitsValue(w) as real
    else
      var fraction := w[point + 1..];
      DigitsValue(w[..point]) as real + DigitsValue(fraction) as real / Power(10, |fraction|) as real
  }

  lemma PointIsUnique(w: string, p: nat, q: nat)
    requires IsSplitAt(w, p) && IsSplitAt(w, q)
    ensures p == q
  {
  }

  ghost function Value(w: string): real
    requires IsDecimal(w)
  {
    var point: nat :| IsSplitAt(w, point);
    ValueAt(w, point)
  }

  // ---------------------------------------------------------------- writing them

  function DigitChar(d: nat): char
    requires d < 10
  {
    ('0' as int + d) as char
  }

  function Digits(n: nat): (s: string)
    ensures s != "" && AreDigits(s)
  {
    if n < 10 then [DigitChar(n)] else Digits(n / 10) + [DigitChar(n % 10)]
  }

  /** The last k digits. */
  function Fixed(n: nat, k: nat): (s: string)
    ensures |s| == k && AreDigits(s)
  {
    if k == 0 then "" else Fixed(n / 10, k - 1) + [DigitChar(n % 10)]
  }

  function Over(n: nat, p: nat): nat
    requires p > 0
  {
    n / p
  }

  lemma {:induction false} DigitsReadBack(n: nat)
    ensures DigitsValue(Digits(n)) == n
  {
    if n >= 10 {
      DigitsReadBack(n / 10);
      assert Digits(n)[..|Digits(n)| - 1] == Digits(n / 10);
    } else {
      assert Digits(n)[..0] == "";
    }
  }

  lemma {:induction false} FixedReadsBack(n: nat, k: nat)
    ensures DigitsValue(Fixed(n, k)) == n % Power(10, k)
  {
    if k > 0 {
      FixedReadsBack(n / 10, k - 1);
      assert Fixed(n, k)[..k - 1] == Fixed(n / 10, k - 1);
      LastDigit(n, Power(10, k - 1));
    }
  }

  lemma LastDigit(n: nat, p: nat)
    requires p > 0
    ensures 10 * (n / 10 % p) + n % 10 == n % (10 * p)
  {
    var q, r := n / 10 / p, n / 10 % p;
    assert n / 10 == q * p + r;
    assert n == q * (10 * p) + (10 * r + n % 10);
    IndexSplit(10 * p, 10 * r + n % 10, q);
  }

  lemma Parts(n: nat, p: nat)
    requires p > 0
    ensures Over(n, p) as real + (n % p) as real / p as real == n as real / p as real
  {
    var q, r := n / p, n % p;
    assert n == q * p + r;
    Quotient((q * p) as real, p as real, q as real);
    QuotientDifference((q * p) as real, n as real, p as real);
    assert n as real - (q * p) as real == r as real;
  }

  lemma FirstPower()
    ensures Power(10, 0) == 1 && DigitsValue("") == 0
  {
  }

  lemma ValueIsAt(w: string, p: nat)
    requires IsSplitAt(w, p)
    ensures IsDecimal(w) && Value(w) == ValueAt(w, p)
  {
    hide ValueAt, DigitsValue;
    var point: nat :| IsSplitAt(w, point) && Value(w) == ValueAt(w, point);
    PointIsUnique(w, point, p);
  }

  lemma WholeReadsBack(whole: string)
    requires whole != "" && AreDigits(whole)
    ensures IsDecimal(whole) && Value(whole) == DigitsValue(whole) as real
  {
    assert whole[..|whole|] == whole;
    ValueIsAt(whole, |whole|);
  }

  lemma PointReadsBack(whole: string, fraction: string)
    requires whole != "" && AreDigits(whole) && AreDigits(fraction)
    ensures var w := whole + "." + fraction;
      && IsDecimal(w)
      && Value(w) == DigitsValue(whole) as real + DigitsValue(fraction) as real / Power(10, |fraction|) as real
  {
    hide DigitsValue, Power, Value, IsDecimal;
    var w := whole + "." + fraction;
    assert w[..|whole|] == whole && w[|whole| + 1..] == fraction;
    ValueIsAt(w, |whole|);
  }
  // ---------------------------------------------------------------- six significant digits

  /** The nearest whole number, halves to the even one. */
  function Nearest(r: real): (n: nat)
    requires r >= 0.0
    ensures -0.5 <= n as real - r <= 0.5
    ensures n as real == r <==> r == r.Floor as real
  {
    var f := r.Floor;
    var rest := r - f as real;
    if rest < 0.5 || (rest == 0.5 && f % 2 == 0) then f else f + 1
  }

  /** The numbers that %g prints as plain decimals, but for 0. */
  predicate IsPlain(v: real) {
    0.0001 <= v < 999999.5
  }

  /** Places after the point that make six significant digits of a plain number. */
  function Places(v: real): (k: nat)
    requires IsPlain(v)
    ensures k <= 9
  {
    if v >= 100000.0 then 0 else if v >= 10000.0 then 1 else if v >= 1000.0 then 2 else if v >= 100.0 then 3
    else if v >= 10.0 then 4 else if v >= 1.0 then 5 else if v >= 0.1 then 6 else if v >= 0.01 then 7
    else if v >= 0.001 then 8 else 9
  }

  function Stripped(s: string): string {
    if s != "" && s[|s| - 1] == '0' then Stripped(s[..|s| - 1]) else s
  }

  /** A whole part and a fraction, without the zeros at its end. */
  function Assembled(whole: string, fraction: string): string {
    if Stripped(fraction) == "" then whole else whole + "." + Stripped(fraction)
  }

  /** A plain number that is a whole number of the last of its six significant digits. */
  predicate HasSixDigits(v: real)
    requires IsPlain(v)
  {
    var r := Times(v, Power(10, Places(v)));
    r == r.Floor as real
  }

  /** What %g prints: six significant digits, without the zeros at the end of a fraction. */
  function General(v: real): string
    requires v == 0.0 || IsPlain(v)
  {
    if v == 0.0 then "0" else Rounded(v, Places(v))
  }

  function Rounded(v: real, k: nat): string
    requires v >= 0.0
  {
    var p := Power(10, k);
    var n := Nearest(Times(v, p));
    Assembled(Digits(Over(n, p)), Fixed(n, k))
  }

  function Times(v: real, p: nat): (r: real)
    requires v >= 0.0
    ensures r >= 0.0
  {
    MulMono(p as real, 0.0, v);
    v * p as real
  }

  /** The number that is sent for v. */
  function Sent(v: real): real
    requires v == 0.0 || IsPlain(v)
  {
    if v == 0.0 then 0.0
    else
      var p := Power(10, Places(v));
      Nearest(Times(v, p)) as real / p as real
  }

  lemma {:induction false} StrippedKeepsValue(s: string)
    requires AreDigits(s)
    ensures AreDigits(Stripped(s))
    ensures var t := Stripped(s);
      DigitsValue(t) as real / Power(10, |t|) as real == DigitsValue(s) as real / Power(10, |s|) as real
    decreases |s|
  {
    if s != "" && s[|s| - 1] == '0' {
      var t := s[..|s| - 1];
      StrippedKeepsValue(t);
      TenTimes(DigitsValue(t), Power(10, |t|));
    }
  }

  lemma TenTimes(a: nat, b: nat)
    requires b > 0
    ensures (10 * a) as real / (10 * b) as real == a as real / b as real
  {
    var q := a as real / b as real;
    Quotient((10 * a) as real, (10 * b) as real, q);
  }

  lemma AssembledReadsBack(whole: string, fraction: string)
    requires whole != "" && AreDigits(whole) && AreDigits(fraction)
    ensures var w := Assembled(whole, fraction);
      && IsDecimal(w)
      && Value(w) == DigitsValue(whole) as real + DigitsValue(fraction) as real / Power(10, |fraction|) as real
  {
    hide DigitsValue, Power, Stripped, Value, IsDecimal;
    StrippedKeepsValue(fraction);
    if Stripped(fraction) == "" {
      FirstPower();
      WholeReadsBack(whole);
    } else {
      PointReadsBack(whole, Stripped(fraction));
    }
  }

  lemma RoundedReadsBack(v: real, k: nat)
    requires v >= 0.0
    ensures IsDecimal(Rounded(v, k))
    ensures var p := Power(10, k); Value(Rounded(v, k)) == Nearest(Times(v, p)) as real / p as real
  {
    var p := Power(10, k);
    var n := Nearest(Times(v, p));
    hide Digits, Fixed, DigitsValue, Power, Nearest, Times, Value, IsDecimal, Assembled;
    DigitsReadBack(Over(n, p));
    FixedReadsBack(n, k);
    AssembledReadsBack(Digits(Over(n, p)), Fixed(n, k));
    Parts(n, p);
  }

  /** What is printed is a decimal of the value sent. */
  lemma GeneralReadsBack(v: real)
    requires v == 0.0 || IsPlain(v)
    ensures IsDecimal(General(v)) && Value(General(v)) == Sent(v)
  {
    if v == 0.0 {
      assert AreDigits("0") && DigitsValue("0") == 0 by { assert "0"[..0] == ""; }
      WholeReadsBack("0");
    } else {
      RoundedReadsBack(v, Places(v));
    }
  }

  lemma SixDigits(v: real)
    requires IsPlain(v)
    ensures Times(v, Power(10, Places(v))) >= 100000.0
  {
    assert Power(10, 0) == 1 && Power(10, 1) == 10 && Power(10, 2) == 100 && Power(10, 3) == 1000;
    assert Power(10, 4) == 10000 && Power(10, 5) == 100000 && Power(10, 6) == 1000000;
    assert Power(10, 7) == 10000000 && Power(10, 8) == 100000000 && Power(10, 9) == 1000000000;
  }

  /** What is sent is a number exactly when it has no more than six significant digits, and else is close to it. */
  lemma SentIsClose(v: real)
    requires v == 0.0 || IsPlain(v)
    ensures Sent(v) >= 0.0 && -v <= 200000.0 * (Sent(v) - v) <= v
    ensures v > 0.0 ==> (Sent(v) == v <==> HasSixDigits(v))
  {
    if v > 0.0 {
      SixDigits(v);
      SentBy(v, Power(10, Places(v)));
    }
  }

  lemma SentBy(v: real, p: nat)
    requires IsPlain(v) && p == Power(10, Places(v)) && Times(v, p) >= 100000.0
    ensures Sent(v) >= 0.0 && -v <= 200000.0 * (Sent(v) - v) <= v
    ensures Sent(v) == v <==> Times(v, p) == Times(v, p).Floor as real
  {
    hide Places, Power, Nearest;
    var r := Times(v, p);
    ErrorIsSmall(v, p as real, r, Nearest(r) as real, Sent(v));
  }

  lemma ErrorIsSmall(v: real, p: real, r: real, n: real, s: real)
    requires p > 0.0 && r == v * p && s == n / p && r >= 100000.0 && n >= 0.0 && -0.5 <= n - r <= 0.5
    ensures s >= 0.0 && -v <= 200000.0 * (s - v) <= v && (s == v <==> n == r)
  {
    assert s * p == n;
    var e := 200000.0 * (s - v);
    assert e * p == 200000.0 * (n - r);
    assert (v - e) * p == r - 200000.0 * (n - r) && (v + e) * p == r + 200000.0 * (n - r);
    SignOfProduct(p, v - e, (v - e) * p);
    SignOfProduct(p, v + e, (v + e) * p);
    SignOfProduct(p, s, n);
    assert (s - v) * p == n - r;
    SignOfProduct(p, s - v, n - r);
  }
}
