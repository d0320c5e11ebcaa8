/** Exact decimal arithmetic used by the hedging step: powers of ten, the two
    BigDecimal rounding modes it applies at a fixed scale (HALF_UP and DOWN),
    and Java's narrowing of a BigInteger to a 32-bit int. Amounts are exact
    `real`s, so nothing here is floating point. */
module Decimal {

  /** 10^n. */
  function Pow10(n: nat): (p: int)
    ensures p >= 1
    ensures n > 0 ==> p >= 10
  {
    if n == 0 then 1 else 10 * Pow10(n - 1)
  }

  /** 10^n as an exact decimal. */
  function Ten(n: nat): (u: real)
    ensures u >= 1.0
  {
    Pow10(n) as real
  }

  /** BigDecimal.abs. */
  function Abs(x: real): (a: real)
    ensures a >= 0.0
    ensures a == x || a == -x
  {
    if x < 0.0 then -x else x
  }

  /** True when `t` is a whole number. */
  predicate Integral(t: real) {
    t.Floor as real == t
  }

  /** True when `y` is a whole multiple of 1/u. */
  predicate OnGrid(y: real, u: real) {
    Integral(y * u)
  }

  /** True when `x` has no digits beyond `scale` places after the point. */
  predicate HasScale(x: real, scale: nat) {
    OnGrid(x, Ten(scale))
  }

  /** True when `y` is within half of 1/u of `x`. */
  predicate WithinHalfStep(y: real, x: real, u: real) {
    Abs(y - x) * u <= 0.5
  }

  /** True when the magnitude of `y` falls short of that of `x` by less than
      1/u. */
  predicate ShortOfOneStep(y: real, x: real, u: real) {
    (Abs(x) - Abs(y)) * u < 1.0
  }

  lemma FloorOfInt(k: int)
    ensures Integral(k as real)
  {
  }

  /** Scaling by a positive factor preserves order. */
  lemma ScaleMonotone(a: real, b: real, u: real)
    requires u > 0.0
    requires a * u <= b * u
    ensures a <= b
  {
  }

  /** Multiplying by a positive factor is injective. */
  lemma CancelScale(a: real, b: real, u: real)
    requires u > 0.0
    requires a * u == b * u
    ensures a == b
  {
    ScaleMonotone(a, b, u);
    ScaleMonotone(b, a, u);
  }

  /** |x| * u == |x * u| for a positive factor u. */
  lemma AbsScale(x: real, u: real)
    requires u > 0.0
    ensures Abs(x) * u == Abs(x * u)
  {
    if x < 0.0 {
      assert (-x) * u == -(x * u);
    }
  }

  /** A value equal to a whole number, or to its negation, is a whole
      number. */
  lemma IntegralMatch(t: real, s: real)
    requires Integral(t) && (s == t || s == -t)
    ensures Integral(s)
  {
    var k := t.Floor;
    if s == -t {
      assert s == (-k) as real;
      FloorOfInt(-k);
    }
  }

  /* The rounding below is stated for a plain scale factor u (10^scale in
     use), which keeps the arithmetic the solver sees small. */

  /** A non-negative `a` truncated to a whole multiple of 1/u. */
  function Truncated(a: real, u: real): real
    requires u > 0.0
  {
    (a * u).Floor as real / u
  }

  /** A non-negative `a` rounded half-up to a whole multiple of 1/u. */
  function HalfUp(a: real, u: real): real
    requires u > 0.0
  {
    (a * u + 0.5).Floor as real / u
  }

  /** Truncation keeps a whole multiple of 1/u, never goes past `a`, and
      loses less than 1/u. */
  lemma TruncatedBounds(a: real, u: real)
    requires u > 0.0 && a >= 0.0
    ensures Integral(Truncated(a, u) * u)
    ensures 0.0 <= Truncated(a, u) <= a
    ensures (a - Truncated(a, u)) * u < 1.0
  {
    var k := (a * u).Floor;
    assert Truncated(a, u) * u == k as real;
    FloorOfInt(k);
    ScaleMonotone(Truncated(a, u), a, u);
    assert 0.0 <= k as real by {
      assert 0.0 <= a * u;
    }
    ScaleMonotone(0.0, Truncated(a, u), u);
    assert (a - Truncated(a, u)) * u == a * u - Truncated(a, u) * u;
  }

  /** Half-up rounding keeps a whole multiple of 1/u and moves `a` by at
      most half of 1/u. */
  lemma HalfUpBounds(a: real, u: real)
    requires u > 0.0 && a >= 0.0
    ensures Integral(HalfUp(a, u) * u)
    ensures 0.0 <= HalfUp(a, u)
    ensures Abs(HalfUp(a, u) - a) * u <= 0.5
  {
    var k := (a * u + 0.5).Floor;
    assert HalfUp(a, u) * u == k as real;
    FloorOfInt(k);
    assert 0.0 <= k as real by {
      assert 0.0 <= a * u;
    }
    ScaleMonotone(0.0, HalfUp(a, u), u);
    assert (HalfUp(a, u) - a) * u == HalfUp(a, u) * u - a * u;
    AbsScale(HalfUp(a, u) - a, u);
  }

  /** The truncated magnitude of `x` with the sign of `x`: truncation toward
      zero. */
  function SignedTruncated(x: real, u: real): real
    requires u > 0.0
  {
    if x >= 0.0 then Truncated(Abs(x), u) else -Truncated(Abs(x), u)
  }

  /** The half-up rounded magnitude of `x` with the sign of `x`, so ties go
      away from zero. */
  function SignedHalfUp(x: real, u: real): real
    requires u > 0.0
  {
    if x >= 0.0 then HalfUp(Abs(x), u) else -HalfUp(Abs(x), u)
  }

  lemma SignedTruncationBounds(x: real, u: real)
    requires u > 0.0
    ensures OnGrid(SignedTruncated(x, u), u)
    ensures 0.0 <= x ==> 0.0 <= SignedTruncated(x, u) <= x
    ensures x <= 0.0 ==> x <= SignedTruncated(x, u) <= 0.0
    ensures ShortOfOneStep(SignedTruncated(x, u), x, u)
  {
    TruncatedBounds(Abs(x), u);
    IntegralMatch(Truncated(Abs(x), u) * u, SignedTruncated(x, u) * u);
    assert (Abs(x) - Abs(SignedTruncated(x, u))) * u == (Abs(x) - Truncated(Abs(x), u)) * u;
  }

  lemma SignedHalfUpBounds(x: real, u: real)
    requires u > 0.0
    ensures OnGrid(SignedHalfUp(x, u), u)
    ensures 0.0 <= x ==> 0.0 <= SignedHalfUp(x, u)
    ensures x <= 0.0 ==> SignedHalfUp(x, u) <= 0.0
    ensures WithinHalfStep(SignedHalfUp(x, u), x, u)
  {
    HalfUpBounds(Abs(x), u);
    IntegralMatch(HalfUp(Abs(x), u) * u, SignedHalfUp(x, u) * u);
    assert Abs(SignedHalfUp(x, u) - x) * u == Abs(HalfUp(Abs(x), u) - Abs(x)) * u;
  }

  /** `x.divide(1, scale, RoundingMode.DOWN)`: drop every digit beyond
      `scale`, truncating toward zero, so the result lies between zero and
      `x`. */
  function RoundDown(x: real, scale: nat): (y: real)
    ensures 0.0 <= x ==> 0.0 <= y <= x
    ensures x <= 0.0 ==> x <= y <= 0.0
  {
    SignedTruncationBounds(x, Ten(scale));
    SignedTruncated(x, Ten(scale))
  }

  /** A DOWN divide has no digits beyond its scale and loses less than one
      unit of the last digit kept. */
  lemma RoundDownBounds(x: real, scale: nat)
    ensures HasScale(RoundDown(x, scale), scale)
    ensures ShortOfOneStep(RoundDown(x, scale), x, Ten(scale))
  {
    SignedTruncationBounds(x, Ten(scale));
  }

  /** `x.divide(1, scale, RoundingMode.HALF_UP)`: round to the nearest
      decimal at `scale`, ties away from zero; the sign is kept. */
  function RoundHalfUp(x: real, scale: nat): (y: real)
    ensures 0.0 <= x ==> 0.0 <= y
    ensures x <= 0.0 ==> y <= 0.0
  {
    SignedHalfUpBounds(x, Ten(scale));
    SignedHalfUp(x, Ten(scale))
  }

  /** A HALF_UP divide has no digits beyond its scale and is within half a
      unit of the last digit kept of the exact value. */
  lemma RoundHalfUpBounds(x: real, scale: nat)
    ensures HasScale(RoundHalfUp(x, scale), scale)
    ensures WithinHalfStep(RoundHalfUp(x, scale), x, Ten(scale))
  {
    SignedHalfUpBounds(x, Ten(scale));
  }

  /** True when `a` is a whole multiple of 1/u plus half of 1/u. */
  predicate Midpoint(a: real, u: real) {
    Integral(a * u + 0.5)
  }

  /** True when `x` lies exactly halfway between two neighbouring whole
      multiples of 1/u. */
  predicate Halfway(x: real, u: real) {
    Midpoint(Abs(x), u)
  }

  /** True when the magnitude of `y` exceeds that of `x` by exactly half of
      1/u. */
  predicate AwayByHalfStep(y: real, x: real, u: real) {
    (Abs(y) - Abs(x)) * u == 0.5
  }

  /** A non-negative `a` halfway between two multiples of 1/u rounds up to
      the larger. */
  lemma HalfUpTie(a: real, u: real)
    requires u > 0.0 && a >= 0.0 && Midpoint(a, u)
    ensures (HalfUp(a, u) - a) * u == 0.5
  {
    var k := (a * u + 0.5).Floor;
    assert HalfUp(a, u) * u == k as real;
    assert (HalfUp(a, u) - a) * u == HalfUp(a, u) * u - a * u;
  }

  /** Ties go away from zero on either side. */
  lemma SignedHalfUpTie(x: real, u: real)
    requires u > 0.0 && Halfway(x, u)
    ensures AwayByHalfStep(SignedHalfUp(x, u), x, u)
  {
    var a := Abs(x);
    HalfUpBounds(a, u);
    HalfUpTie(a, u);
    assert Abs(SignedHalfUp(x, u)) == HalfUp(a, u);
  }

  /** HALF_UP's tie rule: a value exactly halfway between two decimals at
      `scale` rounds to the one farther from zero. */
  lemma RoundHalfUpTiesAway(x: real, scale: nat)
    requires Halfway(x, Ten(scale))
    ensures AwayByHalfStep(RoundHalfUp(x, scale), x, Ten(scale))
    ensures Abs(RoundHalfUp(x, scale)) > Abs(x)
  {
    SignedHalfUpTie(x, Ten(scale));
  }

  /** 2.5 and -2.5 round to 3 and -3 at scale 0, and 0.125 to 0.13 at
      scale 2. */
  lemma RoundHalfUpExamples()
    ensures RoundHalfUp(2.5, 0) == 3.0
    ensures RoundHalfUp(-2.5, 0) == -3.0
    ensures RoundHalfUp(0.125, 2) == 0.13
  {
  }

  /** Truncating a whole multiple of 1/u changes nothing. */
  lemma TruncatedFixes(a: real, u: real)
    requires u > 0.0 && Integral(a * u)
    ensures Truncated(a, u) == a
  {
    var k := (a * u).Floor;
    assert Truncated(a, u) * u == k as real;
    CancelScale(Truncated(a, u), a, u);
  }

  /** Rounding half-up a whole multiple of 1/u changes nothing. */
  lemma HalfUpFixes(a: real, u: real)
    requires u > 0.0 && Integral(a * u)
    ensures HalfUp(a, u) == a
  {
    var k := (a * u).Floor;
    assert (a * u + 0.5).Floor == k;
    assert HalfUp(a, u) * u == k as real;
    CancelScale(HalfUp(a, u), a, u);
  }

  /** Truncating a whole multiple of 1/u of either sign changes nothing. */
  lemma SignedTruncatedFixes(x: real, u: real)
    requires u > 0.0 && OnGrid(x, u)
    ensures SignedTruncated(x, u) == x
  {
    var a := Abs(x);
    IntegralMatch(x * u, a * u);
    TruncatedFixes(a, u);
  }

  /** Rounding half-up a whole multiple of 1/u of either sign changes
      nothing. */
  lemma SignedHalfUpFixes(x: real, u: real)
    requires u > 0.0 && OnGrid(x, u)
    ensures SignedHalfUp(x, u) == x
  {
    var a := Abs(x);
    IntegralMatch(x * u, a * u);
    HalfUpFixes(a, u);
  }

  /** Truncating a value that already fits the scale changes nothing. */
  lemma RoundDownFixesScaled(x: real, scale: nat)
    requires HasScale(x, scale)
    ensures RoundDown(x, scale) == x
  {
    SignedTruncatedFixes(x, Ten(scale));
  }

  /** Rounding half-up a value that already fits the scale changes nothing. */
  lemma RoundHalfUpFixesScaled(x: real, scale: nat)
    requires HasScale(x, scale)
    ensures RoundHalfUp(x, scale) == x
  {
    SignedHalfUpFixes(x, Ten(scale));
  }

  const INT_RANGE: int := 0x1_0000_0000
  const INT_MAX_PLUS_ONE: int := 0x8000_0000

  /** `BigInteger.intValue()`: the low 32 bits, read as a signed int. */
  function IntValue(n: int): (v: int)
    ensures -INT_MAX_PLUS_ONE <= v < INT_MAX_PLUS_ONE
    ensures (n - v) % INT_RANGE == 0
  {
    var m := n % INT_RANGE;
    if m >= INT_MAX_PLUS_ONE then m - INT_RANGE else m
  }

  /** A value that fits in an int survives the narrowing unchanged. */
  lemma IntValueOfInt(n: int)
    requires -INT_MAX_PLUS_ONE <= n < INT_MAX_PLUS_ONE
    ensures IntValue(n) == n
  {
  }
}
