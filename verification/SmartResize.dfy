/** The rounding rule that chooses an image size: multiples of a factor, area within bounds, aspect kept. */
module SmartResize {
  import opened Bytes
  import Arith
  import opened Reals

  datatype Outcome = Sized(width: int, height: int) | InvalidBounds | ExtremeAspect | UnsupportedSize

  const INT_MAX: int := 0x7FFF_FFFF
  const INT64_MAX: int := 0x7FFF_FFFF_FFFF_FFFF

  /** What is asked of `std::sqrt`, in exact arithmetic. */
  ghost predicate SquareRoot(sqrt: real -> real) {
    forall x: real :: x > 0.0 ==> sqrt(x) > 0.0 && sqrt(x) * sqrt(x) == x
  }

  /** Nearest quotient; a tie goes to the even one. */
  function RoundDiv(value: int, divisor: int): int
    requires value > 0 && divisor > 0
  {
    var quotient, doubled := value / divisor, value % divisor * 2;
    if doubled < divisor || (doubled == divisor && quotient % 2 == 0) then quotient else quotient + 1
  }

  function Max(a: int, b: int): int {
    if a < b then b else a
  }

  function Min(a: int, b: int): int {
    if a < b then a else b
  }

  function FloorTo(x: real, factor: int): int
    requires factor > 0
  {
    (x / factor as real).Floor * factor
  }

  function CeilTo(x: real, factor: int): int
    requires factor > 0
  {
    Ceil(x / factor as real) * factor
  }

  function Divided(side: int, beta: real): real
    requires beta > 0.0
  {
    side as real / beta
  }

  function Scaled(side: int, beta: real): real {
    side as real * beta
  }

  function Shrunk(side: int, beta: real, factor: int): int
    requires beta > 0.0 && factor > 0
  {
    Max(factor, FloorTo(Divided(side, beta), factor))
  }

  function Enlarged(side: int, beta: real, factor: int): int
    requires factor > 0
  {
    CeilTo(Scaled(side, beta), factor)
  }

  predicate ValidBounds(w: int, h: int, factor: int, min: int, max: int) {
    w > 0 && h > 0 && factor > 0 && 0 < min <= max
  }

  predicate TooLong(w: int, h: int)
    requires w > 0 && h > 0
  {
    Max(w, h) as real / Min(w, h) as real > 200.0
  }

  function Rounded(side: int, factor: int): int
    requires side > 0 && factor > 0
  {
    RoundDiv(side, factor) * factor
  }

  function RoundedArea(w: int, h: int, factor: int): int
    requires w > 0 && h > 0 && factor > 0
  {
    Rounded(h, factor) * Rounded(w, factor)
  }

  function ShrinkBeta(w: int, h: int, max: int, sqrt: real -> real): real
    requires w > 0 && h > 0 && max > 0
  {
    sqrt((h * w) as real / max as real)
  }

  function EnlargeBeta(w: int, h: int, min: int, sqrt: real -> real): real
    requires w > 0 && h > 0
  {
    Arith.MulMono(w, 1, h);
    sqrt(min as real / (h * w) as real)
  }

  /** The size before the last check. A root that is not positive, which a square root never is, has no quotient. */
  function Resized(w: int, h: int, factor: int, min: int, max: int, sqrt: real -> real): (int, int)
    requires ValidBounds(w, h, factor, min, max)
  {
    if RoundedArea(w, h, factor) > max then
      var beta := ShrinkBeta(w, h, max, sqrt);
      if beta <= 0.0 then (0, 0) else (Shrunk(w, beta, factor), Shrunk(h, beta, factor))
    else if RoundedArea(w, h, factor) < min then
      var beta := EnlargeBeta(w, h, min, sqrt);
      (Enlarged(w, beta, factor), Enlarged(h, beta, factor))
    else (Rounded(w, factor), Rounded(h, factor))
  }

  function Dimensions(w: i32, h: i32, factor: i32, min: i32, max: i32, sqrt: real -> real): Outcome {
    if !ValidBounds(w, h, factor, min, max) then InvalidBounds
    else if TooLong(w, h) then ExtremeAspect
    else
      var (width, height) := Resized(w, h, factor, min, max, sqrt);
      if width <= 0 || height <= 0 || width > INT_MAX || height > INT_MAX || width > INT64_MAX / height
      then UnsupportedSize
      else Sized(width, height)
  }

  // ----------------------------------------------------------------- arithmetic

  lemma Cancel(x: real, y: real, z: real, product: real)
    requires z > 0.0 && x * z == product && y * z == product
    ensures x == y
  {
    assert (x - y) * z == 0.0;
  }

  lemma MulLess(x: real, y: real, z: real)
    requires z > 0.0
    ensures x < y <==> x * z < y * z
  {
    if x < y { assert (y - x) * z > 0.0; }
    if x > y { assert (x - y) * z > 0.0; }
  }

  /** Squares are compared as their sides are. */
  lemma SquareLess(x: real, y: real)
    requires x > 0.0 && y > 0.0
    ensures x < y <==> x * x < y * y
  {
    MulLess(x, y, x);
    MulLess(x, y, y);
  }

  lemma SquarePositive(x: real, z: real)
    requires x > 0.0 && z == x * x
    ensures z > 0.0
  {
    StrictProduct(x, x, z);
  }

  lemma MulBoth(a: real, b: real, c: real, d: real)
    requires 0.0 <= a <= c && 0.0 <= b <= d
    ensures a * b <= c * d
  {
    Product(a, d - b, a * (d - b));
    Product(c - a, d, (c - a) * d);
  }

  lemma DivBack(x: real, y: real)
    requires y != 0.0
    ensures x / y * y == x
  {
  }

  lemma RealMul(a: int, b: int)
    ensures (a * b) as real == a as real * b as real
  {
  }

  lemma FloorDiv(x: real, f: int)
    requires f > 0
    ensures var k := (x / f as real).Floor; (k * f) as real <= x < ((k + 1) * f) as real
  {
    var q, k, g := x / f as real, (x / f as real).Floor, f as real;
    assert q * g == x by { DivBack(x, g); }
    RealMul(k, f);
    RealMul(k + 1, f);
    MulLess(q, k as real, g);
    MulLess(q, (k + 1) as real, g);
  }

  lemma CeilDiv(x: real, f: int)
    requires f > 0
    ensures var k := Ceil(x / f as real); ((k - 1) * f) as real < x <= (k * f) as real
  {
    var k := Ceil(x / f as real);
    assert -(x / f as real) == (-x) / f as real;
    FloorDiv(-x, f);
    assert -(-k * f) == k * f && -((-k + 1) * f) == (k - 1) * f;
  }

  lemma MultipleOf(k: int, f: int)
    requires f > 0
    ensures k * f % f == 0 && k * f / f == k
    ensures k > 0 ==> k * f >= f
  {
    if k >= 0 {
      Arith.DigitsOf(k, 0, f);
      if k > 0 { Arith.MulMono(f, 1, k); }
    } else {
      Arith.DigitsOf(-k, 0, f);
      var q := k * f / f;
      assert (q - k) * f + k * f % f == 0;
      if q > k { Arith.MulMono(f, 1, q - k); }
      if q < k { Arith.MulMono(f, q - k, -1); }
    }
  }

  // ------------------------------------------------------------------- rounding

  /** The rounding lambda: the nearest quotient, and of two equally near ones the even one. */
  lemma RoundDivIsNearest(value: int, divisor: int, r: int)
    requires value > 0 && divisor > 0
    ensures RoundDiv(value, divisor) == r <==>
      && -divisor <= 2 * (value - r * divisor) <= divisor
      && (2 * (value - r * divisor) == divisor || 2 * (value - r * divisor) == -divisor ==> r % 2 == 0)
  {
    var q, rest := value / divisor, value % divisor;
    assert value == q * divisor + rest;
    assert (q + 1) * divisor == q * divisor + divisor;
    if r < q {
      Arith.MulMono(divisor, r, q - 1);
      assert (q - 1) * divisor == q * divisor - divisor;
    } else if r > q + 1 {
      Arith.MulMono(divisor, q + 2, r);
      assert (q + 2) * divisor == q * divisor + 2 * divisor;
    }
  }

  /** The multiple of the factor that is nearest to the side, of two equally near ones the even multiple. */
  predicate IsNearestMultiple(r: int, side: int, factor: int)
    requires factor > 0
  {
    && r % factor == 0 && -factor <= 2 * (side - r) <= factor
    && (2 * (side - r) == factor || 2 * (side - r) == -factor ==> r / factor % 2 == 0)
  }

  lemma MultipleBack(q: int, factor: int)
    requires factor > 0
    ensures q * factor % factor == 0 && q * factor / factor == q
  {
    Arith.AboveQuotient(q + 1, q * factor, factor);
    Arith.AboveQuotient(q, q * factor, factor);
    assert q * factor == q * factor / factor * factor + q * factor % factor;
  }

  lemma RoundedMeans(side: int, factor: int, r: int)
    requires side > 0 && factor > 0
    ensures Rounded(side, factor) == r <==> IsNearestMultiple(r, side, factor)
  {
    var q := RoundDiv(side, factor);
    RoundDivIsNearest(side, factor, q);
    RoundDivIsNearest(side, factor, r / factor);
    hide RoundDiv;
    MultipleBack(q, factor);
    if r % factor == 0 { assert r == r / factor * factor; }
  }

  /** A rounded side is the factor, or at most four thirds of the side. */
  lemma RoundedBound(side: int, factor: int)
    requires side > 0 && factor > 0
    ensures 0 <= Rounded(side, factor) && (Rounded(side, factor) <= factor || 3 * Rounded(side, factor) <= 4 * side)
  {
    var q, r := side / factor, side % factor;
    assert side == q * factor + r;
    Arith.MulMono(factor, 0, q);
    if q >= 1 {
      Arith.MulMono(factor, 1, q);
      assert (q + 1) * factor == q * factor + factor;
    } else {
      assert q == 0;
    }
  }

  lemma RoundedSideFits(side: i32, factor: i32)
    requires side > 0 && factor > 0
    ensures 0 <= Rounded(side, factor) < 2863311532
  {
    RoundedBound(side, factor);
    hide Rounded;
    var r := Rounded(side, factor);
    assert side < 0x8000_0000 && factor < 0x8000_0000;
  }

  /** The product of the rounded sides never overflows 64 bits. */
  lemma RoundedAreaFits(w: i32, h: i32, factor: i32)
    requires w > 0 && h > 0 && factor > 0
    ensures 0 <= RoundedArea(w, h, factor) <= INT64_MAX
  {
    RoundedSideFits(w, factor);
    RoundedSideFits(h, factor);
    hide Rounded;
    Arith.MulMono2(Rounded(h, factor), Rounded(w, factor), 2863311532, 2863311532);
  }

  // ------------------------------------------------------------------ shrinking

  lemma Regroup(a: real, b: real, c: real, d: real)
    ensures (a * b) * (c * d) == (a * c) * (b * d)
  {
    assert (a * b) * (c * d) == a * (b * (c * d));
    assert b * (c * d) == c * (b * d);
  }

  /** What a true square root makes of `beta`, in either branch. */
  ghost predicate Shrinks(beta: real, s: int, l: int, max: int) {
    beta * beta * max as real == s as real * l as real
  }

  ghost predicate Enlarges(beta: real, s: int, l: int, min: int) {
    beta * beta * (s as real * l as real) == min as real
  }

  /** The exact sides multiply to the bound. */
  lemma ExactShrink(s: real, l: real, max: real, beta: real)
    requires beta > 0.0 && beta * beta * max == s * l
    ensures (s / beta) * (l / beta) == max
  {
    var a, b, z := s / beta, l / beta, beta * beta;
    DivBack(s, beta);
    DivBack(l, beta);
    Regroup(a, b, beta, beta);
    SquarePositive(beta, z);
    assert (a * b) * z == max * z;
    var w := a * b;
    assert w * z == max * z;
    Cancel(w, max, z, max * z);
  }

  /** The square of an exact side. */
  lemma ExactShrinkSquare(s: real, l: real, max: real, beta: real)
    requires beta > 0.0 && beta * beta * max == s * l
    ensures (l / beta) * (l / beta) * s == l * max
  {
    var b, z := l / beta, beta * beta;
    DivBack(l, beta);
    Regroup(b, b, beta, beta);
    SquarePositive(beta, z);
    assert (b * b) * z == l * l;
    Regroup(b * b, s, z, 1.0);
    Regroup(l, l, s, 1.0);
    Regroup(l, max, z, 1.0);
    assert (b * b * s) * z == l * l * s;
    assert l * l * s == l * (s * l);
    assert l * (z * max) == (l * max) * z;
    var x, y := b * b * s, l * max;
    assert x * z == y * z;
    Cancel(x, y, z, y * z);
  }

  /** The integer test: the long exact side is below `m` factors, where `m` is one more than fit in `max`. */
  predicate LongSideFits(s: int, l: int, factor: int, max: int)
    requires factor > 0
  {
    Arith.MulMono(factor, 1, factor);
    var m := max / (factor * factor) + 1;
    max * l < m * factor * (m * factor) * s
  }

  predicate AreaFits(s: int, l: int, factor: int, max: int)
    requires factor > 0
  {
    factor * factor <= max && LongSideFits(s, l, factor, max)
  }

  lemma SideBelow(s: int, l: int, n: int, max: int, beta: real)
    requires s > 0 && l > 0 && n > 0 && beta > 0.0 && l as real / beta > 0.0 && Shrinks(beta, s, l, max)
    ensures max * l < n * n * s <==> l as real / beta < n as real
  {
    var b := l as real / beta;
    SquareLess(b, n as real);
    MulLess(b * b, n as real * n as real, s as real);
    ExactShrinkSquare(s as real, l as real, max as real, beta);
    assert n as real * n as real * s as real == (n * n * s) as real;
    assert l as real * max as real == (max * l) as real;
  }

  lemma LongSideMeans(s: int, l: int, factor: int, max: int, beta: real)
    requires s > 0 && l > 0 && factor > 0 && max > 0 && beta > 0.0 && Shrinks(beta, s, l, max)
    ensures factor * factor > 0
    ensures LongSideFits(s, l, factor, max)
       <==> l as real / beta < ((max / (factor * factor) + 1) * factor) as real
  {
    Arith.MulMono(factor, 1, factor);
    var n := (max / (factor * factor) + 1) * factor;
    Arith.MulMono(factor, 1, max / (factor * factor) + 1);
    Positive(l as real, beta);
    SideBelow(s, l, n, max, beta);
  }

  /** What `m` counts: whole factors along the long side, when the short side is one factor. */
  lemma FactorsFit(q: int, factor: int, max: int)
    requires q >= 1 && factor > 0 && max > 0
    ensures factor * factor > 0
    ensures q * factor * factor <= max <==> q < max / (factor * factor) + 1
    ensures q * factor * factor <= max ==> factor * factor <= max
  {
    Arith.MulMono(factor, 1, factor);
    var ff := factor * factor;
    Arith.AboveQuotient(q, max, ff);
    assert q * factor * factor == q * ff;
    Arith.MulMono(ff, 1, q);
  }

  lemma BelowFactors(b: real, q: int, m: int, factor: int)
    requires factor > 0 && (q * factor) as real <= b < ((q + 1) * factor) as real
    ensures q < m <==> b < (m * factor) as real
  {
    if q < m { Arith.MulMono(factor, q + 1, m); } else { Arith.MulMono(factor, m, q); }
  }

  /** Neither side clamped: the area is within the bound, and so is one factor by the long side. */
  lemma UnclampedFits(a: real, b: real, p: int, q: int, factor: int, max: int)
    requires factor > 0 && max > 0 && p >= 1 && q >= 1 && a * b == max as real
    requires (p * factor) as real <= a && (q * factor) as real <= b
    ensures p * factor * (q * factor) <= max && q * factor * factor <= max
  {
    Arith.MulMono2(factor, 0, p * factor, 0);
    Arith.MulMono(factor, 1, p);
    Arith.MulMono(factor, 1, q);
    MulBoth((p * factor) as real, (q * factor) as real, a, b);
    assert (p * factor) as real * (q * factor) as real == (p * factor * (q * factor)) as real;
    Arith.MulMono(q * factor, factor, p * factor);
    assert q * factor * factor <= q * factor * (p * factor);
  }

  /** Both sides clamped: one factor squared is above the bound. */
  lemma ClampedExceeds(a: real, b: real, factor: int, max: int)
    requires factor > 0 && 0.0 < a < factor as real && 0.0 < b < factor as real && a * b == max as real
    ensures factor * factor > max
  {
    MulLess(a, factor as real, b);
    MulLess(b, factor as real, factor as real);
    assert factor as real * factor as real == (factor * factor) as real;
  }

  lemma DividedProduct(s: int, l: int, max: int, beta: real)
    requires 0 < s && 0 < l && max > 0 && beta > 0.0 && Shrinks(beta, s, l, max)
    ensures Divided(s, beta) > 0.0 && Divided(l, beta) > 0.0 && Divided(s, beta) * Divided(l, beta) == max as real
    ensures Divided(s, beta) == s as real / beta && Divided(l, beta) == l as real / beta
  {
    ExactShrink(s as real, l as real, max as real, beta);
    Positive(s as real, beta);
    Positive(l as real, beta);
  }

  lemma LongSideCounts(s: int, l: int, q: int, factor: int, max: int, beta: real)
    requires s > 0 && l > 0 && factor > 0 && max > 0 && beta > 0.0 && Shrinks(beta, s, l, max)
    requires (q * factor) as real <= Divided(l, beta) < ((q + 1) * factor) as real
    ensures factor * factor > 0 && (LongSideFits(s, l, factor, max) <==> q < max / (factor * factor) + 1)
  {
    hide LongSideFits, Shrinks;
    LongSideMeans(s, l, factor, max, beta);
    BelowFactors(Divided(l, beta), q, max / (factor * factor) + 1, factor);
  }

  lemma LongerHasMore(s: int, l: int, a: real, b: real, p: int, q: int, factor: int, beta: real)
    requires 0 < s <= l && factor > 0 && beta > 0.0 && a == s as real / beta && b == l as real / beta
    requires p == (a / factor as real).Floor && q == (b / factor as real).Floor
    ensures p <= q
  {
    DivBack(s as real, beta);
    DivBack(l as real, beta);
    MulLess(b, a, beta);
    DivBack(a, factor as real);
    DivBack(b, factor as real);
    MulLess(b / factor as real, a / factor as real, factor as real);
  }

  lemma ShrunkCases(s: int, l: int, a: real, b: real, p: int, q: int, factor: int, max: int, beta: real)
    requires 0 < s <= l && factor > 0 && max > 0 && beta > 0.0
    requires a == s as real / beta && b == l as real / beta && a > 0.0 && b > 0.0 && a * b == max as real
    requires p == (a / factor as real).Floor && q == (b / factor as real).Floor
    requires Divided(s, beta) == a && Divided(l, beta) == b
    requires (p * factor) as real <= a < ((p + 1) * factor) as real
    requires (q * factor) as real <= b < ((q + 1) * factor) as real
    requires factor * factor > 0 && (LongSideFits(s, l, factor, max) <==> q < max / (factor * factor) + 1)
    ensures Shrunk(s, beta, factor) * Shrunk(l, beta, factor) <= max <==> AreaFits(s, l, factor, max)
  {
    hide LongSideFits;
    Positive(a, factor as real);
    Positive(b, factor as real);
    assert p >= 0 && q >= 0;
    LongerHasMore(s, l, a, b, p, q, factor, beta);
    if q == 0 {
      ClampedExceeds(a, b, factor, max);
    } else {
      FactorsFit(q, factor, max);
      Arith.MulMono(factor, 1, q);
      if p == 0 {
        assert factor * (q * factor) == q * factor * factor;
      } else {
        Arith.MulMono(factor, 1, p);
        UnclampedFits(a, b, p, q, factor, max);
      }
    }
  }

  /** In the shrinking branch the area is within the bound exactly when the integer test says so. */
  lemma ShrunkArea(s: int, l: int, factor: int, max: int, beta: real)
    requires 0 < s <= l && factor > 0 && max > 0 && beta > 0.0 && Shrinks(beta, s, l, max)
    ensures Shrunk(s, beta, factor) * Shrunk(l, beta, factor) <= max <==> AreaFits(s, l, factor, max)
  {
    hide LongSideFits, AreaFits, Shrunk, Divided, Shrinks;
    var a, b := Divided(s, beta), Divided(l, beta);
    var p, q := (a / factor as real).Floor, (b / factor as real).Floor;
    DividedProduct(s, l, max, beta);
    FloorDiv(a, factor);
    FloorDiv(b, factor);
    LongSideCounts(s, l, q, factor, max, beta);
    ShrunkCases(s, l, a, b, p, q, factor, max, beta);
  }

  // ------------------------------------------------------------------ enlarging

  lemma AreaAtLeast(x: real, y: real, a: int, b: int, min: int)
    requires 0.0 < x <= a as real && 0.0 < y <= b as real && x * y == min as real
    ensures a * b >= min
  {
    MulBoth(x, y, a as real, b as real);
    assert a as real * b as real == (a * b) as real;
  }

  lemma ScaledProduct(w: int, h: int, min: int, beta: real)
    requires w > 0 && h > 0 && beta > 0.0 && Enlarges(beta, w, h, min)
    ensures Scaled(w, beta) > 0.0 && Scaled(h, beta) > 0.0 && Scaled(w, beta) * Scaled(h, beta) == min as real
  {
    StrictProduct(w as real, beta, Scaled(w, beta));
    StrictProduct(h as real, beta, Scaled(h, beta));
    Regroup(w as real, beta, h as real, beta);
  }

  lemma CeilToMeans(x: real, factor: int)
    requires factor > 0 && x > 0.0
    ensures x <= CeilTo(x, factor) as real && CeilTo(x, factor) % factor == 0 && CeilTo(x, factor) >= factor
    ensures CeilTo(x, factor) == factor || factor as real < x
  {
    var k := Ceil(x / factor as real);
    CeilDiv(x, factor);
    if k <= 0 { Arith.MulMono(factor, k, 0); }
    MultipleOf(k, factor);
    if k >= 2 { Arith.MulMono(factor, 1, k - 1); }
  }

  /** Rounding up never loses area. */
  lemma EnlargedArea(w: int, h: int, factor: int, min: int, beta: real)
    requires w > 0 && h > 0 && factor > 0 && beta > 0.0 && Enlarges(beta, w, h, min)
    ensures Enlarged(w, beta, factor) * Enlarged(h, beta, factor) >= min
  {
    hide CeilTo, Scaled, Enlarges;
    var x, y := Scaled(w, beta), Scaled(h, beta);
    ScaledProduct(w, h, min, beta);
    CeilToMeans(x, factor);
    CeilToMeans(y, factor);
    var a, b := CeilTo(x, factor), CeilTo(y, factor);
    AreaAtLeast(x, y, a, b, min);
  }

  // -------------------------------------------------------------------- the rule

  const MILLION: int := 0x10_0000

  lemma TimesGrows(x: real, y: real, z: real)
    requires x <= y && z > 0.0
    ensures x * z <= y * z
  {
    if x < y { MulLess(x, y, z); }
  }

  lemma SquareAtLeast(b: real, s: real)
    requires b >= 1048576.0 && s > 0.0
    ensures b * b * s >= 1099511627776.0 * s
  {
    MulBoth(1048576.0, 1048576.0, b, b);
    TimesGrows(1099511627776.0, b * b, s);
  }

  lemma ProductGrows(x: real, y: real, z: real, w: real)
    requires x <= z && z > 0.0 && 0.0 < y <= w
    ensures x * y <= z * w
  {
    TimesGrows(x, z, y);
    TimesGrows(y, w, z);
  }

  lemma ProductAtMost(l: real, s: real, m: real)
    requires s > 0.0 && l <= 200.0 * s && 0.0 < m <= INT_MAX as real
    ensures l * m <= 429496729400.0 * s
  {
    var k := 200.0 * s;
    ProductGrows(l, m, k, 2147483647.0);
  }

  /** With an aspect of at most 200 and an area below 2 to the 31st, no side reaches 2 to the 20th. */
  lemma SideIsSmall(b: real, s: real, l: real, m: real)
    requires b > 0.0 && s > 0.0 && b * b * s == l * m && l <= 200.0 * s && 0.0 < m <= INT_MAX as real
    ensures b < MILLION as real
  {
    if b >= 1048576.0 {
      SquareAtLeast(b, s);
      ProductAtMost(l, s, m);
      assert false;
    }
  }

  lemma BetaOfShrink(w: int, h: int, max: int, sqrt: real -> real)
    requires SquareRoot(sqrt) && w > 0 && h > 0 && max > 0
    ensures var beta := ShrinkBeta(w, h, max, sqrt);
      beta > 0.0 && Shrinks(beta, Min(w, h), Max(w, h), max)
  {
    Arith.MulMono(w, 1, h);
    var ratio := (h * w) as real / max as real;
    Positive((h * w) as real, max as real);
    assert sqrt(ratio) * sqrt(ratio) == ratio;
    DivBack((h * w) as real, max as real);
    assert (h * w) as real == h as real * w as real == w as real * h as real;
  }

  lemma BetaOfEnlarge(w: int, h: int, min: int, sqrt: real -> real)
    requires SquareRoot(sqrt) && w > 0 && h > 0 && min > 0
    ensures var beta := EnlargeBeta(w, h, min, sqrt);
      beta > 0.0 && Enlarges(beta, w, h, min)
  {
    Arith.MulMono(w, 1, h);
    var area := (h * w) as real;
    Positive(min as real, area);
    assert sqrt(min as real / area) * sqrt(min as real / area) == min as real / area;
    DivBack(min as real, area);
    assert area == h as real * w as real == w as real * h as real;
  }

  lemma RatioAbove(l: real, s: real)
    requires s > 0.0
    ensures l / s > 200.0 <==> l > 200.0 * s
  {
    var q := l / s;
    DivBack(l, s);
    MulLess(200.0, q, s);
  }

  lemma AspectMeans(w: int, h: int)
    requires w > 0 && h > 0
    ensures TooLong(w, h) <==> Max(w, h) > 200 * Min(w, h)
  {
    RatioAbove(Max(w, h) as real, Min(w, h) as real);
  }

  lemma FloorToMeans(x: real, factor: int)
    requires factor > 0
    ensures FloorTo(x, factor) as real <= x && FloorTo(x, factor) % factor == 0
  {
    FloorDiv(x, factor);
    MultipleOf((x / factor as real).Floor, factor);
  }

  lemma CeilToBelow(x: real, factor: int)
    requires factor > 0
    ensures (CeilTo(x, factor) - factor) as real < x
  {
    var k := Ceil(x / factor as real);
    CeilDiv(x, factor);
    assert (k - 1) * factor == k * factor - factor;
  }

  lemma DividedSmall(side: int, s: int, l: int, max: i32, beta: real)
    requires 0 < s <= l <= 200 * s && (side == s || side == l) && max > 0 && beta > 0.0
    requires Shrinks(beta, s, l, max)
    ensures Divided(side, beta) < MILLION as real
  {
    var a, b := side as real / beta, l as real / beta;
    Positive(l as real, beta);
    ExactShrinkSquare(s as real, l as real, max as real, beta);
    SideIsSmall(b, s as real, l as real, max as real);
    DivBack(side as real, beta);
    DivBack(l as real, beta);
    MulLess(b, a, beta);
  }

  lemma EnlargedSquare(s: real, l: real, min: real, beta: real)
    requires beta * beta * (s * l) == min
    ensures (l * beta) * (l * beta) * s == l * min
  {
    var z := beta * beta;
    Regroup(l, beta, l, beta);
    assert (l * beta) * (l * beta) == (l * l) * z;
    assert (l * l) * z * s == l * (z * (s * l));
  }

  lemma ScaledSmall(side: int, s: int, l: int, min: i32, beta: real)
    requires 0 < s <= l <= 200 * s && (side == s || side == l) && min > 0 && beta > 0.0
    requires Enlarges(beta, s, l, min)
    ensures 0.0 < Scaled(side, beta) < MILLION as real
  {
    var x, b := side as real * beta, l as real * beta;
    StrictProduct(side as real, beta, x);
    StrictProduct(l as real, beta, b);
    EnlargedSquare(s as real, l as real, min as real, beta);
    SideIsSmall(b, s as real, l as real, min as real);
    MulLess(l as real, side as real, beta);
  }

  lemma ClampedFits(x: real, factor: i32)
    requires factor > 0 && x < MILLION as real
    ensures var n := Max(factor, FloorTo(x, factor)); factor <= n <= INT_MAX && n % factor == 0
  {
    hide FloorTo;
    FloorToMeans(x, factor);
    MultipleOf(1, factor);
  }

  lemma ShrunkSide(side: int, s: int, l: int, factor: i32, max: i32, beta: real)
    requires 0 < s <= l <= 200 * s && (side == s || side == l) && factor > 0 && max > 0 && beta > 0.0
    requires Shrinks(beta, s, l, max)
    ensures factor <= Shrunk(side, beta, factor) <= INT_MAX && Shrunk(side, beta, factor) % factor == 0
  {
    DividedSmall(side, s, l, max, beta);
    ClampedFits(Divided(side, beta), factor);
  }

  lemma EnlargedSide(side: int, s: int, l: int, factor: i32, min: i32, beta: real)
    requires 0 < s <= l <= 200 * s && (side == s || side == l) && factor > 0 && min > 0 && beta > 0.0
    requires Enlarges(beta, s, l, min)
    ensures factor <= Enlarged(side, beta, factor) <= INT_MAX && Enlarged(side, beta, factor) % factor == 0
  {
    hide CeilTo, Scaled;
    ScaledSmall(side, s, l, min, beta);
    CeilToMeans(Scaled(side, beta), factor);
    CeilToBelow(Scaled(side, beta), factor);
  }

  lemma RoundedSide(side: i32, factor: i32)
    requires side > 0 && factor > 0
    ensures Rounded(side, factor) % factor == 0 && Rounded(side, factor) >= 0
    ensures Rounded(side, factor) != 0 ==> Rounded(side, factor) >= factor
  {
    RoundedBound(side, factor);
    MultipleOf(RoundDiv(side, factor), factor);
  }

  ghost predicate Fits(n: int, factor: int) {
    0 < factor <= n <= INT_MAX && n % factor == 0
  }

  lemma ShrunkSides(w: i32, h: i32, factor: i32, max: i32, sqrt: real -> real)
    requires SquareRoot(sqrt) && w > 0 && h > 0 && factor > 0 && max > 0 && Max(w, h) <= 200 * Min(w, h)
    ensures var beta := ShrinkBeta(w, h, max, sqrt);
      beta > 0.0 && Fits(Shrunk(w, beta, factor), factor) && Fits(Shrunk(h, beta, factor), factor)
  {
    hide Shrunk, ShrinkBeta;
    BetaOfShrink(w, h, max, sqrt);
    ShrunkSide(w, Min(w, h), Max(w, h), factor, max, ShrinkBeta(w, h, max, sqrt));
    ShrunkSide(h, Min(w, h), Max(w, h), factor, max, ShrinkBeta(w, h, max, sqrt));
  }

  lemma EnlargedSides(w: i32, h: i32, factor: i32, min: i32, sqrt: real -> real)
    requires SquareRoot(sqrt) && w > 0 && h > 0 && factor > 0 && min > 0 && Max(w, h) <= 200 * Min(w, h)
    ensures var beta := EnlargeBeta(w, h, min, sqrt);
      Fits(Enlarged(w, beta, factor), factor) && Fits(Enlarged(h, beta, factor), factor)
  {
    hide Enlarged, EnlargeBeta;
    BetaOfEnlarge(w, h, min, sqrt);
    assert Min(w, h) as real * Max(w, h) as real == w as real * h as real;
    EnlargedSide(w, Min(w, h), Max(w, h), factor, min, EnlargeBeta(w, h, min, sqrt));
    EnlargedSide(h, Min(w, h), Max(w, h), factor, min, EnlargeBeta(w, h, min, sqrt));
  }

  lemma SidesWithin(a: int, b: int, max: int)
    requires a >= 0 && b >= 0 && 0 < a * b <= max
    ensures 0 < a <= max && 0 < b <= max
  {
    Arith.MulMono(a, 1, b);
    Arith.MulMono(b, 1, a);
  }

  lemma RoundedSides(w: i32, h: i32, factor: i32, max: i32)
    requires w > 0 && h > 0 && factor > 0 && 0 < RoundedArea(w, h, factor) <= max
    ensures Fits(Rounded(w, factor), factor) && Fits(Rounded(h, factor), factor)
  {
    hide Rounded;
    RoundedSide(w, factor);
    RoundedSide(h, factor);
    SidesWithin(Rounded(h, factor), Rounded(w, factor), max);
  }

  /** Both sides, before the last check: positive multiples of the factor that fit an `int`. */
  lemma ResizedSides(w: i32, h: i32, factor: i32, min: i32, max: i32, sqrt: real -> real)
    requires SquareRoot(sqrt) && ValidBounds(w, h, factor, min, max) && Max(w, h) <= 200 * Min(w, h)
    ensures var (width, height) := Resized(w, h, factor, min, max, sqrt); Fits(width, factor) && Fits(height, factor)
  {
    hide Shrunk, Enlarged, Rounded, RoundedArea, ShrinkBeta, EnlargeBeta, Fits;
    if RoundedArea(w, h, factor) > max {
      ShrunkSides(w, h, factor, max, sqrt);
    } else if RoundedArea(w, h, factor) < min {
      EnlargedSides(w, h, factor, min, sqrt);
    } else {
      RoundedSides(w, h, factor, max);
    }
  }

  /** The last check never fails: the call succeeds exactly when its bounds are valid and the aspect is legal. */
  lemma AcceptsExactly(w: i32, h: i32, factor: i32, min: i32, max: i32, sqrt: real -> real)
    requires SquareRoot(sqrt)
    ensures Dimensions(w, h, factor, min, max, sqrt).Sized?
      <==> w > 0 && h > 0 && factor > 0 && 0 < min <= max && w <= 200 * h && h <= 200 * w
    ensures var r := Dimensions(w, h, factor, min, max, sqrt);
      r.Sized? ==> r.width >= factor && r.height >= factor && r.width % factor == r.height % factor == 0
  {
    hide Resized;
    if ValidBounds(w, h, factor, min, max) {
      AspectMeans(w, h);
      if !TooLong(w, h) {
        ResizedSides(w, h, factor, min, max, sqrt);
        var (width, height) := Resized(w, h, factor, min, max, sqrt);
        Arith.MulMono2(width, height, INT_MAX, INT_MAX);
        Arith.AboveQuotient(width, INT64_MAX, height);
      }
    }
  }

  lemma ShrinkLands(w: int, h: int, factor: int, max: int, sqrt: real -> real)
    requires SquareRoot(sqrt) && w > 0 && h > 0 && factor > 0 && max > 0 && ShrinkBeta(w, h, max, sqrt) > 0.0
    ensures var beta := ShrinkBeta(w, h, max, sqrt);
      Shrunk(w, beta, factor) * Shrunk(h, beta, factor) <= max <==> AreaFits(Min(w, h), Max(w, h), factor, max)
  {
    hide AreaFits, Shrunk, ShrinkBeta;
    BetaOfShrink(w, h, max, sqrt);
    ShrunkArea(Min(w, h), Max(w, h), factor, max, ShrinkBeta(w, h, max, sqrt));
  }

  lemma EnlargeLands(w: int, h: int, factor: int, min: int, sqrt: real -> real)
    requires SquareRoot(sqrt) && w > 0 && h > 0 && factor > 0 && min > 0
    ensures var beta := EnlargeBeta(w, h, min, sqrt); Enlarged(w, beta, factor) * Enlarged(h, beta, factor) >= min
  {
    hide Enlarged, EnlargeBeta;
    BetaOfEnlarge(w, h, min, sqrt);
    EnlargedArea(w, h, factor, min, EnlargeBeta(w, h, min, sqrt));
  }

  lemma SizedFits(w: i32, h: i32, factor: i32, min: i32, max: i32, sqrt: real -> real)
    ensures var r := Dimensions(w, h, factor, min, max, sqrt);
      r.Sized? ==> 0 < r.width <= INT_MAX && 0 < r.height <= INT_MAX
  {
    hide Resized;
  }

  /** Where the area lands, branch by branch. */
  lemma AreaLands(w: i32, h: i32, factor: i32, min: i32, max: i32, sqrt: real -> real)
    requires SquareRoot(sqrt)
    ensures var r := Dimensions(w, h, factor, min, max, sqrt);
      r.Sized? ==>
        if RoundedArea(w, h, factor) > max then
          r.width * r.height <= max <==> AreaFits(Min(w, h), Max(w, h), factor, max)
        else if RoundedArea(w, h, factor) < min then r.width * r.height >= min
        else min <= r.width * r.height <= max
  {
    hide AreaFits, Shrunk, Enlarged, TooLong, Rounded, ShrinkBeta, EnlargeBeta;
    if Dimensions(w, h, factor, min, max, sqrt).Sized? {
      if RoundedArea(w, h, factor) > max {
        BetaOfShrink(w, h, max, sqrt);
        ShrinkLands(w, h, factor, max, sqrt);
      } else if RoundedArea(w, h, factor) < min {
        EnlargeLands(w, h, factor, min, sqrt);
      }
    }
  }

  lemma RoundedExact(side: int, factor: int)
    requires side > 0 && factor > 0 && side % factor == 0
    ensures Rounded(side, factor) == side
  {
  }

  lemma ResizedStays(w: i32, h: i32, factor: i32, min: i32, max: i32, sqrt: real -> real)
    requires ValidBounds(w, h, factor, min, max) && w % factor == h % factor == 0 && min <= w * h <= max
    ensures Resized(w, h, factor, min, max, sqrt) == (w, h)
  {
    hide Rounded, Shrunk, Enlarged, ShrinkBeta, EnlargeBeta;
    RoundedExact(w, factor);
    RoundedExact(h, factor);
  }

  lemma DimensionsOf(w: i32, h: i32, factor: i32, min: i32, max: i32, sqrt: real -> real)
    ensures var r := Dimensions(w, h, factor, min, max, sqrt);
      r.Sized? ==> ValidBounds(w, h, factor, min, max) && Resized(w, h, factor, min, max, sqrt) == (r.width, r.height)
  {
    hide Resized, TooLong;
  }

  lemma StaysPut(w: i32, h: i32, factor: i32, min: i32, max: i32, sqrt: real -> real)
    requires SquareRoot(sqrt) && ValidBounds(w, h, factor, min, max) && w % factor == h % factor == 0
    requires min <= w * h <= max && Max(w, h) <= 200 * Min(w, h)
    ensures Dimensions(w, h, factor, min, max, sqrt) == Sized(w, h)
  {
    AcceptsExactly(w, h, factor, min, max, sqrt);
    ResizedStays(w, h, factor, min, max, sqrt);
    hide *;
    DimensionsOf(w, h, factor, min, max, sqrt);
  }

  /** Resizing again changes nothing, whenever the first result is within bounds and of legal aspect. */
  lemma FixedPoint(w: i32, h: i32, factor: i32, min: i32, max: i32, sqrt: real -> real)
    requires SquareRoot(sqrt)
    ensures var r := Dimensions(w, h, factor, min, max, sqrt);
      r.Sized? && min <= r.width * r.height <= max && Max(r.width, r.height) <= 200 * Min(r.width, r.height)
      ==> Dimensions(r.width, r.height, factor, min, max, sqrt) == r
  {
    hide Resized;
    AcceptsExactly(w, h, factor, min, max, sqrt);
    var r := Dimensions(w, h, factor, min, max, sqrt);
    if r.Sized? && min <= r.width * r.height <= max && Max(r.width, r.height) <= 200 * Min(r.width, r.height) {
      StaysPut(r.width, r.height, factor, min, max, sqrt);
    }
  }

  // -------------------------------------------------------------------- tokens

  function Tokens(width: int, height: int, factor: int): int
    requires factor > 0
  {
    (width / factor) * (height / factor)
  }

  lemma SquareOut(a: int, b: int, c: int)
    ensures a * b * (c * c) == (a * c) * (b * c)
  {
    assert (a * c) * (b * c) == a * (c * (b * c));
    assert c * (b * c) == b * (c * c);
  }

  lemma TilesOf(width: int, height: int, factor: int)
    requires factor > 0 && width >= factor && height >= factor && width % factor == height % factor == 0
    ensures Tokens(width, height, factor) >= 1 && Tokens(width, height, factor) * (factor * factor) == width * height
  {
    var a, b := width / factor, height / factor;
    assert width == a * factor && height == b * factor;
    Arith.AboveQuotient(1, width, factor);
    Arith.AboveQuotient(1, height, factor);
    Arith.MulMono2(1, 1, a, b);
    SquareOut(a, b, factor);
  }

  /** Tokens tile the image exactly, and there is at least one. */
  lemma TokensTile(w: i32, h: i32, factor: i32, min: i32, max: i32, sqrt: real -> real)
    requires SquareRoot(sqrt)
    ensures var r := Dimensions(w, h, factor, min, max, sqrt);
      r.Sized? ==>
        && Tokens(r.width, r.height, factor) >= 1
        && Tokens(r.width, r.height, factor) * (factor * factor) == r.width * r.height
  {
    hide Dimensions;
    AcceptsExactly(w, h, factor, min, max, sqrt);
    var r := Dimensions(w, h, factor, min, max, sqrt);
    if r.Sized? {
      TilesOf(r.width, r.height, factor);
    }
  }

  // ------------------------------------------------------- bounds that are missed

  lemma RootOfSquare(sqrt: real -> real, root: real)
    requires SquareRoot(sqrt) && root > 0.0
    ensures sqrt(root * root) == root
  {
    var square := root * root;
    StrictProduct(root, root, square);
    var r := sqrt(square);
    assert r > 0.0 && r * r == square;
    SquareLess(r, root);
    SquareLess(root, r);
  }

  /** Shrinking can end above the upper bound, when the short side is clamped to the factor ... */
  lemma ShrinkMayOvershoot(sqrt: real -> real)
    requires SquareRoot(sqrt)
    ensures Dimensions(6, 600, 10, 1, 900, sqrt) == Sized(10, 300) && 10 * 300 > 900
  {
    RootOfSquare(sqrt, 2.0);
    assert ShrinkBeta(6, 600, 900, sqrt) == 2.0;
    assert RoundedArea(6, 600, 10) == 6000;
    assert Shrunk(6, 2.0, 10) == 10 && Shrunk(600, 2.0, 10) == 300;
  }

  /** ... and below the lower bound, when the rounded area exceeds the upper bound but the true area does not. */
  lemma ShrinkMayUndershoot(sqrt: real -> real)
    requires SquareRoot(sqrt)
    ensures Dimensions(15, 15, 10, 150, 225, sqrt) == Sized(10, 10) && 10 * 10 < 150
  {
    RootOfSquare(sqrt, 1.0);
    assert ShrinkBeta(15, 15, 225, sqrt) == 1.0;
    assert RoundedArea(15, 15, 10) == 400;
    assert Shrunk(15, 1.0, 10) == 10;
  }

  /** Enlarging can end above the upper bound. */
  lemma EnlargeMayOvershoot(sqrt: real -> real)
    requires SquareRoot(sqrt)
    ensures Dimensions(1, 1, 10, 225, 225, sqrt) == Sized(20, 20) && 20 * 20 > 225
  {
    RootOfSquare(sqrt, 15.0);
    assert EnlargeBeta(1, 1, 225, sqrt) == 15.0;
    assert RoundedArea(1, 1, 10) == 0;
    assert Enlarged(1, 15.0, 10) == 20;
  }

  /** With a factor of one the token count can exceed an `int`, so the caller's check of it is needed. */
  lemma TokensMayOverflow(sqrt: real -> real)
    requires SquareRoot(sqrt)
    ensures var r := Dimensions(1, 1, 1, INT_MAX, INT_MAX, sqrt); r.Sized? && Tokens(r.width, r.height, 1) > INT_MAX
  {
    var beta := EnlargeBeta(1, 1, INT_MAX, sqrt);
    BetaOfEnlarge(1, 1, INT_MAX, sqrt);
    SquareLess(46340.0, beta);
    SquareLess(beta, 46341.0);
    assert Enlarged(1, beta, 1) == 46341;
    assert RoundedArea(1, 1, 1) == 1;
  }
}
