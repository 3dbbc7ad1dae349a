/** The sizes the rounding rule chooses, without roots: in integers alone, and what they say about the bounds. */
module IntegerSizes {
  import opened Bytes
  import opened Arith
  import opened Reals
  import opened SmartResize

  // -------------------------------------------------------------------- counts

  /** `factor` squared, along the other side. */
  function Block(other: int, factor: int): (r: nat)
    requires other > 0 && factor > 0
    ensures r > 0
  {
    MulMono2(1, 1, factor, factor);
    MulMono2(1, 1, factor * factor, other);
    factor * factor * other
  }

  /** Factors along a side that is shrunk to fit `max`: never none. */
  function ShrunkCount(side: int, other: int, factor: int, max: int): (r: nat)
    requires side > 0 && other > 0 && factor > 0 && max > 0
  {
    MulMono2(1, 1, side, max);
    Max(1, FloorSqrt(side * max / Block(other, factor)))
  }

  /** Factors along a side that is enlarged to reach `min`. */
  function EnlargedCount(side: int, other: int, factor: int, min: int): (r: nat)
    requires side > 0 && other > 0 && factor > 0 && min > 0
  {
    MulMono2(1, 1, side, min);
    FloorSqrt((side * min - 1) / Block(other, factor)) + 1
  }

  /** Squares of whole factors, along the other side. */
  function Reach(c: int, other: int, factor: int): int {
    c * factor * (c * factor) * other
  }

  lemma ReachIs(c: int, other: int, factor: int)
    requires other > 0 && factor > 0
    ensures Reach(c, other, factor) == c * c * Block(other, factor)
  {
    assert c * factor * (c * factor) == c * c * (factor * factor);
    assert c * c * (factor * factor) * other == c * c * (factor * factor * other);
  }

  lemma RootAtMostOne(n: nat, d: nat)
    requires d > 0
    ensures FloorSqrt(n / d) <= 1 <==> n < 4 * d
  {
    RootOfQuotient(n, d, 0);
    RootOfQuotient(n, d, 1);
    assert (1 + 1) * (1 + 1) * d == 4 * d;
  }

  /** The largest number of factors that fits, or one. */
  lemma ShrunkCountMeans(side: int, other: int, factor: int, max: int, c: nat)
    requires side > 0 && other > 0 && factor > 0 && max > 0
    ensures ShrunkCount(side, other, factor, max) == c <==>
      c >= 1 && (c == 1 || Reach(c, other, factor) <= side * max) && side * max < Reach(c + 1, other, factor)
  {
    hide Block, Reach;
    MulMono2(1, 1, side, max);
    var n, d := side * max, Block(other, factor);
    ReachIs(c, other, factor);
    ReachIs(c + 1, other, factor);
    RootOfQuotient(n, d, c);
    RootOfQuotient(n, d, 0);
    RootAtMostOne(n, d);
    assert Reach(1 + 1, other, factor) == 4 * d by { ReachIs(2, other, factor); }
  }

  /** The least number of factors that reaches. */
  lemma EnlargedCountMeans(side: int, other: int, factor: int, min: int, c: nat)
    requires side > 0 && other > 0 && factor > 0 && min > 0
    ensures EnlargedCount(side, other, factor, min) == c <==>
      c >= 1 && Reach(c - 1, other, factor) < side * min <= Reach(c, other, factor)
  {
    hide Block, Reach;
    MulMono2(1, 1, side, min);
    if c >= 1 {
      ReachIs(c, other, factor);
      ReachIs(c - 1, other, factor);
      RootOfQuotient(side * min - 1, Block(other, factor), c - 1);
    }
  }

  // ---------------------------------------------------------- from roots to counts

  lemma SideAbove(side: int, other: int, n: int, min: int, beta: real)
    requires side > 0 && other > 0 && n > 0 && min > 0 && beta > 0.0
    requires Enlarges(beta, other, side, min)
    ensures n * n * other < side * min <==> (n as real) < Scaled(side, beta)
  {
    var b := side as real * beta;
    StrictProduct(side as real, beta, b);
    SquareLess(n as real, b);
    MulLess(n as real * n as real, b * b, other as real);
    EnlargedSquare(other as real, side as real, min as real, beta);
    assert n as real * n as real * other as real == (n * n * other) as real;
    assert side as real * min as real == (side * min) as real;
  }

  lemma ShrunkBy(side: int, beta: real, factor: int, p: int)
    requires beta > 0.0 && factor > 0 && p == (Divided(side, beta) / factor as real).Floor && p >= 0
    ensures Shrunk(side, beta, factor) == factor * Max(1, p)
  {
    hide Divided;
    if p >= 1 { MulMono(factor, 1, p); }
  }

  lemma FromRoot(side: int, other: int, factor: int, max: int, p: nat)
    requires side > 0 && other > 0 && factor > 0 && max > 0
    requires p == 0 || Reach(p, other, factor) <= side * max
    requires side * max < Reach(p + 1, other, factor)
    ensures ShrunkCount(side, other, factor, max) == Max(1, p)
  {
    hide Block, Reach;
    MulMono2(1, 1, side, max);
    ReachIs(p, other, factor);
    ReachIs(p + 1, other, factor);
    RootOfQuotient(side * max, Block(other, factor), p);
  }

  /** A shrunk side is the factor times its count. */
  lemma ShrunkIs(side: int, other: int, factor: int, max: int, beta: real)
    requires side > 0 && other > 0 && factor > 0 && max > 0 && beta > 0.0
    requires Shrinks(beta, other, side, max)
    ensures Shrunk(side, beta, factor) == factor * ShrunkCount(side, other, factor, max)
  {
    var a := Divided(side, beta);
    var p := (a / factor as real).Floor;
    Positive(side as real, beta);
    FloorDiv(a, factor);
    Positive(a, factor as real);
    assert p >= 0;
    MulMono(factor, 0, p);
    SideBelow(other, side, (p + 1) * factor, max, beta);
    if p > 0 {
      MulMono(factor, 1, p);
      SideBelow(other, side, p * factor, max, beta);
    }
    FromRoot(side, other, factor, max, p);
    hide *;
    ShrunkBy(side, beta, factor, p);
  }

  /** An enlarged side is the factor times its count. */
  lemma EnlargedIs(side: int, other: int, factor: int, min: int, beta: real)
    requires side > 0 && other > 0 && factor > 0 && min > 0 && beta > 0.0
    requires Enlarges(beta, other, side, min)
    ensures Enlarged(side, beta, factor) == factor * EnlargedCount(side, other, factor, min)
  {
    var x := Scaled(side, beta);
    var k := Ceil(x / factor as real);
    StrictProduct(side as real, beta, x);
    CeilDiv(x, factor);
    if k <= 0 { MulMono(factor, k, 0); }
    MulMono(factor, 1, k);
    SideAbove(side, other, k * factor, min, beta);
    if k > 1 {
      MulMono(factor, 1, k - 1);
      SideAbove(side, other, (k - 1) * factor, min, beta);
    } else {
      MulMono2(1, 1, side, min);
    }
    EnlargedCountMeans(side, other, factor, min, k);
  }

  // ------------------------------------------------------------- the rule in integers

  /** The size before the last check, with integers only. */
  function IntegerSize(w: int, h: int, factor: int, min: int, max: int): (int, int)
    requires ValidBounds(w, h, factor, min, max)
  {
    if RoundedArea(w, h, factor) > max then
      (factor * ShrunkCount(w, h, factor, max), factor * ShrunkCount(h, w, factor, max))
    else if RoundedArea(w, h, factor) < min then
      (factor * EnlargedCount(w, h, factor, min), factor * EnlargedCount(h, w, factor, min))
    else (Rounded(w, factor), Rounded(h, factor))
  }

  lemma ResizedInIntegers(w: int, h: int, factor: int, min: int, max: int, sqrt: real -> real)
    requires SquareRoot(sqrt) && ValidBounds(w, h, factor, min, max)
    ensures Resized(w, h, factor, min, max, sqrt) == IntegerSize(w, h, factor, min, max)
  {
    hide Rounded, RoundedArea, Shrunk, Enlarged, ShrinkBeta, EnlargeBeta, ShrunkCount, EnlargedCount;
    if RoundedArea(w, h, factor) > max {
      BetaOfShrink(w, h, max, sqrt);
      ShrunkIs(w, h, factor, max, ShrinkBeta(w, h, max, sqrt));
      ShrunkIs(h, w, factor, max, ShrinkBeta(w, h, max, sqrt));
    } else if RoundedArea(w, h, factor) < min {
      BetaOfEnlarge(w, h, min, sqrt);
      EnlargedIs(w, h, factor, min, EnlargeBeta(w, h, min, sqrt));
      EnlargedIs(h, w, factor, min, EnlargeBeta(w, h, min, sqrt));
    }
  }

  /** The whole rule needs no root: what it computes with one is what integers alone give. */
  lemma DimensionsInIntegers(w: i32, h: i32, factor: i32, min: i32, max: i32, sqrt: real -> real)
    requires SquareRoot(sqrt)
    ensures Dimensions(w, h, factor, min, max, sqrt) ==
      if !ValidBounds(w, h, factor, min, max) then InvalidBounds
      else if Max(w, h) > 200 * Min(w, h) then ExtremeAspect
      else var (width, height) := IntegerSize(w, h, factor, min, max); Sized(width, height)
  {
    AcceptsExactly(w, h, factor, min, max, sqrt);
    if ValidBounds(w, h, factor, min, max) {
      AspectMeans(w, h);
      ResizedInIntegers(w, h, factor, min, max, sqrt);
      DimensionsOf(w, h, factor, min, max, sqrt);
    }
    hide Resized, IntegerSize, TooLong;
  }

  /** The largest multiple of the factor whose square along the other side fits `max` times its own, or one factor. */
  predicate IsShrunk(x: int, side: int, other: int, factor: int, max: int)
    requires factor > 0
  {
    && x > 0 && x % factor == 0 && (x == factor || x * x * other <= side * max)
    && side * max < (x + factor) * (x + factor) * other
  }

  /** A multiple of the factor, the least whose square along the other side reaches `min` times its own. */
  predicate IsEnlarged(x: int, side: int, other: int, factor: int, min: int)
    requires factor > 0
  {
    && x > 0 && x % factor == 0
    && (x - factor) * (x - factor) * other < side * min <= x * x * other
  }

  lemma ReachOf(c: int, other: int, factor: int)
    ensures Reach(c, other, factor) == factor * c * (factor * c) * other
    ensures factor * (c + 1) == factor * c + factor && factor * (c - 1) == factor * c - factor
  {
    assert c * factor == factor * c;
  }

  lemma CountIsShrunk(side: int, other: int, factor: int, max: int)
    requires side > 0 && other > 0 && factor > 0 && max > 0
    ensures IsShrunk(factor * ShrunkCount(side, other, factor, max), side, other, factor, max)
  {
    hide ShrunkCount, Reach;
    var c := ShrunkCount(side, other, factor, max);
    ShrunkCountMeans(side, other, factor, max, c);
    ReachOf(c, other, factor);
    ReachOf(c + 1, other, factor);
    MulMono(factor, 1, c);
    MultipleBack(c, factor);
    assert c * factor == factor * c;
  }

  lemma CountIsEnlarged(side: int, other: int, factor: int, min: int)
    requires side > 0 && other > 0 && factor > 0 && min > 0
    ensures IsEnlarged(factor * EnlargedCount(side, other, factor, min), side, other, factor, min)
  {
    hide EnlargedCount, Reach;
    var c := EnlargedCount(side, other, factor, min);
    EnlargedCountMeans(side, other, factor, min, c);
    ReachOf(c, other, factor);
    ReachOf(c - 1, other, factor);
    MulMono(factor, 1, c);
    MultipleBack(c, factor);
    assert c * factor == factor * c;
  }

  /**
    * What the rule chooses, each side for itself: the nearest multiples where their product is within the bounds, else
    * the largest multiples that fit or the least that reach.
    */
  lemma SizeMeans(w: i32, h: i32, factor: i32, min: i32, max: i32, sqrt: real -> real, nearW: int, nearH: int)
    requires SquareRoot(sqrt) && w > 0 && h > 0 && factor > 0 && 0 < min <= max && w <= 200 * h && h <= 200 * w
    requires IsNearestMultiple(nearW, w, factor) && IsNearestMultiple(nearH, h, factor)
    ensures var r := Dimensions(w, h, factor, min, max, sqrt);
      && r.Sized?
      && (nearW * nearH > max ==> IsShrunk(r.width, w, h, factor, max) && IsShrunk(r.height, h, w, factor, max))
      && (nearW * nearH < min ==> IsEnlarged(r.width, w, h, factor, min) && IsEnlarged(r.height, h, w, factor, min))
      && (min <= nearW * nearH <= max ==> r.width == nearW && r.height == nearH)
  {
    hide Dimensions, ShrunkCount, EnlargedCount, Rounded, IsNearestMultiple, IsShrunk, IsEnlarged;
    DimensionsInIntegers(w, h, factor, min, max, sqrt);
    RoundedMeans(w, factor, nearW);
    RoundedMeans(h, factor, nearH);
    assert RoundedArea(w, h, factor) == nearW * nearH;
    CountIsShrunk(w, h, factor, max);
    CountIsShrunk(h, w, factor, max);
    CountIsEnlarged(w, h, factor, min);
    CountIsEnlarged(h, w, factor, min);
  }

  // -------------------------------------------------------------- the bounds, exactly

  /** As many blocks as the counts say cover the lower bound. */
  predicate ShrinkKeepsMinimum(w: int, h: int, factor: int, min: int, max: int)
    requires ValidBounds(w, h, factor, min, max)
  {
    factor * factor * (ShrunkCount(w, h, factor, max) * ShrunkCount(h, w, factor, max)) >= min
  }

  predicate EnlargeKeepsMaximum(w: int, h: int, factor: int, min: int, max: int)
    requires ValidBounds(w, h, factor, min, max)
  {
    factor * factor * (EnlargedCount(w, h, factor, min) * EnlargedCount(h, w, factor, min)) <= max
  }

  lemma WholeFactors(factor: int, c: nat)
    requires factor > 0
    ensures factor * c / factor == c
  {
    MultipleOf(c, factor);
  }

  lemma FourFactors(a: int, b: int, c: int, d: int)
    ensures (a * b) * (c * d) == (a * c) * (b * d)
    ensures (a * b) * (c * d) == (a * c) * (d * b)
  {
    assert (a * b) * (c * d) == a * (b * (c * d));
    assert b * (c * d) == c * (b * d);
    assert b * d == d * b;
  }

  lemma BlockArea(factor: int, c: nat, d: nat)
    requires factor > 0
    ensures (factor * c) * (factor * d) == factor * factor * (c * d)
    ensures Tokens(factor * c, factor * d, factor) == c * d
  {
    WholeFactors(factor, c);
    WholeFactors(factor, d);
    FourFactors(factor, c, factor, d);
  }

  /** In each branch, exactly when either bound is met. */
  lemma BoundsExactly(w: i32, h: i32, factor: i32, min: i32, max: i32, sqrt: real -> real)
    requires SquareRoot(sqrt)
    ensures var r := Dimensions(w, h, factor, min, max, sqrt);
      r.Sized? ==>
        if RoundedArea(w, h, factor) > max then
          && (r.width * r.height <= max <==> AreaFits(Min(w, h), Max(w, h), factor, max))
          && (r.width * r.height >= min <==> ShrinkKeepsMinimum(w, h, factor, min, max))
        else if RoundedArea(w, h, factor) < min then
          && r.width * r.height >= min
          && (r.width * r.height <= max <==> EnlargeKeepsMaximum(w, h, factor, min, max))
        else min <= r.width * r.height <= max
  {
    hide AreaFits, RoundedArea, ShrunkCount, EnlargedCount, Dimensions;
    AreaLands(w, h, factor, min, max, sqrt);
    DimensionsInIntegers(w, h, factor, min, max, sqrt);
    if Dimensions(w, h, factor, min, max, sqrt).Sized? {
      if RoundedArea(w, h, factor) > max {
        BlockArea(factor, ShrunkCount(w, h, factor, max), ShrunkCount(h, w, factor, max));
      } else if RoundedArea(w, h, factor) < min {
        BlockArea(factor, EnlargedCount(w, h, factor, min), EnlargedCount(h, w, factor, min));
      }
    }
  }

  // -------------------------------------------------------------------- tokens

  lemma SquareAtMost(a: nat, b: nat)
    requires a * a <= b * b
    ensures a <= b
  {
    if a > b { MulMono2(b + 1, b + 1, a, a); }
  }

  lemma SquareProducts(x: nat, h: nat, y: nat, w: nat, c: nat, d: nat)
    requires x * h <= c && y * w <= d
    ensures (x * h) * (y * w) <= c * d
  {
    MulMono2(x * h, y * w, c, d);
  }

  lemma CancelBlock(x: int, y: int, z: int)
    requires z > 0 && x * z <= y * z
    ensures x <= y
  {
    if x > y { MulMono(z, y + 1, x); }
  }

  lemma Crosswise(w: int, h: int, bound: int, a: nat, b: nat)
    requires w > 0 && h > 0 && bound > 0 && a * a * h <= w * bound && b * b * w <= h * bound
    ensures a * b <= bound
  {
    MulMono2(1, 1, w, h);
    MulMono2(0, 0, a, b);
    FourFactors(a, a, b, b);
    FourFactors(w, bound, h, bound);
    FourFactors(a * a, h, b * b, w);
    SquareProducts(a * a, h, b * b, w, w * bound, h * bound);
    CancelBlock(a * b * (a * b), bound * bound, w * h);
    SquareAtMost(a * b, bound);
  }

  /** Two counts that fit crosswise cover no more than the bound. */
  lemma CrosswiseFits(w: int, h: int, factor: int, bound: int, c: nat, d: nat)
    requires w > 0 && h > 0 && factor > 0 && bound > 0
    requires Reach(c, h, factor) <= w * bound && Reach(d, w, factor) <= h * bound
    ensures c * factor * (d * factor) <= bound
  {
    var a, b := c * factor, d * factor;
    MulMono2(0, 0, c, factor);
    MulMono2(0, 0, d, factor);
    Crosswise(w, h, bound, a, b);
  }

  lemma ShrunkTokens(w: i32, h: i32, factor: i32, max: i32)
    requires w > 0 && h > 0 && factor > 0 && max > 0
    requires ShrunkCount(w, h, factor, max) <= INT_MAX && ShrunkCount(h, w, factor, max) <= INT_MAX
    ensures ShrunkCount(w, h, factor, max) * ShrunkCount(h, w, factor, max) <= INT_MAX
  {
    var c, d := ShrunkCount(w, h, factor, max), ShrunkCount(h, w, factor, max);
    ShrunkCountMeans(w, h, factor, max, c);
    ShrunkCountMeans(h, w, factor, max, d);
    hide ShrunkCount, Reach;
    if c > 1 && d > 1 {
      CrosswiseFits(w, h, factor, max, c, d);
      MulMono2(1, 1, factor, factor);
      FourFactors(c, factor, d, factor);
      MulMono2(0, 0, c, d);
      MulMono(c * d, 1, factor * factor);
    }
  }

  /** One factor less than the count stays below 2 to the 20th. */
  lemma CountIsSmall(side: int, other: int, factor: int, min: i32, c: nat)
    requires 0 < side <= 200 * other && factor >= 2 && min > 0 && c >= 1 && Reach(c - 1, other, factor) < side * min
    ensures (c - 1) * factor < MILLION && 2 * (c - 1) < MILLION
  {
    var n := (c - 1) * factor;
    MulMono2(0, 0, c - 1, factor);
    MulMono(c - 1, 2, factor);
    if n >= MILLION {
      MulMono2(MILLION, MILLION, n, n);
      MulMono2(MILLION * MILLION, other, n * n, other);
      MulMono2(side, min, 200 * other, INT_MAX);
    }
  }

  lemma Quartered(a: nat, b: nat, factor: int, min: i32)
    requires factor >= 2 && a * factor * (b * factor) <= min && 2 * a < MILLION && 2 * b < MILLION
    ensures (a + 1) * (b + 1) <= INT_MAX
  {
    FourFactors(a, factor, b, factor);
    MulMono2(2, 2, factor, factor);
    MulMono2(0, 0, a, b);
    MulMono(a * b, 4, factor * factor);
    assert (a + 1) * (b + 1) == a * b + a + b + 1;
  }

  lemma EnlargedTokens(w: i32, h: i32, factor: i32, min: i32)
    requires w > 0 && h > 0 && factor >= 2 && min > 0 && Max(w, h) <= 200 * Min(w, h)
    ensures EnlargedCount(w, h, factor, min) * EnlargedCount(h, w, factor, min) <= INT_MAX
  {
    var c, d := EnlargedCount(w, h, factor, min), EnlargedCount(h, w, factor, min);
    EnlargedCountMeans(w, h, factor, min, c);
    EnlargedCountMeans(h, w, factor, min, d);
    hide EnlargedCount;
    CountIsSmall(w, h, factor, min, c);
    CountIsSmall(h, w, factor, min, d);
    CrosswiseFits(w, h, factor, min, c - 1, d - 1);
    hide Reach;
    Quartered(c - 1, d - 1, factor, min);
  }

  lemma RoundedTokens(w: i32, h: i32, factor: i32, max: i32)
    requires w > 0 && h > 0 && factor > 0 && 0 < RoundedArea(w, h, factor) <= max
    ensures Tokens(Rounded(w, factor), Rounded(h, factor), factor) <= max
  {
    hide Rounded, Tokens;
    RoundedSides(w, h, factor, max);
    TilesOf(Rounded(w, factor), Rounded(h, factor), factor);
    var t := Tokens(Rounded(w, factor), Rounded(h, factor), factor);
    MulMono2(1, 1, factor, factor);
    MulMono(t, 1, factor * factor);
  }

  /** Only where single pixels are counted and the image is enlarged can the tokens exceed an `int`. */
  predicate TokensExceed(w: int, h: int, factor: int, min: int, max: int)
    requires ValidBounds(w, h, factor, min, max)
  {
    factor == 1 && w * h < min && EnlargedCount(w, h, 1, min) * EnlargedCount(h, w, 1, min) > INT_MAX
  }

  lemma RoundedByOne(w: int, h: int)
    requires w > 0 && h > 0
    ensures RoundedArea(w, h, 1) == w * h
  {
  }

  lemma TokensExactly(w: i32, h: i32, factor: i32, min: i32, max: i32, sqrt: real -> real)
    requires SquareRoot(sqrt)
    ensures var r := Dimensions(w, h, factor, min, max, sqrt);
      r.Sized? ==> (Tokens(r.width, r.height, factor) > INT_MAX <==> TokensExceed(w, h, factor, min, max))
  {
    hide RoundedArea, Rounded, ShrunkCount, EnlargedCount, Dimensions, Tokens;
    SizedFits(w, h, factor, min, max, sqrt);
    DimensionsInIntegers(w, h, factor, min, max, sqrt);
    if Dimensions(w, h, factor, min, max, sqrt).Sized? {
      RoundedByOne(w, h);
      if RoundedArea(w, h, factor) > max {
        var c, d := ShrunkCount(w, h, factor, max), ShrunkCount(h, w, factor, max);
        BlockArea(factor, c, d);
        MulMono(c, 1, factor);
        MulMono(d, 1, factor);
        ShrunkTokens(w, h, factor, max);
      } else if RoundedArea(w, h, factor) < min {
        BlockArea(factor, EnlargedCount(w, h, factor, min), EnlargedCount(h, w, factor, min));
        if factor >= 2 { EnlargedTokens(w, h, factor, min); }
      } else {
        RoundedTokens(w, h, factor, max);
      }
    }
  }
}
