/** The inverse cosine transform of the FAST codec, in exact real arithmetic. */
module Dct {
  /** The functions of <cmath> the decoder calls, and the constant it spells out. */
  datatype RealMath = RealMath(pi: real, cos: real -> real, sin: real -> real, sqrt: real -> real)

  /** What is taken for granted about them. */
  ghost predicate Lawful(m: RealMath) {
    && (forall a: real, b: real :: m.cos(a + b) == m.cos(a) * m.cos(b) - m.sin(a) * m.sin(b))
    && (forall a: real, b: real :: m.sin(a + b) == m.sin(a) * m.cos(b) + m.cos(a) * m.sin(b))
    && (forall a: real :: m.cos(a) * m.cos(a) + m.sin(a) * m.sin(a) == 1.0)
    && (forall a: real :: m.sin(-a) == -m.sin(a) && m.cos(-a) == m.cos(a))
    && m.pi > 0.0 && m.sin(m.pi) == 0.0
    && (forall a: real :: 0.0 < a < m.pi ==> m.sin(a) > 0.0)
    && (forall x: real :: x >= 0.0 ==> m.sqrt(x) >= 0.0 && m.sqrt(x) * m.sqrt(x) == x)
  }

  lemma SinOfSum(m: RealMath, a: real, b: real)
    requires Lawful(m)
    ensures m.sin(a + b) == m.sin(a) * m.cos(b) + m.cos(a) * m.sin(b)
  {
  }

  lemma SameAngle(m: RealMath, a: real, b: real)
    requires a == b
    ensures m.sin(a) == m.sin(b) && m.cos(a) == m.cos(b)
  {
  }

  lemma CosOfSum(m: RealMath, a: real, b: real)
    requires Lawful(m)
    ensures m.cos(a + b) == m.cos(a) * m.cos(b) - m.sin(a) * m.sin(b)
  {
  }

  lemma OfNegative(m: RealMath, a: real)
    requires Lawful(m)
    ensures m.sin(-a) == -m.sin(a) && m.cos(-a) == m.cos(a)
  {
  }

  lemma SquaresAddUp(m: RealMath, a: real)
    requires Lawful(m)
    ensures m.cos(a) * m.cos(a) + m.sin(a) * m.sin(a) == 1.0
  {
  }

  lemma AtZero(m: RealMath)
    requires Lawful(m)
    ensures m.sin(0.0) == 0.0 && m.cos(0.0) == 1.0
  {
    hide Lawful;
    OfNegative(m, 0.0);
    SquaresAddUp(m, 0.0);
    CosOfSum(m, 0.0, 0.0);
    assert 0.0 + 0.0 == 0.0 && -0.0 == 0.0;
  }

  lemma AtPi(m: RealMath)
    requires Lawful(m)
    ensures m.pi > 0.0 && m.sin(m.pi) == 0.0
  {
  }

  lemma SinPositive(m: RealMath, a: real)
    requires Lawful(m) && 0.0 < a < m.pi
    ensures m.sin(a) > 0.0
  {
  }

  lemma Root(m: RealMath, x: real)
    requires Lawful(m) && x >= 0.0
    ensures m.sqrt(x) >= 0.0 && m.sqrt(x) * m.sqrt(x) == x
  {
  }

  // ------------------------------------------------------------ finite sums

  function Sum(n: nat, f: nat -> real): real {
    if n == 0 then 0.0 else Sum(n - 1, f) + f(n - 1)
  }

  lemma {:induction false} SumEqual(n: nat, f: nat -> real, g: nat -> real)
    requires forall i: nat :: i < n ==> f(i) == g(i)
    ensures Sum(n, f) == Sum(n, g)
  {
    if n > 0 {
      SumEqual(n - 1, f, g);
    }
  }

  lemma Distributes(a: real, x: real, y: real)
    ensures a * (x + y) == a * x + a * y
  {
  }

  lemma {:induction false} SumLinear(n: nat, f: nat -> real, g: nat -> real, h: nat -> real, a: real, b: real)
    requires forall i: nat :: i < n ==> h(i) == a * f(i) + b * g(i)
    ensures Sum(n, h) == a * Sum(n, f) + b * Sum(n, g)
  {
    if n > 0 {
      SumLinear(n - 1, f, g, h, a, b);
      var s, t, x, y := Sum(n - 1, f), Sum(n - 1, g), f(n - 1), g(n - 1);
      Distributes(a, s, x);
      Distributes(b, t, y);
      assert Sum(n, h) == (a * s + b * t) + (a * x + b * y);
    }
  }

  lemma {:induction false} SumScaled(n: nat, f: nat -> real, h: nat -> real, a: real)
    requires forall i: nat :: i < n ==> h(i) == a * f(i)
    ensures Sum(n, h) == a * Sum(n, f)
  {
    if n > 0 {
      SumScaled(n - 1, f, h, a);
      Distributes(a, Sum(n - 1, f), f(n - 1));
    }
  }

  lemma {:induction false} SumConstant(n: nat, f: nat -> real, a: real)
    requires forall i: nat :: i < n ==> f(i) == a
    ensures Sum(n, f) == n as real * a
  {
    if n > 0 {
      SumConstant(n - 1, f, a);
      assert n as real * a == (n - 1) as real * a + a;
    }
  }

  /** Only one term counts. */
  lemma {:induction false} SumSingle(n: nat, f: nat -> real, k: nat)
    requires k < n && forall i: nat :: i < n && i != k ==> f(i) == 0.0
    ensures Sum(n, f) == f(k)
  {
    if k == n - 1 {
      SumConstant(n - 1, f, 0.0);
    } else {
      SumSingle(n - 1, f, k);
    }
  }

  function Row(f: (nat, nat) -> real, i: nat): nat -> real {
    (j: nat) => f(i, j)
  }

  function Column(f: (nat, nat) -> real, j: nat): nat -> real {
    (i: nat) => f(i, j)
  }

  function RowSums(f: (nat, nat) -> real, m: nat): nat -> real {
    (i: nat) => Sum(m, Row(f, i))
  }

  function ColumnSums(f: (nat, nat) -> real, n: nat): nat -> real {
    (j: nat) => Sum(n, Column(f, j))
  }

  /** Summing a table by rows or by columns is the same. */
  lemma {:induction false} SumSwap(n: nat, m: nat, f: (nat, nat) -> real)
    ensures Sum(n, RowSums(f, m)) == Sum(m, ColumnSums(f, n))
  {
    if n == 0 {
      SumConstant(m, ColumnSums(f, 0), 0.0);
    } else {
      SumSwap(n - 1, m, f);
      SumLinear(m, ColumnSums(f, n - 1), Row(f, n - 1), ColumnSums(f, n), 1.0, 1.0);
      assert RowSums(f, m)(n - 1) == Sum(m, Row(f, n - 1));
      assert Sum(n, RowSums(f, m)) == Sum(n - 1, RowSums(f, m)) + RowSums(f, m)(n - 1);
    }
  }

  // --------------------------------------------------------------- the basis

  /** The angle as the source computes it. */
  function Angle(m: RealMath, horizon: nat, frequency: nat, time: nat): real
    requires horizon > 0
  {
    m.pi * (frequency as real) * ((2 * time + 1) as real) / (2.0 * (horizon as real))
  }

  function DcScale(m: RealMath, horizon: nat): real
    requires horizon > 0 && m.sqrt(horizon as real) != 0.0
  {
    1.0 / m.sqrt(horizon as real)
  }

  function AcScale(m: RealMath, horizon: nat): real
    requires horizon > 0
  {
    m.sqrt(2.0 / (horizon as real))
  }

  lemma Scales(m: RealMath, horizon: nat)
    requires Lawful(m) && horizon > 0
    ensures m.sqrt(horizon as real) != 0.0
    ensures DcScale(m, horizon) * DcScale(m, horizon) * (horizon as real) == 1.0
    ensures AcScale(m, horizon) * AcScale(m, horizon) * (horizon as real) == 2.0
  {
    hide Lawful;
    var n := horizon as real;
    Root(m, n);
    Root(m, 2.0 / n);
    var d := 1.0 / m.sqrt(n);
    assert d * m.sqrt(n) == 1.0;
    assert d * d * (m.sqrt(n) * m.sqrt(n)) == (d * m.sqrt(n)) * (d * m.sqrt(n));
  }

  /** What one unit of a frequency adds at a time step. */
  function Basis(m: RealMath, horizon: nat, frequency: nat, time: nat): real
    requires horizon > 0 && m.sqrt(horizon as real) != 0.0
  {
    if frequency == 0 then DcScale(m, horizon) else AcScale(m, horizon) * m.cos(Angle(m, horizon, frequency, time))
  }

  /** The basis in full: a constant, and cosines of odd multiples of ever larger angles. */
  lemma BasisIs(m: RealMath, h: nat, f: nat, t: nat)
    requires h > 0 && m.sqrt(h as real) != 0.0
    ensures Basis(m, h, 0, t) == 1.0 / m.sqrt(h as real)
    ensures f > 0 ==>
      Basis(m, h, f, t)
      == m.sqrt(2.0 / (h as real)) * m.cos(m.pi * (f as real) * ((2 * t + 1) as real) / (2.0 * (h as real)))
  {
    var angle := m.pi * (f as real) * ((2 * t + 1) as real) / (2.0 * (h as real));
    assert Angle(m, h, f, t) == angle;
    hide Angle;
    assert m.cos(Angle(m, h, f, t)) == m.cos(angle);
    hide DcScale;
    assert AcScale(m, h) == m.sqrt(2.0 / (h as real));
  }

  function Terms(m: RealMath, horizon: nat, coefficients: nat -> real, time: nat): nat -> real
    requires horizon > 0 && m.sqrt(horizon as real) != 0.0
  {
    (f: nat) => coefficients(f) * Basis(m, horizon, f, time)
  }

  function Output(m: RealMath, horizon: nat, coefficients: nat -> real, time: nat): real
    requires horizon > 0 && m.sqrt(horizon as real) != 0.0
  {
    Sum(horizon, Terms(m, horizon, coefficients, time))
  }

  // ----------------------------------------------------------- orthonormality

  function Times(k: nat, a: real): real {
    k as real * a
  }

  lemma TimesAdds(k: nat, l: nat, a: real)
    ensures Times(k + l, a) == Times(k, a) + Times(l, a)
    ensures k >= l ==> Times(k - l, a) == Times(k, a) - Times(l, a)
  {
  }

  lemma {:induction false} SinOfMultiple(m: RealMath, k: nat)
    requires Lawful(m)
    ensures m.sin(Times(k, m.pi)) == 0.0
  {
    hide Lawful;
    if k == 0 {
      AtZero(m);
      SameAngle(m, Times(k, m.pi), 0.0);
    } else {
      SinOfMultiple(m, k - 1);
      SinOfSum(m, Times(k - 1, m.pi), m.pi);
      AtPi(m);
      SameAngle(m, Times(k, m.pi), Times(k - 1, m.pi) + m.pi);
      assert m.sin(Times(k - 1, m.pi)) * m.cos(m.pi) == 0.0;
    }
  }

  function OddCosines(m: RealMath, a: real): nat -> real {
    (t: nat) => m.cos(Times(2 * t + 1, a))
  }

  lemma SinDifference(m: RealMath, mid: real, a: real)
    requires Lawful(m)
    ensures m.sin(mid + a) - m.sin(mid - a) == 2.0 * m.sin(a) * m.cos(mid)
  {
    hide Lawful;
    SinOfSum(m, mid, a);
    SinOfSum(m, mid, -a);
    OfNegative(m, a);
    assert mid - a == mid + -a;
  }

  /** The odd multiples of an angle telescope. */
  lemma {:induction false} Telescope(m: RealMath, a: real, n: nat)
    requires Lawful(m)
    ensures 2.0 * m.sin(a) * Sum(n, OddCosines(m, a)) == m.sin(Times(2 * n, a))
  {
    hide Lawful;
    if n == 0 {
      AtZero(m);
      SameAngle(m, Times(0, a), 0.0);
    } else {
      Telescope(m, a, n - 1);
      var mid := Times(2 * (n - 1) + 1, a);
      SinDifference(m, mid, a);
      SameAngle(m, Times(2 * n, a), mid + a);
      SameAngle(m, Times(2 * (n - 1), a), mid - a);
      var before := Sum(n - 1, OddCosines(m, a));
      assert Sum(n, OddCosines(m, a)) == before + m.cos(mid);
      assert 2.0 * m.sin(a) * (before + m.cos(mid)) == 2.0 * m.sin(a) * before + 2.0 * m.sin(a) * m.cos(mid);
    }
  }

  /** The smallest angle of the transform. */
  function Unit(m: RealMath, horizon: nat): real
    requires horizon > 0
  {
    m.pi / (2.0 * (horizon as real))
  }

  lemma Reorder(q: real, d: real, b: real, c: real)
    ensures q * d * b * c == c * (b * q) * d
  {
    assert q * d * b == b * q * d;
    assert b * q * d * c == c * (b * q) * d;
  }

  lemma Cancel(x: real, d: real)
    requires d != 0.0
    ensures x * d / d == x
  {
  }

  lemma Quotient(a: real, b: real, c: real, d: real)
    requires d != 0.0
    ensures a * b * c / d == c * (b * (a / d))
  {
    var q := a / d;
    var x, y := c * (b * q), a * b * c;
    assert a == q * d;
    Reorder(q, d, b, c);
    assert y == x * d;
    Cancel(x, d);
  }

  lemma AngleIs(m: RealMath, horizon: nat, f: nat, t: nat)
    requires horizon > 0
    ensures Angle(m, horizon, f, t) == Times(2 * t + 1, Times(f, Unit(m, horizon)))
  {
    Quotient(m.pi, f as real, (2 * t + 1) as real, 2.0 * (horizon as real));
  }

  lemma UnitBounds(m: RealMath, horizon: nat, k: nat)
    requires Lawful(m) && 0 < k < 2 * horizon
    ensures 0.0 < Times(k, Unit(m, horizon)) < m.pi
    ensures Times(2 * horizon, Times(k, Unit(m, horizon))) == Times(k, m.pi)
  {
    hide Lawful;
    AtPi(m);
    var u, d := Unit(m, horizon), 2.0 * (horizon as real);
    assert u * d == m.pi;
    assert u > 0.0;
    var kr, dr := k as real, (2 * horizon) as real;
    assert dr == d && 0.0 < kr < dr;
    assert kr * u < dr * u;
    assert dr * (kr * u) == kr * (u * d);
  }

  lemma ZeroFactor(a: real, b: real)
    requires a * b == 0.0 && a != 0.0
    ensures b == 0.0
  {
  }

  lemma CosinesCancel(m: RealMath, horizon: nat, k: nat)
    requires Lawful(m) && 0 < k < 2 * horizon
    ensures Sum(horizon, OddCosines(m, Times(k, Unit(m, horizon)))) == 0.0
  {
    hide Lawful, Unit, Times;
    var a := Times(k, Unit(m, horizon));
    UnitBounds(m, horizon, k);
    Telescope(m, a, horizon);
    SinOfMultiple(m, k);
    SinPositive(m, a);
    ZeroFactor(2.0 * m.sin(a), Sum(horizon, OddCosines(m, a)));
  }

  /** The product of two cosines as a sum of two. */
  lemma ProductOfCosines(m: RealMath, a: real, b: real)
    requires Lawful(m)
    ensures m.cos(a) * m.cos(b) == 0.5 * m.cos(a - b) + 0.5 * m.cos(a + b)
  {
    hide Lawful;
    CosOfSum(m, a, b);
    CosOfSum(m, a, -b);
    OfNegative(m, b);
    SameAngle(m, a - b, a + -b);
  }

  function Products(m: RealMath, horizon: nat, f: nat, g: nat): nat -> real
    requires horizon > 0 && m.sqrt(horizon as real) != 0.0
  {
    (t: nat) => Basis(m, horizon, f, t) * Basis(m, horizon, g, t)
  }

  function CosineProducts(m: RealMath, a: real, b: real): nat -> real {
    (t: nat) => m.cos(Times(2 * t + 1, a)) * m.cos(Times(2 * t + 1, b))
  }

  lemma SumOfCosineProducts(m: RealMath, horizon: nat, f: nat, g: nat)
    requires Lawful(m) && 1 <= g <= f < horizon
    ensures Sum(horizon, CosineProducts(m, Times(f, Unit(m, horizon)), Times(g, Unit(m, horizon))))
         == if f == g then 0.5 * (horizon as real) else 0.0
  {
    hide Lawful, Unit;
    var u := Unit(m, horizon);
    var minus, plus := OddCosines(m, Times(f - g, u)), OddCosines(m, Times(f + g, u));
    forall t: nat | t < horizon
      ensures CosineProducts(m, Times(f, u), Times(g, u))(t) == 0.5 * minus(t) + 0.5 * plus(t)
    {
      var a, b := Times(2 * t + 1, Times(f, u)), Times(2 * t + 1, Times(g, u));
      ProductOfCosines(m, a, b);
      TimesAdds(f, g, u);
      SameAngle(m, Times(2 * t + 1, Times(f - g, u)), a - b);
      SameAngle(m, Times(2 * t + 1, Times(f + g, u)), a + b);
    }
    SumLinear(horizon, minus, plus, CosineProducts(m, Times(f, u), Times(g, u)), 0.5, 0.5);
    CosinesCancel(m, horizon, f + g);
    if f == g {
      AtZero(m);
      forall t: nat | t < horizon ensures minus(t) == 1.0 {
        SameAngle(m, Times(2 * t + 1, Times(0, u)), 0.0);
      }
      SumConstant(horizon, minus, 1.0);
    } else {
      CosinesCancel(m, horizon, f - g);
    }
  }

  lemma OrthogonalToConstant(m: RealMath, horizon: nat, f: nat)
    requires Lawful(m) && 0 < f < horizon && m.sqrt(horizon as real) != 0.0
    ensures Sum(horizon, Products(m, horizon, f, 0)) == 0.0
  {
    hide Lawful, Angle, Unit, AcScale, DcScale, Times;
    var cosines := OddCosines(m, Times(f, Unit(m, horizon)));
    var scale := AcScale(m, horizon) * DcScale(m, horizon);
    forall t: nat | t < horizon ensures Products(m, horizon, f, 0)(t) == scale * cosines(t) {
      AngleIs(m, horizon, f, t);
    }
    SumScaled(horizon, cosines, Products(m, horizon, f, 0), scale);
    CosinesCancel(m, horizon, f);
  }

  lemma OrthonormalCosines(m: RealMath, horizon: nat, f: nat, g: nat)
    requires Lawful(m) && 0 < g <= f < horizon && m.sqrt(horizon as real) != 0.0
    ensures Sum(horizon, Products(m, horizon, f, g)) == if f == g then 1.0 else 0.0
  {
    hide Lawful, Angle, Unit, AcScale, DcScale, Times;
    var u := Unit(m, horizon);
    var cosines := CosineProducts(m, Times(f, u), Times(g, u));
    var scale := AcScale(m, horizon) * AcScale(m, horizon);
    forall t: nat | t < horizon ensures Products(m, horizon, f, g)(t) == scale * cosines(t) {
      AngleIs(m, horizon, f, t);
      AngleIs(m, horizon, g, t);
    }
    SumScaled(horizon, cosines, Products(m, horizon, f, g), scale);
    SumOfCosineProducts(m, horizon, f, g);
    Scales(m, horizon);
  }

  /** The basis is orthonormal. */
  lemma Orthonormal(m: RealMath, horizon: nat, f: nat, g: nat)
    requires Lawful(m) && horizon > 0 && f < horizon && g < horizon && m.sqrt(horizon as real) != 0.0
    ensures Sum(horizon, Products(m, horizon, f, g)) == if f == g then 1.0 else 0.0
    decreases f < g
  {
    hide Lawful;
    if f < g {
      Orthonormal(m, horizon, g, f);
      SumEqual(horizon, Products(m, horizon, f, g), Products(m, horizon, g, f));
    } else if f == 0 {
      Scales(m, horizon);
      SumConstant(horizon, Products(m, horizon, 0, 0), DcScale(m, horizon) * DcScale(m, horizon));
    } else if g == 0 {
      OrthogonalToConstant(m, horizon, f);
    } else {
      OrthonormalCosines(m, horizon, f, g);
    }
  }

  // ----------------------------------------------------- what the loop yields

  function Against(m: RealMath, horizon: nat, output: nat -> real, frequency: nat): nat -> real
    requires horizon > 0 && m.sqrt(horizon as real) != 0.0
  {
    (t: nat) => output(t) * Basis(m, horizon, frequency, t)
  }

  /** The forward transform. */
  function Coefficient(m: RealMath, horizon: nat, output: nat -> real, frequency: nat): real
    requires horizon > 0 && m.sqrt(horizon as real) != 0.0
  {
    Sum(horizon, Against(m, horizon, output, frequency))
  }

  function Outputs(m: RealMath, horizon: nat, coefficients: nat -> real): nat -> real
    requires horizon > 0 && m.sqrt(horizon as real) != 0.0
  {
    (t: nat) => Output(m, horizon, coefficients, t)
  }

  /** The forward transform of the decoder's outputs gives the coefficients back: nothing is lost or mixed. */
  lemma TransformInverts(m: RealMath, horizon: nat, c: nat -> real, g: nat)
    requires Lawful(m) && horizon > 0 && g < horizon && m.sqrt(horizon as real) != 0.0
    ensures Coefficient(m, horizon, Outputs(m, horizon, c), g) == c(g)
  {
    hide Lawful, Basis;
    var table := (t: nat, f: nat) => c(f) * Basis(m, horizon, f, t) * Basis(m, horizon, g, t);
    forall t: nat | t < horizon
      ensures Against(m, horizon, Outputs(m, horizon, c), g)(t) == RowSums(table, horizon)(t)
    {
      SumScaled(horizon, Terms(m, horizon, c, t), Row(table, t), Basis(m, horizon, g, t));
    }
    SumEqual(horizon, Against(m, horizon, Outputs(m, horizon, c), g), RowSums(table, horizon));
    SumSwap(horizon, horizon, table);
    forall f: nat | f < horizon
      ensures ColumnSums(table, horizon)(f) == if f == g then c(g) else 0.0
    {
      SumScaled(horizon, Products(m, horizon, f, g), Column(table, f), c(f));
      Orthonormal(m, horizon, f, g);
    }
    SumSingle(horizon, ColumnSums(table, horizon), g);
  }

  function PairProducts(a: nat -> real, b: nat -> real): nat -> real {
    (i: nat) => a(i) * b(i)
  }

  /** An output by the terms of another, before either is summed. */
  function PairTable(m: RealMath, horizon: nat, x: nat -> real, d: nat -> real): (nat, nat) -> real
    requires horizon > 0 && m.sqrt(horizon as real) != 0.0
  {
    (t: nat, f: nat) => x(t) * (d(f) * Basis(m, horizon, f, t))
  }

  lemma PairRow(m: RealMath, horizon: nat, x: nat -> real, d: nat -> real, t: nat)
    requires horizon > 0 && m.sqrt(horizon as real) != 0.0
    ensures PairProducts(x, Outputs(m, horizon, d))(t) == RowSums(PairTable(m, horizon, x, d), horizon)(t)
  {
    hide Basis;
    SumScaled(horizon, Terms(m, horizon, d, t), Row(PairTable(m, horizon, x, d), t), x(t));
  }

  lemma PairColumn(m: RealMath, horizon: nat, c: nat -> real, d: nat -> real, f: nat)
    requires Lawful(m) && horizon > 0 && f < horizon && m.sqrt(horizon as real) != 0.0
    ensures ColumnSums(PairTable(m, horizon, Outputs(m, horizon, c), d), horizon)(f) == PairProducts(c, d)(f)
  {
    hide Lawful, Basis, Outputs;
    var x := Outputs(m, horizon, c);
    SumScaled(horizon, Against(m, horizon, x, f), Column(PairTable(m, horizon, x, d), f), d(f));
    TransformInverts(m, horizon, c, f);
  }

  /** The transform keeps inner products; with `c == d`, the sum of squares. */
  lemma TransformIsometric(m: RealMath, horizon: nat, c: nat -> real, d: nat -> real)
    requires Lawful(m) && horizon > 0 && m.sqrt(horizon as real) != 0.0
    ensures Sum(horizon, PairProducts(Outputs(m, horizon, c), Outputs(m, horizon, d)))
      == Sum(horizon, PairProducts(c, d))
  {
    hide Lawful, Basis, Sum, Row, Column, RowSums, ColumnSums, PairProducts, Outputs, PairTable;
    var x := Outputs(m, horizon, c);
    var table := PairTable(m, horizon, x, d);
    forall t: nat | t < horizon
      ensures PairProducts(x, Outputs(m, horizon, d))(t) == RowSums(table, horizon)(t)
    {
      PairRow(m, horizon, x, d, t);
    }
    SumEqual(horizon, PairProducts(x, Outputs(m, horizon, d)), RowSums(table, horizon));
    SumSwap(horizon, horizon, table);
    forall f: nat | f < horizon
      ensures ColumnSums(table, horizon)(f) == PairProducts(c, d)(f)
    {
      PairColumn(m, horizon, c, d, f);
    }
    SumEqual(horizon, ColumnSums(table, horizon), PairProducts(c, d));
  }
}
