/** The bicubic filter table, in exact arithmetic: windows, normalised weights, and their fixed-point form. */
module Filters {
  import opened Reals

  function Abs(x: real): (r: real)
    ensures r >= 0.0
  {
    if x < 0.0 then -x else x
  }

  function InnerPiece(x: real): real {
    (1.5 * x - 2.5) * x * x + 1.0
  }

  function OuterPiece(x: real): real {
    (((x - 5.0) * x + 8.0) * x - 4.0) * -0.5
  }

  /** Keys' cubic with a = -1/2. */
  function Cubic(value: real): real {
    var x := Abs(value);
    if x < 1.0 then InnerPiece(x) else if x < 2.0 then OuterPiece(x) else 0.0
  }

  /** `static_cast<int>` of a `double`. */
  function Truncate(x: real): int {
    if x < 0.0 then -(-x).Floor else x.Floor
  }

  function Pow2(n: nat): (p: nat)
    ensures p > 0
  {
    if n == 0 then 1 else 2 * Pow2(n - 1)
  }

  /** Nearest integer, halves away from zero. */
  function Nearest(x: real): int {
    Truncate(if x < 0.0 then x - 0.5 else x + 0.5)
  }

  datatype Axis = Axis(input: nat, output: nat) {
    predicate Sound() {
      input > 0 && output > 0
    }

    function Scale(): (r: real)
      requires Sound()
      ensures r > 0.0
    {
      Positive(input as real, output as real);
      input as real / output as real
    }

    function FilterScale(): real
      requires Sound()
    {
      if Scale() < 1.0 then 1.0 else Scale()
    }

    function Support(): real
      requires Sound()
    {
      2.0 * FilterScale()
    }

    function KernelSize(): int
      requires Sound()
    {
      Ceil(Support()) * 2 + 1
    }

    function Center(o: nat): real
      requires Sound()
    {
      (o as real + 0.5) * Scale()
    }

    function First(o: nat): int
      requires Sound()
    {
      var first := Truncate(Center(o) - Support() + 0.5);
      if first < 0 then 0 else first
    }

    function End(o: nat): int
      requires Sound()
    {
      var end := Truncate(Center(o) + Support() + 0.5);
      if input < end then input else end
    }

    function Count(o: nat): (r: nat)
      requires Sound()
    {
      var least := if KernelSize() < End(o) - First(o) then KernelSize() else End(o) - First(o);
      if least < 0 then 0 else least
    }

    function Distance(o: nat, i: nat): real
      requires Sound()
    {
      ((i + First(o)) as real - Center(o) + 0.5) / FilterScale()
    }

    function Raw(o: nat, i: nat): real
      requires Sound()
    {
      Cubic(Distance(o, i))
    }

    /** The window's weights before normalisation. */
    function Taps(o: nat): (r: seq<real>)
      requires Sound()
      ensures |r| == Count(o) && forall i :: 0 <= i < |r| ==> r[i] == Raw(o, i)
    {
      seq(Count(o), i requires 0 <= i < Count(o) => Raw(o, i))
    }
  }

  function Total(ws: seq<real>): real {
    if ws == [] then 0.0 else Total(ws[..|ws| - 1]) + ws[|ws| - 1]
  }

  function Normalised(ws: seq<real>): (r: seq<real>)
    ensures |r| == |ws|
  {
    if Total(ws) != 0.0 then seq(|ws|, i requires 0 <= i < |ws| => ws[i] / Total(ws)) else ws
  }

  function Times(w: real, unit: nat): real {
    w * unit as real
  }

  /** A weight as it is stored, in units of one over `unit`. */
  function Units(w: real, unit: nat): int {
    Nearest(Times(w, unit))
  }

  function TotalUnits(ws: seq<real>, unit: nat): int {
    if ws == [] then 0 else TotalUnits(ws[..|ws| - 1], unit) + Units(ws[|ws| - 1], unit)
  }

  // -------------------------------------------------------------------- kernel

  lemma Inner(x: real)
    requires 0.0 <= x < 1.0
    ensures 0.0 <= (1.5 * x - 2.5) * x * x + 1.0 <= 1.0
  {
    var y, t := x * x, 1.0 - x;
    Product(x, x, y);
    Product(x, t, x * t);
    assert y == x - x * t;
    Product(t, 1.0 + x - 1.5 * y, t * (1.0 + x - 1.5 * y));
    assert t * (1.0 + x - 1.5 * y) == (1.5 * x - 2.5) * x * x + 1.0;
    Product(2.5 - 1.5 * x, y, (2.5 - 1.5 * x) * y);
    assert (2.5 - 1.5 * x) * y == -((1.5 * x - 2.5) * x * x);
  }

  lemma OuterForm(x: real)
    ensures ((x - 5.0) * x + 8.0) * x - 4.0 == (x - 1.0) * ((1.0 - (x - 1.0)) * (1.0 - (x - 1.0)))
  {
  }

  lemma OuterGap(t: real)
    ensures 4.0 / 27.0 - t * ((1.0 - t) * (1.0 - t)) == (t - 1.0 / 3.0) * (t - 1.0 / 3.0) * (4.0 / 3.0 - t)
  {
  }

  lemma Outer(t: real)
    requires 0.0 <= t < 1.0
    ensures 0.0 <= t * ((1.0 - t) * (1.0 - t)) <= 4.0 / 27.0
  {
    var u, v := t - 1.0 / 3.0, 1.0 - t;
    var uu, vv := u * u, v * v;
    Product(v, v, vv);
    Product(t, vv, t * vv);
    if u >= 0.0 { Product(u, u, uu); } else { Product(-u, -u, uu); }
    Product(uu, 4.0 / 3.0 - t, uu * (4.0 / 3.0 - t));
    OuterGap(t);
  }

  /** No weight exceeds one, and none is below minus two twenty-sevenths. */
  lemma CubicBounds(value: real)
    ensures -2.0 / 27.0 <= Cubic(value) <= 1.0
  {
    var x := Abs(value);
    if x < 1.0 {
      Inner(x);
    } else if x < 2.0 {
      Outer(x - 1.0);
      OuterForm(x);
    }
  }

  /** Near the centre the weight is at least nine sixteenths. */
  lemma CubicCentral(value: real)
    requires -0.5 <= value <= 0.5
    ensures Cubic(value) >= 9.0 / 16.0
  {
    var x := Abs(value);
    var y, t := x * x, 0.5 - x;
    Product(x, t, x * t);
    assert y == 0.5 * x - x * t;
    var g := 0.875 + 1.75 * x - 1.5 * y;
    Product(t, g, t * g);
    assert t * g == (1.5 * x - 2.5) * x * x + 1.0 - 9.0 / 16.0;
  }

  /** The two pieces and the zero beyond them join without a step. */
  lemma PiecesMeet()
    ensures InnerPiece(1.0) == OuterPiece(1.0) == 0.0 && OuterPiece(2.0) == 0.0 && InnerPiece(0.0) == 1.0
  {
  }

  lemma PiecesSum(t: real)
    ensures OuterPiece(1.0 + t) + InnerPiece(t) + InnerPiece(1.0 - t) + OuterPiece(2.0 - t) == 1.0
  {
    var y, z := t * t, t * t * t;
    assert InnerPiece(t) == 1.5 * z - 2.5 * y + 1.0;
    assert InnerPiece(1.0 - t) == -1.5 * z + 2.0 * y + 0.5 * t;
    assert OuterPiece(1.0 + t) == -0.5 * z + y - 0.5 * t;
    assert OuterPiece(2.0 - t) == 0.5 * z - 0.5 * y;
  }

  /** The weights of four taps one apart around any point sum to one. */
  lemma CubicPartition(t: real)
    requires 0.0 <= t < 1.0
    ensures Cubic(-1.0 - t) + Cubic(-t) + Cubic(1.0 - t) + Cubic(2.0 - t) == 1.0
  {
    hide InnerPiece, OuterPiece;
    PiecesMeet();
    PiecesSum(t);
  }

  /** The kernel, multiplied out. */
  lemma CubicIs(value: real)
    ensures var x := if value < 0.0 then -value else value;
      Cubic(value) == if x < 1.0 then 1.5 * (x * x * x) - 2.5 * (x * x) + 1.0
                      else if x < 2.0 then -0.5 * (x * x * x) + 2.5 * (x * x) - 4.0 * x + 2.0
                      else 0.0
  {
    var x := Abs(value);
    var y, z := x * x, x * x * x;
    assert InnerPiece(x) == 1.5 * z - 2.5 * y + 1.0;
    assert OuterPiece(x) == -0.5 * z + 2.5 * y - 4.0 * x + 2.0;
  }

  lemma PiecesBalance(t: real)
    ensures OuterPiece(1.0 + t) * (-1.0 - t) + InnerPiece(t) * -t + InnerPiece(1.0 - t) * (1.0 - t)
            + OuterPiece(2.0 - t) * (2.0 - t) == 0.0
  {
    var y, z := t * t, t * t * t;
    assert InnerPiece(t) == 1.5 * z - 2.5 * y + 1.0;
    assert InnerPiece(1.0 - t) == -1.5 * z + 2.0 * y + 0.5 * t;
    assert OuterPiece(1.0 + t) == -0.5 * z + y - 0.5 * t;
    assert OuterPiece(2.0 - t) == 0.5 * z - 0.5 * y;
    hide InnerPiece, OuterPiece;
    var p, q := t * z, t * y;
    assert q == z;
    assert OuterPiece(1.0 + t) * (-1.0 - t) == 0.5 * z - y + 0.5 * t + 0.5 * p - q + 0.5 * y;
    assert InnerPiece(t) * -t == -1.5 * p + 2.5 * q - t;
    assert InnerPiece(1.0 - t) * (1.0 - t) == -1.5 * z + 2.0 * y + 0.5 * t + 1.5 * p - 2.0 * q - 0.5 * y;
    assert OuterPiece(2.0 - t) * (2.0 - t) == z - y - 0.5 * p + 0.5 * q;
  }

  /** Their first moment is zero around any point, so that a ramp is reproduced as it is. */
  lemma CubicBalances(t: real)
    requires 0.0 <= t < 1.0
    ensures Cubic(-1.0 - t) * (-1.0 - t) + Cubic(-t) * -t + Cubic(1.0 - t) * (1.0 - t) + Cubic(2.0 - t) * (2.0 - t)
         == 0.0
  {
    hide InnerPiece, OuterPiece;
    PiecesMeet();
    PiecesBalance(t);
  }

  // ------------------------------------------------------------------- windows

  lemma CenterInside(a: Axis, o: nat)
    requires a.Sound() && o < a.output
    ensures a.Center(o) >= a.Scale() / 2.0 && a.Center(o) + a.Scale() / 2.0 <= a.input as real
  {
    var s := a.Scale();
    assert s * a.output as real == a.input as real;
    Product(o as real, s, o as real * s);
    Product((a.output - o - 1) as real, s, (a.output - o - 1) as real * s);
    assert a.Center(o) == o as real * s + 0.5 * s;
    assert (a.output - o - 1) as real * s == a.input as real - o as real * s - s;
  }

  /** A window of half-width `support` around a centre inside the source. */
  lemma WindowOf(input: nat, center: real, support: real)
    requires 0.0 < center < input as real && support >= 2.0
    ensures var low, high := Truncate(center - support + 0.5), Truncate(center + support + 0.5);
      var first, end := if low < 0 then 0 else low, if input < high then input else high;
      0 <= first < end <= input && (end - first) as real < 2.0 * support + 1.0
  {
  }

  /** Every window is non-empty, inside the source, and never cut by the kernel size. */
  lemma WindowIsWhole(a: Axis, o: nat)
    requires a.Sound() && o < a.output
    ensures 0 <= a.First(o) < a.End(o) <= a.input
    ensures a.Count(o) == a.End(o) - a.First(o) <= a.KernelSize()
    ensures a.Count(o) as real < 2.0 * a.Support() + 1.0
  {
    CenterInside(a, o);
    WindowOf(a.input, a.Center(o), a.Support());
    assert Ceil(a.Support()) as real >= a.Support();
  }

  lemma InWindow(input: nat, center: real, support: real, i: nat)
    requires 0.0 < center < input as real && support >= 2.0 && i < input
    ensures var low, high := Truncate(center - support + 0.5), Truncate(center + support + 0.5);
      var first, end := if low < 0 then 0 else low, if input < high then input else high;
      first <= i < end <==> center - support < i as real + 0.5 <= center + support
  {
  }

  /** The scale is the ratio of the sizes, and the support two filter widths, which are never below a pixel. */
  lemma ScaleIs(a: Axis)
    requires a.Sound()
    ensures a.Scale() * a.output as real == a.input as real
    ensures a.FilterScale() == if a.Scale() < 1.0 then 1.0 else a.Scale()
    ensures a.Support() == 2.0 * a.FilterScale()
  {
    var q := a.input as real / a.output as real;
    assert q * a.output as real == a.input as real;
  }

  /** A target pixel's centre, as far into the source as it is into the target. */
  lemma CenterIs(a: Axis, o: nat)
    requires a.Sound()
    ensures a.Center(o) * a.output as real == (o as real + 0.5) * a.input as real
  {
    ScaleIs(a);
    hide Axis.Scale;
    var s, n := a.Scale(), a.output as real;
    assert (o as real + 0.5) * s * n == (o as real + 0.5) * (s * n);
  }

  lemma CenterWithin(a: Axis, o: nat)
    requires a.Sound() && o < a.output
    ensures 0.0 < a.Center(o) < a.input as real && a.Support() >= 2.0
  {
    CenterInside(a, o);
  }

  /** The window holds exactly the pixels whose centres lie within the support of the target's, upper end included. */
  lemma WindowIsSupport(a: Axis, o: nat, i: nat)
    requires a.Sound() && o < a.output && i < a.input
    ensures a.First(o) <= i < a.End(o)
       <==> a.Center(o) - a.Support() < i as real + 0.5 <= a.Center(o) + a.Support()
  {
    CenterWithin(a, o);
    hide Axis.Center, Axis.Support, Truncate;
    InWindow(a.input, a.Center(o), a.Support(), i);
  }

  /** The taps within half a filter width of the centre. */
  function CentralFirst(a: Axis, o: nat): int
    requires a.Sound()
  {
    Ceil(a.Center(o) - a.FilterScale() / 2.0 - 0.5)
  }

  function CentralCount(a: Axis): int
    requires a.Sound()
  {
    a.FilterScale().Floor
  }

  lemma CentralTaps(a: Axis, o: nat)
    requires a.Sound() && o < a.output
    ensures CentralCount(a) >= 1
    ensures a.First(o) <= CentralFirst(a, o) && CentralFirst(a, o) + CentralCount(a) <= a.End(o)
  {
    CenterInside(a, o);
  }

  lemma HalfRatio(x: real, f: real)
    requires f > 0.0 && -(f / 2.0) <= x <= f / 2.0
    ensures -0.5 <= x / f <= 0.5
  {
    var q := x / f;
    assert q * f == x;
    if q > 0.5 { StrictProduct(q - 0.5, f, (q - 0.5) * f); }
    if q < -0.5 { StrictProduct(-0.5 - q, f, (-0.5 - q) * f); }
  }

  lemma CentralTapIsNear(a: Axis, o: nat, i: nat)
    requires a.Sound() && o < a.output
    requires CentralFirst(a, o) <= i + a.First(o) < CentralFirst(a, o) + CentralCount(a)
    ensures a.Raw(o, i) >= 9.0 / 16.0
  {
    var f, x := a.FilterScale(), (i + a.First(o)) as real - a.Center(o) + 0.5;
    assert -(f / 2.0) <= x <= f / 2.0;
    HalfRatio(x, f);
    CubicCentral(a.Distance(o, i));
  }

  // ------------------------------------------------------------------- weights

  /** How many of the first `k` taps are central. */
  function CentralAmong(a: Axis, o: nat, k: nat): int
    requires a.Sound()
  {
    var before := k - (CentralFirst(a, o) - a.First(o));
    if before < 0 then 0 else if before > CentralCount(a) then CentralCount(a) else before
  }

  lemma RawAtLeast(a: Axis, o: nat, i: nat)
    requires a.Sound()
    ensures -2.0 / 27.0 <= a.Raw(o, i) <= 1.0
  {
    CubicBounds(a.Distance(o, i));
  }

  lemma {:induction false} SumAtLeast(a: Axis, o: nat, k: nat)
    requires a.Sound() && o < a.output && k <= a.Count(o)
    ensures Total(a.Taps(o)[..k])
         >= CentralAmong(a, o, k) as real * (9.0 / 16.0) - (k - CentralAmong(a, o, k)) as real * (2.0 / 27.0)
  {
    CentralTaps(a, o);
    hide CentralFirst, CentralCount, Axis.First, Axis.Raw, Axis.Taps, Axis.Count;
    if k > 0 {
      SumAtLeast(a, o, k - 1);
      RawAtLeast(a, o, k - 1);
      if CentralAmong(a, o, k) > CentralAmong(a, o, k - 1) {
        CentralTapIsNear(a, o, k - 1);
      }
      assert a.Taps(o)[..k][..k - 1] == a.Taps(o)[..k - 1];
    }
  }

  /** The raw weights of a window come to what its central taps must contribute, less what the others may take. */
  lemma SumBound(a: Axis, o: nat)
    requires a.Sound() && o < a.output
    ensures Total(a.Taps(o))
         >= CentralCount(a) as real * (9.0 / 16.0) - (a.Count(o) - CentralCount(a)) as real * (2.0 / 27.0)
  {
    CentralTaps(a, o);
    WindowIsWhole(a, o);
    hide CentralFirst, CentralCount, Axis.First, Axis.Raw, Axis.Taps, Axis.Count;
    SumAtLeast(a, o, a.Count(o));
    assert a.Taps(o)[..a.Count(o)] == a.Taps(o);
    assert CentralAmong(a, o, a.Count(o)) == CentralCount(a);
  }

  lemma CountAgainstCentral(a: Axis, o: nat)
    requires a.Sound() && o < a.output
    ensures a.Count(o) <= 4 * CentralCount(a) + 4
  {
    WindowIsWhole(a, o);
    hide Axis.Count, Axis.Scale;
    assert a.FilterScale() < (CentralCount(a) + 1) as real;
  }

  /** They never sum to zero: they come to at least a twenty-fifth. */
  lemma SumIsPositive(a: Axis, o: nat)
    requires a.Sound() && o < a.output
    ensures Total(a.Taps(o)) >= 1.0 / 25.0
  {
    CentralTaps(a, o);
    hide CentralFirst, CentralCount, Axis.First, Axis.Raw, Axis.Taps, Axis.Count;
    SumBound(a, o);
    CountAgainstCentral(a, o);
  }

  // ---------------------------------------------------------- windows of one central tap

  lemma NonNegativeInside(value: real)
    requires -1.0 <= value <= 1.0
    ensures Cubic(value) >= 0.0
  {
    var x := Abs(value);
    if x < 1.0 { Inner(x); }
  }

  lemma WholeRatio(x: real, f: real)
    requires f > 0.0 && -f <= x <= f
    ensures -1.0 <= x / f <= 1.0
  {
    var q := x / f;
    assert q * f == x;
    if q > 1.0 { StrictProduct(q - 1.0, f, (q - 1.0) * f); }
    if q < -1.0 { StrictProduct(-1.0 - q, f, (-1.0 - q) * f); }
  }

  /** Where tap `i` sits, from the centre, in source pixels. */
  function Offset(a: Axis, o: nat, i: nat): real
    requires a.Sound()
  {
    (i + a.First(o)) as real - a.Center(o) + 0.5
  }

  lemma NearIsNonNegative(a: Axis, o: nat, i: nat)
    requires a.Sound() && -1.0 <= Offset(a, o, i) <= 1.0
    ensures a.Raw(o, i) >= 0.0
  {
    WholeRatio(Offset(a, o, i), a.FilterScale());
    NonNegativeInside(a.Distance(o, i));
  }

  /** The central tap, and its neighbour on the side of the centre. */
  function CentralTap(a: Axis, o: nat): int
    requires a.Sound()
  {
    CentralFirst(a, o) - a.First(o)
  }

  function Neighbour(a: Axis, o: nat): int
    requires a.Sound()
  {
    if CentralFirst(a, o) as real - a.Center(o) + 0.5 > 0.0 then CentralTap(a, o) - 1 else CentralTap(a, o) + 1
  }

  lemma NeighbourInside(a: Axis, o: nat)
    requires a.Sound() && o < a.output && 1.0 < a.Scale() < 2.0
    ensures 0 <= CentralTap(a, o) < a.Count(o) && 0 <= Neighbour(a, o) < a.Count(o)
    ensures Neighbour(a, o) != CentralTap(a, o) && -1.0 <= Offset(a, o, Neighbour(a, o)) <= 1.0
  {
    CenterInside(a, o);
    CentralTaps(a, o);
    WindowIsWhole(a, o);
    hide Axis.Count, Axis.Scale, Axis.Center;
  }

  lemma {:induction false} TotalWithTwo(ws: seq<real>, i: nat, j: nat, k: nat)
    requires i < |ws| && j < |ws| && i != j && k <= |ws|
    requires forall n :: 0 <= n < |ws| ==> ws[n] >= -2.0 / 27.0
    requires ws[i] >= 9.0 / 16.0 && ws[j] >= 0.0
    ensures var central, other := if i < k then 1 else 0, if j < k then 1 else 0;
      Total(ws[..k]) >= central as real * (9.0 / 16.0) - (k - central - other) as real * (2.0 / 27.0)
  {
    if k > 0 {
      TotalWithTwo(ws, i, j, k - 1);
      assert ws[..k][..k - 1] == ws[..k - 1];
    }
  }

  /** A window of one central tap sums to at least a ninth. */
  lemma SumOfNarrow(a: Axis, o: nat)
    requires a.Sound() && o < a.output && 1.0 < a.Scale() < 2.0
    ensures a.Count(o) <= 8 && Total(a.Taps(o)) >= 1.0 / 9.0
  {
    WindowIsWhole(a, o);
    assert CentralCount(a) == 1;
    hide CentralFirst, CentralCount, Axis.First, Axis.Raw, Axis.Taps, Axis.Count;
    if a.Count(o) <= 7 {
      SumBound(a, o);
    } else {
      NeighbourInside(a, o);
      CentralTapIsNear(a, o, CentralTap(a, o));
      NearIsNonNegative(a, o, Neighbour(a, o));
      forall n | 0 <= n < a.Count(o) ensures a.Taps(o)[n] >= -2.0 / 27.0 { RawAtLeast(a, o, n); }
      TotalWithTwo(a.Taps(o), CentralTap(a, o), Neighbour(a, o), a.Count(o));
      assert a.Taps(o)[..a.Count(o)] == a.Taps(o);
    }
  }

  // ------------------------------------------------------------------ normalising

  lemma {:induction false} TotalOfQuotients(ws: seq<real>, qs: seq<real>, z: real)
    requires |ws| == |qs| && z != 0.0 && forall i :: 0 <= i < |ws| ==> qs[i] == ws[i] / z
    ensures Total(qs) == Total(ws) / z
  {
    if ws != [] {
      var n := |ws| - 1;
      TotalOfQuotients(ws[..n], qs[..n], z);
      AddQuotients(Total(ws[..n]), ws[n], z);
    }
  }

  lemma AtMost25(x: real, z: real)
    requires x <= 1.0 && z >= 1.0 / 25.0
    ensures x / z <= 25.0
  {
    var q := x / z;
    assert q * z == x;
    if q > 25.0 {
      StrictProduct(q - 25.0, z, (q - 25.0) * z);
    }
  }

  /** The window's weights: they sum to one, and none exceeds 25. */
  function Weights(a: Axis, o: nat): (r: seq<real>)
    requires a.Sound()
    ensures |r| == a.Count(o)
  {
    Normalised(a.Taps(o))
  }

  lemma WeightsNormalised(a: Axis, o: nat)
    requires a.Sound() && o < a.output
    ensures Total(Weights(a, o)) == 1.0
    ensures forall i :: 0 <= i < a.Count(o) ==> Weights(a, o)[i] <= 25.0
  {
    hide Axis.Count, Axis.Raw, Axis.Taps;
    var ws := a.Taps(o);
    SumIsPositive(a, o);
    TotalOfQuotients(ws, Weights(a, o), Total(ws));
    SelfQuotient(Total(ws));
    forall i | 0 <= i < |ws| ensures Weights(a, o)[i] <= 25.0 {
      RawAtLeast(a, o, i);
      AtMost25(ws[i], Total(ws));
    }
  }

  lemma TimesBack(x: real, z: real)
    requires z != 0.0
    ensures x / z * z == x
  {
  }

  /** How far the centre of tap `i` is from the target's, in filter widths. */
  lemma DistanceIs(a: Axis, o: nat, i: nat)
    requires a.Sound()
    ensures a.Distance(o, i) * a.FilterScale() == (i + a.First(o)) as real + 0.5 - a.Center(o)
  {
    hide Axis.First, Axis.Center, Axis.Scale;
    var x, f := (i + a.First(o)) as real - a.Center(o) + 0.5, a.FilterScale();
    TimesBack(x, f);
  }

  lemma NormalisedAt(ws: seq<real>, i: nat)
    requires i < |ws| && Total(ws) != 0.0
    ensures Normalised(ws)[i] * Total(ws) == ws[i]
  {
    hide Total;
    TimesBack(ws[i], Total(ws));
  }

  /** A weight is the kernel at that distance, over the sum of the window. */
  lemma WeightIs(a: Axis, o: nat, i: nat)
    requires a.Sound() && o < a.output && i < a.Count(o)
    ensures Weights(a, o)[i] * Total(a.Taps(o)) == Cubic(a.Distance(o, i))
  {
    hide Axis.Count, Axis.Distance, Cubic, Total, Normalised, Axis.Taps, Axis.Scale, Axis.FilterScale;
    SumIsPositive(a, o);
    assert a.Taps(o)[i] == a.Raw(o, i);
    NormalisedAt(a.Taps(o), i);
  }

  // ---------------------------------------------------------------- fixed point

  /** The nearest integer, of two equally near ones the one away from zero. */
  lemma NearestMeans(x: real, n: int)
    ensures n == Nearest(x)
       <==> if x < 0.0 then n as real - 0.5 < x <= n as real + 0.5 else n as real - 0.5 <= x < n as real + 0.5
  {
  }

  lemma UnitsNear(w: real, unit: nat)
    ensures -0.5 <= Units(w, unit) as real - Times(w, unit) <= 0.5
  {
  }

  lemma Distribute(x: real, y: real, s: real, unit: nat)
    requires s == x + y
    ensures Times(s, unit) == Times(x, unit) + Times(y, unit)
  {
  }

  lemma {:induction false} TotalUnitsNear(ws: seq<real>, unit: nat)
    ensures -(|ws| as real / 2.0) <= TotalUnits(ws, unit) as real - Times(Total(ws), unit) <= |ws| as real / 2.0
  {
    if ws != [] {
      hide Units, Times;
      var n := |ws| - 1;
      TotalUnitsNear(ws[..n], unit);
      UnitsNear(ws[n], unit);
      Distribute(Total(ws[..n]), ws[n], Total(ws), unit);
    }
  }

  lemma TimesOne(unit: nat)
    ensures Times(1.0, unit) == unit as real
  {
  }

  /** The stored weights of a window sum to one, up to half a unit a tap. */
  lemma StoredSumToOne(a: Axis, o: nat, unit: nat)
    requires a.Sound() && o < a.output
    ensures -(a.Count(o) as int) <= 2 * (TotalUnits(Weights(a, o), unit) - unit) <= a.Count(o)
  {
    TotalUnitsNear(Weights(a, o), unit);
    WeightsNormalised(a, o);
    hide *;
    assert Times(1.0, unit) == unit as real by { TimesOne(unit); }
  }

  // -------------------------------------------------------------------- enlarging

  lemma {:induction false} TotalOfFour(ws: seq<real>)
    requires |ws| == 4
    ensures Total(ws) == ws[0] + ws[1] + ws[2] + ws[3]
  {
    assert ws[..3][..2] == ws[..2] && ws[..2][..1] == ws[..1] && ws[..1][..0] == [];
    assert Total(ws[..1]) == ws[0];
    assert Total(ws[..2]) == Total(ws[..1]) + ws[1];
    assert Total(ws[..3]) == Total(ws[..2]) + ws[2];
  }

  /** When enlarging, a window that the border does not cut has four taps, and normalising it changes nothing. */
  lemma EnlargingInterior(a: Axis, o: nat)
    requires a.Sound() && o < a.output && a.FilterScale() == 1.0
    requires a.Center(o) >= 1.5 && a.Center(o) + 1.5 < a.input as real
    ensures a.Count(o) == 4 && Total(a.Taps(o)) == 1.0 && Weights(a, o) == a.Taps(o)
  {
    var c := a.Center(o);
    var first := (c - 1.5).Floor;
    assert a.First(o) == first && a.End(o) == first + 4;
    WindowIsWhole(a, o);
    var t := c - 1.5 - first as real;
    CubicPartition(t);
    var ws := a.Taps(o);
    assert a.Distance(o, 0) == -1.0 - t && a.Distance(o, 1) == -t && a.Distance(o, 2) == 1.0 - t;
    assert a.Distance(o, 3) == 2.0 - t;
    TotalOfFour(ws);
    forall i | 0 <= i < 4 ensures Weights(a, o)[i] == ws[i] {
      assert ws[i] / 1.0 == ws[i];
    }
  }
}
