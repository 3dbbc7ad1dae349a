/** The loops that build a filter table, refining the windows and weights of `Filters`. */
module FilterTables {
  import opened Arith
  import opened Reals
  import opened Filters

  datatype FilterTable = FilterTable(kernelSize: nat, precision: nat, first: seq<int>, count: seq<nat>,
                                     weights: seq<int>)

  function Larger(x: real, y: real): real {
    if x < y then y else x
  }

  function MaxOf(start: real, ws: seq<real>): real {
    if ws == [] then start else Larger(MaxOf(start, ws[..|ws| - 1]), ws[|ws| - 1])
  }

  /** The largest weight of the first `n` windows, or zero. */
  function MaxWeight(a: Axis, n: nat): real
    requires a.Sound()
  {
    if n == 0 then 0.0 else MaxOf(MaxWeight(a, n - 1), Weights(a, n - 1))
  }

  predicate Fills15Bits(maximum: real, precision: nat) {
    Truncate(0.5 + maximum * Pow2(precision + 1) as real) >= 0x8000
  }

  /** The first precision from `p` on at which the largest weight fills 15 bits, or 22. */
  function FirstPrecision(maximum: real, p: nat): nat
    requires p <= 22
    decreases 22 - p
  {
    if p == 22 || Fills15Bits(maximum, p) then p else FirstPrecision(maximum, p + 1)
  }

  function Precision(a: Axis, pillow: bool): nat
    requires a.Sound()
  {
    if pillow then 22 else FirstPrecision(MaxWeight(a, a.output), 0)
  }

  function Pick(ws: seq<real>, i: nat): real {
    if i < |ws| then ws[i] else 0.0
  }

  /** Element `j` of the weights in rows of `k`: a window's tap, or zero past its end. */
  function Cell(a: Axis, k: nat, j: nat): real
    requires a.Sound() && k > 0
  {
    Pick(Weights(a, j / k), j % k)
  }

  ghost predicate IsTable(a: Axis, pillow: bool, t: FilterTable)
    requires a.Sound()
  {
    && t.kernelSize == a.KernelSize() > 0 && t.precision == Precision(a, pillow)
    && |t.first| == |t.count| == a.output && |t.weights| == RowStart(t.kernelSize, a.output)
    && (forall o :: 0 <= o < a.output ==> t.first[o] == a.First(o))
    && (forall o :: 0 <= o < a.output ==> t.count[o] == a.Count(o))
    && (forall j :: 0 <= j < |t.weights| ==> t.weights[j] == Units(Cell(a, t.kernelSize, j), Pow2(t.precision)))
  }

  /** The raw weights of a window, and their sum. */
  method RawTaps(a: Axis, o: nat, floating: array<real>, base: nat) returns (sum: real)
    requires a.Sound() && o < a.output && base + a.Count(o) <= floating.Length
    modifies floating
    ensures forall j :: base <= j < base + a.Count(o) ==> floating[j] == a.Taps(o)[j - base]
    ensures forall j :: 0 <= j < floating.Length && !(base <= j < base + a.Count(o)) ==> floating[j] == old(floating[j])
    ensures sum == Total(a.Taps(o))
  {
    hide Axis.Count, Axis.Raw, Axis.Taps;
    var count, ws := a.Count(o), a.Taps(o);
    sum := 0.0;
    for i := 0 to count
      invariant sum == Total(ws[..i])
      invariant forall j :: base <= j < base + i ==> floating[j] == ws[j - base]
      invariant forall j :: 0 <= j < floating.Length && !(base <= j < base + i) ==> floating[j] == old(floating[j])
    {
      assert ws[..i + 1][..i] == ws[..i];
      var weight := a.Raw(o, i);
      floating[base + i] := weight;
      sum := sum + weight;
    }
    assert ws[..count] == ws;
  }

  /** Divides a window by its sum, and keeps the running maximum. */
  method DivideTaps(ws: seq<real>, floating: array<real>, base: nat, sum: real, maximum: real) returns (larger: real)
    requires sum == Total(ws) != 0.0 && base + |ws| <= floating.Length
    requires forall j :: base <= j < base + |ws| ==> floating[j] == ws[j - base]
    modifies floating
    ensures forall j :: base <= j < base + |ws| ==> floating[j] == Normalised(ws)[j - base]
    ensures forall j :: 0 <= j < floating.Length && !(base <= j < base + |ws|) ==> floating[j] == old(floating[j])
    ensures larger == MaxOf(maximum, Normalised(ws))
  {
    larger := maximum;
    ghost var qs := Normalised(ws);
    for i := 0 to |ws|
      invariant forall j :: base <= j < base + i ==> floating[j] == qs[j - base]
      invariant forall j :: base + i <= j < base + |ws| ==> floating[j] == ws[j - base]
      invariant forall j :: 0 <= j < floating.Length && !(base <= j < base + |ws|) ==> floating[j] == old(floating[j])
      invariant larger == MaxOf(maximum, qs[..i])
    {
      assert qs[..i + 1][..i] == qs[..i];
      floating[base + i] := floating[base + i] / sum;
      larger := Larger(larger, floating[base + i]);
    }
    assert qs[..|ws|] == qs;
  }

  /** One window: the raw weights and their sum, then the quotients and the running maximum. */
  method FillTaps(a: Axis, o: nat, floating: array<real>, base: nat, maximum: real) returns (larger: real)
    requires a.Sound() && o < a.output && base + a.Count(o) <= floating.Length
    modifies floating
    ensures forall j :: base <= j < base + a.Count(o) ==> floating[j] == Weights(a, o)[j - base]
    ensures forall j :: 0 <= j < floating.Length && !(base <= j < base + a.Count(o)) ==> floating[j] == old(floating[j])
    ensures larger == MaxOf(maximum, Weights(a, o))
  {
    hide Axis.Count, Axis.Raw, Axis.Taps, Normalised;
    var sum := RawTaps(a, o, floating, base);
    SumIsPositive(a, o);
    larger := maximum;
    if sum != 0.0 {
      larger := DivideTaps(a.Taps(o), floating, base, sum, maximum);
    }
  }

  method ChoosePrecision(maximum: real, pillow: bool) returns (precision: nat)
    ensures precision == if pillow then 22 else FirstPrecision(maximum, 0)
  {
    hide Fills15Bits;
    if pillow { return 22; }
    precision := 0;
    while precision < 22
      invariant precision <= 22 && FirstPrecision(maximum, precision) == FirstPrecision(maximum, 0)
    {
      if Fills15Bits(maximum, precision) { return; }
      precision := precision + 1;
    }
  }

  lemma CellsOf(a: Axis, k: nat, o: nat, j: nat)
    requires a.Sound() && o < a.output && k > 0 && RowStart(k, o) <= j < RowStart(k, o) + k
    ensures Cell(a, k, j) == Pick(Weights(a, o), j - RowStart(k, o))
  {
    hide Weights;
    RowOf(k, o, j - RowStart(k, o));
  }

  lemma KernelFits(a: Axis, o: nat)
    requires a.Sound() && o < a.output
    ensures 0 < a.Count(o) <= a.KernelSize()
  {
    WindowIsWhole(a, o);
  }

  /** Row `o` of the table. */
  method FillRow(a: Axis, k: nat, o: nat, floating: array<real>, start: nat, maximum: real) returns (larger: real)
    requires a.Sound() && o < a.output && k == a.KernelSize() > 0
    requires start == RowStart(k, o) && start + k <= floating.Length
    requires forall j :: start <= j < floating.Length ==> floating[j] == 0.0
    modifies floating
    ensures forall j :: start <= j < start + k ==> floating[j] == Cell(a, k, j)
    ensures forall j :: 0 <= j < start ==> floating[j] == old(floating[j])
    ensures forall j :: start + k <= j < floating.Length ==> floating[j] == 0.0
    ensures larger == MaxOf(maximum, Weights(a, o))
  {
    hide Axis.Count, Axis.KernelSize, RowStart, Cell, Weights;
    KernelFits(a, o);
    larger := FillTaps(a, o, floating, start, maximum);
    forall j | start <= j < start + k ensures floating[j] == Cell(a, k, j) {
      CellsOf(a, k, o, j);
    }
  }

  /** All rows. */
  method FillRows(a: Axis, k: nat, floating: array<real>) returns (first: seq<int>, count: seq<nat>, maximum: real)
    requires a.Sound() && k == a.KernelSize() > 0 && floating.Length == RowStart(k, a.output)
    requires forall j :: 0 <= j < floating.Length ==> floating[j] == 0.0
    modifies floating
    ensures |first| == |count| == a.output && maximum == MaxWeight(a, a.output)
    ensures forall o :: 0 <= o < a.output ==> first[o] == a.First(o)
    ensures forall o :: 0 <= o < a.output ==> count[o] == a.Count(o)
    ensures forall j :: 0 <= j < floating.Length ==> floating[j] == Cell(a, k, j)
  {
    hide Axis.Count, Axis.First, Axis.KernelSize, RowStart, Cell, Weights;
    var start := 0;
    first, count, maximum := [], [], 0.0;
    FirstRow(k, a.output);
    for o := 0 to a.output
      invariant start == RowStart(k, o) <= floating.Length && maximum == MaxWeight(a, o)
      invariant |first| == |count| == o
      invariant forall p :: 0 <= p < o ==> first[p] == a.First(p)
      invariant forall p :: 0 <= p < o ==> count[p] == a.Count(p)
      invariant forall j :: 0 <= j < start ==> floating[j] == Cell(a, k, j)
      invariant forall j :: start <= j < floating.Length ==> floating[j] == 0.0
    {
      NextRow(k, o, a.output);
      first, count := first + [a.First(o)], count + [a.Count(o)];
      maximum := FillRow(a, k, o, floating, start, maximum);
      start := start + k;
    }
  }

  method MakeFilterTable(a: Axis, pillow: bool) returns (t: FilterTable)
    requires a.Sound()
    ensures IsTable(a, pillow, t)
  {
    hide Axis.Count, Axis.First, Axis.KernelSize, RowStart, Cell, Weights, Units;
    KernelFits(a, 0);
    var k := a.KernelSize();
    var size := RowStart(k, a.output);
    var floating := new real[size](i => 0.0);
    var first, count, maximum := FillRows(a, k, floating);
    var precision := ChoosePrecision(maximum, pillow);
    var unit, weights := Pow2(precision), new int[size];
    for j := 0 to size
      invariant forall i :: 0 <= i < j ==> weights[i] == Units(floating[i], unit)
      modifies weights
    {
      weights[j] := Units(floating[j], unit);
    }
    t := FilterTable(k, precision, first, count, weights[..]);
  }

  // ------------------------------------------------------------------ precision

  lemma {:induction false} MaxOfAtMost(start: real, ws: seq<real>, bound: real)
    requires start <= bound && forall i :: 0 <= i < |ws| ==> ws[i] <= bound
    ensures MaxOf(start, ws) <= bound
  {
    if ws != [] {
      MaxOfAtMost(start, ws[..|ws| - 1], bound);
    }
  }

  lemma {:induction false} MaxWeightAtMost(a: Axis, n: nat)
    requires a.Sound() && n <= a.output
    ensures MaxWeight(a, n) <= 25.0
  {
    hide Weights, Axis.Count;
    if n > 0 {
      MaxWeightAtMost(a, n - 1);
      WeightsNormalised(a, n - 1);
      MaxOfAtMost(MaxWeight(a, n - 1), Weights(a, n - 1), 25.0);
    }
  }

  lemma Pow2Small(p: nat)
    requires p < 10
    ensures Pow2(p + 1) <= 1024
  {
    assert Pow2(1) == 2 && Pow2(2) == 4 && Pow2(3) == 8 && Pow2(4) == 16 && Pow2(5) == 32;
    assert Pow2(6) == 64 && Pow2(7) == 128 && Pow2(8) == 256 && Pow2(9) == 512 && Pow2(10) == 1024;
  }

  lemma TooFewBits(maximum: real, p: nat)
    requires maximum <= 25.0 && p < 10
    ensures !Fills15Bits(maximum, p)
  {
    Pow2Small(p);
    Product(25.0 - maximum, Pow2(p + 1) as real, (25.0 - maximum) * Pow2(p + 1) as real);
  }

  lemma {:induction false} FirstPrecisionAtLeast(maximum: real, p: nat)
    requires maximum <= 25.0 && p <= 22
    ensures 10 <= FirstPrecision(maximum, p) <= 22
    decreases 22 - p
  {
    hide Fills15Bits;
    if p < 22 {
      if p < 10 { TooFewBits(maximum, p); }
      if !Fills15Bits(maximum, p) { FirstPrecisionAtLeast(maximum, p + 1); }
    }
  }

  /** The precision lies between 10 and 22 bits, so the rounding shift is never by a negative amount. */
  lemma PrecisionBounds(a: Axis, pillow: bool)
    requires a.Sound()
    ensures 10 <= Precision(a, pillow) <= 22
  {
    if !pillow {
      MaxWeightAtMost(a, a.output);
      FirstPrecisionAtLeast(MaxWeight(a, a.output), 0);
    }
  }

  // --------------------------------------------------- precision against the sums

  lemma QuotientAtMost(x: real, z: real, s: real)
    requires x <= 1.0 && z >= s > 0.0
    ensures x / z <= 1.0 / s
  {
    var q, b := x / z, 1.0 / s;
    assert q * z == x && b * s == 1.0;
    if q > b {
      Positive(1.0, s);
      Product(b, z - s, b * (z - s));
      StrictProduct(q - b, z, (q - b) * z);
    }
  }

  /** Where no window sums to less than `s`, no weight exceeds one over `s`. */
  lemma {:induction false} MaxWeightWhen(a: Axis, n: nat, s: real)
    requires a.Sound() && n <= a.output && s > 0.0
    requires forall o: nat :: o < n ==> Total(a.Taps(o)) >= s
    ensures MaxWeight(a, n) <= 1.0 / s
  {
    hide Axis.Count, Axis.Raw, Axis.Taps;
    Positive(1.0, s);
    if n > 0 {
      MaxWeightWhen(a, n - 1, s);
      var ws, qs := a.Taps(n - 1), Weights(a, n - 1);
      forall i | 0 <= i < |qs| ensures qs[i] <= 1.0 / s {
        RawAtLeast(a, n - 1, i);
        QuotientAtMost(ws[i], Total(ws), s);
      }
      MaxOfAtMost(MaxWeight(a, n - 1), qs, 1.0 / s);
    }
  }

  lemma {:induction false} FirstPrecisionFills(maximum: real, p: nat)
    requires p <= 22
    ensures p <= FirstPrecision(maximum, p) <= 22
    ensures FirstPrecision(maximum, p) == 22 || Fills15Bits(maximum, FirstPrecision(maximum, p))
    decreases 22 - p
  {
    hide Fills15Bits;
    if p < 22 && !Fills15Bits(maximum, p) {
      FirstPrecisionFills(maximum, p + 1);
    }
  }

  lemma AtLeastThrough(maximum: real, q: real, b: real, s: real)
    requires maximum <= b && q > 0.0 && s > 0.0 && b * s == 1.0 && maximum * q >= 32767.5
    ensures q >= 32767.5 * s
  {
    var bq := b * q;
    Product(b - maximum, q, (b - maximum) * q);
    Product(bq - 32767.5, s, (bq - 32767.5) * s);
    assert bq * s == q * (b * s);
  }

  lemma FillsMeans(maximum: real, p: nat, s: real)
    requires Fills15Bits(maximum, p) && s > 0.0 && maximum <= 1.0 / s
    ensures Pow2(p) as real >= 16383.75 * s
  {
    var q, b := Pow2(p + 1) as real, 1.0 / s;
    assert b * s == 1.0;
    assert q == 2.0 * Pow2(p) as real;
    assert maximum * q >= 32767.5;
    AtLeastThrough(maximum, q, b, s);
  }

  /** The precision stays below 22 bits only when its unit is large enough for the smallest sum. */
  lemma PrecisionWhen(a: Axis, s: real)
    requires a.Sound() && s > 0.0 && forall o: nat :: o < a.output ==> Total(a.Taps(o)) >= s
    ensures Precision(a, false) == 22 || Pow2(Precision(a, false)) as real >= 16383.75 * s
  {
    hide Fills15Bits, Axis.Taps, Total;
    MaxWeightWhen(a, a.output, s);
    var maximum := MaxWeight(a, a.output);
    FirstPrecisionFills(maximum, 0);
    if Precision(a, false) != 22 {
      FillsMeans(maximum, Precision(a, false), s);
    }
  }

  /** No weight of the table is larger than `maximum`, and one of them, or zero, is `maximum`. */
  lemma {:induction false} MaxOfMeans(start: real, ws: seq<real>)
    ensures start <= MaxOf(start, ws) && forall i :: 0 <= i < |ws| ==> ws[i] <= MaxOf(start, ws)
    ensures MaxOf(start, ws) == start || MaxOf(start, ws) in ws
  {
    if ws != [] {
      MaxOfMeans(start, ws[..|ws| - 1]);
      assert MaxOf(start, ws) == start || MaxOf(start, ws) in ws[..|ws| - 1] || MaxOf(start, ws) == ws[|ws| - 1];
    }
  }

  /** What it takes to fill 15 bits: the largest weight, in half units, rounds to 2 to the 15th or more. */
  lemma FillsIs(maximum: real, p: nat)
    requires maximum >= 0.0
    ensures Fills15Bits(maximum, p) <==> 0.5 + maximum * Pow2(p + 1) as real >= 32768.0
  {
    Product(maximum, Pow2(p + 1) as real, maximum * Pow2(p + 1) as real);
  }

  /** The precision is the least, of up to 22 bits, at which the largest weight fills 15 bits. */
  lemma {:induction false} FirstPrecisionMeans(maximum: real, p: nat)
    requires p <= 22
    ensures var b := FirstPrecision(maximum, p);
      p <= b <= 22 && (b < 22 ==> Fills15Bits(maximum, b)) && forall q: nat :: p <= q < b ==> !Fills15Bits(maximum, q)
    decreases 22 - p
  {
    hide Fills15Bits;
    if p < 22 && !Fills15Bits(maximum, p) {
      FirstPrecisionMeans(maximum, p + 1);
    }
  }

  /** No weight of the first `n` windows is larger, and one of them is this, or it is zero. */
  ghost predicate IsLargestWeight(a: Axis, n: nat, maximum: real)
    requires a.Sound()
  {
    && maximum >= 0.0
    && (forall o: nat :: o < n ==> forall w :: w in Weights(a, o) ==> w <= maximum)
    && (maximum == 0.0 || exists o: nat :: o < n && maximum in Weights(a, o))
  }

  lemma {:induction false} MaxWeightMeans(a: Axis, n: nat)
    requires a.Sound()
    ensures IsLargestWeight(a, n, MaxWeight(a, n))
  {
    hide Weights;
    if n > 0 {
      MaxWeightMeans(a, n - 1);
      MaxOfMeans(MaxWeight(a, n - 1), Weights(a, n - 1));
    }
  }

  lemma LargestIsOne(a: Axis, n: nat, x: real, y: real)
    requires a.Sound() && IsLargestWeight(a, n, x) && IsLargestWeight(a, n, y)
    ensures x == y >= 0.0
  {
    hide Weights;
  }

  /** The precision in full: 22, or the least of up to 22 bits at which the largest weight, doubled, fills 15 bits. */
  lemma PrecisionIs(a: Axis, maximum: real, q: nat)
    requires a.Sound() && IsLargestWeight(a, a.output, maximum)
    ensures Precision(a, true) == 22 && Precision(a, false) <= 22
    ensures Precision(a, false) < 22 ==> 0.5 + maximum * Pow2(Precision(a, false) + 1) as real >= 32768.0
    ensures q < Precision(a, false) ==> 0.5 + maximum * Pow2(q + 1) as real < 32768.0
  {
    hide IsLargestWeight, Fills15Bits, MaxWeight, FirstPrecision;
    MaxWeightMeans(a, a.output);
    LargestIsOne(a, a.output, maximum, MaxWeight(a, a.output));
    FirstPrecisionMeans(maximum, 0);
    FillsIs(maximum, Precision(a, false));
    FillsIs(maximum, q);
  }
}
