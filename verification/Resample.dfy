/** Separable fixed-point resampling of packed RGB images. */
module Resample {
  import opened Bytes
  import opened Arith
  import opened Filters
  import opened FilterTables

  /** Where a channel of a pixel sits in a packed image of this width. */
  function Place(width: nat, row: nat, column: nat, channel: nat): nat {
    RowStart(3, RowStart(width, row) + column) + channel
  }

  lemma PlaceInside(width: nat, height: nat, row: nat, column: nat, channel: nat)
    requires row < height && column < width && channel < 3
    ensures Place(width, row, column, channel) < Place(width, height, 0, 0)
  {
    NextRow(width, row, height);
    NextRow(3, RowStart(width, row) + column, RowStart(width, height));
  }

  lemma PlaceDigits(width: nat, row: nat, column: nat, channel: nat)
    requires column < width && channel < 3
    ensures var j := Place(width, row, column, channel);
      j % 3 == channel && j / 3 % width == column && j / 3 / width == row
  {
    RowOf(3, RowStart(width, row) + column, channel);
    RowOf(width, row, column);
  }

  lemma NextPlace(width: nat, row: nat, column: nat)
    ensures Place(width, row, column + 1, 0) == Place(width, row, column, 0) + 3
    ensures Place(width, row + 1, 0, 0) == Place(width, row, width, 0)
    ensures forall channel: nat :: Place(width, row, column, channel) == Place(width, row, column, 0) + channel
    ensures Place(width, 0, 0, 0) == 0
  {
  }

  datatype Image = Image(width: nat, height: nat, pixels: bytes) {
    predicate Sound() {
      |pixels| == Place(width, height, 0, 0)
    }
  }

  // ---------------------------------------------------------------- one sample

  function Dot(taps: bytes, ws: seq<int>): int
    requires |taps| == |ws|
  {
    if taps == [] then 0
    else Dot(taps[..|taps| - 1], ws[..|ws| - 1]) + taps[|taps| - 1] * ws[|ws| - 1]
  }

  /** `fixed_point_pixel`: shift, then clamp to a byte. */
  function Pixel(accumulator: int, precision: nat): byte {
    var value := accumulator / Pow2(precision);
    if value < 0 then 0 else if value > 255 then 255 else value
  }

  function Sample(taps: bytes, ws: seq<int>, precision: nat): byte
    requires |taps| == |ws| && precision > 0
  {
    Pixel(Pow2(precision - 1) + Dot(taps, ws), precision)
  }

  function Stored(a: Axis, o: nat, unit: nat): (r: seq<int>)
    requires a.Sound()
    ensures |r| == a.Count(o)
  {
    seq(a.Count(o), i requires 0 <= i < a.Count(o) => Units(Weights(a, o)[i], unit))
  }

  function TapsAcross(src: Image, a: Axis, row: nat, column: nat, channel: nat): (r: bytes)
    requires src.Sound() && a.Sound() && a.input == src.width && row < src.height && column < a.output && channel < 3
    ensures |r| == a.Count(column)
  {
    WindowIsWhole(a, column);
    seq(a.Count(column), i requires 0 <= i < a.Count(column) =>
      PlaceInside(src.width, src.height, row, a.First(column) + i, channel);
      src.pixels[Place(src.width, row, a.First(column) + i, channel)])
  }

  function TapsDown(src: Image, a: Axis, row: nat, column: nat, channel: nat): (r: bytes)
    requires src.Sound() && a.Sound() && a.input == src.height && column < src.width && row < a.output && channel < 3
    ensures |r| == a.Count(row)
  {
    WindowIsWhole(a, row);
    seq(a.Count(row), i requires 0 <= i < a.Count(row) =>
      PlaceInside(src.width, src.height, a.First(row) + i, column, channel);
      src.pixels[Place(src.width, a.First(row) + i, column, channel)])
  }

  function SampleAcross(src: Image, a: Axis, precision: nat, row: nat, column: nat, channel: nat): byte
    requires src.Sound() && a.Sound() && a.input == src.width && row < src.height && column < a.output && channel < 3
    requires precision > 0
  {
    Sample(TapsAcross(src, a, row, column, channel), Stored(a, column, Pow2(precision)), precision)
  }

  function SampleDown(src: Image, a: Axis, precision: nat, row: nat, column: nat, channel: nat): byte
    requires src.Sound() && a.Sound() && a.input == src.height && column < src.width && row < a.output && channel < 3
    requires precision > 0
  {
    Sample(TapsDown(src, a, row, column, channel), Stored(a, row, Pow2(precision)), precision)
  }

  // --------------------------------------------------------------- whole images

  lemma DigitsInside(width: nat, height: nat, j: nat)
    requires j < Place(width, height, 0, 0)
    ensures width > 0 && j % 3 < 3 && j / 3 % width < width && j / 3 / width < height
    ensures j == Place(width, j / 3 / width, j / 3 % width, j % 3)
  {
    if width > 0 {
      AboveQuotient(RowStart(width, height), j, 3);
      AboveQuotient(height, j / 3, width);
    }
  }

  function AcrossCell(src: Image, a: Axis, precision: nat, j: nat): byte
    requires src.Sound() && a.Sound() && a.input == src.width && precision > 0 && j < Place(a.output, src.height, 0, 0)
  {
    DigitsInside(a.output, src.height, j);
    SampleAcross(src, a, precision, j / 3 / a.output, j / 3 % a.output, j % 3)
  }

  function DownCell(src: Image, a: Axis, precision: nat, j: nat): byte
    requires src.Sound() && a.Sound() && a.input == src.height && precision > 0 && j < Place(src.width, a.output, 0, 0)
  {
    DigitsInside(src.width, a.output, j);
    SampleDown(src, a, precision, j / 3 / src.width, j / 3 % src.width, j % 3)
  }

  /** Every row resampled to a new width. */
  function Across(src: Image, a: Axis, precision: nat): (r: Image)
    requires src.Sound() && a.Sound() && a.input == src.width && precision > 0
    ensures r.Sound() && r.width == a.output && r.height == src.height
  {
    var n := Place(a.output, src.height, 0, 0);
    Image(a.output, src.height, seq(n, j requires 0 <= j < n => AcrossCell(src, a, precision, j)))
  }

  /** Every column resampled to a new height. */
  function Down(src: Image, a: Axis, precision: nat): (r: Image)
    requires src.Sound() && a.Sound() && a.input == src.height && precision > 0
    ensures r.Sound() && r.width == src.width && r.height == a.output
  {
    var n := Place(src.width, a.output, 0, 0);
    Image(src.width, a.output, seq(n, j requires 0 <= j < n => DownCell(src, a, precision, j)))
  }

  /** A stored weight is the weight in units, rounded to the nearest. */
  lemma StoredIs(a: Axis, o: nat, precision: nat, i: nat)
    requires a.Sound() && i < a.Count(o)
    ensures Stored(a, o, Pow2(precision))[i] == Nearest(Weights(a, o)[i] * Pow2(precision) as real)
  {
    hide Axis.Count, Weights;
    var unit := Pow2(precision);
    var w := Weights(a, o)[i];
    assert Stored(a, o, unit)[i] == Units(w, unit) == Nearest(Times(w, unit));
    assert Times(w, unit) == w * unit as real;
  }

  // ------------------------------------------------------------- pixel by pixel

  /** The first `n` terms, added up. */
  function SumOf(n: nat, terms: nat -> int): int {
    if n == 0 then 0 else SumOf(n - 1, terms) + terms(n - 1)
  }

  /** Shifted right by the precision, and clamped to a byte. */
  predicate IsShifted(pixel: byte, total: int, unit: nat)
    requires unit > 0
  {
    && (0 < pixel ==> pixel as int * unit <= total)
    && (pixel < 255 ==> total < (pixel as int + 1) * unit)
  }

  lemma PixelMeans(total: int, precision: nat, pixel: byte)
    ensures pixel == Pixel(total, precision) <==> IsShifted(pixel, total, Pow2(precision))
  {
    var unit := Pow2(precision);
    var value := Pixel(total, precision);
    AboveQuotient(value, total, unit);
    AboveQuotient(value as int + 1, total, unit);
    AboveQuotient(pixel, total, unit);
    AboveQuotient(pixel as int + 1, total, unit);
  }

  lemma {:induction false} DotIsSum(taps: bytes, ws: seq<int>, terms: nat -> int)
    requires |taps| == |ws| && forall i: nat :: i < |taps| ==> terms(i) == taps[i] * ws[i]
    ensures Dot(taps, ws) == SumOf(|taps|, terms)
  {
    if taps != [] {
      var n := |taps| - 1;
      forall i: nat | i < n ensures terms(i) == taps[..n][i] * ws[..n][i] {}
      DotIsSum(taps[..n], ws[..n], terms);
    }
  }

  lemma PlaceIs(width: nat, row: nat, column: nat, channel: nat)
    ensures Place(width, row, column, channel) == 3 * (row * width + column) + channel
  {
  }

  /** The taps of a horizontal window lie in the source. */
  lemma AcrossInside(src: Image, a: Axis, row: nat, column: nat, channel: nat, i: nat)
    requires src.Sound() && a.Sound() && a.input == src.width && row < src.height && column < a.output && channel < 3
    requires i < a.Count(column)
    ensures 0 <= a.First(column) && 3 * (row * src.width + (a.First(column) + i)) + channel < |src.pixels|
  {
    hide Axis.Count, Axis.First;
    WindowIsWhole(a, column);
    PlaceInside(src.width, src.height, row, a.First(column) + i, channel);
    PlaceIs(src.width, row, a.First(column) + i, channel);
  }

  lemma DownInside(src: Image, a: Axis, row: nat, column: nat, channel: nat, i: nat)
    requires src.Sound() && a.Sound() && a.input == src.height && column < src.width && row < a.output && channel < 3
    requires i < a.Count(row)
    ensures 0 <= a.First(row) && 3 * ((a.First(row) + i) * src.width + column) + channel < |src.pixels|
  {
    hide Axis.Count, Axis.First;
    WindowIsWhole(a, row);
    PlaceInside(src.width, src.height, a.First(row) + i, column, channel);
    PlaceIs(src.width, a.First(row) + i, column, channel);
  }

  /** Byte `j` of the source times stored weight `i` of window `o`. */
  predicate IsTerm(term: int, src: Image, j: int, a: Axis, o: nat, precision: nat, i: nat)
    requires a.Sound()
  {
    0 <= j < |src.pixels| && i < a.Count(o) && term == src.pixels[j] * Stored(a, o, Pow2(precision))[i]
  }

  lemma AcrossSampleIs(src: Image, a: Axis, precision: nat, row: nat, column: nat, channel: nat)
    requires src.Sound() && a.Sound() && a.input == src.width && precision > 0
    requires row < src.height && column < a.output && channel < 3
    ensures SampleAcross(src, a, precision, row, column, channel)
         == Pixel(Pow2(precision - 1)
                  + Dot(TapsAcross(src, a, row, column, channel), Stored(a, column, Pow2(precision))), precision)
  {
    hide TapsAcross, Stored, Pixel, Dot;
  }

  lemma AcrossCellAt(src: Image, a: Axis, precision: nat, row: nat, column: nat, channel: nat)
    requires src.Sound() && a.Sound() && a.input == src.width && precision > 0
    requires row < src.height && column < a.output && channel < 3
    ensures Place(a.output, row, column, channel) < Place(a.output, src.height, 0, 0)
    ensures AcrossCell(src, a, precision, Place(a.output, row, column, channel))
      == SampleAcross(src, a, precision, row, column, channel)
  {
    hide SampleAcross;
    PlaceInside(a.output, src.height, row, column, channel);
    PlaceDigits(a.output, row, column, channel);
  }

  /**
    * Channel by channel, a pixel of the horizontal pass is the rounded, shifted and clamped sum of its window: the
    * same row, the same channel, the columns from the window's first on, each times its stored weight.
    */
  lemma AcrossPixel(src: Image, a: Axis, precision: nat, row: nat, column: nat, channel: nat, terms: nat -> int)
    requires src.Sound() && a.Sound() && a.input == src.width && precision > 0
    requires row < src.height && column < a.output && channel < 3
    requires forall i: nat :: i < a.Count(column) ==>
      IsTerm(terms(i), src, 3 * (row * src.width + (a.First(column) + i)) + channel, a, column, precision, i)
    ensures 3 * (row * a.output + column) + channel < |Across(src, a, precision).pixels|
    ensures IsShifted(Across(src, a, precision).pixels[3 * (row * a.output + column) + channel],
                      Pow2(precision - 1) + SumOf(a.Count(column), terms), Pow2(precision))
  {
    hide Axis.Count, Axis.First, Stored, Pixel, IsShifted;
    var taps, ws := TapsAcross(src, a, row, column, channel), Stored(a, column, Pow2(precision));
    forall i: nat | i < a.Count(column) ensures terms(i) == taps[i] * ws[i] {
      AcrossInside(src, a, row, column, channel, i);
      PlaceIs(src.width, row, a.First(column) + i, channel);
    }
    DotIsSum(taps, ws, terms);
    hide TapsAcross, SampleAcross, Place;
    AcrossCellAt(src, a, precision, row, column, channel);
    PlaceIs(a.output, row, column, channel);
    AcrossSampleIs(src, a, precision, row, column, channel);
    PixelMeans(Pow2(precision - 1) + Dot(taps, ws), precision, SampleAcross(src, a, precision, row, column, channel));
  }

  lemma DownSampleIs(src: Image, a: Axis, precision: nat, row: nat, column: nat, channel: nat)
    requires src.Sound() && a.Sound() && a.input == src.height && precision > 0
    requires row < a.output && column < src.width && channel < 3
    ensures SampleDown(src, a, precision, row, column, channel)
         == Pixel(Pow2(precision - 1) + Dot(TapsDown(src, a, row, column, channel), Stored(a, row, Pow2(precision))),
                  precision)
  {
    hide TapsDown, Stored, Pixel, Dot;
  }

  lemma DownCellAt(src: Image, a: Axis, precision: nat, row: nat, column: nat, channel: nat)
    requires src.Sound() && a.Sound() && a.input == src.height && precision > 0
    requires row < a.output && column < src.width && channel < 3
    ensures Place(src.width, row, column, channel) < Place(src.width, a.output, 0, 0)
    ensures DownCell(src, a, precision, Place(src.width, row, column, channel))
      == SampleDown(src, a, precision, row, column, channel)
  {
    hide SampleDown;
    PlaceInside(src.width, a.output, row, column, channel);
    PlaceDigits(src.width, row, column, channel);
  }

  /** The same, down a column. */
  lemma DownPixel(src: Image, a: Axis, precision: nat, row: nat, column: nat, channel: nat, terms: nat -> int)
    requires src.Sound() && a.Sound() && a.input == src.height && precision > 0
    requires row < a.output && column < src.width && channel < 3
    requires forall i: nat :: i < a.Count(row) ==>
      IsTerm(terms(i), src, 3 * ((a.First(row) + i) * src.width + column) + channel, a, row, precision, i)
    ensures 3 * (row * src.width + column) + channel < |Down(src, a, precision).pixels|
    ensures IsShifted(Down(src, a, precision).pixels[3 * (row * src.width + column) + channel],
                      Pow2(precision - 1) + SumOf(a.Count(row), terms), Pow2(precision))
  {
    hide Axis.Count, Axis.First, Stored, Pixel, IsShifted;
    var taps, ws := TapsDown(src, a, row, column, channel), Stored(a, row, Pow2(precision));
    forall i: nat | i < a.Count(row) ensures terms(i) == taps[i] * ws[i] {
      DownInside(src, a, row, column, channel, i);
      PlaceIs(src.width, a.First(row) + i, column, channel);
    }
    DotIsSum(taps, ws, terms);
    hide TapsDown, SampleDown, Place;
    DownCellAt(src, a, precision, row, column, channel);
    PlaceIs(src.width, row, column, channel);
    DownSampleIs(src, a, precision, row, column, channel);
    PixelMeans(Pow2(precision - 1) + Dot(taps, ws), precision, SampleDown(src, a, precision, row, column, channel));
  }

  /** Byte `j` is the same in both. */
  predicate SameByte(x: Image, y: Image, j: int) {
    0 <= j < |x.pixels| && j < |y.pixels| && x.pixels[j] == y.pixels[j]
  }

  /** The two images agree on one row and one channel, from the first column of a window to its last. */
  ghost predicate AgreeAcross(x: Image, y: Image, row: nat, channel: nat, first: int, count: nat) {
    forall c: nat :: first <= c < first + count ==> SameByte(x, y, Place(x.width, row, c, channel))
  }

  ghost predicate AgreeDown(x: Image, y: Image, column: nat, channel: nat, first: int, count: nat) {
    forall r: nat :: first <= r < first + count ==> SameByte(x, y, Place(x.width, r, column, channel))
  }

  lemma SameTapsAcross(x: Image, y: Image, a: Axis, row: nat, column: nat, channel: nat)
    requires x.Sound() && y.Sound() && a.Sound() && a.input == x.width == y.width && x.height == y.height
    requires row < x.height && column < a.output && channel < 3
    requires AgreeAcross(x, y, row, channel, a.First(column), a.Count(column))
    ensures TapsAcross(x, a, row, column, channel) == TapsAcross(y, a, row, column, channel)
  {
    WindowIsWhole(a, column);
    hide Axis.Count, Axis.First, Place;
    var p, q := TapsAcross(x, a, row, column, channel), TapsAcross(y, a, row, column, channel);
    forall i: nat | i < a.Count(column) ensures p[i] == q[i] {
      assert SameByte(x, y, Place(x.width, row, a.First(column) + i, channel));
    }
  }

  lemma SameTapsDown(x: Image, y: Image, a: Axis, row: nat, column: nat, channel: nat)
    requires x.Sound() && y.Sound() && a.Sound() && a.input == x.height == y.height && x.width == y.width
    requires row < a.output && column < x.width && channel < 3
    requires AgreeDown(x, y, column, channel, a.First(row), a.Count(row))
    ensures TapsDown(x, a, row, column, channel) == TapsDown(y, a, row, column, channel)
  {
    WindowIsWhole(a, row);
    hide Axis.Count, Axis.First, Place;
    var p, q := TapsDown(x, a, row, column, channel), TapsDown(y, a, row, column, channel);
    forall i: nat | i < a.Count(row) ensures p[i] == q[i] {
      assert SameByte(x, y, Place(x.width, a.First(row) + i, column, channel));
    }
  }

  /** A byte of the horizontal pass depends on its own row and channel, inside its window, and on nothing else. */
  lemma AcrossLocal(x: Image, y: Image, a: Axis, precision: nat, row: nat, column: nat, channel: nat)
    requires x.Sound() && y.Sound() && a.Sound() && a.input == x.width == y.width && x.height == y.height
    requires precision > 0 && row < x.height && column < a.output && channel < 3
    requires AgreeAcross(x, y, row, channel, a.First(column), a.Count(column))
    ensures SameByte(Across(x, a, precision), Across(y, a, precision), Place(a.output, row, column, channel))
  {
    hide Axis.Count, Axis.First, Stored, Pixel, Sample, SampleAcross, TapsAcross, Place, AgreeAcross;
    SameTapsAcross(x, y, a, row, column, channel);
    AcrossSampleIs(x, a, precision, row, column, channel);
    AcrossSampleIs(y, a, precision, row, column, channel);
    AcrossCellAt(x, a, precision, row, column, channel);
    AcrossCellAt(y, a, precision, row, column, channel);
  }

  lemma DownLocal(x: Image, y: Image, a: Axis, precision: nat, row: nat, column: nat, channel: nat)
    requires x.Sound() && y.Sound() && a.Sound() && a.input == x.height == y.height && x.width == y.width
    requires precision > 0 && row < a.output && column < x.width && channel < 3
    requires AgreeDown(x, y, column, channel, a.First(row), a.Count(row))
    ensures SameByte(Down(x, a, precision), Down(y, a, precision), Place(x.width, row, column, channel))
  {
    hide Axis.Count, Axis.First, Stored, Pixel, Sample, SampleDown, TapsDown, Place, AgreeDown;
    SameTapsDown(x, y, a, row, column, channel);
    DownSampleIs(x, a, precision, row, column, channel);
    DownSampleIs(y, a, precision, row, column, channel);
    DownCellAt(x, a, precision, row, column, channel);
    DownCellAt(y, a, precision, row, column, channel);
  }

  // -------------------------------------------------------------------- loops

  lemma TableAt(a: Axis, pillow: bool, t: FilterTable, o: nat, i: nat)
    requires a.Sound() && IsTable(a, pillow, t) && o < a.output && i < a.Count(o)
    ensures o < |t.first| && o < |t.count| && t.first[o] == a.First(o) && t.count[o] == a.Count(o)
    ensures RowStart(t.kernelSize, o) + i < |t.weights|
    ensures t.weights[RowStart(t.kernelSize, o) + i] == Stored(a, o, Pow2(t.precision))[i]
  {
    hide Axis.Count, Axis.First, Axis.KernelSize, Weights, Units, Cell, Precision;
    KernelFits(a, o);
    NextRow(t.kernelSize, o, a.output);
    CellsOf(a, t.kernelSize, o, RowStart(t.kernelSize, o) + i);
  }

  lemma DotNext(taps: bytes, ws: seq<int>, i: nat)
    requires |taps| == |ws| && i < |taps|
    ensures Dot(taps[..i + 1], ws[..i + 1]) == Dot(taps[..i], ws[..i]) + taps[i] * ws[i]
  {
    assert taps[..i + 1][..i] == taps[..i] && ws[..i + 1][..i] == ws[..i];
  }

  /** The innermost loop of the horizontal pass. */
  method AccumulateAcross(src: Image, a: Axis, pillow: bool, t: FilterTable, row: nat, column: nat, channel: nat)
    returns (pixel: byte)
    requires src.Sound() && a.Sound() && a.input == src.width && row < src.height && column < a.output && channel < 3
    requires IsTable(a, pillow, t) && t.precision > 0
    ensures pixel == SampleAcross(src, a, t.precision, row, column, channel)
  {
    hide Axis.Count, Axis.First, Stored, IsTable, Pixel;
    ghost var taps, ws := TapsAcross(src, a, row, column, channel), Stored(a, column, Pow2(t.precision));
    KernelFits(a, column);
    TableAt(a, pillow, t, column, 0);
    var first, count, accumulator := t.first[column], t.count[column], Pow2(t.precision - 1);
    for i := 0 to count
      invariant accumulator == Pow2(t.precision - 1) + Dot(taps[..i], ws[..i])
    {
      TableAt(a, pillow, t, column, i);
      WindowIsWhole(a, column);
      PlaceInside(src.width, src.height, row, first + i, channel);
      DotNext(taps, ws, i);
      var weight := t.weights[RowStart(t.kernelSize, column) + i];
      accumulator := accumulator + src.pixels[Place(src.width, row, first + i, channel)] * weight;
    }
    assert taps[..count] == taps && ws[..count] == ws;
    pixel := Pixel(accumulator, t.precision);
  }

  method AccumulateDown(src: Image, a: Axis, pillow: bool, t: FilterTable, row: nat, column: nat, channel: nat)
    returns (pixel: byte)
    requires src.Sound() && a.Sound() && a.input == src.height && column < src.width && row < a.output && channel < 3
    requires IsTable(a, pillow, t) && t.precision > 0
    ensures pixel == SampleDown(src, a, t.precision, row, column, channel)
  {
    hide Axis.Count, Axis.First, Stored, IsTable, Pixel;
    ghost var taps, ws := TapsDown(src, a, row, column, channel), Stored(a, row, Pow2(t.precision));
    KernelFits(a, row);
    TableAt(a, pillow, t, row, 0);
    var first, count, accumulator := t.first[row], t.count[row], Pow2(t.precision - 1);
    for i := 0 to count
      invariant accumulator == Pow2(t.precision - 1) + Dot(taps[..i], ws[..i])
    {
      TableAt(a, pillow, t, row, i);
      WindowIsWhole(a, row);
      PlaceInside(src.width, src.height, first + i, column, channel);
      DotNext(taps, ws, i);
      var weight := t.weights[RowStart(t.kernelSize, row) + i];
      accumulator := accumulator + src.pixels[Place(src.width, first + i, column, channel)] * weight;
    }
    assert taps[..count] == taps && ws[..count] == ws;
    pixel := Pixel(accumulator, t.precision);
  }

  method FillAcross(src: Image, a: Axis, pillow: bool, t: FilterTable, row: nat, out: array<byte>)
    requires src.Sound() && a.Sound() && a.input == src.width && IsTable(a, pillow, t) && t.precision > 0
    requires row < src.height && out.Length == Place(a.output, src.height, 0, 0)
    requires Place(a.output, row, 0, 0) <= out.Length
    requires forall j :: 0 <= j < Place(a.output, row, 0, 0) ==> out[j] == AcrossCell(src, a, t.precision, j)
    modifies out
    ensures Place(a.output, row + 1, 0, 0) <= out.Length
    ensures forall j :: 0 <= j < Place(a.output, row + 1, 0, 0) ==> out[j] == AcrossCell(src, a, t.precision, j)
  {
    hide IsTable, AcrossCell, SampleAcross, Place;
    for column := 0 to a.output
      invariant Place(a.output, row, column, 0) <= out.Length
      invariant forall j :: 0 <= j < Place(a.output, row, column, 0) ==> out[j] == AcrossCell(src, a, t.precision, j)
    {
      NextPlace(a.output, row, column);
      AcrossCellAt(src, a, t.precision, row, column, 2);
      for channel := 0 to 3
        invariant forall j :: 0 <= j < Place(a.output, row, column, channel) ==>
          out[j] == AcrossCell(src, a, t.precision, j)
      {
        AcrossCellAt(src, a, t.precision, row, column, channel);
        out[Place(a.output, row, column, channel)] := AccumulateAcross(src, a, pillow, t, row, column, channel);
      }
    }
    NextPlace(a.output, row, a.output);
  }

  method ResizeHorizontal(src: Image, a: Axis, pillow: bool, t: FilterTable) returns (target: Image)
    requires src.Sound() && a.Sound() && a.input == src.width && IsTable(a, pillow, t) && t.precision > 0
    ensures target == Across(src, a, t.precision)
  {
    hide IsTable, AcrossCell, SampleAcross, Place;
    NextPlace(a.output, 0, 0);
    var size := Place(a.output, src.height, 0, 0);
    var out := new byte[size];
    for row := 0 to src.height
      invariant Place(a.output, row, 0, 0) <= size
      invariant forall j :: 0 <= j < Place(a.output, row, 0, 0) ==> out[j] == AcrossCell(src, a, t.precision, j)
      modifies out
    {
      FillAcross(src, a, pillow, t, row, out);
    }
    target := Image(a.output, src.height, out[..]);
  }

  method FillDown(src: Image, a: Axis, pillow: bool, t: FilterTable, row: nat, out: array<byte>)
    requires src.Sound() && a.Sound() && a.input == src.height && IsTable(a, pillow, t) && t.precision > 0
    requires row < a.output && out.Length == Place(src.width, a.output, 0, 0)
    requires Place(src.width, row, 0, 0) <= out.Length
    requires forall j :: 0 <= j < Place(src.width, row, 0, 0) ==> out[j] == DownCell(src, a, t.precision, j)
    modifies out
    ensures Place(src.width, row + 1, 0, 0) <= out.Length
    ensures forall j :: 0 <= j < Place(src.width, row + 1, 0, 0) ==> out[j] == DownCell(src, a, t.precision, j)
  {
    hide IsTable, DownCell, SampleDown, Place;
    for column := 0 to src.width
      invariant Place(src.width, row, column, 0) <= out.Length
      invariant forall j :: 0 <= j < Place(src.width, row, column, 0) ==> out[j] == DownCell(src, a, t.precision, j)
    {
      NextPlace(src.width, row, column);
      DownCellAt(src, a, t.precision, row, column, 2);
      for channel := 0 to 3
        invariant forall j :: 0 <= j < Place(src.width, row, column, channel) ==>
          out[j] == DownCell(src, a, t.precision, j)
      {
        DownCellAt(src, a, t.precision, row, column, channel);
        out[Place(src.width, row, column, channel)] := AccumulateDown(src, a, pillow, t, row, column, channel);
      }
    }
    NextPlace(src.width, row, src.width);
  }

  method ResizeVertical(src: Image, a: Axis, pillow: bool, t: FilterTable) returns (target: Image)
    requires src.Sound() && a.Sound() && a.input == src.height && IsTable(a, pillow, t) && t.precision > 0
    ensures target == Down(src, a, t.precision)
  {
    hide IsTable, DownCell, SampleDown, Place;
    NextPlace(src.width, 0, 0);
    var size := Place(src.width, a.output, 0, 0);
    var out := new byte[size];
    for row := 0 to a.output
      invariant Place(src.width, row, 0, 0) <= size
      invariant forall j :: 0 <= j < Place(src.width, row, 0, 0) ==> out[j] == DownCell(src, a, t.precision, j)
      modifies out
    {
      FillDown(src, a, pillow, t, row, out);
    }
    target := Image(src.width, a.output, out[..]);
  }

  // ------------------------------------------------------------ constant images

  function Sum(ws: seq<int>): int {
    if ws == [] then 0 else Sum(ws[..|ws| - 1]) + ws[|ws| - 1]
  }

  lemma {:induction false} DotConstant(taps: bytes, ws: seq<int>, v: byte)
    requires |taps| == |ws| && forall i :: 0 <= i < |taps| ==> taps[i] == v
    ensures Dot(taps, ws) == v * Sum(ws)
  {
    if taps != [] {
      var n := |ws| - 1;
      DotConstant(taps[..n], ws[..n], v);
      assert v * Sum(ws) == v * Sum(ws[..n]) + v * ws[n];
    }
  }

  lemma {:induction false} SumOfUnits(ws: seq<real>, stored: seq<int>, unit: nat)
    requires |ws| == |stored| && forall i :: 0 <= i < |ws| ==> stored[i] == Units(ws[i], unit)
    ensures Sum(stored) == TotalUnits(ws, unit)
  {
    hide Units;
    if ws != [] {
      SumOfUnits(ws[..|ws| - 1], stored[..|ws| - 1], unit);
    }
  }

  /** The stored weights sum to `sum` where they should sum to `unit`: what that leaves of a colour `v`. */
  predicate Stays(v: byte, sum: int, unit: nat) {
    var error := 2 * (v * (sum - unit));
    error >= -(unit as int) && (v == 255 || error < unit)
  }

  /** A constant `v` is kept exactly when its error rounds away, or is clamped away. */
  lemma PixelOf(v: byte, sum: int, precision: nat)
    requires precision > 0
    ensures Pixel(Pow2(precision - 1) + v * sum, precision) == v <==> Stays(v, sum, Pow2(precision))
  {
    var unit, half := Pow2(precision), Pow2(precision - 1);
    var total := half + v * sum;
    assert v * sum == v * (sum - unit) + v * unit;
    AboveQuotient(v, total, unit);
    AboveQuotient(v + 1, total, unit);
  }

  /** Fewer taps than the unit allows always round away. */
  lemma FewTapsStay(v: byte, sum: int, count: nat, unit: nat)
    requires 255 * count < unit && -(count as int) <= 2 * (sum - unit) <= count
    ensures Stays(v, sum, unit)
  {
    var error := 2 * (sum - unit);
    MulMono(count, v, 255);
    MulMono(v, error, count);
    MulMono(v, -(count as int), error);
    assert v * error == 2 * (v * (sum - unit));
  }

  /** What the weights of a window sum to, as they are stored. */
  function StoredSum(a: Axis, o: nat, precision: nat): int
    requires a.Sound()
  {
    TotalUnits(Weights(a, o), Pow2(precision))
  }

  /** Every window of the pass keeps the colour `v`. */
  ghost predicate Keeps(a: Axis, precision: nat, v: byte)
    requires a.Sound()
  {
    forall o: nat :: o < a.output ==> Stays(v, StoredSum(a, o, precision), Pow2(precision))
  }

  /** No window has more taps than the precision can bear. */
  ghost predicate Fine(a: Axis, precision: nat)
    requires a.Sound()
  {
    forall o: nat :: o < a.output ==> 255 * a.Count(o) < Pow2(precision)
  }

  lemma FineKeeps(a: Axis, precision: nat, v: byte)
    requires a.Sound() && Fine(a, precision)
    ensures Keeps(a, precision, v)
  {
    hide Axis.Count, Weights, Stays;
    forall o: nat | o < a.output ensures Stays(v, StoredSum(a, o, precision), Pow2(precision)) {
      StoredSumToOne(a, o, Pow2(precision));
      FewTapsStay(v, StoredSum(a, o, precision), a.Count(o), Pow2(precision));
    }
  }

  lemma SampleConstant(a: Axis, o: nat, precision: nat, taps: bytes, v: byte)
    requires a.Sound() && o < a.output && precision > 0
    requires |taps| == a.Count(o) && forall i :: 0 <= i < |taps| ==> taps[i] == v
    ensures Sample(taps, Stored(a, o, Pow2(precision)), precision) == v
       <==> Stays(v, StoredSum(a, o, precision), Pow2(precision))
  {
    hide Axis.Count, Weights, Units, Pixel, Stays;
    var ws := Stored(a, o, Pow2(precision));
    DotConstant(taps, ws, v);
    SumOfUnits(Weights(a, o), ws, Pow2(precision));
    PixelOf(v, Sum(ws), precision);
  }

  /** One value for each channel. */
  datatype Colour = Colour(red: byte, green: byte, blue: byte) {
    function At(channel: nat): byte {
      if channel == 0 then red else if channel == 1 then green else blue
    }
  }

  /** Every pixel has this colour. */
  predicate IsConstant(src: Image, v: Colour) {
    forall j :: 0 <= j < |src.pixels| ==> src.pixels[j] == v.At(j % 3)
  }

  /** Every window of the pass keeps the colour, in all three channels. */
  ghost predicate KeepsColour(a: Axis, precision: nat, v: Colour)
    requires a.Sound()
  {
    Keeps(a, precision, v.red) && Keeps(a, precision, v.green) && Keeps(a, precision, v.blue)
  }

  lemma AcrossSample(src: Image, a: Axis, precision: nat, v: Colour, row: nat, column: nat, channel: nat)
    requires src.Sound() && a.Sound() && a.input == src.width && precision > 0 && IsConstant(src, v)
    requires row < src.height && column < a.output && channel < 3
    ensures SampleAcross(src, a, precision, row, column, channel) == v.At(channel)
       <==> Stays(v.At(channel), StoredSum(a, column, precision), Pow2(precision))
  {
    hide Axis.Count, Sample, Place, Stored, Stays, Colour.At;
    var taps := TapsAcross(src, a, row, column, channel);
    WindowIsWhole(a, column);
    forall i: nat | i < |taps| ensures taps[i] == v.At(channel) {
      PlaceInside(src.width, src.height, row, a.First(column) + i, channel);
      PlaceDigits(src.width, row, a.First(column) + i, channel);
    }
    SampleConstant(a, column, precision, taps, v.At(channel));
  }

  lemma DownSample(src: Image, a: Axis, precision: nat, v: Colour, row: nat, column: nat, channel: nat)
    requires src.Sound() && a.Sound() && a.input == src.height && precision > 0 && IsConstant(src, v)
    requires row < a.output && column < src.width && channel < 3
    ensures SampleDown(src, a, precision, row, column, channel) == v.At(channel)
       <==> Stays(v.At(channel), StoredSum(a, row, precision), Pow2(precision))
  {
    hide Axis.Count, Sample, Place, Stored, Stays, Colour.At;
    var taps := TapsDown(src, a, row, column, channel);
    WindowIsWhole(a, row);
    forall i: nat | i < |taps| ensures taps[i] == v.At(channel) {
      PlaceInside(src.width, src.height, a.First(row) + i, column, channel);
      PlaceDigits(src.width, a.First(row) + i, column, channel);
    }
    SampleConstant(a, row, precision, taps, v.At(channel));
  }

  lemma KeepsAt(a: Axis, precision: nat, v: Colour, o: nat, channel: nat)
    requires a.Sound() && o < a.output && channel < 3 && KeepsColour(a, precision, v)
    ensures Stays(v.At(channel), StoredSum(a, o, precision), Pow2(precision))
  {
    hide Stays, StoredSum;
  }

  lemma AllChannels(a: Axis, precision: nat, v: Colour)
    requires a.Sound()
    requires forall channel: nat, o: nat :: channel < 3 && o < a.output ==>
      Stays(v.At(channel), StoredSum(a, o, precision), Pow2(precision))
    ensures KeepsColour(a, precision, v)
  {
    hide Stays, StoredSum;
    forall o: nat | o < a.output
      ensures Stays(v.red, StoredSum(a, o, precision), Pow2(precision))
      ensures Stays(v.green, StoredSum(a, o, precision), Pow2(precision))
      ensures Stays(v.blue, StoredSum(a, o, precision), Pow2(precision))
    {
      assert v.At(0) == v.red && v.At(1) == v.green && v.At(2) == v.blue;
    }
  }

  /** A pass over an image of one colour gives that colour exactly when every window keeps it in every channel. */
  lemma AcrossConstant(src: Image, a: Axis, precision: nat, v: Colour)
    requires src.Sound() && a.Sound() && a.input == src.width && precision > 0 && IsConstant(src, v) && src.height > 0
    ensures IsConstant(Across(src, a, precision), v) <==> KeepsColour(a, precision, v)
  {
    hide Axis.Count, SampleAcross, Place, Stays, StoredSum, Colour.At;
    var r := Across(src, a, precision);
    if KeepsColour(a, precision, v) {
      forall j: nat | j < |r.pixels| ensures r.pixels[j] == v.At(j % 3) {
        DigitsInside(a.output, src.height, j);
        AcrossSample(src, a, precision, v, j / 3 / a.output, j / 3 % a.output, j % 3);
        KeepsAt(a, precision, v, j / 3 % a.output, j % 3);
      }
    }
    if IsConstant(r, v) {
      forall channel: nat, o: nat | channel < 3 && o < a.output
        ensures Stays(v.At(channel), StoredSum(a, o, precision), Pow2(precision))
      {
        PlaceInside(a.output, src.height, 0, o, channel);
        PlaceDigits(a.output, 0, o, channel);
        AcrossCellAt(src, a, precision, 0, o, channel);
        AcrossSample(src, a, precision, v, 0, o, channel);
        assert r.pixels[Place(a.output, 0, o, channel)] == v.At(channel);
      }
      AllChannels(a, precision, v);
    }
  }

  lemma DownConstant(src: Image, a: Axis, precision: nat, v: Colour)
    requires src.Sound() && a.Sound() && a.input == src.height && precision > 0 && IsConstant(src, v) && src.width > 0
    ensures IsConstant(Down(src, a, precision), v) <==> KeepsColour(a, precision, v)
  {
    hide Axis.Count, SampleDown, Place, Stays, StoredSum, Colour.At;
    var r := Down(src, a, precision);
    if KeepsColour(a, precision, v) {
      forall j: nat | j < |r.pixels| ensures r.pixels[j] == v.At(j % 3) {
        DigitsInside(src.width, a.output, j);
        DownSample(src, a, precision, v, j / 3 / src.width, j / 3 % src.width, j % 3);
        KeepsAt(a, precision, v, j / 3 / src.width, j % 3);
      }
    }
    if IsConstant(r, v) {
      forall channel: nat, o: nat | channel < 3 && o < a.output
        ensures Stays(v.At(channel), StoredSum(a, o, precision), Pow2(precision))
      {
        PlaceInside(src.width, a.output, o, 0, channel);
        PlaceDigits(src.width, o, 0, channel);
        DownCellAt(src, a, precision, o, 0, channel);
        DownSample(src, a, precision, v, o, 0, channel);
        assert r.pixels[Place(src.width, o, 0, channel)] == v.At(channel);
      }
      AllChannels(a, precision, v);
    }
  }
}
