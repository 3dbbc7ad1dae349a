/** Packing a strided image, resizing it, and the Qwen preprocessing built on top. */
module Preprocess {
  import opened Bytes
  import opened Arith
  import opened Reals
  import opened Filters
  import opened FilterTables
  import opened Resample
  import SmartResize
  import IntegerSizes

  datatype Fault = InvalidImage | SmallStride | NotRgb | BadPatch | BadSize(outcome: SmartResize.Outcome)
                 | TooManyTokens
  datatype Answer<+T> = Done(value: T) | Failed(fault: Fault)

  /** The stride in force: zero means packed. */
  function Stride(width: nat, stride: int): nat {
    if stride > 0 then stride else 3 * width
  }

  /** The memory behind `source` reaches the end of every row. */
  ghost predicate Reaches(source: bytes, width: nat, height: nat, stride: nat) {
    forall row: nat :: row < height ==> RowStart(stride, row) + 3 * width <= |source|
  }

  function RowBytes(source: bytes, width: nat, stride: nat, row: nat): bytes
    requires RowStart(stride, row) + 3 * width <= |source|
  {
    source[RowStart(stride, row)..RowStart(stride, row) + 3 * width]
  }

  ghost function PackedRows(source: bytes, width: nat, stride: nat, rows: nat): bytes
    requires Reaches(source, width, rows, stride)
  {
    if rows == 0 then [] else PackedRows(source, width, stride, rows - 1) + RowBytes(source, width, stride, rows - 1)
  }

  ghost function Packed(source: bytes, width: nat, height: nat, stride: nat): Image
    requires Reaches(source, width, height, stride)
  {
    Image(width, height, PackedRows(source, width, stride, height))
  }

  lemma {:induction false} PackedSize(source: bytes, width: nat, stride: nat, rows: nat)
    requires Reaches(source, width, rows, stride)
    ensures |PackedRows(source, width, stride, rows)| == Place(width, rows, 0, 0)
  {
    if rows == 0 {
      NextPlace(width, 0, 0);
    } else {
      PackedSize(source, width, stride, rows - 1);
      NextPlace(width, rows - 1, 0);
      NextPlace(width, rows - 1, width);
      assert Place(width, rows, 0, 0) == Place(width, rows - 1, 0, 0) + 3 * width;
    }
  }

  lemma PackedLength(source: bytes, width: nat, stride: nat, rows: nat)
    requires Reaches(source, width, rows, stride)
    ensures |PackedRows(source, width, stride, rows)| == rows * (3 * width)
  {
    PackedSize(source, width, stride, rows);
    PlaceIs(width, rows, 0, 0);
    assert 3 * (rows * width) == rows * (3 * width);
  }

  /** Where a byte of the packed rows comes from: row `row` starts at its multiple of the stride. */
  lemma {:induction false} PackedAt(source: bytes, width: nat, stride: nat, rows: nat, row: nat, k: nat)
    requires Reaches(source, width, rows, stride) && row < rows && k < 3 * width
    ensures row * stride + k < |source| && row * (3 * width) + k < |PackedRows(source, width, stride, rows)|
    ensures PackedRows(source, width, stride, rows)[row * (3 * width) + k] == source[row * stride + k]
  {
    PackedLength(source, width, stride, rows - 1);
    assert RowStart(stride, row) + 3 * width <= |source|;
    assert RowStart(stride, row) == row * stride;
    if row == rows - 1 {
      assert RowBytes(source, width, stride, row)[k] == source[RowStart(stride, row) + k];
    } else {
      PackedAt(source, width, stride, rows - 1, row, k);
    }
  }

  method PackSource(source: bytes, width: nat, height: nat, stride: nat) returns (image: Image)
    requires Reaches(source, width, height, stride)
    ensures image == Packed(source, width, height, stride) && image.Sound()
  {
    var pixels := [];
    for row := 0 to height
      invariant pixels == PackedRows(source, width, stride, row)
    {
      pixels := pixels + RowBytes(source, width, stride, row);
    }
    PackedSize(source, width, stride, height);
    image := Image(width, height, pixels);
  }

  /** Images that agree row by row pack alike, whatever their strides and padding. */
  lemma {:induction false} PaddingDoesNotMatter(a: bytes, b: bytes, width: nat, s: nat, t: nat, rows: nat)
    requires Reaches(a, width, rows, s) && Reaches(b, width, rows, t)
    requires forall row: nat :: row < rows ==> RowBytes(a, width, s, row) == RowBytes(b, width, t, row)
    ensures PackedRows(a, width, s, rows) == PackedRows(b, width, t, rows)
  {
    if rows > 0 {
      PaddingDoesNotMatter(a, b, width, s, t, rows - 1);
    }
  }

  function PassAcross(image: Image, width: nat, pillow: bool): (r: Image)
    requires image.Sound() && image.width > 0 && width > 0
    ensures r.Sound() && r.width == width && r.height == image.height
  {
    if image.width == width then image
    else
      var a := Axis(image.width, width);
      PrecisionBounds(a, pillow);
      Across(image, a, Precision(a, pillow))
  }

  function PassDown(image: Image, height: nat, pillow: bool): (r: Image)
    requires image.Sound() && image.height > 0 && height > 0
    ensures r.Sound() && r.width == image.width && r.height == height
  {
    if image.height == height then image
    else
      var a := Axis(image.height, height);
      PrecisionBounds(a, pillow);
      Down(image, a, Precision(a, pillow))
  }

  /** The whole resize: at most one pass each way. */
  function Resized(image: Image, width: nat, height: nat, pillow: bool): Image
    requires image.Sound() && image.width > 0 && image.height > 0 && width > 0 && height > 0
  {
    PassDown(PassAcross(image, width, pillow), height, pillow)
  }

  /** First across and then down, and neither where the size is already right. */
  lemma ResizedIs(image: Image, width: nat, height: nat, pillow: bool)
    requires image.Sound() && image.width > 0 && image.height > 0 && width > 0 && height > 0
    ensures Precision(Axis(image.width, width), pillow) > 0 && Precision(Axis(image.height, height), pillow) > 0
    ensures var across := if image.width == width then image
                          else Across(image, Axis(image.width, width), Precision(Axis(image.width, width), pillow));
      Resized(image, width, height, pillow)
      == if image.height == height then across
         else Down(across, Axis(image.height, height), Precision(Axis(image.height, height), pillow))
  {
    hide Across, Down, Precision;
    PrecisionBounds(Axis(image.width, width), pillow);
    PrecisionBounds(Axis(image.height, height), pillow);
  }

  lemma TablePrecision(a: Axis, pillow: bool, t: FilterTable)
    requires a.Sound() && IsTable(a, pillow, t)
    ensures t.precision == Precision(a, pillow) > 0
  {
    PrecisionBounds(a, pillow);
  }

  method ResizeRgb(source: bytes, width: i32, height: i32, stride: i32, targetWidth: i32, targetHeight: i32,
                   pillow: bool)
    returns (r: Answer<bytes>)
    requires width > 0 && height > 0 ==> Reaches(source, width, height, Stride(width, stride))
    ensures if width <= 0 || height <= 0 || targetWidth <= 0 || targetHeight <= 0 then r == Failed(InvalidImage)
            else if stride != 0 && stride < 3 * width then r == Failed(SmallStride)
            else r.Done?
    ensures r.Done? ==> |PackedRows(source, width, Stride(width, stride), height)| == Place(width, height, 0, 0)
    ensures r.Done? ==> |r.value| == Place(targetWidth, targetHeight, 0, 0)
    ensures r.Done? ==> var image := Packed(source, width, height, Stride(width, stride));
      r.value == Resized(image, targetWidth, targetHeight, pillow).pixels
  {
    hide Across, Down, IsTable, Precision, Place, Reaches;
    if width <= 0 || height <= 0 || targetWidth <= 0 || targetHeight <= 0 { return Failed(InvalidImage); }
    if stride != 0 && stride < 3 * width { return Failed(SmallStride); }
    var current := PackSource(source, width, height, Stride(width, stride));
    PackedSize(source, width, Stride(width, stride), height);
    if width != targetWidth {
      var a := Axis(width, targetWidth);
      var table := MakeFilterTable(a, pillow);
      TablePrecision(a, pillow, table);
      current := ResizeHorizontal(current, a, pillow, table);
    }
    if height != targetHeight {
      var a := Axis(height, targetHeight);
      var table := MakeFilterTable(a, pillow);
      TablePrecision(a, pillow, table);
      current := ResizeVertical(current, a, pillow, table);
    }
    r := Done(current.pixels);
  }

  // ------------------------------------------------------------ constant images

  /** Whatever pass runs in a direction, its windows are short enough for its precision. */
  ghost predicate FinePass(input: nat, output: nat, pillow: bool)
    requires input > 0 && output > 0
  {
    input != output ==> Fine(Axis(input, output), Precision(Axis(input, output), pillow))
  }

  /** Whatever pass runs in a direction keeps the colour `v`. */
  ghost predicate KeepingPass(input: nat, output: nat, pillow: bool, v: Colour)
    requires input > 0 && output > 0
  {
    input != output ==> KeepsColour(Axis(input, output), Precision(Axis(input, output), pillow), v)
  }

  lemma FinePassKeeps(input: nat, output: nat, pillow: bool, v: Colour)
    requires input > 0 && output > 0 && FinePass(input, output, pillow)
    ensures KeepingPass(input, output, pillow, v)
  {
    hide Fine, Keeps, Precision;
    if input != output {
      var a := Axis(input, output);
      FineKeeps(a, Precision(a, pillow), v.red);
      FineKeeps(a, Precision(a, pillow), v.green);
      FineKeeps(a, Precision(a, pillow), v.blue);
    }
  }

  lemma AcrossPass(image: Image, width: nat, pillow: bool, v: Colour)
    requires image.Sound() && image.width > 0 && image.height > 0 && width > 0 && IsConstant(image, v)
    ensures IsConstant(PassAcross(image, width, pillow), v) <==> KeepingPass(image.width, width, pillow, v)
  {
    hide IsConstant, Across, Place, KeepsColour, Precision;
    if image.width != width {
      var a := Axis(image.width, width);
      PrecisionBounds(a, pillow);
      AcrossConstant(image, a, Precision(a, pillow), v);
    }
  }

  lemma DownPass(image: Image, height: nat, pillow: bool, v: Colour)
    requires image.Sound() && image.width > 0 && image.height > 0 && height > 0 && IsConstant(image, v)
    ensures IsConstant(PassDown(image, height, pillow), v) <==> KeepingPass(image.height, height, pillow, v)
  {
    hide IsConstant, Down, Place, KeepsColour, Precision;
    if image.height != height {
      var a := Axis(image.height, height);
      PrecisionBounds(a, pillow);
      DownConstant(image, a, Precision(a, pillow), v);
    }
  }

  /**
    * An image of one colour is resized to an image of exactly that colour when both passes keep it; and where one pass
    * is not needed, only then.
    */
  lemma ConstantStays(image: Image, width: nat, height: nat, pillow: bool, v: Colour)
    requires image.Sound() && image.width > 0 && image.height > 0 && width > 0 && height > 0 && IsConstant(image, v)
    ensures var r := Resized(image, width, height, pillow);
      var kept := KeepingPass(image.width, width, pillow, v) && KeepingPass(image.height, height, pillow, v);
      && r.Sound() && r.width == width && r.height == height
      && (kept ==> IsConstant(r, v))
      && (image.width == width || image.height == height ==> (IsConstant(r, v) <==> kept))
  {
    hide IsConstant, Place, KeepsColour;
    AcrossPass(image, width, pillow, v);
    var x := PassAcross(image, width, pillow);
    if IsConstant(x, v) { DownPass(x, height, pillow, v); }
  }

  lemma {:induction false} Pow2Mono(m: nat, n: nat)
    requires m <= n
    ensures Pow2(m) <= Pow2(n)
  {
    if m < n { Pow2Mono(m, n - 1); }
  }

  lemma FourTaps(a: Axis, o: nat)
    requires a.Sound() && o < a.output && a.FilterScale() == 1.0
    ensures a.Count(o) <= 4
  {
    hide Axis.Count, Axis.FilterScale;
    WindowIsWhole(a, o);
  }

  lemma TenBits()
    ensures Pow2(10) == 1024 && Pow2(22) == 4194304
  {
    assert Pow2(4) == 16 && Pow2(7) == 128 && Pow2(10) == 1024;
    assert Pow2(13) == 8192 && Pow2(16) == 65536 && Pow2(19) == 524288;
  }

  lemma RatioAtMost(input: nat, output: nat, k: nat)
    requires 0 < input <= k * output && output > 0
    ensures Axis(input, output).Scale() <= k as real
  {
    var q := input as real / output as real;
    assert q * output as real == input as real;
    if q > k as real {
      StrictProduct(q - k as real, output as real, (q - k as real) * output as real);
    }
  }

  /** Enlarging always has windows of at most four taps, for which even ten bits are enough. */
  lemma EnlargingIsFine(input: nat, output: nat, pillow: bool)
    requires 0 < input <= output
    ensures FinePass(input, output, pillow)
  {
    var a := Axis(input, output);
    assert a.FilterScale() == 1.0 by { RatioAtMost(input, output, 1); }
    forall o: nat | o < a.output ensures a.Count(o) <= 4 { FourTaps(a, o); }
    PrecisionBounds(a, pillow);
    hide Axis.Count, Axis.FilterScale, Precision;
    Pow2Mono(10, Precision(a, pillow));
    TenBits();
  }

  lemma RatioAbove(input: nat, output: nat)
    requires 0 < output < input
    ensures Axis(input, output).Scale() > 1.0
  {
    var q := input as real / output as real;
    assert q * output as real == input as real;
    if q <= 1.0 {
      Product(1.0 - q, output as real, (1.0 - q) * output as real);
    }
  }

  /** Up to eight taps, and at least eleven bits. */
  lemma NarrowIsFine(a: Axis)
    requires a.Sound() && 1.0 < a.Scale() < 2.0 && Precision(a, false) != 22
    ensures Fine(a, Precision(a, false))
  {
    hide Axis.Count, Axis.Scale, Axis.Taps, Precision;
    forall o: nat | o < a.output ensures a.Count(o) <= 8 && Total(a.Taps(o)) >= 1.0 / 9.0 { SumOfNarrow(a, o); }
    PrecisionWhen(a, 1.0 / 9.0);
    TenBits();
    if Precision(a, false) <= 10 { Pow2Mono(Precision(a, false), 10); }
    Pow2Mono(11, Precision(a, false));
    assert Pow2(11) == 2 * Pow2(10);
  }

  /** With `n` central taps, at most `4 * n + 4` in all, and a sum that grows with `n`. */
  lemma WideIsFine(a: Axis)
    requires a.Sound() && a.Scale() >= 2.0 && Precision(a, false) != 22
    ensures Fine(a, Precision(a, false))
  {
    hide Axis.Count, Axis.Scale, Axis.Taps, Precision;
    var n := CentralCount(a);
    assert n >= 2;
    var s := n as real * (9.0 / 16.0) - (3 * n + 4) as real * (2.0 / 27.0);
    forall o: nat | o < a.output ensures a.Count(o) <= 4 * n + 4 && Total(a.Taps(o)) >= s {
      CountAgainstCentral(a, o);
      SumBound(a, o);
    }
    PrecisionWhen(a, s);
  }

  /** So has shrinking by up to 4000, whichever precision is used. */
  lemma ShrinkingIsFine(input: nat, output: nat, pillow: bool)
    requires 0 < output <= input <= 4000 * output
    ensures FinePass(input, output, pillow)
  {
    if input > output {
      var a := Axis(input, output);
      RatioAtMost(input, output, 4000);
      RatioAbove(input, output);
      hide Axis.Count, Axis.Scale;
      TenBits();
      if pillow || Precision(a, false) == 22 {
        forall o: nat | o < a.output ensures 255 * a.Count(o) < Pow2(22) { WindowIsWhole(a, o); }
      } else if a.Scale() < 2.0 {
        NarrowIsFine(a);
      } else {
        WideIsFine(a);
      }
    }
  }

  /** Enlarged by any factor, or shrunk by up to 4000, every colour stays. */
  lemma ColoursStay(image: Image, width: nat, height: nat, pillow: bool, v: Colour)
    requires image.Sound() && image.width > 0 && image.height > 0 && width > 0 && height > 0 && IsConstant(image, v)
    requires image.width <= 4000 * width && image.height <= 4000 * height
    ensures IsConstant(Resized(image, width, height, pillow), v)
  {
    hide FinePass, KeepingPass, IsConstant, Resized;
    ConstantStays(image, width, height, pillow, v);
    if image.width <= width { EnlargingIsFine(image.width, width, pillow); }
    else { ShrinkingIsFine(image.width, width, pillow); }
    if image.height <= height { EnlargingIsFine(image.height, height, pillow); }
    else { ShrinkingIsFine(image.height, height, pillow); }
    FinePassKeeps(image.width, width, pillow, v);
    FinePassKeeps(image.height, height, pillow, v);
  }

  // ------------------------------------------------------------ Qwen preprocessing

  datatype Prepared = Prepared(pixels: bytes, width: int, height: int, tokens: int)

  lemma PlaceSize(width: nat, height: nat)
    ensures Place(width, height, 0, 0) == 3 * (width * height)
  {
  }

  predicate StrideTooSmall(width: int, stride: int) {
    stride != 0 && stride < 3 * width
  }

  /** What a success holds: the rule's size, the resized pixels of the packed source, and the tokens that tile it. */
  ghost predicate IsPrepared(p: Prepared, source: bytes, width: i32, height: i32, stride: i32, factor: i32, min: i32,
                             max: i32, sqrt: real -> real)
    requires factor > 0
  {
    && width > 0 && height > 0 && Reaches(source, width, height, Stride(width, stride))
    && Packed(source, width, height, Stride(width, stride)).Sound()
    && SmartResize.Dimensions(width, height, factor, min, max, sqrt) == SmartResize.Sized(p.width, p.height)
    && p.width > 0 && p.height > 0 && |p.pixels| == 3 * (p.width * p.height)
    && p.pixels == Resized(Packed(source, width, height, Stride(width, stride)), p.width, p.height, false).pixels
    && 0 < p.tokens <= SmartResize.INT_MAX && p.tokens * (factor * factor) == p.width * p.height
  }

  /** Resizes to the size the rule chooses, and counts the tokens. */
  method ResizeToFactor(source: bytes, width: i32, height: i32, stride: i32, factor: i32, min: i32, max: i32,
                        sqrt: real -> real)
    returns (r: Answer<Prepared>)
    requires width > 0 && height > 0 ==> Reaches(source, width, height, Stride(width, stride))
    requires SmartResize.SquareRoot(sqrt) && factor > 0
    ensures var size := SmartResize.Dimensions(width, height, factor, min, max, sqrt);
      if !size.Sized? then r == Failed(BadSize(size))
      else if StrideTooSmall(width, stride) then r == Failed(SmallStride)
      else if SmartResize.ValidBounds(width, height, factor, min, max)
              && IntegerSizes.TokensExceed(width, height, factor, min, max) then r == Failed(TooManyTokens)
      else r.Done?
    ensures r.Done? ==> IsPrepared(r.value, source, width, height, stride, factor, min, max, sqrt)
  {
    hide SmartResize.Dimensions, SmartResize.Tokens, Reaches, Resized, Place, PackedRows, IntegerSizes.TokensExceed;
    var size := SmartResize.Dimensions(width, height, factor, min, max, sqrt);
    if !size.Sized? { return Failed(BadSize(size)); }
    SmartResize.AcceptsExactly(width, height, factor, min, max, sqrt);
    SmartResize.TokensTile(width, height, factor, min, max, sqrt);
    SmartResize.SizedFits(width, height, factor, min, max, sqrt);
    IntegerSizes.TokensExactly(width, height, factor, min, max, sqrt);
    var resized := ResizeRgb(source, width, height, stride, size.width, size.height, false);
    if resized.Failed? { return Failed(resized.fault); }
    PlaceSize(size.width, size.height);
    var tokens := SmartResize.Tokens(size.width, size.height, factor);
    if tokens <= 0 || tokens > SmartResize.INT_MAX { return Failed(TooManyTokens); }
    r := Done(Prepared(resized.value, size.width, size.height, tokens));
  }

  /** The two settings are positive and their product fits an `int`. */
  predicate GoodPatch(patch: i32, merge: i32) {
    patch > 0 && merge > 0 && 0 < patch * merge <= SmartResize.INT_MAX
  }

  /** The checks before it; the factor is the product of two settings. */
  method PreprocessQwen(source: bytes, width: i32, height: i32, channels: int, stride: i32, patch: i32, merge: i32,
                        min: i32, max: i32, sqrt: real -> real) returns (r: Answer<Prepared>)
    requires width > 0 && height > 0 ==> Reaches(source, width, height, Stride(width, stride))
    requires SmartResize.SquareRoot(sqrt)
    ensures if channels != 3 then r == Failed(NotRgb)
      else if !GoodPatch(patch, merge) then r == Failed(BadPatch)
      else
        var size := SmartResize.Dimensions(width, height, patch * merge, min, max, sqrt);
        if !size.Sized? then r == Failed(BadSize(size))
        else if StrideTooSmall(width, stride) then r == Failed(SmallStride)
        else if SmartResize.ValidBounds(width, height, patch * merge, min, max)
                && IntegerSizes.TokensExceed(width, height, patch * merge, min, max) then r == Failed(TooManyTokens)
        else r.Done? && IsPrepared(r.value, source, width, height, stride, patch * merge, min, max, sqrt)
  {
    hide SmartResize.Dimensions, Reaches, IsPrepared, IntegerSizes.TokensExceed;
    if channels != 3 { return Failed(NotRgb); }
    if patch <= 0 || merge <= 0 { return Failed(BadPatch); }
    AboveQuotient(patch, SmartResize.INT_MAX, merge);
    if patch > SmartResize.INT_MAX / merge { return Failed(BadPatch); }
    MulMono(patch, 1, merge);
    var factor := patch * merge;
    r := ResizeToFactor(source, width, height, stride, factor, min, max, sqrt);
  }
}
