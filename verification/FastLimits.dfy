/** The size limits of the FAST codec, checked in 64-bit arithmetic. */
module FastLimits {
  import Arith
  import opened Bytes

  const MAX_VOCAB: u64 := 65536
  const MAX_HORIZON: u64 := 1024
  const MAX_ACTION_DIM: u64 := 1024
  const MAX_BATCH: u64 := 1024
  const MAX_TOKENS: nat := 4096
  const MAX_GENERATED: nat := 2048
  const MAX_DECODED_BYTES: nat := 1024 * 1024
  const MAX_SCALARS: u64 := 16 * 1024 * 1024
  const MAX_MULTIPLY_ADDS: u64 := 64 * 1024 * 1024
  const SIZE_MAX: u64 := 0xFFFF_FFFF_FFFF_FFFF

  /** `scale` is a double; what matters is whether it is a finite number, and which. */
  datatype Scale = NotFinite | Finite(value: real)

  datatype Config = Config(scale: Scale, minToken: i32, vocabSize: u64, timeHorizon: u64, actionDim: u64)

  datatype LimitFault = DimensionsTooLarge | BatchTooLarge | ShapeOverflow | TooManyScalars | TooMuchWork

  /** A 64-bit product. */
  function Times64(a: u64, b: u64): u64 {
    (a as int * b as int) % 0x1_0000_0000_0000_0000
  }

  function PerSample(c: Config): nat {
    c.timeHorizon as int * c.actionDim as int
  }

  function Work(c: Config): nat {
    c.timeHorizon as int * c.timeHorizon as int * c.actionDim as int
  }

  /** The limits in plain arithmetic. */
  predicate WithinLimits(c: Config, batch: nat) {
    && c.vocabSize <= MAX_VOCAB && c.timeHorizon <= MAX_HORIZON && c.actionDim <= MAX_ACTION_DIM
    && 1 <= batch <= MAX_BATCH
    && batch * PerSample(c) <= MAX_SCALARS
    && Work(c) * batch <= MAX_MULTIPLY_ADDS
  }

  /** The limits in numbers. */
  lemma LimitsAre(c: Config, batch: nat)
    ensures WithinLimits(c, batch) <==>
      && c.vocabSize <= 65536 && c.timeHorizon <= 1024 && c.actionDim <= 1024 && 1 <= batch <= 1024
      && batch * (c.timeHorizon as int * c.actionDim as int) <= 16_777_216
      && c.timeHorizon as int * c.timeHorizon as int * c.actionDim as int * batch <= 67_108_864
  {
  }

  lemma ProductBound(a: nat, b: nat, x: nat, y: nat)
    requires 0 < a <= x && 0 < b <= y
    ensures 0 < a * b <= x * y
  {
    Arith.MulMono2(1, 1, a, b);
    Arith.MulMono2(a, b, x, y);
  }

  lemma NoWrap(a: u64, b: u64)
    requires a as int * b as int < 0x1_0000_0000_0000_0000
    ensures Times64(a, b) as int == a as int * b as int
  {
    Arith.MulMono2(0, 0, a, b);
  }

  /** A partial product of positive factors is at most the whole. */
  lemma Grows(a: nat, d: nat, n: nat)
    requires d > 0 && n > 0
    ensures a <= a * d <= a * d * n
  {
    Arith.MulMono(a, 1, d);
    Arith.MulMono(a * d, 1, n);
  }

  lemma WorkFacts(c: Config, batch: u64)
    requires 0 < c.timeHorizon <= MAX_HORIZON && 0 < c.actionDim <= MAX_ACTION_DIM && 0 < batch <= MAX_BATCH
    ensures var w := Times64(c.timeHorizon, c.timeHorizon);
      var w2 := Times64(w, c.actionDim);
      && w > 0 && w2 as int == Work(c) > 0
      && (c.timeHorizon > MAX_MULTIPLY_ADDS / c.timeHorizon ==> Work(c) * batch > MAX_MULTIPLY_ADDS)
      && (c.actionDim > MAX_MULTIPLY_ADDS / w ==> Work(c) * batch > MAX_MULTIPLY_ADDS)
      && (batch > MAX_MULTIPLY_ADDS / w2 <==> Work(c) * batch > MAX_MULTIPLY_ADDS)
  {
    hide Times64;
    var h: nat, d: nat, n: nat := c.timeHorizon, c.actionDim, batch;
    ProductBound(h, h, 1024, 1024);
    var w: nat := h * h;
    NoWrap(h, h);
    ProductBound(w, d, 1024 * 1024, 1024);
    var w2: nat := w * d;
    NoWrap(w, d);
    assert w2 == Work(c);
    Arith.AboveQuotient(h, MAX_MULTIPLY_ADDS, h);
    Arith.AboveQuotient(d, MAX_MULTIPLY_ADDS, w);
    Arith.AboveQuotient(n, MAX_MULTIPLY_ADDS, w2);
    Grows(w, d, n);
    assert n * w2 == Work(c) * batch;
  }

  method WorkFits(c: Config, batch: u64) returns (ok: bool)
    requires 0 < c.timeHorizon <= MAX_HORIZON && 0 < c.actionDim <= MAX_ACTION_DIM && 0 < batch <= MAX_BATCH
    ensures ok <==> Work(c) * batch <= MAX_MULTIPLY_ADDS
  {
    hide Work, Times64;
    WorkFacts(c, batch);
    if c.timeHorizon > MAX_MULTIPLY_ADDS / c.timeHorizon { return false; }
    var work := Times64(c.timeHorizon, c.timeHorizon);
    if c.actionDim > MAX_MULTIPLY_ADDS / work { return false; }
    work := Times64(work, c.actionDim);
    if batch > MAX_MULTIPLY_ADDS / work { return false; }
    return true;
  }

  lemma ShapeFacts(c: Config, batch: u64)
    requires 0 < c.timeHorizon <= MAX_HORIZON && 0 < c.actionDim <= MAX_ACTION_DIM && 0 < batch <= MAX_BATCH
    ensures c.timeHorizon <= SIZE_MAX / c.actionDim
    ensures Times64(c.timeHorizon, c.actionDim) as int == PerSample(c) > 0
    ensures batch <= SIZE_MAX / Times64(c.timeHorizon, c.actionDim)
    ensures Times64(batch, Times64(c.timeHorizon, c.actionDim)) as int == batch * PerSample(c)
  {
    hide Times64;
    var h: nat, d: nat, n: nat := c.timeHorizon, c.actionDim, batch;
    ProductBound(h, d, 1024, 1024);
    Arith.AboveQuotient(h, SIZE_MAX, d);
    NoWrap(h, d);
    var p: nat := h * d;
    ProductBound(n, p, 1024, 1024 * 1024);
    Arith.AboveQuotient(n, SIZE_MAX, p);
    NoWrap(n, p);
  }

  /** Accepts exactly when the limits hold, and then returns the true products: nothing has wrapped around. */
  method CheckedActionCount(c: Config, batch: u64) returns (fault: Option<LimitFault>, perSample: u64, total: u64)
    requires c.timeHorizon > 0 && c.actionDim > 0
    ensures fault.None? <==> WithinLimits(c, batch)
    ensures fault.None? ==> perSample as int == PerSample(c) && total as int == batch * PerSample(c)
  {
    hide PerSample, Work, Times64;
    perSample, total := 0, 0;
    if c.vocabSize > MAX_VOCAB || c.timeHorizon > MAX_HORIZON || c.actionDim > MAX_ACTION_DIM {
      return Some(DimensionsTooLarge), perSample, total;
    }
    if batch == 0 || batch > MAX_BATCH { return Some(BatchTooLarge), perSample, total; }
    ShapeFacts(c, batch);
    if c.timeHorizon > SIZE_MAX / c.actionDim { return Some(ShapeOverflow), perSample, total; }
    perSample := Times64(c.timeHorizon, c.actionDim);
    if batch > SIZE_MAX / perSample { return Some(ShapeOverflow), perSample, total; }
    total := Times64(batch, perSample);
    if total > MAX_SCALARS { return Some(TooManyScalars), perSample, total; }
    var ok := WorkFits(c, batch);
    if !ok { return Some(TooMuchWork), perSample, total; }
    return None, perSample, total;
  }
}
