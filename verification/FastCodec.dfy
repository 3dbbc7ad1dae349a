/** The FAST action codec. */
module Fast {
  import Arith
  import opened Bytes
  import opened Utf8
  import opened ByteLevel
  import opened FastLimits
  import opened FastSpec
  import opened TokenMap
  import Dct

  datatype FastFault =
    | BadConfig | VocabularyTooLarge | WrongSize | BadVlmIds | BadPiece(id: nat, piece: PieceFault)
    | IncompatibleShapes | BadOffsets
    | Limit(limit: LimitFault)
    | TooManyTokens | UnknownToken | SizeOverflow | TooManyBytes | UnmappedToken | EmptyBatch | BatchTooBig
    | BadSequence(index: nat, cause: Option<FastFault>)

  datatype FastDecodeResult = FastDecodeResult(batchSize: nat, timeHorizon: nat, actionDim: nat, actions: seq<real>)

  const NO_RESULT := FastDecodeResult(0, 0, 0, [])

  /** What a successful decode returns for a batch of FAST sequences. */
  ghost predicate DecodedAs(m: Dct.RealMath, c: Codec, batch: seq<seq<i32>>, r: FastDecodeResult)
    requires Legal(c) && m.sqrt(c.config.timeHorizon as real) != 0.0 && PerSample(c.config) > 0
  {
    && r.batchSize == |batch| && r.timeHorizon == c.config.timeHorizon as int
    && r.actionDim == c.config.actionDim as int
    && |r.actions| == |batch| * PerSample(c.config)
    && forall j :: 0 <= j < |r.actions| ==> r.actions[j] == BatchCell(m, c, batch, j)
  }

  /** Each of the first `n` cells has been written once, and nothing else has. */
  ghost predicate WrittenOnce(writes: multiset<nat>, n: nat) {
    forall j: nat :: writes[j] == if j < n then 1 else 0
  }

  /** As `WrittenOnce`, for the `n` cells from `base` on. */
  ghost predicate SliceOnce(writes: multiset<nat>, base: nat, n: nat) {
    forall j: nat :: writes[j] == if base <= j < base + n then 1 else 0
  }

  ghost function ColumnOf(k: nat, d: nat): (a: nat)
    requires d > 0
    ensures a < d
  {
    k % d
  }

  /** The cells from `base` on, `n` of them in rows of `d`, have been written once in the columns before `action`. */
  ghost predicate ColumnsOnce(writes: multiset<nat>, base: nat, n: nat, d: nat, action: nat)
    requires d > 0
  {
    forall j: nat :: writes[j] == if base <= j < base + n && ColumnOf(j - base, d) < action then 1 else 0
  }

  ghost predicate ColumnOnce(writes: multiset<nat>, base: nat, n: nat, d: nat, action: nat)
    requires d > 0
  {
    forall j: nat :: writes[j] == if base <= j < base + n && ColumnOf(j - base, d) == action then 1 else 0
  }

  ghost function ColumnWork(h: nat): nat {
    h * (h - 1)
  }

  lemma Positive(m: Dct.RealMath, c: Codec)
    requires Legal(c) && Dct.Lawful(m)
    ensures m.sqrt(c.config.timeHorizon as real) != 0.0 && PerSample(c.config) > 0 && |c.vlmIds| < 0x8000_0000
  {
    hide Dct.Lawful;
    Dct.Scales(m, c.config.timeHorizon);
    ProductBound(c.config.timeHorizon, c.config.actionDim, c.config.timeHorizon, c.config.actionDim);
  }

  lemma BatchBounds(c: Codec, batch: seq<seq<i32>>)
    requires Accepts(c, batch)
    ensures 0 < |batch| <= MAX_BATCH as int
  {
  }

  lemma StepFits(a: nat, b: nat, n: nat)
    requires b < n
    ensures (b + 1) * a == b * a + a && b * a + a <= n * a
  {
    Arith.MulMono(a, b + 1, n);
  }

  lemma CellOfSample(m: Dct.RealMath, c: Codec, batch: seq<seq<i32>>, b: nat, k: nat)
    requires Legal(c) && m.sqrt(c.config.timeHorizon as real) != 0.0 && k < PerSample(c.config)
    requires b < |batch| && InVocabulary(c, batch[b])
    ensures BatchCell(m, c, batch, b * PerSample(c.config) + k) == CellAt(m, c, CodePointsOf(c, batch[b]), k)
  {
    hide CellAt;
    Arith.DigitsOf(b, k, PerSample(c.config));
  }

  /** Whether cell `k` of a sample is in column `action` and above row `time`. */
  ghost predicate Done(k: nat, d: nat, action: nat, time: nat)
    requires d > 0
  {
    k % d == action && k / d < time
  }

  lemma NothingWritten()
    ensures WrittenOnce(multiset{}, 0)
  {
  }

  lemma NextSlice(writes: multiset<nat>, log: multiset<nat>, n: nat, size: nat)
    requires WrittenOnce(writes, n) && SliceOnce(log, n, size)
    ensures WrittenOnce(writes + log, n + size)
  {
    forall j: nat ensures (writes + log)[j] == if j < n + size then 1 else 0 {
      assert (writes + log)[j] == writes[j] + log[j];
    }
  }

  lemma NoColumns(base: nat, n: nat, d: nat)
    requires d > 0
    ensures ColumnsOnce(multiset{}, base, n, d, 0)
  {
  }

  lemma NextColumn(writes: multiset<nat>, log: multiset<nat>, base: nat, n: nat, d: nat, action: nat)
    requires d > 0 && ColumnsOnce(writes, base, n, d, action) && ColumnOnce(log, base, n, d, action)
    ensures ColumnsOnce(writes + log, base, n, d, action + 1)
  {
    hide ColumnOf;
    forall j: nat
      ensures (writes + log)[j] == if base <= j < base + n && ColumnOf(j - base, d) < action + 1 then 1 else 0
    {
      assert (writes + log)[j] == writes[j] + log[j];
    }
  }

  lemma AllColumns(writes: multiset<nat>, base: nat, n: nat, d: nat)
    requires d > 0 && ColumnsOnce(writes, base, n, d, d)
    ensures SliceOnce(writes, base, n)
  {
    hide ColumnOf;
  }

  lemma AllColumnsWork(c: Config)
    requires c.timeHorizon > 0
    ensures c.actionDim as int * ColumnWork(c.timeHorizon) <= Work(c)
  {
    var h: nat, d: nat := c.timeHorizon, c.actionDim;
    Arith.MulMono(d, h * (h - 1), h * h);
    assert Work(c) == h * h * d == d * (h * h);
  }

  lemma DoneNothing(k: nat, d: nat, action: nat)
    requires d > 0
    ensures !Done(k, d, action, 0)
  {
    Arith.AboveQuotient(0, k, d);
  }

  lemma DoneStep(k: nat, d: nat, action: nat, time: nat)
    requires action < d
    ensures Done(k, d, action, time + 1) <==> Done(k, d, action, time) || k == time * d + action
  {
    assert k == k / d * d + k % d;
    Arith.DigitsOf(time, action, d);
  }

  lemma DoneLater(d: nat, action: nat, time: nat)
    requires action < d
    ensures !Done(time * d + action, d, action, time)
  {
    Arith.DigitsOf(time, action, d);
  }

  lemma DoneColumn(k: nat, d: nat, action: nat, h: nat)
    requires d > 0 && k < h * d
    ensures Done(k, d, action, h) <==> ColumnOf(k, d) == action
  {
    Arith.AboveQuotient(h, k, d);
  }

  lemma CellIs(m: Dct.RealMath, c: Codec, points: seq<nat>, action: nat, time: nat)
    requires Legal(c) && m.sqrt(c.config.timeHorizon as real) != 0.0 && action < c.config.actionDim as int
    ensures CellAt(m, c, points, time * c.config.actionDim as int + action)
         == Dct.Output(m, c.config.timeHorizon, Column(c, points, action), time)
  {
    Arith.DigitsOf(time, action, c.config.actionDim);
  }

  lemma FirstTerm(terms: nat -> real)
    ensures Dct.Sum(1, terms) == terms(0)
  {
    assert Dct.Sum(0, terms) == 0.0;
  }

  lemma NextTerm(terms: nat -> real, f: nat)
    ensures Dct.Sum(f + 1, terms) == Dct.Sum(f, terms) + terms(f)
  {
  }

  /** The coefficient the loop reads for a frequency is in range. */
  lemma CoefficientIs(c: Codec, points: seq<nat>, action: nat, f: nat)
    requires Legal(c) && |points| == PerSample(c.config)
    requires action < c.config.actionDim as int && f < c.config.timeHorizon as int
    ensures var index := f * c.config.actionDim as int + action;
      && index < |points|
      && CoefficientAt(c, points, action, f)
         == (points[index] as real + c.config.minToken as real) / c.config.scale.value
  {
    Arith.DigitsInRange(f, action, c.config.actionDim, c.config.timeHorizon);
  }

  lemma Commute(a: real, b: real, c: real)
    ensures a * (b * c) == b * a * c
  {
  }

  /** What the loop adds for a frequency is that frequency's term of the transform. */
  lemma TermIs(m: Dct.RealMath, c: Codec, points: seq<nat>, action: nat, time: nat, f: nat)
    requires Legal(c) && c.config.timeHorizon > 0 && m.sqrt(c.config.timeHorizon as real) != 0.0
    ensures Dct.Terms(m, c.config.timeHorizon, Column(c, points, action), time)(f)
      == if f == 0 then 1.0 / m.sqrt(c.config.timeHorizon as real) * CoefficientAt(c, points, action, f)
         else m.sqrt(2.0 / (c.config.timeHorizon as real)) * CoefficientAt(c, points, action, f)
              * m.cos(Dct.Angle(m, c.config.timeHorizon, f, time))
  {
    hide Dct.Angle, CoefficientAt;
    var x := CoefficientAt(c, points, action, f);
    assert Column(c, points, action)(f) == x;
    Commute(x, m.sqrt(2.0 / (c.config.timeHorizon as real)), m.cos(Dct.Angle(m, c.config.timeHorizon, f, time)));
  }

  lemma OutputIs(m: Dct.RealMath, c: Codec, points: seq<nat>, action: nat, time: nat)
    requires Legal(c) && m.sqrt(c.config.timeHorizon as real) != 0.0
    ensures Dct.Output(m, c.config.timeHorizon, Column(c, points, action), time)
         == Dct.Sum(c.config.timeHorizon, Dct.Terms(m, c.config.timeHorizon, Column(c, points, action), time))
  {
  }

  /** A prefix has no more bytes than the whole. */
  lemma {:induction false} BytesGrow(c: Codec, ids: seq<i32>, k: nat)
    requires k <= |ids| && InVocabulary(c, ids)
    ensures |PieceBytes(c, ids[..k])| <= |PieceBytes(c, ids)|
    decreases |ids|
  {
    if k < |ids| {
      BytesGrow(c, ids[..|ids| - 1], k);
      assert ids[..|ids| - 1][..k] == ids[..k];
    } else {
      assert ids[..k] == ids;
    }
  }

  class FastCodec {
    const config: Config
    const tokenBytes: seq<bytes>
    const fastToVlm: seq<i32>
    const vlmToFast: seq<Pair>

    function View(): Codec {
      Codec(config, tokenBytes, fastToVlm)
    }

    ghost predicate Valid() {
      Legal(View()) && Sorted(vlmToFast) && multiset(vlmToFast) == multiset(Pairs(fastToVlm))
    }

    constructor (config: Config, tokenBytes: seq<bytes>, fastToVlm: seq<i32>)
      requires Legal(Codec(config, tokenBytes, fastToVlm))
      ensures Valid() && View() == Codec(config, tokenBytes, fastToVlm)
    {
      this.config := config;
      this.tokenBytes := tokenBytes;
      this.fastToVlm := fastToVlm;
      var pairs: seq<Pair> := [];
      for f := 0 to |fastToVlm|
        invariant |pairs| == f && forall k :: 0 <= k < f ==> pairs[k] == (fastToVlm[k], k as i32)
      {
        pairs := pairs + [(fastToVlm[f], f)];
      }
      assert pairs == Pairs(fastToVlm);
      this.vlmToFast := Sort(pairs);
    }

    method MapFastToVlm(fastIds: seq<i32>) returns (vlmIds: seq<i32>, fault: Option<FastFault>)
      requires Valid()
      ensures fault.None? <==> |fastIds| <= MAX_TOKENS && InVocabulary(View(), fastIds)
      ensures vlmIds == if fault.None? then ToVlm(View(), fastIds) else []
    {
      vlmIds := [];
      if |fastIds| > MAX_TOKENS { return [], Some(TooManyTokens); }
      for i := 0 to |fastIds|
        invariant |vlmIds| == i
        invariant forall k :: 0 <= k < i ==> 0 <= fastIds[k] < |fastToVlm| && vlmIds[k] == fastToVlm[fastIds[k]]
      {
        if fastIds[i] < 0 || fastIds[i] >= |fastToVlm| { return [], Some(UnknownToken); }
        vlmIds := vlmIds + [fastToVlm[fastIds[i]]];
      }
      assert vlmIds == ToVlm(View(), fastIds);
      return vlmIds, None;
    }

    method MapVlmToFast(vlmIds: seq<i32>) returns (fastIds: seq<i32>, fault: Option<FastFault>)
      requires Valid()
      ensures fault.None? <==> |vlmIds| <= MAX_TOKENS && AllMapped(View(), vlmIds)
      ensures fastIds == if fault.None? then FilterMap(View(), vlmIds) else []
    {
      fastIds := [];
      if |vlmIds| > MAX_TOKENS { return [], Some(TooManyTokens); }
      for i := 0 to |vlmIds|
        invariant AllMapped(View(), vlmIds[..i]) && fastIds == FilterMap(View(), vlmIds[..i])
      {
        var found := Find(vlmToFast, fastToVlm, vlmIds[i]);
        IndexOfMeans(fastToVlm, vlmIds[i], 0);
        assert vlmIds[..i + 1][..i] == vlmIds[..i];
        if found.None? { return [], Some(UnmappedToken); }
        fastIds := fastIds + [found.value];
      }
      assert vlmIds[..|vlmIds|] == vlmIds;
      return fastIds, None;
    }

    method ExtractFastTokens(generated: seq<i32>) returns (fastIds: seq<i32>, fault: Option<FastFault>)
      requires Valid()
      ensures fault.None? <==> |generated| <= MAX_GENERATED
      ensures fastIds == if fault.None? then FilterMap(View(), generated) else []
    {
      fastIds := [];
      if |generated| > MAX_GENERATED { return [], Some(TooManyTokens); }
      for i := 0 to |generated|
        invariant fastIds == FilterMap(View(), generated[..i])
      {
        var found := Find(vlmToFast, fastToVlm, generated[i]);
        assert generated[..i + 1][..i] == generated[..i];
        if found.Some? {
          fastIds := fastIds + [found.value];
        }
      }
      assert generated[..|generated|] == generated;
      return fastIds, None;
    }

    method ByteLevelDecode(fastIds: seq<i32>) returns (points: seq<nat>, fault: Option<FastFault>)
      requires Valid()
      ensures fault.None? <==> Readable(View(), fastIds)
      ensures points == if fault.None? then CodePointsOf(View(), fastIds) else []
    {
      hide Legal;
      points := [];
      if |fastIds| > MAX_TOKENS { return [], Some(TooManyTokens); }
      var byteCount := 0;
      for i := 0 to |fastIds|
        invariant InVocabulary(View(), fastIds[..i])
        invariant byteCount == |PieceBytes(View(), fastIds[..i])| <= MAX_DECODED_BYTES
      {
        if fastIds[i] < 0 || fastIds[i] >= |tokenBytes| { return [], Some(UnknownToken); }
        var pieceSize := |tokenBytes[fastIds[i]]|;
        assert fastIds[..i + 1][..i] == fastIds[..i];
        assert |PieceBytes(View(), fastIds[..i + 1])| == byteCount + pieceSize;
        if byteCount > SIZE_MAX - pieceSize || byteCount + pieceSize > MAX_DECODED_BYTES {
          if InVocabulary(View(), fastIds) { BytesGrow(View(), fastIds, i + 1); }
          return [], Some(if byteCount > SIZE_MAX - pieceSize then SizeOverflow else TooManyBytes);
        }
        byteCount := byteCount + pieceSize;
      }
      assert fastIds[..|fastIds|] == fastIds;
      var bytes := [];
      for i := 0 to |fastIds|
        invariant bytes == PieceBytes(View(), fastIds[..i])
      {
        assert fastIds[..i + 1][..i] == fastIds[..i];
        bytes := bytes + tokenBytes[fastIds[i]];
      }
      points := DecodeLossy(bytes);
      return points, None;
    }

    /** The frequency loop for one output cell. */
    method InverseTransform(m: Dct.RealMath, points: seq<nat>, action: nat, time: nat)
      returns (value: real, ghost work: nat)
      requires Valid() && Dct.Lawful(m) && |points| == PerSample(config)
      requires action < config.actionDim as int && time < config.timeHorizon as int
      requires m.sqrt(config.timeHorizon as real) != 0.0
      ensures value == Dct.Output(m, config.timeHorizon, Column(View(), points, action), time)
      ensures work == config.timeHorizon as int - 1
    {
      hide Dct.Lawful, Dct.Angle, Dct.Terms, Dct.Sum, Dct.Output, WithinLimits, Injective, Column, CoefficientAt;
      var c := View();
      var dcScale := 1.0 / m.sqrt(config.timeHorizon as real);
      var acScale := m.sqrt(2.0 / (config.timeHorizon as real));
      ghost var terms := Dct.Terms(m, config.timeHorizon, Column(c, points, action), time);
      TermIs(m, c, points, action, time, 0);
      CoefficientIs(c, points, action, 0);
      var dc := (points[action] as real + config.minToken as real) / config.scale.value;
      value := dcScale * dc;
      FirstTerm(terms);
      work := 0;
      for frequency := 1 to config.timeHorizon as int
        invariant value == Dct.Sum(frequency, terms)
        invariant work == frequency - 1
      {
        TermIs(m, c, points, action, time, frequency);
        CoefficientIs(c, points, action, frequency);
        var index := frequency * config.actionDim as int + action;
        var coefficient := (points[index] as real + config.minToken as real) / config.scale.value;
        NextTerm(terms, frequency);
        value := value + acScale * coefficient * m.cos(Dct.Angle(m, config.timeHorizon, frequency, time));
        work := work + 1;
      }
      OutputIs(m, c, points, action, time);
    }

    /** One action column of a sample, written at its stride into the sample's slice of the output. */
    method DecodeColumn(m: Dct.RealMath, points: seq<nat>, base: nat, action: nat, actions: array<real>)
      returns (ghost work: nat, ghost writes: multiset<nat>)
      requires Valid() && Dct.Lawful(m) && |points| == PerSample(config) && base + PerSample(config) <= actions.Length
      requires m.sqrt(config.timeHorizon as real) != 0.0 && action < config.actionDim as int
      modifies actions
      ensures forall j :: base <= j < base + PerSample(config) ==>
        actions[j] == if ColumnOf(j - base, config.actionDim) == action
                      then CellAt(m, View(), points, j - base) else old(actions[j])
      ensures forall j :: 0 <= j < base || base + PerSample(config) <= j < actions.Length ==>
        actions[j] == old(actions[j])
      ensures work == ColumnWork(config.timeHorizon)
      ensures ColumnOnce(writes, base, PerSample(config), config.actionDim, action)
    {
      hide Dct.Lawful, CellAt, Legal, WithinLimits, Injective, Done;
      var h: nat, d: nat := config.timeHorizon, config.actionDim;
      ghost var n := h * d;
      work, writes := 0, multiset{};
      forall k | 0 <= k < n ensures !Done(k, d, action, 0) { DoneNothing(k, d, action); }
      for time := 0 to h
        invariant forall j :: base <= j < base + n ==>
          actions[j] == if Done(j - base, d, action, time) then CellAt(m, View(), points, j - base) else old(actions[j])
        invariant forall j :: 0 <= j < base || base + n <= j < actions.Length ==> actions[j] == old(actions[j])
        invariant forall j: nat :: writes[j] == if base <= j < base + n && Done(j - base, d, action, time) then 1 else 0
        invariant work == time * (h - 1)
      {
        Arith.DigitsInRange(time, action, d, h);
        var cell := time * d + action;
        var value, added := InverseTransform(m, points, action, time);
        CellIs(m, View(), points, action, time);
        forall k | 0 <= k < n
          ensures Done(k, d, action, time + 1) <==> Done(k, d, action, time) || k == cell
        {
          DoneStep(k, d, action, time);
        }
        assert value == CellAt(m, View(), points, cell);
        actions[base + cell] := value;
        assert !Done(cell, d, action, time) by { DoneLater(d, action, time); }
        writes := writes[base + cell := writes[base + cell] + 1];
        work := work + added;
        assert time * (h - 1) + (h - 1) == (time + 1) * (h - 1);
      }
      forall k | 0 <= k < n ensures Done(k, d, action, h) <==> ColumnOf(k, d) == action { DoneColumn(k, d, action, h); }
    }

    /** One sample; `work` counts the multiply-adds. */
    method DecodeSample(m: Dct.RealMath, points: seq<nat>, base: nat, actions: array<real>)
      returns (ghost work: nat, ghost writes: multiset<nat>)
      requires Valid() && Dct.Lawful(m) && |points| == PerSample(config) && base + PerSample(config) <= actions.Length
      requires m.sqrt(config.timeHorizon as real) != 0.0
      modifies actions
      ensures forall j :: base <= j < base + PerSample(config) ==> actions[j] == CellAt(m, View(), points, j - base)
      ensures forall j :: 0 <= j < base || base + PerSample(config) <= j < actions.Length ==>
        actions[j] == old(actions[j])
      ensures work <= Work(config)
      ensures SliceOnce(writes, base, PerSample(config))
    {
      assert config.timeHorizon > 0 && config.actionDim > 0;
      hide Dct.Lawful, CellAt, Legal, WithinLimits, Injective, ColumnOf, ColumnsOnce, ColumnOnce, SliceOnce;
      hide PerSample, ColumnWork;
      var d: nat := config.actionDim;
      ghost var n := PerSample(config);
      work, writes := 0, multiset{};
      NoColumns(base, n, d);
      for action := 0 to d
        invariant forall j :: base <= j < base + n && ColumnOf(j - base, d) < action ==>
          actions[j] == CellAt(m, View(), points, j - base)
        invariant forall j :: 0 <= j < base || base + n <= j < actions.Length ==> actions[j] == old(actions[j])
        invariant ColumnsOnce(writes, base, n, d, action)
        invariant work == action * ColumnWork(config.timeHorizon)
      {
        var added, log := DecodeColumn(m, points, base, action, actions);
        NextColumn(writes, log, base, n, d, action);
        StepFits(ColumnWork(config.timeHorizon), action, d);
        work, writes := work + added, writes + log;
      }
      AllColumns(writes, base, n, d);
      AllColumnsWork(config);
    }

    /** Sequence number `b` of the batch, into its slice of the output. */
    method DecodeSequence(m: Dct.RealMath, batch: seq<seq<i32>>, b: nat, actions: array<real>)
      returns (fault: Option<FastFault>, ghost work: nat, ghost writes: multiset<nat>)
      requires Valid() && Dct.Lawful(m) && m.sqrt(config.timeHorizon as real) != 0.0 && PerSample(config) > 0
      requires b < |batch| && b * PerSample(config) + PerSample(config) <= actions.Length
      modifies actions
      ensures fault.None? <==> Decodable(View(), batch[b])
      ensures fault.None? ==> forall j :: b * PerSample(config) <= j < b * PerSample(config) + PerSample(config) ==>
        actions[j] == BatchCell(m, View(), batch, j)
      ensures forall j :: 0 <= j < b * PerSample(config) && j < actions.Length ==> actions[j] == old(actions[j])
      ensures work <= Work(config)
      ensures fault.None? ==> SliceOnce(writes, b * PerSample(config), PerSample(config))
    {
      hide Dct.Lawful, BatchCell, CellAt, CodePointsOf, PieceBytes, Work, Legal;
      work, writes := 0, multiset{};
      var points, bad := ByteLevelDecode(batch[b]);
      if bad.Some? || |points| != PerSample(config) {
        return Some(BadSequence(b, bad)), work, writes;
      }
      ghost var base := b * PerSample(config);
      work, writes := DecodeSample(m, points, b * PerSample(config), actions);
      forall j | base <= j < base + PerSample(config)
        ensures actions[j] == BatchCell(m, View(), batch, j)
      {
        CellOfSample(m, View(), batch, b, j - base);
      }
      fault := None;
    }

    method DecodeBatch(m: Dct.RealMath, batch: seq<seq<i32>>, perSample: nat, total: nat)
      returns (result: FastDecodeResult, fault: Option<FastFault>, ghost work: nat, ghost writes: multiset<nat>)
      requires Valid() && Dct.Lawful(m) && m.sqrt(config.timeHorizon as real) != 0.0
      requires perSample == PerSample(config) > 0 && total == |batch| * perSample && WithinLimits(config, |batch|)
      ensures fault.None? <==> forall b :: 0 <= b < |batch| ==> Decodable(View(), batch[b])
      ensures fault.Some? ==> result == NO_RESULT
      ensures fault.None? ==> DecodedAs(m, View(), batch, result)
      ensures fault.None? ==> WrittenOnce(writes, |result.actions|)
      ensures work <= MAX_MULTIPLY_ADDS as int
    {
      hide Dct.Lawful, BatchCell, Decodable, PerSample, Work, Legal, Sorted, Pairs, WrittenOnce, SliceOnce;
      ghost var c := View();
      NothingWritten();
      var actions := new real[total](i => 0.0);
      work, writes := 0, multiset{};
      for b := 0 to |batch|
        invariant forall k :: 0 <= k < b ==> Decodable(c, batch[k])
        invariant forall j :: 0 <= j < b * perSample ==> actions[j] == BatchCell(m, c, batch, j)
        invariant WrittenOnce(writes, b * perSample)
        invariant work <= b * Work(config)
      {
        StepFits(perSample, b, |batch|);
        StepFits(Work(config), b, |batch|);
        var bad, added, log := DecodeSequence(m, batch, b, actions);
        work := work + added;
        if bad.Some? { return NO_RESULT, bad, work, writes; }
        NextSlice(writes, log, b * perSample, perSample);
        writes := writes + log;
      }
      return FastDecodeResult(|batch|, config.timeHorizon, config.actionDim, actions[..]), None, work, writes;
    }

    /**
      * The batch decoder: accepts exactly the batches within the limits whose every sequence decodes to one code point
      * per coefficient; then every output cell holds the inverse transform of its own column of its own sequence.
      */
    method DecodeFastTokens(m: Dct.RealMath, batch: seq<seq<i32>>)
      returns (result: FastDecodeResult, fault: Option<FastFault>, ghost work: nat, ghost writes: multiset<nat>)
      requires Valid() && Dct.Lawful(m)
      ensures m.sqrt(config.timeHorizon as real) != 0.0 && PerSample(config) > 0
      ensures fault.None? <==> Accepts(View(), batch)
      ensures fault.Some? ==> result == NO_RESULT
      ensures fault.None? ==> DecodedAs(m, View(), batch, result)
      ensures fault.None? ==> WrittenOnce(writes, |result.actions|)
      ensures work <= MAX_MULTIPLY_ADDS as int
    {
      hide Dct.Lawful, BatchCell, CellAt, Injective, CodePointsOf, PieceBytes;
      Dct.Scales(m, config.timeHorizon);
      result, work, writes := NO_RESULT, 0, multiset{};
      ProductBound(config.timeHorizon, config.actionDim, config.timeHorizon, config.actionDim);
      if batch == [] { return result, Some(EmptyBatch), work, writes; }
      if |batch| > MAX_BATCH { return result, Some(BatchTooBig), work, writes; }
      for b := 0 to |batch|
        invariant forall k :: 0 <= k < b ==> |batch[k]| <= MAX_TOKENS
      {
        if |batch[b]| > MAX_TOKENS { return result, Some(TooManyTokens), work, writes; }
      }
      var limit, perSample, total := CheckedActionCount(config, |batch|);
      if limit.Some? { return result, Some(Limit(limit.value)), work, writes; }
      result, fault, work, writes := DecodeBatch(m, batch, perSample, total);
    }

    /** Strict: every id must be an action token. */
    method DecodeVlmActionTokens(m: Dct.RealMath, batch: seq<seq<i32>>)
      returns (result: FastDecodeResult, fault: Option<FastFault>)
      requires Valid() && Dct.Lawful(m)
      ensures m.sqrt(config.timeHorizon as real) != 0.0 && PerSample(config) > 0
      ensures fault.None? <==>
        && (forall b :: 0 <= b < |batch| ==> |batch[b]| <= MAX_TOKENS && AllMapped(View(), batch[b]))
        && Accepts(View(), FilterAll(View(), batch))
      ensures fault.Some? ==> result == NO_RESULT
      ensures fault.None? ==> DecodedAs(m, View(), FilterAll(View(), batch), result)
    {
      hide Dct.Lawful, Decodable, BatchCell, FilterMap, AllMapped, WithinLimits;
      Positive(m, View());
      ghost var c := View();
      if batch == [] || |batch| > MAX_BATCH {
        if Accepts(c, FilterAll(c, batch)) { BatchBounds(c, FilterAll(c, batch)); }
        return NO_RESULT, Some(EmptyBatch);
      }
      var fast := [];
      for b := 0 to |batch|
        invariant |fast| == b && forall k :: 0 <= k < b ==>
          fast[k] == FilterMap(c, batch[k]) && |batch[k]| <= MAX_TOKENS && AllMapped(c, batch[k])
      {
        var ids, bad := MapVlmToFast(batch[b]);
        if bad.Some? { return NO_RESULT, bad; }
        fast := fast + [ids];
      }
      assert fast == FilterAll(c, batch);
      ghost var work, writes;
      result, fault, work, writes := DecodeFastTokens(m, fast);
    }

    /** Lenient: ids that are no action tokens are skipped. */
    method DecodeGeneratedTokens(m: Dct.RealMath, batch: seq<seq<i32>>)
      returns (result: FastDecodeResult, fault: Option<FastFault>)
      requires Valid() && Dct.Lawful(m)
      ensures m.sqrt(config.timeHorizon as real) != 0.0 && PerSample(config) > 0
      ensures fault.None? <==>
        && (forall b :: 0 <= b < |batch| ==> |batch[b]| <= MAX_GENERATED)
        && Accepts(View(), FilterAll(View(), batch))
      ensures fault.Some? ==> result == NO_RESULT
      ensures fault.None? ==> DecodedAs(m, View(), FilterAll(View(), batch), result)
    {
      hide Dct.Lawful, Decodable, BatchCell, FilterMap, WithinLimits;
      Positive(m, View());
      ghost var c := View();
      if batch == [] || |batch| > MAX_BATCH {
        if Accepts(c, FilterAll(c, batch)) { BatchBounds(c, FilterAll(c, batch)); }
        return NO_RESULT, Some(EmptyBatch);
      }
      var fast := [];
      for b := 0 to |batch|
        invariant |fast| == b && forall k :: 0 <= k < b ==>
          fast[k] == FilterMap(c, batch[k]) && |batch[k]| <= MAX_GENERATED
      {
        var ids, bad := ExtractFastTokens(batch[b]);
        if bad.Some? { return NO_RESULT, bad; }
        fast := fast + [ids];
      }
      assert fast == FilterAll(c, batch);
      ghost var work, writes;
      result, fault, work, writes := DecodeFastTokens(m, fast);
    }
  }

  // ----------------------------------------------------------- constructors

  method UniqueAndNonNegative(ids: seq<i32>) returns (ok: bool)
    ensures ok <==> Injective(ids)
  {
    var seen: set<i32> := {};
    for i := 0 to |ids|
      invariant Injective(ids[..i]) && seen == set k | 0 <= k < i :: ids[k]
    {
      if ids[i] < 0 || ids[i] in seen { return false; }
      seen := seen + {ids[i]};
    }
    assert ids[..|ids|] == ids;
    return true;
  }

  method CompileTokenBytes(vocabulary: seq<bytes>) returns (tokenBytes: seq<bytes>, fault: Option<FastFault>)
    ensures fault.None? ==> NonEmpty(tokenBytes) && Vocabulary(tokenBytes) == vocabulary
    ensures fault.Some? ==> forall pieces :: NonEmpty(pieces) ==> Vocabulary(pieces) != vocabulary
  {
    hide Spell;
    var alphabet := InverseAlphabet();
    tokenBytes := [];
    for id := 0 to |vocabulary|
      invariant |tokenBytes| == id && NonEmpty(tokenBytes)
      invariant forall k :: 0 <= k < id ==> Spell(tokenBytes[k]) == vocabulary[k]
    {
      var piece, bad := CompilePiece(vocabulary[id], alphabet);
      if bad.Some? {
        forall pieces | NonEmpty(pieces) ensures Vocabulary(pieces) != vocabulary {
          if |pieces| == |vocabulary| { assert Spell(pieces[id]) != vocabulary[id]; }
        }
        return [], Some(BadPiece(id, bad.value));
      }
      tokenBytes := tokenBytes + [piece];
    }
    return tokenBytes, None;
  }

  predicate GoodConfig(config: Config) {
    && config.scale.Finite? && config.scale.value != 0.0
    && config.vocabSize > 0 && config.timeHorizon > 0 && config.actionDim > 0
  }

  /** From a vocabulary file: succeeds exactly when it spells the pieces of a legal codec, and builds that codec. */
  method Create(config: Config, vocabulary: seq<bytes>, vlmIds: seq<i32>)
    returns (codec: FastCodec?, fault: Option<FastFault>)
    ensures codec != null ==> codec.Valid() && codec.config == config && codec.fastToVlm == vlmIds
                              && vocabulary == Vocabulary(codec.tokenBytes)
    ensures codec == null ==> forall pieces :: Legal(Codec(config, pieces, vlmIds)) ==> vocabulary != Vocabulary(pieces)
  {
    hide Spell, Injective;
    if !GoodConfig(config) { return null, Some(BadConfig); }
    if config.vocabSize > 0x7FFF_FFFF { return null, Some(VocabularyTooLarge); }
    if |vocabulary| != config.vocabSize as int || |vlmIds| != config.vocabSize as int { return null, Some(WrongSize); }
    var limit, perSample, total := CheckedActionCount(config, 1);
    if limit.Some? { return null, Some(Limit(limit.value)); }
    var unique := UniqueAndNonNegative(vlmIds);
    if !unique { return null, Some(BadVlmIds); }
    var tokenBytes, bad := CompileTokenBytes(vocabulary);
    if bad.Some? { return null, bad; }
    codec := new FastCodec(config, tokenBytes, vlmIds);
    assert codec.View() == Codec(config, tokenBytes, vlmIds);
    return codec, None;
  }

  lemma FlatNothing()
    ensures Flat([]) == []
  {
  }

  lemma FlatPush(pieces: seq<bytes>, piece: bytes)
    ensures Flat(pieces + [piece]) == Flat(pieces) + piece
  {
    assert (pieces + [piece])[..|pieces|] == pieces;
  }

  lemma EndOffsets(offsets: seq<i32>, pieces: seq<bytes>)
    requires AreOffsets(offsets, pieces)
    ensures offsets[0] == 0 && offsets[|offsets| - 1] as int == |Flat(pieces)|
  {
    assert pieces[..0] == [];
    assert pieces[..|pieces|] == pieces;
    FlatNothing();
  }

  /** From flattened pieces: succeeds exactly on the offsets and bytes of a legal codec, and builds that codec. */
  method CreateCompiled(config: Config, offsets: seq<i32>, flat: bytes, vlmIds: seq<i32>)
    returns (codec: FastCodec?, fault: Option<FastFault>)
    ensures codec != null ==> codec.Valid() && codec.config == config && codec.fastToVlm == vlmIds
                              && AreOffsets(offsets, codec.tokenBytes) && flat == Flat(codec.tokenBytes)
    ensures codec == null ==>
      forall pieces :: Legal(Codec(config, pieces, vlmIds)) && AreOffsets(offsets, pieces) ==> flat != Flat(pieces)
  {
    hide Injective, Flat;
    if !GoodConfig(config) || config.vocabSize > 0x7FFF_FFFF { return null, Some(BadConfig); }
    if config.vocabSize == SIZE_MAX || |offsets| != config.vocabSize as int + 1 || |vlmIds| != config.vocabSize as int
      || offsets[0] != 0 || offsets[|offsets| - 1] < 0 || offsets[|offsets| - 1] as int != |flat|
    {
      forall pieces | Legal(Codec(config, pieces, vlmIds)) && AreOffsets(offsets, pieces) ensures flat != Flat(pieces) {
        EndOffsets(offsets, pieces);
      }
      return null, Some(IncompatibleShapes);
    }
    var limit, perSample, total := CheckedActionCount(config, 1);
    if limit.Some? { return null, Some(Limit(limit.value)); }
    var unique := UniqueAndNonNegative(vlmIds);
    if !unique { return null, Some(BadVlmIds); }
    var pieces := [];
    FlatNothing();
    for index := 0 to config.vocabSize as int
      invariant |pieces| == index && NonEmpty(pieces) && 0 <= offsets[index] as int <= |flat|
      invariant Flat(pieces) == flat[..offsets[index]]
      invariant forall k :: 0 <= k <= index ==> offsets[k] as int == |Flat(pieces[..k])|
    {
      var begin, end := offsets[index], offsets[index + 1];
      if begin < 0 || end <= begin || end as int > |flat| {
        forall ps | Legal(Codec(config, ps, vlmIds)) && AreOffsets(offsets, ps) ensures flat != Flat(ps) {
          FlatSplits(ps, index);
        }
        return null, Some(BadOffsets);
      }
      ghost var before := pieces;
      pieces := pieces + [flat[begin..end]];
      FlatPush(before, flat[begin..end]);
      assert flat[..end] == flat[..begin] + flat[begin..end];
      forall k | 0 <= k <= index + 1 ensures offsets[k] as int == |Flat(pieces[..k])| {
        assert pieces[..index + 1] == pieces;
        if k <= index { assert pieces[..k] == before[..k]; }
      }
    }
    codec := new FastCodec(config, pieces, vlmIds);
    assert codec.View() == Codec(config, pieces, vlmIds);
    assert flat[..|flat|] == flat;
    return codec, None;
  }
}
