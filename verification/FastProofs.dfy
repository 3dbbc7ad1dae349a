/** What the FAST codec promises: round trips, independence of token boundaries, and two constructors that agree. */
module FastProofs {
  import Arith
  import opened Bytes
  import opened Utf8
  import opened ByteLevel
  import opened FastLimits
  import opened FastSpec
  import opened Fast
  import opened TokenMap
  import Dct

  // -------------------------------------------------------------- token maps

  lemma LegalSize(c: Codec)
    requires Legal(c)
    ensures |c.pieces| == |c.vlmIds| < 0x8000_0000
  {
  }

  /** Mapping FAST ids to the language model and back is the identity. */
  lemma {:induction false} MapRoundTrip(c: Codec, ids: seq<i32>)
    requires Legal(c) && InVocabulary(c, ids)
    ensures AllMapped(c, ToVlm(c, ids)) && |c.vlmIds| < 0x8000_0000 && FilterMap(c, ToVlm(c, ids)) == ids
  {
    LegalSize(c);
    hide Legal;
    if ids != [] {
      var before, last := ids[..|ids| - 1], ids[|ids| - 1];
      MapRoundTrip(c, before);
      assert ToVlm(c, ids)[..|ids| - 1] == ToVlm(c, before);
      IndexOfMeans(c.vlmIds, c.vlmIds[last], last);
      assert ids == before + [last];
    }
  }

  /** And so is mapping action tokens to FAST ids and back. */
  lemma {:induction false} MapBack(c: Codec, vlmIds: seq<i32>)
    requires Legal(c) && AllMapped(c, vlmIds)
    ensures |c.vlmIds| < 0x8000_0000
    ensures InVocabulary(c, FilterMap(c, vlmIds)) && ToVlm(c, FilterMap(c, vlmIds)) == vlmIds
  {
    LegalSize(c);
    if vlmIds != [] {
      var before, last := vlmIds[..|vlmIds| - 1], vlmIds[|vlmIds| - 1];
      MapBack(c, before);
      IndexOfMeans(c.vlmIds, last, 0);
      var f := IndexOf(c.vlmIds, last).value;
      IndexOfMeans(c.vlmIds, last, f);
      assert vlmIds == before + [last];
    }
  }

  /** A generated id is turned into the place that holds it, or dropped; the ids of a sequence one after the other. */
  lemma ExtractOne(c: Codec, vlmId: i32, f: nat)
    requires Legal(c)
    ensures |c.vlmIds| < 0x8000_0000
    ensures f < |c.vlmIds| && c.vlmIds[f] == vlmId ==> FilterMap(c, [vlmId]) == [f]
    ensures vlmId !in c.vlmIds ==> FilterMap(c, [vlmId]) == []
  {
    LegalSize(c);
    IndexOfMeans(c.vlmIds, vlmId, f);
    assert [vlmId][..0] == [] && FilterMap(c, [vlmId][..0]) == [];
  }

  lemma {:induction false} ExtractAppend(c: Codec, a: seq<i32>, b: seq<i32>)
    requires |c.vlmIds| < 0x8000_0000
    ensures FilterMap(c, a + b) == FilterMap(c, a) + FilterMap(c, b)
  {
    if b == [] {
      assert a + b == a;
    } else {
      var n := |b| - 1;
      ExtractAppend(c, a, b[..n]);
      assert (a + b)[..|a| + n] == a + b[..n];
    }
  }

  /** The action tokens of a generated sequence, in order. */
  function ActionTokens(c: Codec, generated: seq<i32>): seq<i32> {
    if generated == [] then []
    else
      var before := ActionTokens(c, generated[..|generated| - 1]);
      if generated[|generated| - 1] in c.vlmIds then before + [generated[|generated| - 1]] else before
  }

  lemma {:induction false} OrdinaryIdsDropOut(c: Codec, generated: seq<i32>)
    requires Legal(c)
    ensures |c.vlmIds| < 0x8000_0000
    ensures AllMapped(c, ActionTokens(c, generated)) && |ActionTokens(c, generated)| <= |generated|
    ensures FilterMap(c, generated) == FilterMap(c, ActionTokens(c, generated))
  {
    LegalSize(c);
    if generated != [] {
      var last := generated[|generated| - 1];
      var before := ActionTokens(c, generated[..|generated| - 1]);
      OrdinaryIdsDropOut(c, generated[..|generated| - 1]);
      IndexOfMeans(c.vlmIds, last, 0);
      if last in c.vlmIds {
        assert (before + [last])[..|before|] == before;
      }
    }
  }

  function ActionTokensOf(c: Codec, batch: seq<seq<i32>>): (r: seq<seq<i32>>)
    ensures |r| == |batch| && forall b :: 0 <= b < |r| ==> r[b] == ActionTokens(c, batch[b])
  {
    seq(|batch|, b requires 0 <= b < |batch| => ActionTokens(c, batch[b]))
  }

  /**
    * Decoding complete generated sequences is strict decoding of their action tokens: both see the same FAST batch,
    * the strict length limit is never what stands in the way, and every strict condition on the tokens holds.
    */
  lemma GeneratedIsStrict(c: Codec, batch: seq<seq<i32>>)
    requires Legal(c) && forall b :: 0 <= b < |batch| ==> |batch[b]| <= MAX_GENERATED
    ensures |c.vlmIds| < 0x8000_0000
    ensures FilterAll(c, batch) == FilterAll(c, ActionTokensOf(c, batch))
    ensures forall b :: 0 <= b < |batch| ==>
      |ActionTokensOf(c, batch)[b]| <= MAX_TOKENS && AllMapped(c, ActionTokensOf(c, batch)[b])
  {
    LegalSize(c);
    forall b | 0 <= b < |batch|
      ensures FilterMap(c, batch[b]) == FilterMap(c, ActionTokensOf(c, batch)[b])
      ensures |ActionTokensOf(c, batch)[b]| <= MAX_TOKENS && AllMapped(c, ActionTokensOf(c, batch)[b])
    {
      OrdinaryIdsDropOut(c, batch[b]);
    }
  }

  /** A decode has one result. */
  lemma DecodedOnce(m: Dct.RealMath, c: Codec, batch: seq<seq<i32>>, a: FastDecodeResult, b: FastDecodeResult)
    requires Legal(c) && m.sqrt(c.config.timeHorizon as real) != 0.0 && PerSample(c.config) > 0
    requires DecodedAs(m, c, batch, a) && DecodedAs(m, c, batch, b)
    ensures a == b
  {
    hide BatchCell;
    assert a.actions == b.actions;
  }

  /** Both decoders at once, on generated sequences and on their action tokens: one verdict and one result. */
  method DecodeBoth(codec: FastCodec, m: Dct.RealMath, batch: seq<seq<i32>>)
    returns (generated: FastDecodeResult, a: Option<FastFault>, strict: FastDecodeResult, b: Option<FastFault>)
    requires codec.Valid() && Dct.Lawful(m) && forall i :: 0 <= i < |batch| ==> |batch[i]| <= MAX_GENERATED
    ensures (a.None? <==> b.None?) && generated == strict
  {
    hide Dct.Lawful, DecodedAs, Accepts, FilterAll, AllMapped, ActionTokensOf, WithinLimits;
    GeneratedIsStrict(codec.View(), batch);
    generated, a := codec.DecodeGeneratedTokens(m, batch);
    strict, b := codec.DecodeVlmActionTokens(m, ActionTokensOf(codec.View(), batch));
    if a.None? && b.None? {
      DecodedOnce(m, codec.View(), FilterAll(codec.View(), batch), generated, strict);
    }
  }

  // --------------------------------------------------------- token boundaries

  lemma {:induction false} PieceBytesAppend(c: Codec, a: seq<i32>, b: seq<i32>)
    requires InVocabulary(c, a) && InVocabulary(c, b)
    ensures InVocabulary(c, a + b) && PieceBytes(c, a + b) == PieceBytes(c, a) + PieceBytes(c, b)
    decreases |b|
  {
    if b == [] {
      assert a + b == a;
    } else {
      PieceBytesAppend(c, a, b[..|b| - 1]);
      assert (a + b)[..|a + b| - 1] == a + b[..|b| - 1];
    }
  }

  /** One token stands for its piece, whole. */
  lemma OnePiece(c: Codec, id: i32)
    requires 0 <= id < |c.pieces|
    ensures InVocabulary(c, [id]) && PieceBytes(c, [id]) == c.pieces[id]
  {
    assert [id][..0] == [];
  }

  /** The piece of this token is what lies between two places of `s`. */
  predicate IsSlice(c: Codec, id: i32, s: bytes, from: nat, to: nat) {
    from <= to <= |s| && 0 <= id < |c.pieces| && c.pieces[id] == s[from..to]
  }

  /** Places at which `s` is cut into the pieces of these tokens, from its start to its end. */
  predicate CutInto(c: Codec, ids: seq<i32>, s: bytes, cuts: seq<nat>) {
    && |cuts| == |ids| + 1 && cuts[0] == 0 && cuts[|ids|] == |s|
    && forall i :: 0 <= i < |ids| ==> IsSlice(c, ids[i], s, cuts[i], cuts[i + 1])
  }

  lemma NoPieces(c: Codec, ids: seq<i32>)
    ensures PieceBytes(c, ids[..0]) == []
  {
  }

  /** The tokens of the pieces stand for what was cut. */
  lemma {:induction false} CutsAddUp(c: Codec, ids: seq<i32>, s: bytes, cuts: seq<nat>, k: nat)
    requires CutInto(c, ids, s, cuts) && k <= |ids|
    ensures InVocabulary(c, ids[..k]) && cuts[k] <= |s| && PieceBytes(c, ids[..k]) == s[..cuts[k]]
  {
    hide PieceBytes;
    if k == 0 {
      NoPieces(c, ids);
    } else {
      CutsAddUp(c, ids, s, cuts, k - 1);
      assert IsSlice(c, ids[k - 1], s, cuts[k - 1], cuts[k]);
      assert ids[..k] == ids[..k - 1] + [ids[k - 1]];
      OnePiece(c, ids[k - 1]);
      PieceBytesAppend(c, ids[..k - 1], [ids[k - 1]]);
      assert s[..cuts[k]] == s[..cuts[k - 1]] + s[cuts[k - 1]..cuts[k]];
    }
  }

  /**
    * However the encoding of a list of code points is cut into the pieces of tokens, exactly that list is recovered,
    * and the sequence is accepted exactly when the list has one code point per coefficient.
    */
  lemma BoundariesDoNotMatter(c: Codec, ids: seq<i32>, points: seq<nat>, cuts: seq<nat>)
    requires AllScalar(points) && CutInto(c, ids, EncodeAll(points), cuts)
    requires |ids| <= 4096 && |EncodeAll(points)| <= 0x10_0000
    ensures Readable(c, ids) && CodePointsOf(c, ids) == points
    ensures Decodable(c, ids) <==> |points| == c.config.timeHorizon as int * c.config.actionDim as int
  {
    CutsAddUp(c, ids, EncodeAll(points), cuts, |ids|);
    assert ids[..|ids|] == ids && EncodeAll(points)[..|EncodeAll(points)|] == EncodeAll(points);
    LossyOfEncode(points);
  }

  /** The decoder's own answer on such tokens. */
  method RecoverPoints(codec: FastCodec, ids: seq<i32>, ghost points: seq<nat>, ghost cuts: seq<nat>)
    returns (recovered: seq<nat>)
    requires codec.Valid() && AllScalar(points) && CutInto(codec.View(), ids, EncodeAll(points), cuts)
    requires |ids| <= 4096 && |EncodeAll(points)| <= 0x10_0000
    ensures recovered == points
  {
    hide CutInto, Readable, CodePointsOf, PieceBytes;
    BoundariesDoNotMatter(codec.View(), ids, points, cuts);
    var fault;
    recovered, fault := codec.ByteLevelDecode(ids);
  }

  // ------------------------------------------------------------- the transform

  /** The outputs of one action column of one sample, by time step. */
  function OutputColumn(m: Dct.RealMath, c: Codec, batch: seq<seq<i32>>, b: nat, column: nat): nat -> real
    requires Legal(c) && m.sqrt(c.config.timeHorizon as real) != 0.0 && PerSample(c.config) > 0
  {
    (t: nat) => BatchCell(m, c, batch, b * PerSample(c.config) + (t * c.config.actionDim as int + column))
  }

  lemma OutputColumnIs(m: Dct.RealMath, c: Codec, batch: seq<seq<i32>>, b: nat, column: nat, t: nat)
    requires Legal(c) && m.sqrt(c.config.timeHorizon as real) != 0.0 && PerSample(c.config) > 0
    requires b < |batch| && InVocabulary(c, batch[b]) && column < c.config.actionDim as int
    requires t < c.config.timeHorizon as int
    ensures OutputColumn(m, c, batch, b, column)(t)
         == Dct.Outputs(m, c.config.timeHorizon, Column(c, CodePointsOf(c, batch[b]), column))(t)
  {
    hide CellAt, BatchCell, CodePointsOf, Column, Dct.Output;
    Arith.DigitsInRange(t, column, c.config.actionDim, c.config.timeHorizon);
    CellOfSample(m, c, batch, b, t * c.config.actionDim as int + column);
    CellIs(m, c, CodePointsOf(c, batch[b]), column, t);
  }

  /** For an accepted sequence every coefficient is a dequantized code point; none is missing. */
  lemma CoefficientIsThere(c: Codec, points: seq<nat>, column: nat, f: nat)
    requires Legal(c) && |points| == PerSample(c.config) && column < c.config.actionDim as int
    requires f < c.config.timeHorizon as int
    ensures f * c.config.actionDim as int + column < |points|
    ensures CoefficientAt(c, points, column, f)
         == (points[f * c.config.actionDim as int + column] as real + c.config.minToken as real) / c.config.scale.value
  {
    Arith.DigitsInRange(f, column, c.config.actionDim, c.config.timeHorizon);
  }

  /**
    * What a decoded batch holds: the forward transform of any output column gives back the coefficients that the
    * code points of that column encode, untouched by other columns and other sequences.
    */
  lemma DecodedColumnInverts(m: Dct.RealMath, c: Codec, batch: seq<seq<i32>>, b: nat, column: nat, f: nat)
    requires Legal(c) && Dct.Lawful(m) && Accepts(c, batch)
    requires b < |batch| && column < c.config.actionDim as int && f < c.config.timeHorizon as int
    ensures m.sqrt(c.config.timeHorizon as real) != 0.0 && PerSample(c.config) > 0 && Decodable(c, batch[b])
    ensures Dct.Coefficient(m, c.config.timeHorizon, OutputColumn(m, c, batch, b, column), f)
         == CoefficientAt(c, CodePointsOf(c, batch[b]), column, f)
  {
    hide Dct.Lawful, CodePointsOf, Dct.Basis, BatchCell, Dct.Output, CoefficientAt, OutputColumn, Injective;
    Positive(m, c);
    var h, points := c.config.timeHorizon, CodePointsOf(c, batch[b]);
    var ours, theirs := OutputColumn(m, c, batch, b, column), Dct.Outputs(m, h, Column(c, points, column));
    assert Decodable(c, batch[b]);
    forall t: nat | t < h as int
      ensures Dct.Against(m, h, ours, f)(t) == Dct.Against(m, h, theirs, f)(t)
    {
      OutputColumnIs(m, c, batch, b, column, t);
    }
    Dct.SumEqual(h, Dct.Against(m, h, ours, f), Dct.Against(m, h, theirs, f));
    Dct.TransformInverts(m, h, Column(c, points, column), f);
  }

  /** One term of an output: the coefficient and its basis value, which `Dct.BasisIs` gives in full. */
  lemma TermOf(m: Dct.RealMath, c: Codec, points: seq<nat>, column: nat, h: nat, t: nat, f: nat)
    requires Legal(c) && h > 0 && m.sqrt(h as real) != 0.0
    ensures Dct.Terms(m, h, Column(c, points, column), t)(f)
         == CoefficientAt(c, points, column, f) * Dct.Basis(m, h, f, t)
  {
    hide CoefficientAt, Legal, Dct.Basis;
  }

  lemma DecodableIsRead(c: Codec, ids: seq<i32>)
    requires Decodable(c, ids)
    ensures InVocabulary(c, ids) && |CodePointsOf(c, ids)| == PerSample(c.config)
  {
  }

  /** Cell (sample, time, column) of a decoded batch: the sum of those terms over that column's own code points. */
  lemma DecodedCell(m: Dct.RealMath, c: Codec, batch: seq<seq<i32>>, r: FastDecodeResult, b: nat, t: nat, column: nat)
    requires Legal(c) && m.sqrt(c.config.timeHorizon as real) != 0.0 && PerSample(c.config) > 0
    requires DecodedAs(m, c, batch, r) && b < |batch| && Decodable(c, batch[b])
    requires t < c.config.timeHorizon as int && column < c.config.actionDim as int
    ensures var h: nat, d: nat := c.config.timeHorizon, c.config.actionDim;
      && 0 <= b * (h * d) + (t * d + column) < |r.actions|
      && r.actions[b * (h * d) + (t * d + column)]
         == Dct.Sum(h, Dct.Terms(m, h, Column(c, CodePointsOf(c, batch[b]), column), t))
  {
    var h: nat, d: nat, points := c.config.timeHorizon, c.config.actionDim, CodePointsOf(c, batch[b]);
    hide CellAt, BatchCell, CodePointsOf, Decodable, Legal, Dct.Terms, Dct.Sum;
    Arith.DigitsInRange(t, column, d, h);
    Arith.DigitsInRange(b, t * d + column, h * d, |batch|);
    assert InVocabulary(c, batch[b]) by { DecodableIsRead(c, batch[b]); }
    CellOfSample(m, c, batch, b, t * d + column);
    CellIs(m, c, points, column, t);
  }

  /** Energy is kept: the squares of a decoded column add up to the squares of its coefficients. */
  lemma DecodedColumnEnergy(m: Dct.RealMath, c: Codec, batch: seq<seq<i32>>, b: nat, column: nat)
    requires Legal(c) && Dct.Lawful(m) && Accepts(c, batch) && b < |batch| && column < c.config.actionDim as int
    ensures m.sqrt(c.config.timeHorizon as real) != 0.0 && PerSample(c.config) > 0
    ensures var x, k := OutputColumn(m, c, batch, b, column), Column(c, CodePointsOf(c, batch[b]), column);
      Dct.Sum(c.config.timeHorizon, Dct.PairProducts(x, x)) == Dct.Sum(c.config.timeHorizon, Dct.PairProducts(k, k))
  {
    hide Dct.Lawful, CodePointsOf, Dct.Basis, BatchCell, Dct.Output, Column;
    Positive(m, c);
    var h, k := c.config.timeHorizon, Column(c, CodePointsOf(c, batch[b]), column);
    var ours, theirs := OutputColumn(m, c, batch, b, column), Dct.Outputs(m, h, k);
    assert Decodable(c, batch[b]);
    forall t: nat | t < h as int
      ensures Dct.PairProducts(ours, ours)(t) == Dct.PairProducts(theirs, theirs)(t)
    {
      OutputColumnIs(m, c, batch, b, column, t);
    }
    Dct.SumEqual(h, Dct.PairProducts(ours, ours), Dct.PairProducts(theirs, theirs));
    Dct.TransformIsometric(m, h, k, k);
  }

  // ------------------------------------------------------------- constructors

  lemma {:induction false} OffsetsExist(pieces: seq<bytes>) returns (offsets: seq<i32>)
    requires |Flat(pieces)| < 0x8000_0000
    ensures AreOffsets(offsets, pieces)
  {
    if pieces == [] {
      offsets := [0];
    } else {
      var before := pieces[..|pieces| - 1];
      offsets := OffsetsExist(before);
      offsets := offsets + [|Flat(pieces)|];
      forall i | 0 <= i <= |pieces| ensures offsets[i] as int == |Flat(pieces[..i])| {
        if i == |pieces| { assert pieces[..i] == pieces; } else { assert pieces[..i] == before[..i]; }
      }
    }
  }

  /** A list of pieces can be flattened exactly when its bytes can be counted in an `int32_t`. */
  lemma FlattensExactly(pieces: seq<bytes>)
    ensures (exists offsets :: AreOffsets(offsets, pieces)) <==> |Flat(pieces)| < 0x8000_0000
  {
    if |Flat(pieces)| < 0x8000_0000 {
      var offsets := OffsetsExist(pieces);
    }
    if offsets :| AreOffsets(offsets, pieces) {
      EndOffsets(offsets, pieces);
    }
  }

  /** Offsets and bytes determine the pieces. */
  lemma FlatIsInjective(offsets: seq<i32>, p: seq<bytes>, q: seq<bytes>)
    requires AreOffsets(offsets, p) && AreOffsets(offsets, q) && Flat(p) == Flat(q)
    ensures p == q
  {
    hide Flat;
    forall i | 0 <= i < |p| ensures p[i] == q[i] {
      FlatSplits(p, i);
      FlatSplits(q, i);
      var flat, begin, end := Flat(p), offsets[i] as int, offsets[i + 1] as int;
      assert p[i] == (Flat(p[..i]) + p[i])[begin..] == flat[..end][begin..];
      assert q[i] == (Flat(q[..i]) + q[i])[begin..] == flat[..end][begin..];
    }
  }

  lemma VocabularyIsInjective(p: seq<bytes>, q: seq<bytes>)
    requires Vocabulary(p) == Vocabulary(q)
    ensures p == q
  {
    hide Spell;
    forall i | 0 <= i < |p| ensures p[i] == q[i] {
      assert Vocabulary(p)[i] == Vocabulary(q)[i];
      SpellIsInjective(p[i], q[i]);
    }
  }

  /**
    * Both constructors on the same pieces, spelled out on one side and flattened on the other: they succeed together,
    * and then hold the same contents, so that every batch decodes identically.
    */
  method BuildBoth(config: Config, pieces: seq<bytes>, vlmIds: seq<i32>, vocabulary: seq<bytes>, offsets: seq<i32>,
                   flat: bytes)
    returns (a: FastCodec?, b: FastCodec?)
    requires vocabulary == Vocabulary(pieces) && AreOffsets(offsets, pieces) && flat == Flat(pieces)
    ensures (a != null <==> Legal(Codec(config, pieces, vlmIds)))
    ensures (b != null <==> Legal(Codec(config, pieces, vlmIds)))
    ensures a != null ==> a.Valid() && b.Valid() && a.View() == b.View() == Codec(config, pieces, vlmIds)
  {
    hide Spell, Injective, Flat, WithinLimits;
    var fault;
    a, fault := Create(config, vocabulary, vlmIds);
    b, fault := CreateCompiled(config, offsets, flat, vlmIds);
    if a != null { VocabularyIsInjective(a.tokenBytes, pieces); }
    if b != null { FlatIsInjective(offsets, b.tokenBytes, pieces); }
  }
}
