/** What the FAST codec computes, as functions of the codec's contents. */
module FastSpec {
  import opened Bytes
  import opened Utf8
  import opened ByteLevel
  import opened FastLimits
  import opened TokenMap
  import Dct

  /** The contents of a codec: the bytes of every token, and the language model's id of every token. */
  datatype Codec = Codec(config: Config, pieces: seq<bytes>, vlmIds: seq<i32>)

  /** What both constructors establish. */
  predicate Legal(c: Codec) {
    && c.config.scale.Finite? && c.config.scale.value != 0.0
    && c.config.vocabSize > 0 && c.config.timeHorizon > 0 && c.config.actionDim > 0
    && WithinLimits(c.config, 1)
    && |c.pieces| == |c.vlmIds| == c.config.vocabSize as int
    && Injective(c.vlmIds)
    && forall i :: 0 <= i < |c.pieces| ==> c.pieces[i] != []
  }

  predicate InVocabulary(c: Codec, ids: seq<i32>) {
    forall i :: 0 <= i < |ids| ==> 0 <= ids[i] < |c.pieces|
  }

  /** The bytes of a token sequence. */
  function PieceBytes(c: Codec, ids: seq<i32>): bytes
    requires InVocabulary(c, ids)
  {
    if ids == [] then [] else PieceBytes(c, ids[..|ids| - 1]) + c.pieces[ids[|ids| - 1]]
  }

  predicate Readable(c: Codec, ids: seq<i32>) {
    |ids| <= MAX_TOKENS && InVocabulary(c, ids) && |PieceBytes(c, ids)| <= MAX_DECODED_BYTES
  }

  /** The code points of a token sequence: its bytes, decoded as a whole. */
  function CodePointsOf(c: Codec, ids: seq<i32>): seq<nat>
    requires InVocabulary(c, ids)
  {
    LossyDecode([], PieceBytes(c, ids))
  }

  /** A sequence the decoder accepts. */
  predicate Decodable(c: Codec, ids: seq<i32>) {
    Readable(c, ids) && |CodePointsOf(c, ids)| == PerSample(c.config)
  }

  /** The batches the decoder accepts. */
  predicate Accepts(c: Codec, batch: seq<seq<i32>>) {
    WithinLimits(c.config, |batch|) && forall b :: 0 <= b < |batch| ==> Decodable(c, batch[b])
  }

  /** The coefficient of a frequency in one action column. */
  function CoefficientAt(c: Codec, points: seq<nat>, column: nat, frequency: nat): real
    requires Legal(c)
  {
    var k := frequency * c.config.actionDim as int + column;
    if k < |points| then (points[k] as real + c.config.minToken as real) / c.config.scale.value else 0.0
  }

  function Column(c: Codec, points: seq<nat>, column: nat): nat -> real
    requires Legal(c)
  {
    (frequency: nat) => CoefficientAt(c, points, column, frequency)
  }

  /** One output cell of a sample: the inverse transform of its own column, at its own time step. */
  function CellAt(m: Dct.RealMath, c: Codec, points: seq<nat>, k: nat): real
    requires Legal(c) && m.sqrt(c.config.timeHorizon as real) != 0.0
  {
    Dct.Output(m, c.config.timeHorizon, Column(c, points, k % c.config.actionDim as int), k / c.config.actionDim as int)
  }

  /** Which sample of `size` cells a cell belongs to, and its place there. */
  function SampleOf(j: nat, size: nat): nat
    requires size > 0
  {
    j / size
  }

  function PlaceIn(j: nat, size: nat): nat
    requires size > 0
  {
    j % size
  }

  /** One output cell of a batch: sample, then time step, then action column. */
  function BatchCell(m: Dct.RealMath, c: Codec, batch: seq<seq<i32>>, j: nat): real
    requires Legal(c) && m.sqrt(c.config.timeHorizon as real) != 0.0 && PerSample(c.config) > 0
  {
    var b := SampleOf(j, PerSample(c.config));
    if b < |batch| && InVocabulary(c, batch[b]) then
      CellAt(m, c, CodePointsOf(c, batch[b]), PlaceIn(j, PerSample(c.config)))
    else 0.0
  }

  function FilterMap(c: Codec, vlmIds: seq<i32>): seq<i32>
    requires |c.vlmIds| < 0x8000_0000
  {
    if vlmIds == [] then []
    else
      var before := FilterMap(c, vlmIds[..|vlmIds| - 1]);
      match IndexOf(c.vlmIds, vlmIds[|vlmIds| - 1])
      case Some(f) => before + [f]
      case None => before
  }

  predicate AllMapped(c: Codec, vlmIds: seq<i32>) {
    forall i :: 0 <= i < |vlmIds| ==> vlmIds[i] in c.vlmIds
  }

  function ToVlm(c: Codec, ids: seq<i32>): seq<i32>
    requires forall i :: 0 <= i < |ids| ==> 0 <= ids[i] < |c.vlmIds|
  {
    seq(|ids|, i requires 0 <= i < |ids| => c.vlmIds[ids[i]])
  }

  function FilterAll(c: Codec, batch: seq<seq<i32>>): (r: seq<seq<i32>>)
    requires |c.vlmIds| < 0x8000_0000
    ensures |r| == |batch| && forall b :: 0 <= b < |r| ==> r[b] == FilterMap(c, batch[b])
  {
    seq(|batch|, b requires 0 <= b < |batch| => FilterMap(c, batch[b]))
  }

  // --------------------------------------------- what the constructors read

  predicate NonEmpty(pieces: seq<bytes>) {
    forall i :: 0 <= i < |pieces| ==> pieces[i] != []
  }

  /** The vocabulary strings of a list of pieces. */
  function Vocabulary(pieces: seq<bytes>): (r: seq<bytes>)
    ensures |r| == |pieces| && forall i :: 0 <= i < |r| ==> r[i] == Spell(pieces[i])
  {
    seq(|pieces|, i requires 0 <= i < |pieces| => Spell(pieces[i]))
  }

  /** All pieces in one buffer. */
  function Flat(pieces: seq<bytes>): bytes {
    if pieces == [] then [] else Flat(pieces[..|pieces| - 1]) + pieces[|pieces| - 1]
  }

  /** Where the pieces start and end in that buffer. */
  predicate AreOffsets(offsets: seq<i32>, pieces: seq<bytes>) {
    |offsets| == |pieces| + 1 && forall i :: 0 <= i <= |pieces| ==> offsets[i] as int == |Flat(pieces[..i])|
  }

  lemma {:induction false} FlatSplits(pieces: seq<bytes>, i: nat)
    requires i < |pieces|
    ensures Flat(pieces[..i + 1]) == Flat(pieces[..i]) + pieces[i]
    ensures Flat(pieces[..i + 1]) <= Flat(pieces)
    decreases |pieces|
  {
    assert pieces[..i + 1][..i] == pieces[..i];
    if i + 1 == |pieces| {
      assert pieces[..i + 1] == pieces;
    } else {
      FlatSplits(pieces[..|pieces| - 1], i);
      assert pieces[..|pieces| - 1][..i + 1] == pieces[..i + 1];
    }
  }
}
