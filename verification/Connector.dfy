/** The vision connector's pixel shuffle: reshape, permute, copy, reshape. */
module Connector {
  import opened Bytes
  import opened Arith

  /** A four-dimensional index; the first is the fastest. */
  datatype Index = Index(i0: nat, i1: nat, i2: nat, i3: nat)

  datatype Shape = Shape(n0: nat, n1: nat, n2: nat, n3: nat) {
    function Size(): nat {
      RowStart(n0, RowStart(n1, RowStart(n2, n3)))
    }

    predicate Has(i: Index) {
      i.i0 < n0 && i.i1 < n1 && i.i2 < n2 && i.i3 < n3
    }

    function Offset(i: Index): nat {
      RowStart(n0, RowStart(n1, RowStart(n2, i.i3) + i.i2) + i.i1) + i.i0
    }

    function At(j: nat): Index
      requires n0 > 0 && n1 > 0 && n2 > 0
    {
      var q: nat := j / n0;
      var r: nat := q / n1;
      Index(j % n0, q % n1, r % n2, r / n2)
    }

    /** `ggml_permute(0, 2, 1, 3)`. */
    function Swapped(): Shape {
      Shape(n0, n2, n1, n3)
    }
  }

  function SwapIndex(i: Index): Index {
    Index(i.i0, i.i2, i.i1, i.i3)
  }

  datatype Tensor<V> = Tensor(shape: Shape, data: seq<V>) {
    predicate Sound() {
      |data| == shape.Size()
    }
  }

  lemma Widen(width: nat, a: nat, b: nat)
    requires a <= b
    ensures RowStart(width, a) <= RowStart(width, b)
  {
    MulMono(width, a, b);
  }

  lemma OffsetInside(s: Shape, i: Index)
    requires s.Has(i)
    ensures s.Offset(i) < s.Size()
  {
    NextRow(s.n2, i.i3, s.n3);
    NextRow(s.n1, RowStart(s.n2, i.i3) + i.i2, RowStart(s.n2, s.n3));
    var inner, outer := RowStart(s.n1, RowStart(s.n2, i.i3) + i.i2) + i.i1, RowStart(s.n1, RowStart(s.n2, s.n3));
    Widen(s.n1, RowStart(s.n2, i.i3) + i.i2 + 1, RowStart(s.n2, s.n3));
    NextRow(s.n0, inner, outer);
  }

  lemma AtOffset(s: Shape, i: Index)
    requires s.Has(i)
    ensures s.At(s.Offset(i)) == i
  {
    RowOf(s.n2, i.i3, i.i2);
    RowOf(s.n1, RowStart(s.n2, i.i3) + i.i2, i.i1);
    RowOf(s.n0, RowStart(s.n1, RowStart(s.n2, i.i3) + i.i2) + i.i1, i.i0);
  }

  lemma OffsetAt(s: Shape, j: nat)
    requires j < s.Size()
    ensures s.n0 > 0 && s.n1 > 0 && s.n2 > 0 && s.Has(s.At(j)) && s.Offset(s.At(j)) == j
  {
    AboveQuotient(RowStart(s.n1, RowStart(s.n2, s.n3)), j, s.n0);
    var q := j / s.n0;
    AboveQuotient(RowStart(s.n2, s.n3), q, s.n1);
    AboveQuotient(s.n3, q / s.n1, s.n2);
  }

  function CopyAt<V>(t: Tensor<V>, j: nat): V
    requires t.Sound() && j < t.shape.Swapped().Size()
  {
    OffsetAt(t.shape.Swapped(), j);
    var i := SwapIndex(t.shape.Swapped().At(j));
    OffsetInside(t.shape, i);
    t.data[t.shape.Offset(i)]
  }

  /** The permuted view, made contiguous. */
  function PermuteCopy<V>(t: Tensor<V>): (r: Tensor<V>)
    requires t.Sound()
  {
    var shape := t.shape.Swapped();
    Tensor(shape, seq(shape.Size(), j requires 0 <= j < shape.Size() => CopyAt(t, j)))
  }

  /** A reshape keeps the data and refuses another number of elements. */
  function Reshape<V>(t: Tensor<V>, shape: Shape): Option<Tensor<V>> {
    if shape.Size() == |t.data| then Some(Tensor(shape, t.data)) else None
  }

  // ------------------------------------------------------------------ connector

  /** `(int)std::sqrt((double)x)` twice: of the patches a token, and of all patches. */
  function ScaleOf(patches: nat, tokens: nat): nat
    requires tokens > 0
  {
    FloorSqrt(patches / tokens)
  }

  function SideOf(patches: nat, tokens: nat): nat
    requires tokens > 0 && ScaleOf(patches, tokens) > 0
  {
    FloorSqrt(patches) / ScaleOf(patches, tokens)
  }

  function Grid(hidden: nat, scale: nat, side: nat): Shape {
    Shape(hidden * scale, side, scale, side)
  }

  /** A grid of blocks of patches: its patches, its tokens, and the features of a block. */
  function Patches(side: nat, scale: nat): nat {
    (side * scale) * (side * scale)
  }

  function Tokens(side: nat): nat {
    side * side
  }

  function Features(hidden: nat, scale: nat): nat {
    hidden * scale * scale
  }

  /** The index map of the connector; none where an assertion stops it. */
  function Connect<V>(vit: seq<V>, hidden: nat, patches: nat, tokens: nat, features: nat): Option<Tensor<V>>
    requires tokens > 0
  {
    var scale, inSide := ScaleOf(patches, tokens), FloorSqrt(patches);
    if scale == 0 then None
    else
      var side := SideOf(patches, tokens);
      if inSide * inSide != patches || side * side != tokens then None
      else
        match Reshape(Tensor(Shape(hidden, patches, 1, 1), vit), Grid(hidden, scale, side))
        case None => None
        case Some(x) => Reshape(PermuteCopy(x), Shape(features, tokens, 1, 1))
  }

  lemma Rearrange(a: nat, b: nat, c: nat, d: nat)
    ensures (a * b) * (c * d) == c * (a * (b * d))
  {
    assert (a * b) * (c * d) == c * ((a * b) * d);
    assert (a * b) * d == a * (b * d);
  }

  lemma GridSize(hidden: nat, scale: nat, side: nat)
    ensures Grid(hidden, scale, side).Size() == hidden * ((side * scale) * (side * scale))
    ensures Grid(hidden, scale, side).Swapped().Size() == Grid(hidden, scale, side).Size()
  {
    var a, b := side * scale, hidden * scale;
    assert side * scale == RowStart(scale, side);
    assert RowStart(side, RowStart(scale, side)) == a * side;
    assert RowStart(scale, RowStart(side, side)) == side * side * scale == a * side;
    assert RowStart(b, a * side) == (a * side) * (hidden * scale);
    Rearrange(a, side, hidden, scale);
  }

  lemma SquareStep(a: nat)
    ensures (a + 1) * (a + 1) == a * a + 2 * a + 1
  {
  }

  lemma SquaresGrow(a: nat, b: nat, h: nat)
    requires h > 0 && a < b
    ensures h * (a * a) < h * (b * b)
  {
    MulMono2(a + 1, a + 1, b, b);
    SquareStep(a);
    MulMono(h, a * a + 1, b * b);
    assert h * (a * a + 1) == h * (a * a) + h;
  }

  lemma SquaresEqual(a: nat, b: nat, h: nat)
    requires h > 0 && h * (a * a) == h * (b * b)
    ensures a == b
  {
    if a < b { SquaresGrow(a, b, h); }
    if b < a { SquaresGrow(b, a, h); }
  }

  /** It goes through only when the grid of patches is a square of squares, and the features of a block fill a token. */
  lemma AcceptsOnly<V>(vit: seq<V>, hidden: nat, patches: nat, tokens: nat, features: nat)
    requires tokens > 0 && hidden > 0 && |vit| == hidden * patches
    requires Connect(vit, hidden, patches, tokens, features).Some?
    ensures var scale, side := ScaleOf(patches, tokens), SideOf(patches, tokens);
      tokens == side * side && patches == (side * scale) * (side * scale) && features * tokens == hidden * patches
  {
    var scale, side, inSide := ScaleOf(patches, tokens), SideOf(patches, tokens), FloorSqrt(patches);
    GridSize(hidden, scale, side);
    SquaresEqual(side * scale, inSide, hidden);
    assert Shape(features, tokens, 1, 1).Size() == tokens * features;
  }

  lemma Rearrange4(a: nat, b: nat)
    ensures (a * b) * (a * b) == (b * b) * (a * a)
  {
    assert (a * b) * (a * b) == a * (b * (a * b));
    assert b * (a * b) == (b * b) * a;
  }

  lemma RootsOf(side: nat, scale: nat)
    requires side > 0 && scale > 0
    ensures side * side > 0 && ScaleOf((side * scale) * (side * scale), side * side) == scale
    ensures SideOf((side * scale) * (side * scale), side * side) == side
    ensures FloorSqrt((side * scale) * (side * scale)) == side * scale
  {
    hide FloorSqrt;
    MulMono2(1, 1, side, side);
    var n, tokens, edge := (side * scale) * (side * scale), side * side, side * scale;
    Rearrange4(side, scale);
    DigitsOf(scale * scale, 0, tokens);
    SquareStep(scale);
    SquareStep(edge);
    RootOf(scale * scale, scale);
    RootOf(n, edge);
    DigitsOf(side, 0, scale);
  }

  /** The grid of patches after the permutation. */
  function Shuffled<V>(vit: seq<V>, hidden: nat, scale: nat, side: nat): Tensor<V>
    requires |vit| == Grid(hidden, scale, side).Size()
  {
    PermuteCopy(Tensor(Grid(hidden, scale, side), vit))
  }

  lemma FlatSize(features: nat, tokens: nat)
    ensures Shape(features, tokens, 1, 1).Size() == tokens * features
  {
  }

  lemma FeatureTotal(hidden: nat, scale: nat, side: nat)
    ensures (side * side) * (hidden * scale * scale) == hidden * ((side * scale) * (side * scale))
  {
    Rearrange4(side, scale);
    assert hidden * scale * scale == hidden * (scale * scale);
    assert (side * side) * (hidden * (scale * scale)) == hidden * ((side * side) * (scale * scale));
  }

  /** And always when they are. */
  lemma AcceptsAll<V>(vit: seq<V>, hidden: nat, side: nat, scale: nat)
    requires side > 0 && scale > 0 && |vit| == hidden * Patches(side, scale)
    ensures Tokens(side) > 0 && |vit| == Grid(hidden, scale, side).Size()
    ensures Connect(vit, hidden, Patches(side, scale), Tokens(side), Features(hidden, scale))
         == Some(Tensor(Shape(Features(hidden, scale), Tokens(side), 1, 1), Shuffled(vit, hidden, scale, side).data))
  {
    RootsOf(side, scale);
    GridSize(hidden, scale, side);
    FlatSize(Features(hidden, scale), Tokens(side));
    FeatureTotal(hidden, scale, side);
    hide Shape.Size, Grid, FloorSqrt, ScaleOf, SideOf;
  }

  // ------------------------------------------------------------- what goes where

  /** Where channel `h` of the patch at (y, x) sits. */
  function PatchPlace(hidden: nat, inSide: nat, y: nat, x: nat, h: nat): nat {
    hidden * (y * inSide + x) + h
  }

  /** Where feature `f` of the token at (y, x) sits. */
  function TokenPlace(features: nat, side: nat, y: nat, x: nat, f: nat): nat {
    features * (y * side + x) + f
  }

  lemma Spread(a: nat, b: nat, n: nat)
    ensures RowStart(a * b, n) == a * (n * b)
  {
    assert n * (a * b) == a * (n * b);
  }

  lemma SpreadRow(row: nat, side: nat, ox: nat, scale: nat)
    ensures (row * side + ox) * scale == row * (side * scale) + ox * scale
  {
    assert (row * side) * scale == row * (side * scale);
  }

  lemma PatchOffset(hidden: nat, scale: nat, side: nat, oy: nat, ox: nat, py: nat, px: nat, h: nat)
    ensures Grid(hidden, scale, side).Offset(Index(h + hidden * px, ox, py, oy))
         == PatchPlace(hidden, side * scale, oy * scale + py, ox * scale + px, h)
  {
    var row := oy * scale + py;
    assert RowStart(scale, oy) + py == row;
    assert RowStart(side, row) + ox == row * side + ox;
    Spread(hidden, scale, row * side + ox);
    assert (row * side + ox) * scale == row * (side * scale) + ox * scale by { SpreadRow(row, side, ox, scale); }
    var cell := row * (side * scale) + ox * scale;
    assert hidden * (cell + px) == hidden * cell + hidden * px;
    assert PatchPlace(hidden, side * scale, row, ox * scale + px, h) == hidden * (cell + px) + h;
  }

  lemma TokenOffset(hidden: nat, scale: nat, side: nat, oy: nat, ox: nat, py: nat, px: nat, h: nat)
    ensures Grid(hidden, scale, side).Swapped().Offset(Index(h + hidden * px, py, ox, oy))
         == TokenPlace(hidden * scale * scale, side, oy, ox, h + hidden * (px + scale * py))
  {
    var token := oy * side + ox;
    assert RowStart(side, oy) + ox == token;
    Spread(hidden, scale, RowStart(scale, token) + py);
    assert (token * scale + py) * scale == token * (scale * scale) + py * scale by {
      SpreadRow(token, scale, py, scale);
    }
    var block := token * (scale * scale);
    assert hidden * (block + py * scale) == hidden * block + hidden * (scale * py);
    assert hidden * (px + scale * py) == hidden * px + hidden * (scale * py);
    assert hidden * scale * scale * token == hidden * block;
  }

  lemma InsideBlock(hidden: nat, scale: nat, px: nat, h: nat)
    requires px < scale && h < hidden
    ensures h + hidden * px < hidden * scale
  {
    MulMono(hidden, px + 1, scale);
  }

  /** Where a channel of a patch of a block sits among the patches, and among the tokens. */
  function FromPlace(hidden: nat, scale: nat, side: nat, oy: nat, ox: nat, py: nat, px: nat, h: nat): nat {
    PatchPlace(hidden, side * scale, oy * scale + py, ox * scale + px, h)
  }

  function ToPlace(hidden: nat, scale: nat, side: nat, oy: nat, ox: nat, py: nat, px: nat, h: nat): nat {
    TokenPlace(Features(hidden, scale), side, oy, ox, h + hidden * (px + scale * py))
  }

  /** The index of that channel in the permuted grid. */
  function BlockIndex(hidden: nat, oy: nat, ox: nat, py: nat, px: nat, h: nat): Index {
    Index(h + hidden * px, py, ox, oy)
  }

  lemma BlockIndexIs(hidden: nat, scale: nat, side: nat, oy: nat, ox: nat, py: nat, px: nat, h: nat)
    requires oy < side && ox < side && py < scale && px < scale && h < hidden
    ensures var i := BlockIndex(hidden, oy, ox, py, px, h);
      && Grid(hidden, scale, side).Swapped().Has(i)
      && Grid(hidden, scale, side).Offset(SwapIndex(i)) == FromPlace(hidden, scale, side, oy, ox, py, px, h)
      && Grid(hidden, scale, side).Swapped().Offset(i) == ToPlace(hidden, scale, side, oy, ox, py, px, h)
  {
    InsideBlock(hidden, scale, px, h);
    PatchOffset(hidden, scale, side, oy, ox, py, px, h);
    TokenOffset(hidden, scale, side, oy, ox, py, px, h);
    hide Shape.Offset, PatchPlace, TokenPlace;
  }

  lemma CopyIs<V>(t: Tensor<V>, i: Index)
    requires t.Sound() && t.shape.Swapped().Has(i)
    ensures t.shape.Swapped().Offset(i) < t.shape.Swapped().Size() && t.shape.Offset(SwapIndex(i)) < |t.data|
    ensures PermuteCopy(t).data[t.shape.Swapped().Offset(i)] == t.data[t.shape.Offset(SwapIndex(i))]
  {
    OffsetInside(t.shape.Swapped(), i);
    OffsetInside(t.shape, SwapIndex(i));
    AtOffset(t.shape.Swapped(), i);
  }

  lemma ShuffledMoves<V>(vit: seq<V>, hidden: nat, scale: nat, side: nat, i: Index, from: nat, to: nat)
    requires |vit| == Grid(hidden, scale, side).Size() && Grid(hidden, scale, side).Swapped().Has(i)
    requires from == Grid(hidden, scale, side).Offset(SwapIndex(i))
    requires to == Grid(hidden, scale, side).Swapped().Offset(i)
    ensures to < |Shuffled(vit, hidden, scale, side).data| && from < |vit|
    ensures Shuffled(vit, hidden, scale, side).data[to] == vit[from]
  {
    hide Grid, Shape.Size, Shape.Offset, Shape.Has;
    CopyIs(Tensor(Grid(hidden, scale, side), vit), i);
  }

  /**
    * The chain is space to depth: feature `h + hidden*(px + scale*py)` of token (oy, ox) is channel `h` of the patch at
    * (oy*scale + py, ox*scale + px).
    */
  lemma SpaceToDepth<V>(vit: seq<V>, hidden: nat, scale: nat, side: nat, oy: nat, ox: nat, py: nat, px: nat, h: nat,
                        from: nat, to: nat)
    requires |vit| == hidden * ((side * scale) * (side * scale))
    requires oy < side && ox < side && py < scale && px < scale && h < hidden
    requires from == hidden * ((oy * scale + py) * (side * scale) + (ox * scale + px)) + h
    requires to == (hidden * scale * scale) * (oy * side + ox) + (h + hidden * (px + scale * py))
    ensures side * side > 0
    ensures var r := Connect(vit, hidden, (side * scale) * (side * scale), side * side, hidden * scale * scale);
      r.Some? && r.value.shape == Shape(hidden * scale * scale, side * side, 1, 1)
      && to < |r.value.data| && from < |vit| && r.value.data[to] == vit[from]
  {
    assert from == FromPlace(hidden, scale, side, oy, ox, py, px, h);
    assert to == ToPlace(hidden, scale, side, oy, ox, py, px, h);
    assert Patches(side, scale) == (side * scale) * (side * scale) && Tokens(side) == side * side;
    assert Features(hidden, scale) == hidden * scale * scale;
    hide *;
    AcceptsAll(vit, hidden, side, scale);
    BlockIndexIs(hidden, scale, side, oy, ox, py, px, h);
    ShuffledMoves(vit, hidden, scale, side, BlockIndex(hidden, oy, ox, py, px, h), from, to);
  }

  /** Permuting back gives the tensor back: every element is used, and used once. */
  lemma PermuteCopyInverts<V>(t: Tensor<V>)
    requires t.Sound()
    ensures PermuteCopy(t).Sound() && PermuteCopy(PermuteCopy(t)) == t
  {
    var back := PermuteCopy(PermuteCopy(t));
    assert back.shape == t.shape;
    forall j: nat | j < t.shape.Size() ensures back.data[j] == t.data[j] {
      OffsetAt(t.shape, j);
      var i := t.shape.At(j);
      CopyIs(PermuteCopy(t), i);
      CopyIs(t, SwapIndex(i));
      assert SwapIndex(SwapIndex(i)) == i;
    }
  }
}
