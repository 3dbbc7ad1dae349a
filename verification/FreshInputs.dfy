/** What a graph reads for a request, element by element: every cache, mask and position in terms of the request. */
module FreshInputs {
  import opened AttentionMasks
  import opened ExpertState
  import opened PrefixFlow
  import Arith

  /** Component `d` of token `t` of a layer sits among the rows. */
  lemma PlaceInside(dim: nat, n: nat, t: nat, d: nat)
    requires t < n && d < dim
    ensures t * dim + d < dim * n && (t * dim + d) / dim == t && (t * dim + d) % dim == d
  {
    Arith.DigitsOf(t, d, dim);
    Arith.DigitsInRange(t, d, dim, n);
  }

  lemma RowsAt(c: Config, src: seq<nat>, dim: nat, n: nat, t: nat, d: nat)
    requires RowsFit(src, dim, n) && t < n && d < dim
    ensures t * dim + d < dim * n == |FromRows(c.widen, src, dim, n)|
    ensures FromRows(c.widen, src, dim, n)[t * dim + d] == c.widen(src[t * dim + d])
  {
    PlaceInside(dim, n, t, d);
  }

  lemma ColumnsAt(c: Config, src: seq<nat>, dim: nat, n: nat, t: nat, d: nat)
    requires dim > 0 && ColumnsFit(src, dim, n) && t < n && d < dim
    ensures t * dim + d < dim * n == |FromColumns(c.widen, src, dim, n)|
    ensures d * (|src| / dim) + t < |src|
    ensures FromColumns(c.widen, src, dim, n)[t * dim + d] == c.widen(src[d * (|src| / dim) + t])
  {
    PlaceInside(dim, n, t, d);
    ColumnInRange(|src| / dim, dim, n, t * dim + d);
    Arith.QuotientFits(|src|, dim);
    assert FromColumns(c.widen, src, dim, n)[t * dim + d] == ColumnAt(c.widen, src, dim, n, t * dim + d);
  }

  /** The keys of layer `layer` are its own, in order: component `d` of token `t` is that of the language model's. */
  lemma KeyAt(c: Config, r: Request, layer: nat, t: nat, d: nat, n: nat, dim: nat, at: nat)
    requires c.Sound() && Acceptable(c, r) && layer < |c.cross|
    requires n == r.layout.vision + r.layout.task + r.layout.state
    requires dim == (if c.cross[layer] then c.llmDim else c.expertDim)
    requires t < n && d < dim && at == t * dim + d
    ensures |Fresh(c, r).k| == |c.cross| && at < |Fresh(c, r).k[layer]| == dim * n
    ensures layer < |r.cache.k| && at < |r.cache.k[layer]|
    ensures Fresh(c, r).k[layer][at] == c.widen(r.cache.k[layer][at])
  {
    hide FromRows, SelfMask, CrossMask, SelfPositions, CrossPositions, FreshV;
    LayerFitsAt(c, r.cache, n, layer);
    RowsAt(c, r.cache.k[layer], dim, n, t, d);
  }

  /** The values likewise, from whichever of the two layouts the language model keeps them in. */
  lemma ValueAt(c: Config, r: Request, layer: nat, t: nat, d: nat, n: nat, dim: nat, at: nat, src: seq<nat>, from: nat)
    requires c.Sound() && Acceptable(c, r) && layer < |c.cross|
    requires n == r.layout.vision + r.layout.task + r.layout.state
    requires dim == (if c.cross[layer] then c.llmDim else c.expertDim)
    requires t < n && d < dim && at == t * dim + d
    requires layer < |r.cache.v| && src == r.cache.v[layer]
    requires from == if r.cache.transposed then d * (|src| / dim) + t else at
    ensures |Fresh(c, r).v| == |c.cross| && at < |Fresh(c, r).v[layer]| == dim * n
    ensures from < |src| && Fresh(c, r).v[layer][at] == c.widen(src[from])
  {
    hide FromRows, FromColumns, SelfMask, CrossMask, SelfPositions, CrossPositions, FreshK;
    LayerFitsAt(c, r.cache, n, layer);
    if r.cache.transposed {
      ColumnsAt(c, src, dim, n, t, d);
    } else {
      RowsAt(c, src, dim, n, t, d);
    }
  }

  /** Which prefix tokens a request masks in: the vision tokens, the task's own tokens and a last state token. */
  ghost predicate MasksIn(l: Layout, t: nat) {
    t < l.vision || l.vision <= t < l.vision + l.raw || (l.state == 1 && t == l.vision + l.task)
  }

  lemma MaskedWhen(l: Layout, t: nat)
    requires t < |l.Mask()|
    ensures l.Mask()[t] == MasksIn(l, t)
  {
  }

  /** Action `q` reads the prefix tokens masked in and the actions up to itself; rows beyond the chunk read nothing. */
  lemma SelfBiasAt(c: Config, r: Request, q: nat, key: nat, n: nat, rows: nat, at: nat)
    requires c.Sound() && Acceptable(c, r) && q < rows == PadTo(c.chunk, c.pad)
    requires n == r.layout.vision + r.layout.task + r.layout.state && key < n + c.chunk
    requires at == q * (n + c.chunk) + key
    ensures at < |Fresh(c, r).selfBias| == rows * (n + c.chunk)
    ensures Fresh(c, r).selfBias[at]
         == if q < c.chunk && (if key < n then MasksIn(r.layout, key) else key - n <= q) then 0 else 0xFF80_0000
  {
    hide FreshK, FreshV, SelfMask, CrossMask, PadTo, MasksIn, AllFit;
    SelfMaskCells(r.layout.Mask(), c.chunk, rows, q, key);
    if key < n { MaskedWhen(r.layout, key); }
  }

  lemma CrossBiasAt(c: Config, r: Request, q: nat, key: nat, n: nat, rows: nat, at: nat)
    requires c.Sound() && Acceptable(c, r) && q < rows == PadTo(c.chunk, c.pad)
    requires n == r.layout.vision + r.layout.task + r.layout.state && key < n && at == q * n + key
    ensures Fresh(c, r).prefixLen == n && at < |Fresh(c, r).crossBias| == rows * n
    ensures Fresh(c, r).crossBias[at] == if q < c.chunk && MasksIn(r.layout, key) then 0 else 0xFF80_0000
  {
    hide FreshK, FreshV, SelfMask, CrossMask, PadTo, MasksIn, AllFit;
    CrossMaskCells(r.layout.Mask(), c.chunk, rows, q, key);
    MaskedWhen(r.layout, key);
  }

  /** The prefix tokens masked in. */
  ghost function MaskedIn(l: Layout): (s: set<nat>)
    ensures forall t: nat :: t in s <==> t < l.vision + l.task + l.state && MasksIn(l, t)
  {
    set t: nat | t < l.vision + l.task + l.state && MasksIn(l, t)
  }

  /** Actions are numbered after the prefix tokens masked in, or from zero; steps by themselves; the noise is given. */
  lemma RestIs(c: Config, r: Request, i: nat)
    requires c.Sound() && Acceptable(c, r)
    ensures var inputs := Fresh(c, r);
      && |inputs.selfPos| == |inputs.crossPos| == c.chunk && |inputs.steps| == c.steps && inputs.actions == r.noise
      && (i < c.chunk ==> inputs.selfPos[i] == |MaskedIn(r.layout)| + i && inputs.crossPos[i] == i)
      && (i < c.steps ==> inputs.steps[i] == [i])
  {
    hide FreshK, FreshV, SelfMask, CrossMask;
    var mask := r.layout.Mask();
    CountIsCardinality(mask);
    assert Trues(mask) == MaskedIn(r.layout);
  }

  /** Layer `layer` of the language model's cache has a row for each of `n` tokens, keys and values alike. */
  ghost predicate HasRows(c: Config, cache: LlmCache, layer: nat, n: nat)
    requires layer < |c.cross|
  {
    var dim: int := if c.cross[layer] then c.llmDim else c.expertDim;
    && layer < |cache.k| && layer < |cache.v| && dim * n <= |cache.k[layer]| && dim * n <= |cache.v[layer]|
  }

  /** Dividing by the width first asks for no more rows than there are. */
  lemma ColumnsAreRows(src: seq<nat>, dim: nat, n: nat)
    requires dim > 0
    ensures ColumnsFit(src, dim, n) <==> dim * n <= |src|
  {
    Arith.FitsQuotient(n, |src|, dim);
  }

  lemma FitsMeans(c: Config, cache: LlmCache, layer: nat, n: nat)
    requires c.Sound() && layer < |c.cross|
    ensures LayerFits(c, cache, n, layer) <==> HasRows(c, cache, layer, n)
  {
    if layer < |cache.v| { ColumnsAreRows(cache.v[layer], c.Dim(layer), n); }
  }

  /** Which requests fit: an image, no more tokens than the context holds, a decoded prefix and a row for each token. */
  lemma AcceptableIs(c: Config, r: Request, n: nat)
    requires c.Sound() && n == r.layout.vision + r.layout.task + r.layout.state
    ensures Acceptable(c, r)
       <==> r.layout.vision > 0 && n <= c.nCtx && r.decodes
            && forall layer: nat :: layer < |c.cross| ==> HasRows(c, r.cache, layer, n)
  {
    hide LayerFits, HasRows;
    forall layer: nat | layer < |c.cross| ensures LayerFits(c, r.cache, n, layer) <==> HasRows(c, r.cache, layer, n) {
      FitsMeans(c, r.cache, layer, n);
    }
  }
}
