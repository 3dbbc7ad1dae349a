/** How the prefix is laid out, who sees whom, and that padding never reaches an action. */
module PrefixFlow {
  import opened AttentionMasks

  /** Vision tokens, then language tokens of which the first `raw` are real, then the state token if there is one. */
  datatype Layout = Layout(vision: nat, raw: nat, task: nat, state: nat) {
    predicate Sound() {
      vision > 0 && raw <= task && state <= 1
    }

    function Total(): nat {
      vision + task + state
    }

    predicate IsValid(i: nat) {
      i < vision || vision <= i < vision + raw || (state == 1 && i == Total() - 1)
    }

    function Mask(): seq<bool> {
      seq(Total(), (i: nat) => IsValid(i))
    }

    /** The sequence ids of a token; the last token is taken for the state token. */
    function SeqIds(i: nat): seq<nat> {
      if !IsValid(i) then [2] else if i + 1 < Total() then [0, 1] else [1]
    }

    /** A query sees the keys that carry its first sequence id. */
    predicate Sees(query: nat, key: nat) {
      SeqIds(query)[0] in SeqIds(key)
    }
  }

  /** `cumsum(mask) - 1`. */
  function Position(valid: seq<bool>, i: nat): int
    requires i < |valid|
  {
    ValidCount(valid[..i + 1]) - 1
  }

  /** Pads are numbered on their own. */
  function PadPosition(valid: seq<bool>, i: nat): int
    requires i <= |valid|
  {
    i - ValidCount(valid[..i])
  }

  /** The layout's mask, segment by segment. */
  method BuildMask(l: Layout) returns (mask: seq<bool>)
    requires l.Sound()
    ensures mask == l.Mask()
  {
    var n := l.Total();
    mask := seq(n, i => false);
    for i := 0 to l.vision
      invariant |mask| == n && forall k :: 0 <= k < n ==> mask[k] == (k < i)
    {
      mask := mask[i := true];
    }
    for i := 0 to l.raw
      invariant |mask| == n && forall k :: 0 <= k < n ==> mask[k] == (k < l.vision || l.vision <= k < l.vision + i)
    {
      mask := mask[l.vision + i := true];
    }
    if l.state == 1 {
      mask := mask[n - 1 := true];
    }
  }

  lemma CountNext(valid: seq<bool>, i: nat)
    requires i < |valid|
    ensures ValidCount(valid[..i + 1]) == ValidCount(valid[..i]) + if valid[i] then 1 else 0
  {
    assert valid[..i + 1][..i] == valid[..i];
  }

  method PositionIds(mask: seq<bool>) returns (ids: seq<int>)
    ensures |ids| == |mask| && forall k :: 0 <= k < |mask| ==> ids[k] == Position(mask, k)
  {
    var cumulative := 0;
    ids := [];
    for i := 0 to |mask|
      invariant cumulative == ValidCount(mask[..i])
      invariant |ids| == i && forall k :: 0 <= k < i ==> ids[k] == Position(mask, k)
    {
      CountNext(mask, i);
      if mask[i] {
        cumulative := cumulative + 1;
      }
      ids := ids + [cumulative - 1];
    }
  }

  /** The position a token goes into the batch with. */
  function BatchPosition(valid: seq<bool>, i: nat): int
    requires i < |valid|
  {
    if valid[i] then Position(valid, i) else PadPosition(valid, i)
  }

  /** A token is counted in unless it pads the instruction. */
  lemma MaskMeans(l: Layout, i: nat)
    requires l.Sound() && i < l.Total()
    ensures l.Mask()[i] <==> !(l.vision + l.raw <= i < l.vision + l.task)
  {
    assert l.Mask()[i] == l.IsValid(i);
  }

  /** A token's position is how many of its own kind, counted in or padding, come before it. */
  lemma PositionMeans(valid: seq<bool>, i: nat)
    requires i < |valid|
    ensures BatchPosition(valid, i) == if valid[i] then |Trues(valid[..i])| else i - |Trues(valid[..i])|
  {
    CountNext(valid, i);
    CountIsCardinality(valid[..i]);
  }

  /** The mask, positions and sequence ids that go into the batch. */
  method AssemblePrefix(l: Layout) returns (mask: seq<bool>, positions: seq<int>, seqIds: seq<seq<nat>>)
    requires l.Sound()
    ensures mask == l.Mask()
    ensures |positions| == |seqIds| == l.Total()
    ensures forall i :: 0 <= i < l.Total() ==> positions[i] == BatchPosition(mask, i)
    ensures forall i :: 0 <= i < l.Total() ==> seqIds[i] == l.SeqIds(i)
    ensures |mask| == l.vision + l.task + l.state
    ensures forall i :: 0 <= i < |mask| ==> (mask[i] <==> !(l.vision + l.raw <= i < l.vision + l.task))
    ensures forall i :: 0 <= i < |mask| ==>
      positions[i] == if mask[i] then |Trues(mask[..i])| else i - |Trues(mask[..i])|
  {
    hide Position;
    mask := BuildMask(l);
    var n := l.Total();
    var ids := PositionIds(mask);
    positions, seqIds := [], [];
    var pads := 0;
    for i := 0 to n
      invariant |positions| == |seqIds| == i && pads == PadPosition(mask, i)
      invariant forall k :: 0 <= k < i ==> positions[k] == BatchPosition(mask, k)
      invariant forall k :: 0 <= k < i ==> seqIds[k] == l.SeqIds(k)
    {
      CountNext(mask, i);
      assert mask[i] == l.IsValid(i);
      if !mask[i] {
        positions, seqIds := positions + [pads], seqIds + [[2]];
        pads := pads + 1;
      } else if i < n - 1 {
        positions, seqIds := positions + [ids[i]], seqIds + [[0, 1]];
      } else {
        positions, seqIds := positions + [ids[i]], seqIds + [[1]];
      }
    }
    forall i | 0 <= i < n
      ensures mask[i] <==> !(l.vision + l.raw <= i < l.vision + l.task)
      ensures BatchPosition(mask, i) == if mask[i] then |Trues(mask[..i])| else i - |Trues(mask[..i])|
    {
      MaskMeans(l, i);
      PositionMeans(mask, i);
    }
  }

  // --------------------------------------------------------------- positions

  /** The positions of the valid tokens, in order. */
  function ValidPositions(valid: seq<bool>): seq<int> {
    if valid == [] then []
    else
      var n := |valid| - 1;
      if valid[n] then ValidPositions(valid[..n]) + [Position(valid, n)] else ValidPositions(valid[..n])
  }

  lemma {:induction false} PositionsEnumerate(valid: seq<bool>)
    ensures ValidPositions(valid) == seq(ValidCount(valid), (i: nat) => i as int)
  {
    if valid != [] {
      PositionsEnumerate(valid[..|valid| - 1]);
      assert valid[..|valid|] == valid;
    }
  }

  /** Valid prefix tokens and actions together are numbered 0, 1, 2, ... without gap or repeat. */
  lemma PositionsAreConsecutive(valid: seq<bool>, chunk: nat)
    ensures ValidPositions(valid) + SelfPositions(valid, chunk) == seq(ValidCount(valid) + chunk, (i: nat) => i as int)
  {
    PositionsEnumerate(valid);
  }

  // -------------------------------------------------------------- visibility

  /** Who sees whom, in full. */
  lemma VisibilityIs(l: Layout, query: nat, key: nat)
    requires l.Sound() && query < l.Total() && key < l.Total()
    ensures l.Sees(query, key) <==>
      if l.IsValid(query) then l.IsValid(key) && (query + 1 == l.Total() || key + 1 < l.Total())
      else !l.IsValid(key)
  {
  }

  /**
    * The layout reads the last token as the state token. Every valid token but the state token is seen by every valid
    * token exactly when there is a state token, or a pad comes last, or there is one token in all.
    */
  lemma LastTokenMustBeState(l: Layout)
    requires l.Sound()
    ensures (forall query, key ::
              && 0 <= query < l.Total() && 0 <= key < l.Total() && l.IsValid(query) && l.IsValid(key)
              && !(l.state == 1 && key + 1 == l.Total())
              ==> l.Sees(query, key))
        <==> l.state == 1 || l.raw < l.task || l.Total() == 1
  {
    if !(l.state == 1 || l.raw < l.task || l.Total() == 1) {
      VisibilityIs(l, 0, l.Total() - 1);
      assert l.IsValid(0) && l.IsValid(l.Total() - 1) && !l.Sees(0, l.Total() - 1);
    }
  }

  // --------------------------------------------------------- what flows where

  /**
    * Any model with this shape. A token's next value may depend, in any way, on its layer, its place, its own value
    * and the values it sees; an action row likewise, and on the prefix values it sees.
    */
  datatype Network<!V> = Network(
    llm: (nat, nat, V, map<nat, V>) -> V,
    isCross: nat -> bool,
    embed: (nat, nat, V) -> V,
    expert: (nat, nat, V, map<nat, V>, map<nat, V>) -> V,
    update: (nat, nat, V, V) -> V,
    layers: nat,
    chunk: nat)

  function Seen<V>(l: Layout, values: seq<V>, query: nat): map<nat, V> {
    map key: nat | key < |values| && l.Sees(query, key) :: values[key]
  }

  /** One layer of the language model. */
  function NextHidden<V>(net: Network<V>, l: Layout, h: seq<V>, layer: nat): (r: seq<V>)
    ensures |r| == |h|
  {
    seq(|h|, i requires 0 <= i < |h| => net.llm(layer, i, h[i], Seen(l, h, i)))
  }

  /** The prefix values entering a layer. */
  function Hidden<V>(net: Network<V>, l: Layout, tokens: seq<V>, layer: nat): (r: seq<V>)
    ensures |r| == |tokens|
  {
    if layer == 0 then tokens else NextHidden(net, l, Hidden(net, l, tokens, layer - 1), layer - 1)
  }

  /** The prefix values an action sees, through either mask. */
  function SeenPrefix<V>(valid: seq<bool>, values: seq<V>, query: nat, cross: bool): map<nat, V> {
    map key: nat | key < |values| && key < |valid|
                   && (if cross then CrossSees(valid, key) else SelfSees(valid, query, key)) :: values[key]
  }

  /** The actions an action sees: none in cross attention. */
  function SeenActions<V>(valid: seq<bool>, rows: seq<V>, query: nat, cross: bool): map<nat, V> {
    map k: nat | k < |rows| && !cross && SelfSees(valid, query, |valid| + k) :: rows[k]
  }

  /** One layer of the expert, beside the prefix values of the same layer. */
  function NextRows<V>(net: Network<V>, l: Layout, h: seq<V>, rows: seq<V>, layer: nat): (r: seq<V>)
    ensures |r| == |rows|
  {
    var cross := net.isCross(layer);
    seq(|rows|, q requires 0 <= q < |rows| =>
      net.expert(layer, q, rows[q], SeenPrefix(l.Mask(), h, q, cross), SeenActions(l.Mask(), rows, q, cross)))
  }

  function Rows<V>(net: Network<V>, l: Layout, tokens: seq<V>, rows: seq<V>, layer: nat): (r: seq<V>)
    ensures |r| == |rows|
  {
    if layer == 0 then rows
    else NextRows(net, l, Hidden(net, l, tokens, layer - 1), Rows(net, l, tokens, rows, layer - 1), layer - 1)
  }

  function Suffix<V>(net: Network<V>, x: seq<V>, step: nat): (r: seq<V>)
    ensures |r| == |x|
  {
    seq(|x|, q requires 0 <= q < |x| => net.embed(step, q, x[q]))
  }

  function Update<V>(net: Network<V>, x: seq<V>, out: seq<V>, step: nat): (r: seq<V>)
    requires |out| == |x|
    ensures |r| == |x|
  {
    seq(|x|, q requires 0 <= q < |x| => net.update(step, q, x[q], out[q]))
  }

  /** The denoising loop. */
  function Denoise<V>(net: Network<V>, l: Layout, tokens: seq<V>, noise: seq<V>, steps: nat): (r: seq<V>)
    ensures |r| == |noise|
  {
    if steps == 0 then noise
    else
      var x := Denoise(net, l, tokens, noise, steps - 1);
      Update(net, x, Rows(net, l, tokens, Suffix(net, x, steps - 1), net.layers), steps - 1)
  }

  /** Two prefixes that agree on the valid tokens before `end`. */
  ghost predicate SameValid<V(!new)>(l: Layout, end: nat, a: seq<V>, b: seq<V>) {
    |a| == |b| == l.Total() && forall i: nat :: i < end && i < l.Total() && l.IsValid(i) ==> a[i] == b[i]
  }

  lemma SameSeen<V(!new)>(l: Layout, end: nat, a: seq<V>, b: seq<V>, i: nat)
    requires l.Sound() && SameValid(l, end, a, b) && i < end && i < l.Total() && l.IsValid(i)
    requires end == l.Total() || (l.state == 1 && end == l.Total() - 1)
    ensures Seen(l, a, i) == Seen(l, b, i)
  {
    forall key: nat | key < l.Total() && l.Sees(i, key) ensures key < end && l.IsValid(key) { VisibilityIs(l, i, key); }
  }

  lemma SameNextHidden<V(!new)>(net: Network<V>, l: Layout, end: nat, a: seq<V>, b: seq<V>, layer: nat)
    requires l.Sound() && SameValid(l, end, a, b)
    requires end == l.Total() || (l.state == 1 && end == l.Total() - 1)
    ensures SameValid(l, end, NextHidden(net, l, a, layer), NextHidden(net, l, b, layer))
  {
    hide Layout.IsValid, Seen;
    forall i: nat | i < end && i < l.Total() && l.IsValid(i)
      ensures NextHidden(net, l, a, layer)[i] == NextHidden(net, l, b, layer)[i]
    {
      SameSeen(l, end, a, b, i);
    }
  }

  /**
    * Through any number of layers padding changes no valid token, and with a state token, which comes last, the state
    * changes none of the others.
    */
  lemma {:induction false} TokensDependOnValid<V(!new)>(
    net: Network<V>, l: Layout, end: nat, a: seq<V>, b: seq<V>, layer: nat)
    requires l.Sound() && SameValid(l, end, a, b)
    requires end == l.Total() || (l.state == 1 && end == l.Total() - 1)
    ensures SameValid(l, end, Hidden(net, l, a, layer), Hidden(net, l, b, layer))
  {
    hide NextHidden, SameValid;
    if layer > 0 {
      TokensDependOnValid(net, l, end, a, b, layer - 1);
      SameNextHidden(net, l, end, Hidden(net, l, a, layer - 1), Hidden(net, l, b, layer - 1), layer - 1);
    }
  }

  lemma SameSeenPrefix<V(!new)>(l: Layout, a: seq<V>, b: seq<V>, q: nat, cross: bool)
    requires SameValid(l, l.Total(), a, b)
    ensures SeenPrefix(l.Mask(), a, q, cross) == SeenPrefix(l.Mask(), b, q, cross)
  {
    forall key: nat | key < l.Total() ensures l.Mask()[key] == l.IsValid(key) {}
  }

  lemma SameNextRows<V(!new)>(net: Network<V>, l: Layout, a: seq<V>, b: seq<V>, rows: seq<V>, layer: nat)
    requires SameValid(l, l.Total(), a, b)
    ensures NextRows(net, l, a, rows, layer) == NextRows(net, l, b, rows, layer)
  {
    hide SeenPrefix, SeenActions, SameValid, Layout.Mask;
    forall q: nat
      ensures SeenPrefix(l.Mask(), a, q, net.isCross(layer)) == SeenPrefix(l.Mask(), b, q, net.isCross(layer))
    {
      SameSeenPrefix(l, a, b, q, net.isCross(layer));
    }
    var x, y := NextRows(net, l, a, rows, layer), NextRows(net, l, b, rows, layer);
    forall q: nat | q < |rows| ensures x[q] == y[q] {}
  }

  lemma {:induction false} PadsDoNotReachRows<V(!new)>(
    net: Network<V>, l: Layout, a: seq<V>, b: seq<V>, rows: seq<V>, layer: nat)
    requires l.Sound() && SameValid(l, l.Total(), a, b)
    ensures Rows(net, l, a, rows, layer) == Rows(net, l, b, rows, layer)
  {
    hide NextRows, NextHidden, Hidden, SameValid;
    if layer > 0 {
      PadsDoNotReachRows(net, l, a, b, rows, layer - 1);
      TokensDependOnValid(net, l, l.Total(), a, b, layer - 1);
      SameNextRows(net, l, Hidden(net, l, a, layer - 1), Hidden(net, l, b, layer - 1),
                   Rows(net, l, a, rows, layer - 1), layer - 1);
    }
  }

  /** Over any number of layers and denoising steps, and whatever the network computes, padding changes no action. */
  lemma {:induction false} PadsNeverReachActions<V(!new)>(
    net: Network<V>, l: Layout, a: seq<V>, b: seq<V>, noise: seq<V>, steps: nat)
    requires l.Sound() && SameValid(l, l.Total(), a, b)
    ensures Denoise(net, l, a, noise, steps) == Denoise(net, l, b, noise, steps)
  {
    hide Rows, Suffix, Update, SameValid;
    if steps > 0 {
      PadsNeverReachActions(net, l, a, b, noise, steps - 1);
      var x := Denoise(net, l, a, noise, steps - 1);
      PadsDoNotReachRows(net, l, a, b, Suffix(net, x, steps - 1), net.layers);
    }
  }

  /** Two chunks that agree on their first `n` rows. */
  ghost predicate SameStart<V(!new)>(n: nat, a: seq<V>, b: seq<V>) {
    |a| == |b| && forall q: nat :: q < n && q < |a| ==> a[q] == b[q]
  }

  lemma SameSeenActions<V(!new)>(valid: seq<bool>, n: nat, a: seq<V>, b: seq<V>, q: nat, cross: bool)
    requires SameStart(n, a, b) && q < n
    ensures SeenActions(valid, a, q, cross) == SeenActions(valid, b, q, cross)
  {
    var x, y := SeenActions(valid, a, q, cross), SeenActions(valid, b, q, cross);
    assert x.Keys == y.Keys;
  }

  lemma NextRowsAreCausal<V(!new)>(net: Network<V>, l: Layout, h: seq<V>, n: nat, a: seq<V>, b: seq<V>, layer: nat)
    requires SameStart(n, a, b)
    ensures SameStart(n, NextRows(net, l, h, a, layer), NextRows(net, l, h, b, layer))
  {
    hide SeenPrefix, SeenActions, Layout.Mask;
    forall q: nat | q < n && q < |a| ensures NextRows(net, l, h, a, layer)[q] == NextRows(net, l, h, b, layer)[q] {
      SameSeenActions(l.Mask(), n, a, b, q, net.isCross(layer));
    }
  }

  lemma {:induction false} RowsAreCausal<V(!new)>(
    net: Network<V>, l: Layout, tokens: seq<V>, n: nat, a: seq<V>, b: seq<V>, layer: nat)
    requires SameStart(n, a, b)
    ensures SameStart(n, Rows(net, l, tokens, a, layer), Rows(net, l, tokens, b, layer))
  {
    hide NextRows, Hidden, SameStart;
    if layer > 0 {
      RowsAreCausal(net, l, tokens, n, a, b, layer - 1);
      NextRowsAreCausal(net, l, Hidden(net, l, tokens, layer - 1), n,
                        Rows(net, l, tokens, a, layer - 1), Rows(net, l, tokens, b, layer - 1), layer - 1);
    }
  }

  /** The first `n` actions of a chunk depend on the first `n` rows of noise only. */
  lemma {:induction false} ActionsAreCausal<V(!new)>(
    net: Network<V>, l: Layout, tokens: seq<V>, n: nat, a: seq<V>, b: seq<V>, steps: nat)
    requires SameStart(n, a, b)
    ensures SameStart(n, Denoise(net, l, tokens, a, steps), Denoise(net, l, tokens, b, steps))
  {
    hide Rows;
    if steps > 0 {
      ActionsAreCausal(net, l, tokens, n, a, b, steps - 1);
      var x, y := Denoise(net, l, tokens, a, steps - 1), Denoise(net, l, tokens, b, steps - 1);
      RowsAreCausal(net, l, tokens, n, Suffix(net, x, steps - 1), Suffix(net, y, steps - 1), net.layers);
    }
  }
}
