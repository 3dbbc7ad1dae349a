/** What attention shows, exactly: networks that report one value they are shown, and what reaches what. */
module Causality {
  import opened AttentionMasks
  import opened PrefixFlow

  // ------------------------------------------------------------------ listeners

  function ShownAt(shown: map<nat, nat>, key: nat): nat {
    if key in shown then shown[key] else 0
  }

  /** One layer, in which every action becomes what attention shows it of action `k`: zero when it shows nothing. */
  function ActionListener(k: nat, cross: bool, chunk: nat): Network<nat> {
    Network((layer: nat, i: nat, own: nat, seen: map<nat, nat>) => own,
            (layer: nat) => cross,
            (step: nat, q: nat, own: nat) => own,
            (layer: nat, q: nat, own: nat, prefix: map<nat, nat>, actions: map<nat, nat>) => ShownAt(actions, k),
            (step: nat, q: nat, own: nat, out: nat) => out,
            1, chunk)
  }

  /** The same for prefix token `j`. */
  function PrefixListener(j: nat, cross: bool, chunk: nat): Network<nat> {
    Network((layer: nat, i: nat, own: nat, seen: map<nat, nat>) => own,
            (layer: nat) => cross,
            (step: nat, q: nat, own: nat) => own,
            (layer: nat, q: nat, own: nat, prefix: map<nat, nat>, actions: map<nat, nat>) => ShownAt(prefix, j),
            (step: nat, q: nat, own: nat, out: nat) => out,
            1, chunk)
  }

  /** One layer, in which every prefix token becomes what it sees of token `j`. */
  function TokenListener(j: nat): Network<nat> {
    Network((layer: nat, i: nat, own: nat, seen: map<nat, nat>) => ShownAt(seen, j),
            (layer: nat) => false,
            (step: nat, q: nat, own: nat) => own,
            (layer: nat, q: nat, own: nat, prefix: map<nat, nat>, actions: map<nat, nat>) => own,
            (step: nat, q: nat, own: nat, out: nat) => out,
            1, 0)
  }

  lemma OneLayer(net: Network<nat>, l: Layout, tokens: seq<nat>, rows: seq<nat>)
    ensures Rows(net, l, tokens, rows, 1) == NextRows(net, l, tokens, rows, 0)
    ensures Hidden(net, l, tokens, 1) == NextHidden(net, l, tokens, 0)
  {
    assert Hidden(net, l, tokens, 0) == tokens && Rows(net, l, tokens, rows, 0) == rows;
  }

  lemma OneStep(net: Network<nat>, l: Layout, tokens: seq<nat>, noise: seq<nat>, q: nat)
    requires net.layers == 1 && q < |noise|
    requires forall step: nat, q: nat, own: nat :: net.embed(step, q, own) == own
    requires forall step: nat, q: nat, own: nat, out: nat :: net.update(step, q, own, out) == out
    ensures Denoise(net, l, tokens, noise, 1)[q] == NextRows(net, l, tokens, noise, 0)[q]
  {
    OneLayer(net, l, tokens, noise);
    assert Denoise(net, l, tokens, noise, 0) == noise;
    assert Suffix(net, noise, 0) == noise;
  }

  /** Self attention shows action `q` the actions up to and including itself; cross attention shows it none. */
  lemma ListensToActions(l: Layout, tokens: seq<nat>, noise: seq<nat>, q: nat, k: nat, cross: bool)
    requires q < |noise| && k < |noise|
    ensures Denoise(ActionListener(k, cross, |noise|), l, tokens, noise, 1)[q]
         == if !cross && k <= q then noise[k] else 0
  {
    var net := ActionListener(k, cross, |noise|);
    OneStep(net, l, tokens, noise, q);
    hide Denoise, Rows, Layout.Mask;
    var shown := SeenActions(l.Mask(), noise, q, cross);
    assert SelfSees(l.Mask(), q, |l.Mask()| + k) <==> k <= q;
    assert k in shown <==> !cross && k <= q;
  }

  /** Either attention shows an action every token of the image, of the instruction and of the state, and no padding. */
  lemma ListensToPrefix(l: Layout, tokens: seq<nat>, noise: seq<nat>, q: nat, j: nat, cross: bool)
    requires l.Sound() && |tokens| == l.Total() && q < |noise| && j < |tokens|
    ensures Denoise(PrefixListener(j, cross, |noise|), l, tokens, noise, 1)[q]
         == if l.vision + l.raw <= j < l.vision + l.task then 0 else tokens[j]
  {
    var net := PrefixListener(j, cross, |noise|);
    OneStep(net, l, tokens, noise, q);
    hide Denoise, Rows;
    var shown := SeenPrefix(l.Mask(), tokens, q, cross);
    MaskMeans(l, j);
    var valid := l.Mask();
    assert j < |valid| && CrossSees(valid, j) == SelfSees(valid, q, j) == valid[j];
    hide Layout.Mask, CrossSees, SelfSees;
    assert j in shown <==> valid[j];
  }

  /** Padding is shown padding; the other tokens are shown each other, but the last only to itself. */
  lemma ListensToTokens(l: Layout, tokens: seq<nat>, i: nat, j: nat)
    requires l.Sound() && |tokens| == l.Total() && i < |tokens| && j < |tokens|
    ensures var pad := (n: int) => l.vision + l.raw <= n < l.vision + l.task;
      Hidden(TokenListener(j), l, tokens, 1)[i]
      == if (if pad(i) then pad(j) else !pad(j) && (i + 1 == l.Total() || j + 1 < l.Total())) then tokens[j] else 0
  {
    var net := TokenListener(j);
    OneLayer(net, l, tokens, []);
    hide Hidden;
    VisibilityIs(l, i, j);
    assert j in Seen(l, tokens, i) <==> l.Sees(i, j);
  }

  // ------------------------------------------------------------------ tightness

  /** `a` and `b` are alike but for their element `k`. */
  ghost predicate DifferAt(a: seq<nat>, b: seq<nat>, k: nat) {
    |a| == |b| && k < |a| && a[k] != b[k] && forall i :: 0 <= i < |a| && i != k ==> a[i] == b[i]
  }

  function Zeros(n: nat): (s: seq<nat>)
    ensures |s| == n && forall i :: 0 <= i < n ==> s[i] == 0
  {
    seq(n, i => 0)
  }

  /** Some network, in some number of steps, carries a change of noise row `k` to action `q`. */
  ghost predicate RowReaches(l: Layout, tokens: seq<nat>, chunk: nat, k: nat, q: nat)
    requires q < chunk
  {
    exists net: Network<nat>, a: seq<nat>, b: seq<nat>, steps: nat ::
      && |a| == chunk && DifferAt(a, b, k)
      && Denoise(net, l, tokens, a, steps)[q] != Denoise(net, l, tokens, b, steps)[q]
  }

  /** Causality is tight: a row of noise can reach its own action and every later one, and reaches no earlier one. */
  lemma CausalityIsTight(l: Layout, tokens: seq<nat>, chunk: nat, k: nat, q: nat)
    requires k < chunk && q < chunk
    ensures RowReaches(l, tokens, chunk, k, q) <==> k <= q
  {
    hide Denoise;
    if k <= q {
      var a, b := Zeros(chunk), Zeros(chunk)[k := 1];
      ListensToActions(l, tokens, a, q, k, false);
      ListensToActions(l, tokens, b, q, k, false);
      assert DifferAt(a, b, k);
    } else {
      forall net: Network<nat>, a: seq<nat>, b: seq<nat>, steps: nat | |a| == chunk && DifferAt(a, b, k)
        ensures Denoise(net, l, tokens, a, steps)[q] == Denoise(net, l, tokens, b, steps)[q]
      {
        ActionsAreCausal(net, l, tokens, q + 1, a, b, steps);
      }
    }
  }

  /** Some network carries a change of prefix token `j` to action `q`. */
  ghost predicate TokenReaches(l: Layout, chunk: nat, j: nat, q: nat)
    requires q < chunk
  {
    exists net: Network<nat>, a: seq<nat>, b: seq<nat>, noise: seq<nat>, steps: nat ::
      && |a| == l.Total() && DifferAt(a, b, j) && |noise| == chunk
      && Denoise(net, l, a, noise, steps)[q] != Denoise(net, l, b, noise, steps)[q]
  }

  /** Every token but the padding can reach every action, and padding reaches none. */
  lemma PrefixIsTight(l: Layout, chunk: nat, j: nat, q: nat)
    requires l.Sound() && j < l.Total() && q < chunk
    ensures TokenReaches(l, chunk, j, q) <==> !(l.vision + l.raw <= j < l.vision + l.task)
  {
    hide Denoise;
    if !(l.vision + l.raw <= j < l.vision + l.task) {
      var a, b, noise := Zeros(l.Total()), Zeros(l.Total())[j := 1], Zeros(chunk);
      ListensToPrefix(l, a, noise, q, j, false);
      ListensToPrefix(l, b, noise, q, j, false);
      assert DifferAt(a, b, j);
    } else {
      forall net: Network<nat>, a: seq<nat>, b: seq<nat>, noise: seq<nat>, steps: nat
        | |a| == l.Total() && DifferAt(a, b, j) && |noise| == chunk
        ensures Denoise(net, l, a, noise, steps)[q] == Denoise(net, l, b, noise, steps)[q]
      {
        PadsNeverReachActions(net, l, a, b, noise, steps);
      }
    }
  }
}
