/** The temporal ensemble: a bounded history in which a chunk of age `a` speaks for the present with its row `a`. */
module Ensemble {
  import opened Bytes
  import opened Reals

  /** What the client hands over as one array: an action, or a chunk of actions. */
  datatype Chunk = Vector(values: seq<real>) | Matrix(rows: seq<seq<real>>)

  /** The exponential and the Euclidean norm, of which little is asked. */
  datatype Maths = Maths(exp: real -> real, norm: seq<real> -> real) {
    ghost predicate Lawful() {
      (forall x: real :: exp(x) > 0.0) && forall v: seq<real> :: norm(v) >= 0.0
    }
  }

  /** The last `horizon` of a sequence: what a `deque(maxlen=horizon)` holds. */
  function Window<T>(s: seq<T>, horizon: nat): (r: seq<T>)
    ensures |r| == if |s| < horizon then |s| else horizon
  {
    if |s| <= horizon then s else s[|s| - horizon..]
  }

  lemma WindowStep<T>(s: seq<T>, x: T, horizon: nat)
    requires horizon > 0
    ensures Window(Window(s, horizon) + [x], horizon) == Window(s + [x], horizon)
  {
  }

  // ---------------------------------------------------------------- predictions

  /** What each chunk of the history, oldest first, predicts for the present. */
  function Prediction(history: seq<Chunk>, k: nat): Option<seq<real>>
    requires k < |history|
  {
    match history[k]
    case Vector(_) => None
    case Matrix(rows) => if |history| - 1 - k < |rows| then Some(rows[|history| - 1 - k]) else None
  }

  /** Every chunk reaches the present, with a row as wide as the newest. */
  predicate Aligned(history: seq<Chunk>) {
    && history != []
    && (forall k :: 0 <= k < |history| ==> Prediction(history, k).Some?)
    && (forall k :: 0 <= k < |history| ==> |Prediction(history, k).value| == |Prediction(history, |history| - 1).value|)
  }

  predicate SameVectors(history: seq<Chunk>) {
    && history != []
    && (forall k :: 0 <= k < |history| ==> history[k].Vector?)
    && (forall k :: 0 <= k < |history| ==> |history[k].values| == |history[|history| - 1].values|)
  }

  predicate Stackable(history: seq<Chunk>) {
    history != [] && if history[|history| - 1].Vector? then SameVectors(history) else Aligned(history)
  }

  /** The stacked predictions. */
  function Predictions(history: seq<Chunk>): (r: seq<seq<real>>)
    requires Stackable(history)
    ensures |r| == |history| && forall k :: 0 <= k < |r| ==> |r[k]| == |r[|r| - 1]|
  {
    if history[|history| - 1].Vector? then seq(|history|, k requires 0 <= k < |history| => history[k].values)
    else seq(|history|, k requires 0 <= k < |history| => Prediction(history, k).value)
  }

  // ------------------------------------------------------------------- weights

  function Times(x: real, y: real): real {
    x * y
  }

  function Dot(x: seq<real>, y: seq<real>): real
    requires |x| == |y|
  {
    if x == [] then 0.0 else Dot(x[..|x| - 1], y[..|y| - 1]) + Times(x[|x| - 1], y[|y| - 1])
  }

  function Sum(xs: seq<real>): real {
    if xs == [] then 0.0 else Sum(xs[..|xs| - 1]) + xs[|xs| - 1]
  }

  function Cosine(m: Maths, x: seq<real>, reference: seq<real>): real
    requires |x| == |reference|
  {
    var norms := m.norm(x) * m.norm(reference) + 0.0000001;
    if norms == 0.0 then 0.0 else Dot(x, reference) / norms
  }

  function Score(m: Maths, alpha: real, agreement: real): real {
    m.exp(Times(alpha, agreement))
  }

  function Scores(m: Maths, alpha: real, ps: seq<seq<real>>): (r: seq<real>)
    requires ps != [] && forall k :: 0 <= k < |ps| ==> |ps[k]| == |ps[|ps| - 1]|
    ensures |r| == |ps|
  {
    seq(|ps|, k requires 0 <= k < |ps| => Score(m, alpha, Cosine(m, ps[k], ps[|ps| - 1])))
  }

  function Weights(scores: seq<real>): (r: seq<real>)
    ensures |r| == |scores|
  {
    if Sum(scores) == 0.0 then scores else seq(|scores|, k requires 0 <= k < |scores| => scores[k] / Sum(scores))
  }

  /** Component `j` of every prediction. */
  function Column(ps: seq<seq<real>>, j: nat): (r: seq<real>)
    requires forall k :: 0 <= k < |ps| ==> j < |ps[k]|
    ensures |r| == |ps| && forall k :: 0 <= k < |r| ==> r[k] == ps[k][j]
  {
    seq(|ps|, k requires 0 <= k < |ps| => ps[k][j])
  }

  function Blend(m: Maths, alpha: real, ps: seq<seq<real>>): (r: seq<real>)
    requires ps != [] && forall k :: 0 <= k < |ps| ==> |ps[k]| == |ps[|ps| - 1]|
    ensures |r| == |ps[|ps| - 1]|
  {
    var n := |ps[|ps| - 1]|;
    seq(n, j requires 0 <= j < n => Dot(Weights(Scores(m, alpha, ps)), Column(ps, j)))
  }

  lemma {:induction false} SumPositive(xs: seq<real>)
    requires xs != [] && forall k :: 0 <= k < |xs| ==> xs[k] > 0.0
    ensures Sum(xs) > 0.0
  {
    if |xs| > 1 { SumPositive(xs[..|xs| - 1]); }
  }

  lemma {:induction false} SumOfQuotients(xs: seq<real>, qs: seq<real>, total: real)
    requires |xs| == |qs| && total > 0.0 && forall k :: 0 <= k < |xs| ==> qs[k] == xs[k] / total
    ensures Sum(qs) == Sum(xs) / total
  {
    if xs != [] {
      SumOfQuotients(xs[..|xs| - 1], qs[..|xs| - 1], total);
      AddQuotients(Sum(xs[..|xs| - 1]), xs[|xs| - 1], total);
    }
  }

  /** The weights are positive and sum to one. */
  lemma WeightsAverage(scores: seq<real>)
    requires scores != [] && forall k :: 0 <= k < |scores| ==> scores[k] > 0.0
    ensures Sum(Weights(scores)) == 1.0 && forall k :: 0 <= k < |scores| ==> Weights(scores)[k] > 0.0
  {
    SumPositive(scores);
    SumOfQuotients(scores, Weights(scores), Sum(scores));
    SelfQuotient(Sum(scores));
    forall k | 0 <= k < |scores| ensures Weights(scores)[k] > 0.0 { Positive(scores[k], Sum(scores)); }
  }

  lemma MulBetween(w: real, lo: real, x: real, hi: real)
    requires w > 0.0 && lo <= x <= hi
    ensures Times(lo, w) <= Times(w, x) <= Times(hi, w)
  {
  }

  lemma ZeroTimes(x: real)
    ensures Times(x, 0.0) == 0.0 && Times(x, 1.0) == x
  {
  }

  lemma MulAdd(x: real, s: real, w: real, t: real)
    requires t == s + w
    ensures Times(x, t) == Times(x, s) + Times(x, w)
  {
  }

  lemma {:induction false} DotBetween(ws: seq<real>, xs: seq<real>, lo: real, hi: real)
    requires |ws| == |xs| && forall k :: 0 <= k < |ws| ==> ws[k] > 0.0
    requires forall k :: 0 <= k < |xs| ==> lo <= xs[k] <= hi
    ensures Times(lo, Sum(ws)) <= Dot(ws, xs) <= Times(hi, Sum(ws))
  {
    hide Times;
    ZeroTimes(lo);
    ZeroTimes(hi);
    if ws != [] {
      var n := |ws| - 1;
      DotBetween(ws[..n], xs[..n], lo, hi);
      MulBetween(ws[n], lo, xs[n], hi);
      MulAdd(lo, Sum(ws[..n]), ws[n], Sum(ws));
      MulAdd(hi, Sum(ws[..n]), ws[n], Sum(ws));
    }
  }

  /** Each component of a blend lies among the components it was blended from. */
  lemma BlendBetween(m: Maths, alpha: real, ps: seq<seq<real>>, j: nat, lo: real, hi: real)
    requires m.Lawful() && ps != [] && forall k :: 0 <= k < |ps| ==> |ps[k]| == |ps[|ps| - 1]|
    requires j < |ps[|ps| - 1]| && forall k :: 0 <= k < |ps| ==> lo <= ps[k][j] <= hi
    ensures lo <= Blend(m, alpha, ps)[j] <= hi
  {
    var scores := Scores(m, alpha, ps);
    WeightsAverage(scores);
    ZeroTimes(lo);
    ZeroTimes(hi);
    DotBetween(Weights(scores), Column(ps, j), lo, hi);
  }

  /** A sum of products, term by term. */
  lemma {:induction false} DotIsSum(x: seq<real>, y: seq<real>, zs: seq<real>)
    requires |x| == |y| == |zs| && forall k :: 0 <= k < |x| ==> zs[k] == Times(x[k], y[k])
    ensures Dot(x, y) == Sum(zs)
  {
    hide Times;
    if x != [] {
      var n := |x| - 1;
      DotIsSum(x[..n], y[..n], zs[..n]);
    }
  }

  lemma TimesBack(x: real, z: real)
    requires z != 0.0
    ensures x / z * z == x
  {
  }

  /** The agreement of a prediction with the newest: their inner product, over that of their norms and a little more. */
  lemma CosineIs(m: Maths, x: seq<real>, newest: seq<real>)
    requires m.Lawful() && |x| == |newest|
    ensures m.norm(x) * m.norm(newest) + 0.0000001 > 0.0
    ensures Cosine(m, x, newest) * (m.norm(x) * m.norm(newest) + 0.0000001) == Dot(x, newest)
  {
    hide Dot;
    Product(m.norm(x), m.norm(newest), m.norm(x) * m.norm(newest));
    var norms := m.norm(x) * m.norm(newest) + 0.0000001;
    TimesBack(Dot(x, newest), norms);
  }

  lemma TimesIs(x: real, y: real, z: real)
    ensures z == x * y <==> z == Times(x, y)
  {
  }

  /** Each weight is its score over the total. */
  predicate AreShares(ws: seq<real>, scores: seq<real>, total: real) {
    |ws| == |scores| && forall k :: 0 <= k < |ws| ==> Times(ws[k], total) == scores[k]
  }

  lemma WeightsAreShares(scores: seq<real>)
    requires Sum(scores) != 0.0
    ensures AreShares(Weights(scores), scores, Sum(scores))
  {
    hide Sum;
    forall k | 0 <= k < |scores| ensures Times(Weights(scores)[k], Sum(scores)) == scores[k] {
      TimesBack(scores[k], Sum(scores));
    }
  }

  lemma NothingTimes(x: real)
    ensures Times(0.0, x) == 0.0
  {
  }

  lemma OneMoreTerm(sum: real, w: real, x: real, total: real)
    ensures Times(sum + Times(w, x), total) == Times(sum, total) + Times(Times(w, total), x)
  {
  }

  lemma {:induction false} DotOfShares(ws: seq<real>, scores: seq<real>, xs: seq<real>, total: real)
    requires AreShares(ws, scores, total) && |ws| == |xs|
    ensures Times(Dot(ws, xs), total) == Dot(scores, xs)
  {
    hide Times;
    if ws == [] {
      NothingTimes(total);
    } else {
      var n := |ws| - 1;
      DotOfShares(ws[..n], scores[..n], xs[..n], total);
      OneMoreTerm(Dot(ws[..n], xs[..n]), ws[n], xs[n], total);
    }
  }

  lemma ScoreAt(m: Maths, alpha: real, ps: seq<seq<real>>, k: nat, scaled: real)
    requires m.Lawful() && k < |ps| && forall k :: 0 <= k < |ps| ==> |ps[k]| == |ps[|ps| - 1]|
    requires scaled == Times(alpha, Cosine(m, ps[k], ps[|ps| - 1]))
    ensures Scores(m, alpha, ps)[k] == m.exp(scaled) && Scores(m, alpha, ps)[k] > 0.0
  {
    hide Cosine, Times;
    assert Scores(m, alpha, ps)[k] == Score(m, alpha, Cosine(m, ps[k], ps[|ps| - 1]));
  }

  lemma ScoresPositive(m: Maths, alpha: real, ps: seq<seq<real>>)
    requires m.Lawful() && ps != [] && forall k :: 0 <= k < |ps| ==> |ps[k]| == |ps[|ps| - 1]|
    ensures Sum(Scores(m, alpha, ps)) > 0.0
  {
    hide Cosine, Scores, Sum, Times;
    forall k | 0 <= k < |ps| ensures Scores(m, alpha, ps)[k] > 0.0 {
      ScoreAt(m, alpha, ps, k, Times(alpha, Cosine(m, ps[k], ps[|ps| - 1])));
    }
    SumPositive(Scores(m, alpha, ps));
  }

  lemma MeanOfWeights(scores: seq<real>, xs: seq<real>, terms: seq<real>)
    requires |scores| == |xs| == |terms| && Sum(scores) > 0.0
    requires forall k :: 0 <= k < |xs| ==> terms[k] == Times(scores[k], xs[k])
    ensures Dot(Weights(scores), xs) * Sum(scores) == Sum(terms)
  {
    hide Dot, Sum, Times, Weights, AreShares;
    WeightsAreShares(scores);
    DotOfShares(Weights(scores), scores, xs, Sum(scores));
    DotIsSum(scores, xs, terms);
    TimesIs(Dot(Weights(scores), xs), Sum(scores), Sum(terms));
  }

  lemma BlendAt(m: Maths, alpha: real, ps: seq<seq<real>>, j: nat)
    requires ps != [] && forall k :: 0 <= k < |ps| ==> |ps[k]| == |ps[|ps| - 1]|
    requires j < |ps[|ps| - 1]|
    ensures Blend(m, alpha, ps)[j] == Dot(Weights(Scores(m, alpha, ps)), Column(ps, j))
  {
    hide Dot, Weights, Scores, Column;
  }

  /** A prediction scores the exponential of alpha times its agreement with the newest. */
  lemma ScoresAre(m: Maths, alpha: real, ps: seq<seq<real>>, scaled: seq<real>, scores: seq<real>)
    requires m.Lawful() && ps != [] && forall k :: 0 <= k < |ps| ==> |ps[k]| == |ps[|ps| - 1]|
    requires |scaled| == |scores| == |ps|
    requires forall k :: 0 <= k < |ps| ==> scaled[k] == Times(alpha, Cosine(m, ps[k], ps[|ps| - 1]))
    requires forall k :: 0 <= k < |ps| ==> scores[k] == m.exp(scaled[k])
    ensures Scores(m, alpha, ps) == scores
  {
    hide Cosine, Scores, Times;
    forall k | 0 <= k < |ps| ensures scores[k] == Scores(m, alpha, ps)[k] {
      ScoreAt(m, alpha, ps, k, scaled[k]);
    }
  }

  /** A blended component is the mean of the components blended, each weighted by its score. */
  lemma BlendIs(m: Maths, alpha: real, ps: seq<seq<real>>, j: nat, scaled: seq<real>, scores: seq<real>,
                terms: seq<real>)
    requires m.Lawful() && ps != [] && forall k :: 0 <= k < |ps| ==> |ps[k]| == |ps[|ps| - 1]|
    requires j < |ps[|ps| - 1]| && |scaled| == |scores| == |terms| == |ps|
    requires forall k :: 0 <= k < |ps| ==> scaled[k] == Times(alpha, Cosine(m, ps[k], ps[|ps| - 1]))
    requires forall k :: 0 <= k < |ps| ==> scores[k] == m.exp(scaled[k])
    requires forall k :: 0 <= k < |ps| ==> terms[k] == Times(scores[k], ps[k][j])
    ensures Sum(scores) > 0.0 && Blend(m, alpha, ps)[j] * Sum(scores) == Sum(terms)
  {
    hide Blend, Cosine, Column, Dot, Sum, Scores, Weights, Times;
    ScoresAre(m, alpha, ps, scaled, scores);
    ScoresPositive(m, alpha, ps);
    BlendAt(m, alpha, ps, j);
    MeanOfWeights(scores, Column(ps, j), terms);
  }

  lemma GrowingBothWays(m: Maths, x: real, y: real)
    requires forall x: real, y: real :: x < y ==> m.exp(x) < m.exp(y)
    ensures x < y <==> m.exp(x) < m.exp(y)
  {
  }

  lemma LessTimes(x: real, y: real, z: real)
    requires z > 0.0
    ensures x < y <==> x * z < y * z
  {
    if x < y { StrictProduct(y - x, z, (y - x) * z); }
    if x > y { StrictProduct(x - y, z, (x - y) * z); }
  }

  lemma WeightsKeepOrder(scores: seq<real>, i: nat, k: nat)
    requires i < |scores| && k < |scores| && Sum(scores) > 0.0
    ensures Weights(scores)[i] < Weights(scores)[k] <==> scores[i] < scores[k]
  {
    hide Sum;
    LessTimes(scores[i] / Sum(scores), scores[k] / Sum(scores), Sum(scores));
    TimesBack(scores[i], Sum(scores));
    TimesBack(scores[k], Sum(scores));
  }

  lemma LessScaled(x: real, y: real, z: real)
    requires z > 0.0
    ensures x < y <==> Times(z, x) < Times(z, y)
  {
    LessTimes(x, y, z);
  }

  /** With a growing exponential and a positive alpha, the prediction that agrees more weighs more. */
  lemma AgreementWeighsMore(m: Maths, alpha: real, ps: seq<seq<real>>, i: nat, k: nat)
    requires m.Lawful() && ps != [] && forall k :: 0 <= k < |ps| ==> |ps[k]| == |ps[|ps| - 1]|
    requires alpha > 0.0 && forall x: real, y: real :: x < y ==> m.exp(x) < m.exp(y)
    requires i < |ps| && k < |ps|
    ensures Cosine(m, ps[i], ps[|ps| - 1]) < Cosine(m, ps[k], ps[|ps| - 1])
       <==> Weights(Scores(m, alpha, ps))[i] < Weights(Scores(m, alpha, ps))[k]
  {
    hide Cosine, Sum, Scores, Weights, Times;
    var a, b := Cosine(m, ps[i], ps[|ps| - 1]), Cosine(m, ps[k], ps[|ps| - 1]);
    ScoreAt(m, alpha, ps, i, Times(alpha, a));
    ScoreAt(m, alpha, ps, k, Times(alpha, b));
    LessScaled(a, b, alpha);
    GrowingBothWays(m, Times(alpha, a), Times(alpha, b));
    ScoresPositive(m, alpha, ps);
    WeightsKeepOrder(Scores(m, alpha, ps), i, k);
  }

  // ------------------------------------------------------------------ ensembler

  /** Only the newest chunk is checked for length. */
  predicate LongEnough(history: seq<Chunk>, chunk: Chunk, horizon: nat) {
    chunk.Matrix? ==> |chunk.rows| >= if |history| + 1 < horizon then |history| + 1 else horizon
  }

  class AdaptiveEnsembler {
    const horizon: nat
    const alpha: real
    const maths: Maths
    var history: seq<Chunk>

    constructor (horizon: nat, alpha: real, maths: Maths)
      requires horizon > 0
      ensures this.horizon == horizon && this.alpha == alpha && this.maths == maths && history == []
    {
      this.horizon, this.alpha, this.maths, history := horizon, alpha, maths, [];
    }

    method Reset()
      modifies this
      ensures history == []
    {
      history := [];
    }

    /** None where the program raises; by then the chunk may already be in the history. */
    method EnsembleAction(chunk: Chunk) returns (r: Option<seq<real>>)
      requires horizon > 0
      modifies this
      ensures history
        == if LongEnough(old(history), chunk, horizon) then Window(old(history) + [chunk], horizon) else old(history)
      ensures r.Some? <==> LongEnough(old(history), chunk, horizon) && Stackable(history)
      ensures r.Some? ==> r.value == Blend(maths, alpha, Predictions(history))
    {
      if !LongEnough(history, chunk, horizon) { return None; }
      history := history + [chunk];
      if |history| > horizon {
        history := history[|history| - horizon..];
      }
      if !Stackable(history) { return None; }
      r := Some(Blend(maths, alpha, Predictions(history)));
    }
  }

  /** The chunk that came `age` steps before the newest. */
  function OfAge(history: seq<Chunk>, age: nat): Chunk
    requires age < |history|
  {
    history[|history| - 1 - age]
  }

  predicate Reaches(history: seq<Chunk>, age: nat)
    requires age < |history|
  {
    OfAge(history, age).Matrix? && age < |OfAge(history, age).rows|
  }

  lemma ReachesMeans(history: seq<Chunk>, age: nat)
    requires age < |history|
    ensures Reaches(history, age) <==> Prediction(history, |history| - 1 - age).Some?
    ensures Reaches(history, age) ==> Prediction(history, |history| - 1 - age) == Some(OfAge(history, age).rows[age])
  {
  }

  /** A chunk of age `a` speaks with its row `a`; chunks of one width are stacked exactly when each has that row. */
  lemma AlignedMeans(history: seq<Chunk>, width: nat)
    requires history != [] && forall k :: 0 <= k < |history| ==> history[k].Matrix?
    requires forall k, i :: 0 <= k < |history| && 0 <= i < |history[k].rows| ==> |history[k].rows[i]| == width
    ensures Stackable(history) <==> forall age: nat :: age < |history| ==> Reaches(history, age)
    ensures Stackable(history) ==> forall age: nat :: age < |history| ==>
      Reaches(history, age) && Predictions(history)[|history| - 1 - age] == OfAge(history, age).rows[age]
  {
    forall age: nat | age < |history|
      ensures Reaches(history, age) <==> Prediction(history, |history| - 1 - age).Some?
      ensures Reaches(history, age) ==> Prediction(history, |history| - 1 - age) == Some(OfAge(history, age).rows[age])
    {
      ReachesMeans(history, age);
    }
    forall k | 0 <= k < |history| ensures Prediction(history, k).Some? <==> Reaches(history, |history| - 1 - k) {
      ReachesMeans(history, |history| - 1 - k);
    }
  }

  /** The ensembler's own check is not enough: a one-row chunk followed by a two-row chunk passes it and fails. */
  lemma NewestCheckIsNotEnough(row: seq<real>)
    ensures var short, long := Matrix([row]), Matrix([row, row]);
      LongEnough([], short, 2) && Stackable([short]) && LongEnough([short], long, 2) && !Stackable([short, long])
  {
    var history := [Matrix([row]), Matrix([row, row])];
    assert Prediction([Matrix([row])], 0).Some?;
    assert Prediction(history, 0).None?;
  }

  // --------------------------------------------------------------------- policy

  /** What the server answers: the shape on the wire, the matrix decoded from it, and whether all of it is finite. */
  datatype Response = Response(chunkSize: int, actionDim: int, actions: seq<seq<real>>, width: nat, finite: bool) {
    predicate Decoded() {
      forall i :: 0 <= i < |actions| ==> |actions[i]| == width
    }
  }

  const ACTION_DIM: nat := 7

  /** `_validate_response_actions`, before it records the shape. */
  predicate Acceptable(r: Response, horizon: nat, shape: Option<(int, int)>) {
    && r.chunkSize > 0 && r.actionDim > 0
    && |r.actions| == r.chunkSize && r.width == r.actionDim && r.finite
    && r.actionDim == ACTION_DIM
    && r.chunkSize >= horizon
    && (shape.Some? ==> shape.value == (r.chunkSize, r.actionDim))
  }

  ghost predicate OfShape(c: Chunk, horizon: nat, shape: Option<(int, int)>) {
    && c.Matrix? && shape.Some? && |c.rows| == shape.value.0 >= horizon
    && forall i :: 0 <= i < |c.rows| ==> |c.rows[i]| == ACTION_DIM
  }

  /** Chunks of one shape, at least as long as the horizon. */
  ghost predicate Uniform(chunks: seq<Chunk>, horizon: nat, shape: Option<(int, int)>) {
    forall k :: 0 <= k < |chunks| ==> OfShape(chunks[k], horizon, shape)
  }

  /** Validated chunks are always long enough for each other. */
  lemma UniformIsAligned(history: seq<Chunk>, horizon: nat, shape: Option<(int, int)>)
    requires 0 < |history| <= horizon && Uniform(history, horizon, shape)
    ensures Stackable(history) && forall age: nat :: age < |history| ==>
      Reaches(history, age) && Predictions(history)[|history| - 1 - age] == OfAge(history, age).rows[age]
  {
    forall k | 0 <= k < |history|
      ensures history[k].Matrix? && forall i :: 0 <= i < |history[k].rows| ==> |history[k].rows[i]| == ACTION_DIM
    {
      assert OfShape(history[k], horizon, shape);
    }
    AlignedMeans(history, ACTION_DIM);
    forall age: nat | age < |history| ensures Reaches(history, age) {
      assert OfShape(OfAge(history, age), horizon, shape);
    }
  }

  lemma UniformWindow(chunks: seq<Chunk>, horizon: nat, shape: Option<(int, int)>)
    requires Uniform(chunks, horizon, shape)
    ensures Uniform(Window(chunks, horizon), horizon, shape)
  {
    hide OfShape;
    var window := Window(chunks, horizon);
    forall k | 0 <= k < |window| ensures OfShape(window[k], horizon, shape) {
      assert window[k] == chunks[|chunks| - |window| + k];
    }
  }

  lemma WindowSize(s: seq<Chunk>, horizon: nat)
    requires s != [] && horizon > 0
    ensures 0 < |Window(s, horizon)| <= horizon && |Window(s, horizon)| <= |s|
    ensures |Window(s, horizon)| == if |s| < horizon then |s| else horizon
  {
  }

  lemma LastIsUniform(chunks: seq<Chunk>, chunk: Chunk, horizon: nat, shape: Option<(int, int)>)
    requires Uniform(chunks + [chunk], horizon, shape)
    ensures Uniform([chunk], horizon, shape)
  {
    assert (chunks + [chunk])[|chunks|] == chunk;
  }

  lemma FitsHorizon(history: seq<Chunk>, chunk: Chunk, horizon: nat, shape: Option<(int, int)>)
    requires Uniform([chunk], horizon, shape)
    ensures LongEnough(history, chunk, horizon)
  {
    assert OfShape([chunk][0], horizon, shape);
  }

  class Policy {
    const ensembler: AdaptiveEnsembler?
    var task: Option<string>
    var shape: Option<(int, int)>
    /** The chunks accepted since the last reset. */
    ghost var since: seq<Chunk>

    function Horizon(): nat {
      if ensembler == null then 0 else ensembler.horizon
    }

    ghost predicate Valid()
      reads this, ensembler
    {
      ensembler != null ==>
        && ensembler.horizon > 0 && ensembler.history == Window(since, ensembler.horizon)
        && Uniform(since, ensembler.horizon, shape)
    }

    constructor (ensembler: AdaptiveEnsembler?)
      requires ensembler != null ==> ensembler.horizon > 0 && ensembler.history == []
      ensures this.ensembler == ensembler && Valid() && since == [] && task == None && shape == None
    {
      this.ensembler, task, shape, since := ensembler, None, None, [];
    }

    method Reset(description: Option<string>)
      requires Valid()
      modifies this, ensembler
      ensures Valid() && since == [] && task == description && shape == old(shape)
    {
      task := description;
      if ensembler != null {
        ensembler.Reset();
      }
      since := [];
    }

    /** The ensembler's part of a step; never raises on a chunk that was accepted. */
    method Combine(chunk: Chunk) returns (r: Option<seq<real>>)
      requires ensembler != null && ensembler.horizon > 0 && ensembler.history == Window(since, ensembler.horizon)
      requires Uniform(since + [chunk], ensembler.horizon, shape)
      modifies this`since, ensembler
      ensures Valid() && since == old(since) + [chunk] && r.Some? && Stackable(ensembler.history)
      ensures r.value == Blend(ensembler.maths, ensembler.alpha, Predictions(ensembler.history))
    {
      hide Blend, Predictions, Stackable, Uniform, Window;
      WindowStep(since, chunk, ensembler.horizon);
      since := since + [chunk];
      ghost var history := Window(since, ensembler.horizon);
      UniformWindow(since, ensembler.horizon, shape);
      WindowSize(since, ensembler.horizon);
      UniformIsAligned(history, ensembler.horizon, shape);
      assert Uniform([chunk], ensembler.horizon, shape) by {
        LastIsUniform(old(since), chunk, ensembler.horizon, shape);
      }
      FitsHorizon(ensembler.history, chunk, ensembler.horizon, shape);
      r := ensembler.EnsembleAction(chunk);
    }

    /**
      * One control step; `reply` is what the server answers, if it answers. None is an exception, and the only ones are
      * a missing task, a missing reply and a refused reply.
      */
    method Step(description: Option<string>, reply: Option<Response>) returns (r: Option<seq<real>>)
      requires Valid() && (reply.Some? ==> reply.value.Decoded())
      modifies this, ensembler
      ensures Valid()
      ensures task == if description.Some? then description else old(task)
      ensures var start := if description.Some? && description != old(task) then [] else old(since);
        && (r.Some? <==> task.Some? && reply.Some? && Acceptable(reply.value, Horizon(), old(shape)))
        && since == if r.Some? then start + [Matrix(reply.value.actions)] else start
      ensures shape == if r.Some? then Some((reply.value.chunkSize, reply.value.actionDim)) else old(shape)
      ensures r.Some? && ensembler == null ==> r.value == reply.value.actions[0]
      ensures r.Some? && ensembler != null ==>
        && Stackable(ensembler.history)
        && r.value == Blend(ensembler.maths, ensembler.alpha, Predictions(ensembler.history))
    {
      hide Blend, Predictions, Stackable;
      if description.Some? && description != task {
        Reset(description);
      }
      if task.None? { return None; }
      if reply.None? || !Acceptable(reply.value, Horizon(), shape) { return None; }
      var chunk := Matrix(reply.value.actions);
      shape := Some((reply.value.chunkSize, reply.value.actionDim));
      assert OfShape(chunk, Horizon(), shape);
      assert ensembler != null ==> Uniform(since + [chunk], ensembler.horizon, shape);
      if ensembler == null {
        since := since + [chunk];
        return Some(reply.value.actions[0]);
      }
      r := Combine(chunk);
    }
  }

  /** Where this chunk has a row of this age, component `j` of it is between the two. */
  predicate Between(c: Chunk, age: nat, j: nat, lo: real, hi: real) {
    c.Matrix? && age < |c.rows| && j < |c.rows[age]| ==> lo <= c.rows[age][j] <= hi
  }

  /** What the chunk of age `age` contributes is its row `age`, as wide as an action. */
  lemma ContributionBetween(since: seq<Chunk>, horizon: nat, shape: Option<(int, int)>, age: nat, j: nat,
                            lo: real, hi: real)
    requires Uniform(since, horizon, shape) && horizon > 0 && age < |Window(since, horizon)| && j < ACTION_DIM
    requires Between(OfAge(since, age), age, j, lo, hi)
    ensures var c := OfAge(Window(since, horizon), age);
      c.Matrix? && age < |c.rows| && |c.rows[age]| == ACTION_DIM && lo <= c.rows[age][j] <= hi
  {
    assert OfAge(Window(since, horizon), age) == OfAge(since, age);
    assert OfShape(OfAge(since, age), horizon, shape);
  }

  /**
    * After any run: the history holds the last chunks since the reset, the one of age `a` contributes its row `a`, and
    * every component of the action lies among the components contributed.
    */
  lemma StepBlendsThePresent(p: Policy, j: nat, lo: real, hi: real)
    requires p.Valid() && p.ensembler != null && p.since != [] && p.ensembler.maths.Lawful() && j < ACTION_DIM
    requires forall age: nat :: age < |p.since| && age < p.Horizon() ==> Between(OfAge(p.since, age), age, j, lo, hi)
    ensures Stackable(p.ensembler.history)
    ensures |p.ensembler.history| == if |p.since| < p.Horizon() then |p.since| else p.Horizon()
    ensures |Blend(p.ensembler.maths, p.ensembler.alpha, Predictions(p.ensembler.history))| == ACTION_DIM
    ensures lo <= Blend(p.ensembler.maths, p.ensembler.alpha, Predictions(p.ensembler.history))[j] <= hi
  {
    hide Stackable, Predictions, Uniform, Window, Blend;
    var history := p.ensembler.history;
    WindowSize(p.since, p.Horizon());
    UniformWindow(p.since, p.Horizon(), p.shape);
    UniformIsAligned(history, p.Horizon(), p.shape);
    var ps := Predictions(history);
    forall k | 0 <= k < |ps| ensures |ps[k]| == ACTION_DIM && lo <= ps[k][j] <= hi {
      ContributionBetween(p.since, p.Horizon(), p.shape, |history| - 1 - k, j, lo, hi);
    }
    BlendBetween(p.ensembler.maths, p.ensembler.alpha, ps, j, lo, hi);
  }
}
