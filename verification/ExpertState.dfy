/** What the action expert keeps between predictions: tensors with identity, three caches, and their invariants. */
module ExpertState {
  import opened Bytes
  import opened AttentionMasks
  import opened PrefixFlow
  import Arith

  /** A tensor handle; `NULL` for none. */
  type Id = nat

  const NULL: Id := 0

  datatype Name = PrefixK(layer: nat) | PrefixV(layer: nat)
                | SelfPos | CrossPos | SelfBias | CrossBias
                | StepId(step: nat) | Input | Output

  /** The context a tensor is created in; freeing the context ends its life. */
  datatype Home = KvContext | AttentionContext | StepContext | GraphContext

  function HomeOf(name: Name): Home {
    match name
    case PrefixK(_) | PrefixV(_) => KvContext
    case SelfPos | CrossPos | SelfBias | CrossBias => AttentionContext
    case StepId(_) => StepContext
    case Input | Output => GraphContext
  }

  datatype Tensor = Tensor(name: Name, data: seq<nat>)

  /** The live tensors. */
  type Heap = map<Id, Tensor>

  function Without(heap: Heap, home: Home): Heap {
    map id | id in heap && HomeOf(heap[id].name) != home :: heap[id]
  }

  datatype Kv = Kv(prefixLen: int, context: bool, buffer: bool, k: seq<Id>, v: seq<Id>)

  datatype Attention = Attention(prefixLen: int, prepared: bool, context: bool, buffer: bool,
                                 selfPos: Id, crossPos: Id, selfBias: Id, crossBias: Id)

  /** What the graph captured when it was built. */
  datatype Graph = Graph(prefixLen: int, k: seq<Id>, v: seq<Id>, selfPos: Id, crossPos: Id, selfBias: Id, crossBias: Id,
                         stepIds: seq<Id>, input: Id, output: Id)

  datatype Denoise = Denoise(prefixLen: int, ready: bool, stepContext: bool, graphContext: bool, buffer: bool,
                             stepIds: seq<Id>, input: Id, output: Id, graph: Option<Graph>)

  const NO_KV := Kv(-1, false, false, [], [])
  const NO_ATTENTION := Attention(-1, false, false, false, NULL, NULL, NULL, NULL)
  const NO_DENOISE := Denoise(-1, false, false, false, false, [], NULL, NULL, None)

  /** Everything a graph reads when it runs. */
  datatype Inputs = Inputs(prefixLen: int, k: seq<seq<nat>>, v: seq<seq<nat>>,
                           selfPos: seq<nat>, crossPos: seq<nat>, selfBias: seq<nat>, crossBias: seq<nat>,
                           steps: seq<seq<nat>>, actions: seq<nat>)

  /** `widen` converts an element of the language model's cache; `kernel` is whatever the graph computes. */
  datatype Config = Config(cross: seq<bool>, llmDim: nat, expertDim: nat, chunk: nat, steps: nat, actions: nat,
                           pad: nat, nCtx: nat, widen: nat -> nat, kernel: Inputs -> seq<nat>) {
    predicate Sound() {
      llmDim > 0 && expertDim > 0 && chunk > 0 && steps > 0 && pad > 0
    }

    function Dim(layer: nat): nat
      requires layer < |cross|
    {
      if cross[layer] then llmDim else expertDim
    }

    function KvSize(layer: nat, n: nat): nat
      requires layer < |cross|
    {
      Dim(layer) * n
    }

    function SelfSize(n: nat): nat
      requires Sound()
    {
      PadTo(chunk, pad) * (n + chunk)
    }

    function CrossSize(n: nat): nat
      requires Sound()
    {
      PadTo(chunk, pad) * n
    }
  }

  // ---------------------------------------------------------------- invariants

  /** The handle that holds the tensor of this name. */
  function Slot(kv: Kv, a: Attention, d: Denoise, name: Name): Id {
    match name
    case PrefixK(i) => if i < |kv.k| then kv.k[i] else NULL
    case PrefixV(i) => if i < |kv.v| then kv.v[i] else NULL
    case SelfPos => a.selfPos
    case CrossPos => a.crossPos
    case SelfBias => a.selfBias
    case CrossBias => a.crossBias
    case StepId(i) => if i < |d.stepIds| then d.stepIds[i] else NULL
    case Input => d.input
    case Output => d.output
  }

  /** The attention record with one of its handles set. */
  function Holding(a: Attention, name: Name, id: Id): Attention
    requires HomeOf(name) == AttentionContext
  {
    match name
    case SelfPos => a.(selfPos := id)
    case CrossPos => a.(crossPos := id)
    case SelfBias => a.(selfBias := id)
    case CrossBias => a.(crossBias := id)
  }

  /** Nothing leaks: every live tensor is held by the handle of its own name. */
  ghost predicate Owned(heap: Heap, nextId: Id, kv: Kv, a: Attention, d: Denoise) {
    nextId > NULL && forall id :: id in heap ==> NULL < id < nextId && Slot(kv, a, d, heap[id].name) == id
  }

  /** Nothing dangles: a live tensor of this name and size. */
  predicate Has(heap: Heap, id: Id, name: Name, size: nat) {
    id in heap && heap[id].name == name && |heap[id].data| == size
  }

  predicate KvFull(c: Config, heap: Heap, kv: Kv) {
    && kv.context && kv.buffer && kv.prefixLen > 0 && |kv.k| == |kv.v| == |c.cross|
    && (forall i: nat :: i < |c.cross| ==> Has(heap, kv.k[i], PrefixK(i), c.KvSize(i, kv.prefixLen)))
    && (forall i: nat :: i < |c.cross| ==> Has(heap, kv.v[i], PrefixV(i), c.KvSize(i, kv.prefixLen)))
  }

  predicate KvOk(c: Config, heap: Heap, kv: Kv) {
    kv == NO_KV || KvFull(c, heap, kv)
  }

  predicate AttentionFull(c: Config, heap: Heap, a: Attention)
    requires c.Sound()
  {
    && a.context && a.buffer && a.prefixLen > 0
    && Has(heap, a.selfPos, SelfPos, c.chunk) && Has(heap, a.crossPos, CrossPos, c.chunk)
    && Has(heap, a.selfBias, SelfBias, c.SelfSize(a.prefixLen))
    && Has(heap, a.crossBias, CrossBias, c.CrossSize(a.prefixLen))
  }

  /** Positions and masks hold what this valid mask asks for. */
  predicate Filled(c: Config, heap: Heap, a: Attention, mask: seq<bool>)
    requires c.Sound() && AttentionFull(c, heap, a)
  {
    && |mask| == a.prefixLen
    && heap[a.selfPos].data == SelfPositions(mask, c.chunk)
    && heap[a.crossPos].data == CrossPositions(c.chunk)
    && heap[a.selfBias].data == SelfMask(mask, c.chunk, PadTo(c.chunk, c.pad))
    && heap[a.crossBias].data == CrossMask(mask, c.chunk, PadTo(c.chunk, c.pad))
  }

  lemma SizesOf(c: Config, mask: seq<bool>)
    requires c.Sound() && |mask| > 0
    ensures |SelfPositions(mask, c.chunk)| == |CrossPositions(c.chunk)| == c.chunk
    ensures |SelfMask(mask, c.chunk, PadTo(c.chunk, c.pad))| == c.SelfSize(|mask|)
    ensures |CrossMask(mask, c.chunk, PadTo(c.chunk, c.pad))| == c.CrossSize(|mask|)
  {
  }

  /** Right after loading there is a context and nothing else. */
  predicate AttentionEmpty(a: Attention) {
    a.(context := false) == NO_ATTENTION
  }

  predicate AttentionOk(c: Config, heap: Heap, a: Attention, mask: seq<bool>)
    requires c.Sound()
  {
    AttentionEmpty(a) || (AttentionFull(c, heap, a) && (a.prepared ==> Filled(c, heap, a, mask)))
  }

  /** The graph one would build now. */
  function Current(kv: Kv, a: Attention, d: Denoise): Graph {
    Graph(kv.prefixLen, kv.k, kv.v, a.selfPos, a.crossPos, a.selfBias, a.crossBias, d.stepIds, d.input, d.output)
  }

  /** The first `n` step tensors are live and hold their own number. */
  predicate StepsNumbered(heap: Heap, stepIds: seq<Id>, n: nat) {
    n <= |stepIds| && forall i: nat :: i < n ==> Has(heap, stepIds[i], StepId(i), 1) && heap[stepIds[i]].data == [i]
  }

  /** A ready graph captured the tensors that are current, all three caches agree on the length, and it is scheduled. */
  predicate DenoiseReady(c: Config, heap: Heap, kv: Kv, a: Attention, d: Denoise, scheduled: Option<Graph>)
    requires c.Sound()
  {
    && d.ready && d.stepContext && d.graphContext && d.buffer
    && KvFull(c, heap, kv) && AttentionFull(c, heap, a) && kv.prefixLen == a.prefixLen == d.prefixLen
    && |d.stepIds| == c.steps && StepsNumbered(heap, d.stepIds, c.steps)
    && Has(heap, d.input, Input, c.actions) && d.output in heap && heap[d.output].name == Output
    && d.graph == scheduled == Some(Current(kv, a, d))
  }

  predicate DenoiseOk(c: Config, heap: Heap, kv: Kv, a: Attention, d: Denoise, scheduled: Option<Graph>)
    requires c.Sound()
  {
    d == NO_DENOISE || DenoiseReady(c, heap, kv, a, d, scheduled)
  }

  /** The tensors of this context are as they were. */
  ghost predicate Keeps(before: Heap, after: Heap, home: Home) {
    forall id :: id in before && HomeOf(before[id].name) == home ==> id in after && after[id] == before[id]
  }

  /** Tensors from `first` on are new; of the others some may be gone, and none has been written. */
  ghost predicate Untouched(before: Heap, after: Heap, first: Id) {
    forall id :: id in after ==> id >= first || (id in before && after[id] == before[id])
  }

  lemma UntouchedSince(a: Heap, b: Heap, c: Heap, first: Id, second: Id)
    requires Untouched(a, b, first) && Untouched(b, c, second) && first <= second
    ensures Untouched(a, c, first)
  {
  }

  /** Tensors may have been created, none was lost or written. */
  ghost predicate Extends(before: Heap, after: Heap) {
    forall id :: id in before ==> id in after && after[id] == before[id]
  }

  /** A new tensor whose handle was null keeps everything owned. */
  lemma OwnedNew(heap: Heap, nextId: Id, tensor: Tensor,
                 kv: Kv, a: Attention, d: Denoise, kv': Kv, a': Attention, d': Denoise)
    requires Owned(heap, nextId, kv, a, d) && Slot(kv, a, d, tensor.name) == NULL
    requires Slot(kv', a', d', tensor.name) == nextId
    requires forall n: Name :: n != tensor.name ==> Slot(kv', a', d', n) == Slot(kv, a, d, n)
    ensures Owned(heap[nextId := tensor], nextId + 1, kv', a', d')
  {
    hide Slot;
    forall id | id in heap ensures heap[id].name != tensor.name {}
  }

  lemma OwnedBounds(heap: Heap, nextId: Id, kv: Kv, a: Attention, d: Denoise)
    requires Owned(heap, nextId, kv, a, d)
    ensures nextId > NULL && forall id :: id in heap ==> id < nextId
  {
  }

  lemma OneMore(a: Heap, b: Heap, id: Id, first: Id)
    requires id !in a && id >= first && id in b && b == a[id := b[id]]
    ensures Extends(a, b) && Untouched(a, b, first)
  {
  }

  lemma OwnedK(heap: Heap, id: Id, tensor: Tensor, kv: Kv, a: Attention, d: Denoise, i: nat)
    requires Owned(heap, id, kv, a, d) && i < |kv.k| && kv.k[i] == NULL && tensor.name == PrefixK(i)
    ensures Owned(heap[id := tensor], id + 1, kv.(k := kv.k[i := id]), a, d)
  {
    OwnedNew(heap, id, tensor, kv, a, d, kv.(k := kv.k[i := id]), a, d);
  }

  lemma OwnedV(heap: Heap, id: Id, tensor: Tensor, kv: Kv, a: Attention, d: Denoise, i: nat)
    requires Owned(heap, id, kv, a, d) && i < |kv.v| && kv.v[i] == NULL && tensor.name == PrefixV(i)
    ensures Owned(heap[id := tensor], id + 1, kv.(v := kv.v[i := id]), a, d)
  {
    OwnedNew(heap, id, tensor, kv, a, d, kv.(v := kv.v[i := id]), a, d);
  }

  lemma OwnedStep(heap: Heap, id: Id, tensor: Tensor, kv: Kv, a: Attention, d: Denoise, i: nat)
    requires Owned(heap, id, kv, a, d) && i < |d.stepIds| && d.stepIds[i] == NULL && tensor.name == StepId(i)
    ensures Owned(heap[id := tensor], id + 1, kv, a, d.(stepIds := d.stepIds[i := id]))
  {
    OwnedNew(heap, id, tensor, kv, a, d, kv, a, d.(stepIds := d.stepIds[i := id]));
  }

  lemma OwnedInput(heap: Heap, id: Id, tensor: Tensor, kv: Kv, a: Attention, d: Denoise)
    requires Owned(heap, id, kv, a, d) && d.input == NULL && tensor.name == Input
    ensures Owned(heap[id := tensor], id + 1, kv, a, d.(input := id))
  {
    OwnedNew(heap, id, tensor, kv, a, d, kv, a, d.(input := id));
  }

  lemma OwnedOutput(heap: Heap, id: Id, tensor: Tensor, kv: Kv, a: Attention, d: Denoise)
    requires Owned(heap, id, kv, a, d) && d.output == NULL && tensor.name == Output
    ensures Owned(heap[id := tensor], id + 1, kv, a, d.(output := id))
  {
    OwnedNew(heap, id, tensor, kv, a, d, kv, a, d.(output := id));
  }

  lemma NothingOwned(heap: Heap, nextId: Id)
    requires Owned(heap, nextId, NO_KV, NO_ATTENTION, NO_DENOISE)
    ensures heap == map[]
  {
    assert forall n: Name :: Slot(NO_KV, NO_ATTENTION, NO_DENOISE, n) == NULL;
    assert heap.Keys == {};
  }

  /** Tensors for the first `i` layers, in an open context, and null handles for the rest. */
  predicate KvPart(c: Config, heap: Heap, kv: Kv, n: nat, i: nat) {
    && kv.context && !kv.buffer && kv.prefixLen == -1 && |kv.k| == |kv.v| == |c.cross| && i <= |c.cross|
    && (forall j: nat :: j < i ==> Has(heap, kv.k[j], PrefixK(j), c.KvSize(j, n)))
    && (forall j: nat :: j < i ==> Has(heap, kv.v[j], PrefixV(j), c.KvSize(j, n)))
    && forall j :: i <= j < |c.cross| ==> kv.k[j] == kv.v[j] == NULL
  }

  lemma KvPartNone(c: Config, heap: Heap, kv: Kv, n: nat)
    requires kv == Kv(-1, true, false, seq(|c.cross|, i => NULL), seq(|c.cross|, i => NULL))
    ensures KvPart(c, heap, kv, n, 0)
  {
  }

  lemma KvPartNext(c: Config, before: Heap, after: Heap, kv: Kv, n: nat, i: nat, k: Id, v: Id)
    requires KvPart(c, before, kv, n, i) && i < |c.cross| && Extends(before, after)
    requires Has(after, k, PrefixK(i), c.KvSize(i, n)) && Has(after, v, PrefixV(i), c.KvSize(i, n))
    ensures KvPart(c, after, kv.(k := kv.k[i := k], v := kv.v[i := v]), n, i + 1)
  {
    hide Config.KvSize;
    forall j: nat | j < i
      ensures Has(after, kv.k[j], PrefixK(j), c.KvSize(j, n)) && Has(after, kv.v[j], PrefixV(j), c.KvSize(j, n))
    {
      assert Has(before, kv.k[j], PrefixK(j), c.KvSize(j, n)) && Has(before, kv.v[j], PrefixV(j), c.KvSize(j, n));
    }
  }

  lemma KvPartDone(c: Config, heap: Heap, kv: Kv, n: nat)
    requires n > 0 && KvPart(c, heap, kv, n, |c.cross|)
    ensures KvFull(c, heap, kv.(buffer := true, prefixLen := n))
  {
    hide Has, Config.KvSize;
  }

  lemma HasKept(before: Heap, after: Heap, id: Id, name: Name, size: nat)
    requires Has(before, id, name, size) && Extends(before, after)
    ensures Has(after, id, name, size)
  {
  }

  lemma ExtendsTwice(a: Heap, b: Heap, c: Heap)
    requires Extends(a, b) && Extends(b, c)
    ensures Extends(a, c)
  {
  }

  /** Only the handles matter to ownership. */
  lemma OwnedSame(heap: Heap, nextId: Id, kv: Kv, a: Attention, d: Denoise, kv': Kv, a': Attention, d': Denoise)
    requires Owned(heap, nextId, kv, a, d) && forall n: Name :: Slot(kv', a', d', n) == Slot(kv, a, d, n)
    ensures Owned(heap, nextId, kv', a', d')
  {
    hide Slot;
  }

  function Memory(size: nat, value: nat): (r: seq<nat>)
    ensures |r| == size
  {
    if size == 0 then [] else [value] + Memory(size - 1, value)
  }

  lemma KvKept(c: Config, before: Heap, after: Heap, kv: Kv)
    requires KvOk(c, before, kv) && Keeps(before, after, KvContext)
    ensures KvOk(c, after, kv)
    ensures kv != NO_KV ==> forall i: nat :: i < |c.cross| ==>
      after[kv.k[i]] == before[kv.k[i]] && after[kv.v[i]] == before[kv.v[i]]
  {
    hide Config.KvSize;
    if kv != NO_KV {
      forall i: nat | i < |c.cross|
        ensures Has(after, kv.k[i], PrefixK(i), c.KvSize(i, kv.prefixLen)) && after[kv.k[i]] == before[kv.k[i]]
        ensures Has(after, kv.v[i], PrefixV(i), c.KvSize(i, kv.prefixLen)) && after[kv.v[i]] == before[kv.v[i]]
      {
        assert Has(before, kv.k[i], PrefixK(i), c.KvSize(i, kv.prefixLen));
        assert Has(before, kv.v[i], PrefixV(i), c.KvSize(i, kv.prefixLen));
      }
    }
  }

  lemma AttentionKept(c: Config, before: Heap, after: Heap, a: Attention, mask: seq<bool>)
    requires c.Sound() && AttentionOk(c, before, a, mask) && Keeps(before, after, AttentionContext)
    ensures AttentionOk(c, after, a, mask)
  {
    hide SelfMask, CrossMask, SelfPositions, CrossPositions, Config.SelfSize, Config.CrossSize;
  }

  /** Same tensors, names and sizes; only contents may differ. */
  ghost predicate SameShapes(before: Heap, after: Heap) {
    before.Keys == after.Keys
    && forall id :: id in before ==> after[id].name == before[id].name && |after[id].data| == |before[id].data|
  }

  /** The four tensors of the attention runtime, written. */
  function Uploaded(heap: Heap, a: Attention, selfPos: seq<nat>, crossPos: seq<nat>, selfBias: seq<nat>,
                    crossBias: seq<nat>): Heap
  {
    heap[a.selfPos := Tensor(SelfPos, selfPos)][a.crossPos := Tensor(CrossPos, crossPos)]
      [a.selfBias := Tensor(SelfBias, selfBias)][a.crossBias := Tensor(CrossBias, crossBias)]
  }

  lemma UploadedKeeps(c: Config, heap: Heap, a: Attention, selfPos: seq<nat>, crossPos: seq<nat>,
                      selfBias: seq<nat>, crossBias: seq<nat>)
    requires c.Sound() && AttentionFull(c, heap, a)
    ensures forall home: Home :: home != AttentionContext ==>
      Keeps(heap, Uploaded(heap, a, selfPos, crossPos, selfBias, crossBias), home)
  {
    hide Config.SelfSize, Config.CrossSize;
  }

  lemma UploadedShapes(c: Config, heap: Heap, a: Attention, selfPos: seq<nat>, crossPos: seq<nat>,
                       selfBias: seq<nat>, crossBias: seq<nat>)
    requires c.Sound() && AttentionFull(c, heap, a) && |selfPos| == |crossPos| == c.chunk
    requires |selfBias| == c.SelfSize(a.prefixLen) && |crossBias| == c.CrossSize(a.prefixLen)
    ensures SameShapes(heap, Uploaded(heap, a, selfPos, crossPos, selfBias, crossBias))
  {
    hide Config.SelfSize, Config.CrossSize;
  }

  lemma UploadedFills(c: Config, heap: Heap, a: Attention, mask: seq<bool>)
    requires c.Sound() && AttentionFull(c, heap, a) && |mask| == a.prefixLen
    ensures var after := Uploaded(heap, a, SelfPositions(mask, c.chunk), CrossPositions(c.chunk),
                                  SelfMask(mask, c.chunk, PadTo(c.chunk, c.pad)),
                                  CrossMask(mask, c.chunk, PadTo(c.chunk, c.pad)));
      AttentionFull(c, after, a) && Filled(c, after, a, mask)
  {
    SizesOf(c, mask);
    hide Config.SelfSize, Config.CrossSize, SelfMask, CrossMask, SelfPositions, CrossPositions, PadTo;
  }

  lemma ShapesOwned(before: Heap, after: Heap, nextId: Id, kv: Kv, a: Attention, d: Denoise)
    requires Owned(before, nextId, kv, a, d) && SameShapes(before, after)
    ensures Owned(after, nextId, kv, a, d)
  {
    hide Slot;
  }

  lemma ShapesKv(c: Config, before: Heap, after: Heap, kv: Kv)
    requires SameShapes(before, after)
    ensures KvFull(c, before, kv) ==> KvFull(c, after, kv)
    ensures KvOk(c, before, kv) ==> KvOk(c, after, kv)
  {
    hide Config.KvSize;
    if KvFull(c, before, kv) {
      forall i: nat | i < |c.cross|
        ensures Has(after, kv.k[i], PrefixK(i), c.KvSize(i, kv.prefixLen))
        ensures Has(after, kv.v[i], PrefixV(i), c.KvSize(i, kv.prefixLen))
      {
        assert Has(before, kv.k[i], PrefixK(i), c.KvSize(i, kv.prefixLen));
        assert Has(before, kv.v[i], PrefixV(i), c.KvSize(i, kv.prefixLen));
      }
    }
  }

  lemma ShapesAttention(c: Config, before: Heap, after: Heap, a: Attention)
    requires c.Sound() && SameShapes(before, after) && AttentionFull(c, before, a)
    ensures AttentionFull(c, after, a)
  {
    hide Config.SelfSize, Config.CrossSize;
  }

  lemma StepsKept(before: Heap, after: Heap, stepIds: seq<Id>, n: nat)
    requires StepsNumbered(before, stepIds, n) && Keeps(before, after, StepContext)
    ensures StepsNumbered(after, stepIds, n)
  {
    forall i: nat | i < n ensures Has(after, stepIds[i], StepId(i), 1) && after[stepIds[i]].data == [i] {
      assert Has(before, stepIds[i], StepId(i), 1);
    }
  }

  predicate StepsThere(heap: Heap, stepIds: seq<Id>, n: nat) {
    n <= |stepIds| && forall i: nat :: i < n ==> Has(heap, stepIds[i], StepId(i), 1)
  }

  /** The first `i` of `n` step tensors have been created; the other handles are null. */
  predicate StepsMade(heap: Heap, stepIds: seq<Id>, n: nat, i: nat) {
    && |stepIds| == n && i <= n && (forall j: nat :: j < i ==> Has(heap, stepIds[j], StepId(j), 1))
    && forall j :: i <= j < n ==> stepIds[j] == NULL
  }

  lemma NoSteps(heap: Heap, stepIds: seq<Id>, n: nat)
    requires stepIds == seq(n, i => NULL)
    ensures StepsMade(heap, stepIds, n, 0)
  {
  }

  lemma NextStepIsNull(heap: Heap, stepIds: seq<Id>, n: nat, i: nat)
    requires StepsMade(heap, stepIds, n, i) && i < n
    ensures stepIds[i] == NULL
  {
  }

  lemma OneStepMore(before: Heap, after: Heap, stepIds: seq<Id>, n: nat, i: nat, id: Id)
    requires StepsMade(before, stepIds, n, i) && i < n && Extends(before, after) && Has(after, id, StepId(i), 1)
    ensures StepsMade(after, stepIds[i := id], n, i + 1)
  {
    forall j: nat | j < i ensures Has(after, stepIds[j], StepId(j), 1) {
      assert Has(before, stepIds[j], StepId(j), 1);
    }
  }

  lemma AllStepsMade(heap: Heap, stepIds: seq<Id>, n: nat)
    requires StepsMade(heap, stepIds, n, n)
    ensures StepsThere(heap, stepIds, n)
  {
    hide Has;
  }

  lemma ExtendsKeeps(before: Heap, after: Heap)
    requires Extends(before, after)
    ensures forall home: Home :: Keeps(before, after, home)
  {
  }

  /** Writing the number of one more step. */
  lemma NumberOne(before: Heap, after: Heap, stepIds: seq<Id>, i: nat, n: nat)
    requires i < n && StepsThere(before, stepIds, n) && StepsNumbered(before, stepIds, i)
    requires after == before[stepIds[i] := Tensor(StepId(i), [i])]
    ensures SameShapes(before, after) && StepsThere(after, stepIds, n) && StepsNumbered(after, stepIds, i + 1)
    ensures Keeps(before, after, KvContext) && Keeps(before, after, AttentionContext)
  {
    assert Has(before, stepIds[i], StepId(i), 1);
    forall j: nat | j < n
      ensures Has(after, stepIds[j], StepId(j), 1)
      ensures j != i ==> after[stepIds[j]] == before[stepIds[j]]
    {
      assert Has(before, stepIds[j], StepId(j), 1);
    }
  }

  lemma NothingWritten(heap: Heap)
    ensures SameShapes(heap, heap) && Extends(heap, heap) && forall first: Id :: Untouched(heap, heap, first)
    ensures forall home: Home :: Keeps(heap, heap, home)
  {
  }

  lemma StepIsThere(heap: Heap, id: Id, i: nat)
    requires Has(heap, id, StepId(i), 1)
    ensures id in heap && heap[id].name == StepId(i) && |heap[id].data| == 1
  {
  }

  /** Freeing one context keeps the tensors of the others. */
  lemma FreeKeeps(heap: Heap, freed: Home)
    ensures forall first: Id :: Untouched(heap, Without(heap, freed), first)
    ensures forall home: Home :: home != freed ==> Keeps(heap, Without(heap, freed), home)
  {
    hide HomeOf;
  }

  lemma KeepsTwice(a: Heap, b: Heap, c: Heap, home: Home)
    requires Keeps(a, b, home) && Keeps(b, c, home)
    ensures Keeps(a, c, home)
  {
  }

  lemma ShapesTwice(a: Heap, b: Heap, c: Heap)
    requires SameShapes(a, b) && SameShapes(b, c)
    ensures SameShapes(a, c)
  {
  }

  /** Marking filled tensors as prepared. */
  lemma Prepared(c: Config, heap: Heap, nextId: Id, kv: Kv, a: Attention, d: Denoise, scheduled: Option<Graph>,
                 mask: seq<bool>)
    requires c.Sound() && Owned(heap, nextId, kv, a, d) && DenoiseOk(c, heap, kv, a, d, scheduled)
    requires AttentionFull(c, heap, a) && Filled(c, heap, a, mask)
    ensures var a' := a.(prepared := true);
      && Owned(heap, nextId, kv, a', d) && AttentionOk(c, heap, a', mask) && DenoiseOk(c, heap, kv, a', d, scheduled)
  {
    hide Owned, Has, KvFull, StepsNumbered, Config.SelfSize, Config.CrossSize, SelfPositions, CrossPositions;
    hide SelfMask, CrossMask;
    OwnedSame(heap, nextId, kv, a, d, kv, a.(prepared := true), d);
  }

  /** Writing contents, the step numbers apart, leaves a ready graph ready. */
  lemma ShapesReady(c: Config, before: Heap, after: Heap, kv: Kv, a: Attention, d: Denoise, scheduled: Option<Graph>)
    requires c.Sound() && SameShapes(before, after) && Keeps(before, after, StepContext)
    requires DenoiseOk(c, before, kv, a, d, scheduled)
    ensures DenoiseOk(c, after, kv, a, d, scheduled)
  {
    hide KvFull, AttentionFull, StepsNumbered, Keeps;
    if d != NO_DENOISE {
      ShapesKv(c, before, after, kv);
      ShapesAttention(c, before, after, a);
      StepsKept(before, after, d.stepIds, c.steps);
    }
  }

  /** The same for everything but the masks. */
  lemma ShapesAll(c: Config, before: Heap, after: Heap, nextId: Id, kv: Kv, a: Attention, d: Denoise,
                  scheduled: Option<Graph>)
    requires c.Sound() && SameShapes(before, after) && Keeps(before, after, StepContext)
    requires Owned(before, nextId, kv, a, d) && KvOk(c, before, kv) && DenoiseOk(c, before, kv, a, d, scheduled)
    ensures Owned(after, nextId, kv, a, d) && KvOk(c, after, kv) && DenoiseOk(c, after, kv, a, d, scheduled)
  {
    hide Owned, KvOk, DenoiseOk, SameShapes, Keeps;
    ShapesOwned(before, after, nextId, kv, a, d);
    ShapesKv(c, before, after, kv);
    ShapesReady(c, before, after, kv, a, d, scheduled);
  }

  /** The denoise runtime's own tensors, before its graph is recorded. */
  predicate GraphTensors(c: Config, heap: Heap, d: Denoise) {
    && d.stepContext && d.graphContext && d.buffer && !d.ready
    && |d.stepIds| == c.steps && StepsNumbered(heap, d.stepIds, c.steps)
    && Has(heap, d.input, Input, c.actions) && d.output in heap && heap[d.output].name == Output
  }

  lemma ReadyWhen(c: Config, heap: Heap, kv: Kv, a: Attention, built: Denoise, d: Denoise, scheduled: Option<Graph>)
    requires c.Sound() && KvFull(c, heap, kv) && AttentionFull(c, heap, a) && GraphTensors(c, heap, built)
    requires kv.prefixLen == a.prefixLen
    requires d == built.(prefixLen := kv.prefixLen, ready := true, graph := Some(Current(kv, a, built)))
    requires scheduled == d.graph
    ensures DenoiseReady(c, heap, kv, a, d, scheduled)
  {
    hide KvFull, AttentionFull, Has, StepsNumbered;
  }

  lemma OutputOnly(before: Heap, after: Heap, id: Id, data: seq<nat>)
    requires id in before && before[id].name == Output && after == before[id := before[id].(data := data)]
    ensures forall home: Home :: home != GraphContext ==> Keeps(before, after, home)
  {
  }

  lemma OutputOwned(before: Heap, after: Heap, nextId: Id, kv: Kv, a: Attention, d: Denoise, data: seq<nat>)
    requires Owned(before, nextId, kv, a, d)
    requires d.output in before && after == before[d.output := before[d.output].(data := data)]
    ensures Owned(after, nextId, kv, a, d)
  {
    hide Slot;
  }

  lemma FullKept(c: Config, before: Heap, after: Heap, a: Attention)
    requires c.Sound() && AttentionFull(c, before, a) && Keeps(before, after, AttentionContext)
    ensures AttentionFull(c, after, a)
  {
    hide Config.SelfSize, Config.CrossSize;
  }

  /** The output tensor may be rewritten at any size. */
  lemma OutputWritten(c: Config, before: Heap, after: Heap, nextId: Id, kv: Kv, a: Attention, d: Denoise,
                      scheduled: Option<Graph>, data: seq<nat>)
    requires c.Sound() && Owned(before, nextId, kv, a, d) && DenoiseReady(c, before, kv, a, d, scheduled)
    requires after == before[d.output := before[d.output].(data := data)]
    ensures Owned(after, nextId, kv, a, d) && DenoiseReady(c, after, kv, a, d, scheduled)
    ensures Keeps(before, after, KvContext) && Keeps(before, after, AttentionContext)
  {
    OutputOnly(before, after, d.output, data);
    OutputOwned(before, after, nextId, kv, a, d, data);
    hide Owned, Keeps, KvFull, AttentionFull, StepsNumbered;
    KvKept(c, before, after, kv);
    FullKept(c, before, after, a);
    StepsKept(before, after, d.stepIds, c.steps);
  }

  lemma OutputIsThere(c: Config, heap: Heap, kv: Kv, a: Attention, d: Denoise, scheduled: Option<Graph>)
    requires c.Sound() && DenoiseReady(c, heap, kv, a, d, scheduled)
    ensures d.output in heap && KvFull(c, heap, kv) && AttentionFull(c, heap, a) && scheduled == d.graph
  {
  }

  /** Writing the input tensor. */
  lemma InputWritten(heap: Heap, id: Id, data: seq<nat>)
    requires Has(heap, id, Input, |data|)
    ensures id in heap && var after := heap[id := Tensor(heap[id].name, data)];
      SameShapes(heap, after) && forall home: Home :: home != GraphContext ==> Keeps(heap, after, home)
  {
  }

  /** Freeing a context and nulling its handles. */
  lemma OwnedFree(heap: Heap, nextId: Id, kv: Kv, a: Attention, d: Denoise, home: Home, kv': Kv, a': Attention,
                  d': Denoise)
    requires Owned(heap, nextId, kv, a, d)
    requires forall n: Name :: HomeOf(n) != home ==> Slot(kv', a', d', n) == Slot(kv, a, d, n)
    ensures Owned(Without(heap, home), nextId, kv', a', d')
  {
    hide Slot, HomeOf;
  }

  lemma NothingThere(heap: Heap, nextId: Id, kv: Kv, a: Attention, d: Denoise, home: Home)
    requires Owned(heap, nextId, kv, a, d) && forall n: Name :: HomeOf(n) == home ==> Slot(kv, a, d, n) == NULL
    ensures Without(heap, home) == heap
  {
    hide Slot, HomeOf;
    forall id | id in heap ensures HomeOf(heap[id].name) != home {
      assert Slot(kv, a, d, heap[id].name) == id;
    }
  }

  /** Where a context was never opened, none of its handles is set. */
  predicate Clearable(kv: Kv, a: Attention, d: Denoise) {
    && (kv.context || kv.k == kv.v == []) && (a.context || AttentionEmpty(a))
    && (d.stepContext || d.stepIds == []) && (d.graphContext || d.input == d.output == NULL)
  }

  // ------------------------------------------------------------ what a graph reads

  function DataOf(heap: Heap, ids: seq<Id>): (r: seq<seq<nat>>)
    requires forall i :: 0 <= i < |ids| ==> ids[i] in heap
    ensures |r| == |ids| && forall i :: 0 <= i < |ids| ==> r[i] == heap[ids[i]].data
  {
    seq(|ids|, i requires 0 <= i < |ids| => heap[ids[i]].data)
  }

  /** Every tensor the graph captured is alive. */
  predicate Live(heap: Heap, g: Graph) {
    && (forall i :: 0 <= i < |g.k| ==> g.k[i] in heap) && (forall i :: 0 <= i < |g.v| ==> g.v[i] in heap)
    && g.selfPos in heap && g.crossPos in heap && g.selfBias in heap && g.crossBias in heap
    && (forall i :: 0 <= i < |g.stepIds| ==> g.stepIds[i] in heap) && g.input in heap && g.output in heap
  }

  function Read(heap: Heap, g: Graph): Inputs
    requires Live(heap, g)
  {
    Inputs(g.prefixLen, DataOf(heap, g.k), DataOf(heap, g.v),
           heap[g.selfPos].data, heap[g.crossPos].data, heap[g.selfBias].data, heap[g.crossBias].data,
           DataOf(heap, g.stepIds), heap[g.input].data)
  }

  lemma KvLive(c: Config, heap: Heap, kv: Kv)
    requires KvFull(c, heap, kv)
    ensures forall i :: 0 <= i < |kv.k| ==> kv.k[i] in heap
    ensures forall i :: 0 <= i < |kv.v| ==> kv.v[i] in heap
  {
    forall i | 0 <= i < |kv.k| ensures kv.k[i] in heap && kv.v[i] in heap {
      assert Has(heap, kv.k[i], PrefixK(i), c.KvSize(i, kv.prefixLen));
      assert Has(heap, kv.v[i], PrefixV(i), c.KvSize(i, kv.prefixLen));
    }
  }

  /** What the caches hold now. */
  function CacheInputs(c: Config, heap: Heap, kv: Kv, a: Attention, noise: seq<nat>): Inputs
    requires c.Sound() && KvFull(c, heap, kv) && AttentionFull(c, heap, a)
  {
    KvLive(c, heap, kv);
    Inputs(kv.prefixLen, DataOf(heap, kv.k), DataOf(heap, kv.v),
           heap[a.selfPos].data, heap[a.crossPos].data, heap[a.selfBias].data, heap[a.crossBias].data,
           seq(c.steps, (i: nat) => [i]), noise)
  }

  /** A ready graph touches live tensors only, and reads what the caches hold. */
  lemma ReadyReads(c: Config, heap: Heap, kv: Kv, a: Attention, d: Denoise, scheduled: Option<Graph>)
    requires c.Sound() && DenoiseReady(c, heap, kv, a, d, scheduled)
    ensures Live(heap, d.graph.value)
    ensures Read(heap, d.graph.value) == CacheInputs(c, heap, kv, a, heap[d.input].data)
  {
    hide Config.KvSize, Config.SelfSize, Config.CrossSize;
    KvLive(c, heap, kv);
    forall i | 0 <= i < c.steps ensures d.stepIds[i] in heap && heap[d.stepIds[i]].data == [i] {
      assert Has(heap, d.stepIds[i], StepId(i), 1);
    }
    assert DataOf(heap, d.stepIds) == seq(c.steps, (i: nat) => [i]);
  }

  /** Writing elsewhere leaves what the caches hold. */
  lemma CacheInputsKept(c: Config, before: Heap, after: Heap, kv: Kv, a: Attention, noise: seq<nat>)
    requires c.Sound() && KvFull(c, before, kv) && AttentionFull(c, before, a)
    requires Keeps(before, after, KvContext) && Keeps(before, after, AttentionContext)
    ensures KvFull(c, after, kv) && AttentionFull(c, after, a)
    ensures CacheInputs(c, before, kv, a, noise) == CacheInputs(c, after, kv, a, noise)
  {
    hide Config.KvSize, Config.SelfSize, Config.CrossSize;
    KvKept(c, before, after, kv);
    KvLive(c, before, kv);
    KvLive(c, after, kv);
    assert DataOf(before, kv.k) == DataOf(after, kv.k);
    assert DataOf(before, kv.v) == DataOf(after, kv.v);
  }

  // --------------------------------------------------------- rebuilt from scratch

  /** What the language model's cache holds, layer by layer, and which way round its values are. */
  datatype LlmCache = LlmCache(k: seq<seq<nat>>, v: seq<seq<nat>>, transposed: bool)

  /** One prediction: the prefix layout, whether the language model decodes it, its cache afterwards, and the noise. */
  datatype Request = Request(layout: Layout, decodes: bool, cache: LlmCache, noise: seq<nat>)

  predicate RowsFit(src: seq<nat>, dim: nat, n: nat) {
    dim * n <= |src|
  }

  predicate ColumnsFit(src: seq<nat>, dim: nat, n: nat)
    requires dim > 0
  {
    n <= |src| / dim && dim * n <= |src|
  }

  /** Elements of an array of rows of `dim`. */
  function FromRows(widen: nat -> nat, src: seq<nat>, dim: nat, n: nat): seq<nat>
    requires RowsFit(src, dim, n)
  {
    seq(dim * n, j requires 0 <= j < dim * n => widen(src[j]))
  }

  /** Where element `j` of the rows sits when each of `dim` components has its own stretch of `stride` values. */
  function ColumnIndex(stride: nat, dim: nat, j: nat): nat
    requires dim > 0
  {
    j % dim * stride + j / dim
  }

  lemma ColumnInRange(stride: nat, dim: nat, n: nat, j: nat)
    requires dim > 0 && n <= stride && j < dim * n
    ensures ColumnIndex(stride, dim, j) < dim * stride
  {
    Arith.AboveQuotient(n, j, dim);
    Arith.MulMono(stride, j % dim + 1, dim);
    assert (j % dim + 1) * stride == j % dim * stride + stride;
  }

  function ColumnAt(widen: nat -> nat, src: seq<nat>, dim: nat, n: nat, j: nat): nat
    requires dim > 0 && ColumnsFit(src, dim, n) && j < dim * n
  {
    ColumnInRange(|src| / dim, dim, n, j);
    Arith.QuotientFits(|src|, dim);
    widen(src[ColumnIndex(|src| / dim, dim, j)])
  }

  /** The same, from an array that stores each component's values side by side. */
  function FromColumns(widen: nat -> nat, src: seq<nat>, dim: nat, n: nat): seq<nat>
    requires dim > 0 && ColumnsFit(src, dim, n)
  {
    seq(dim * n, j requires 0 <= j < dim * n => ColumnAt(widen, src, dim, n, j))
  }

  predicate LayerFits(c: Config, cache: LlmCache, n: nat, layer: nat)
    requires c.Sound() && layer < |c.cross|
  {
    && layer < |cache.k| && layer < |cache.v| && RowsFit(cache.k[layer], c.Dim(layer), n)
    && if cache.transposed then ColumnsFit(cache.v[layer], c.Dim(layer), n)
       else RowsFit(cache.v[layer], c.Dim(layer), n)
  }

  function FreshK(c: Config, cache: LlmCache, n: nat, layer: nat): (r: seq<nat>)
    requires c.Sound() && layer < |c.cross| && LayerFits(c, cache, n, layer)
    ensures |r| == c.KvSize(layer, n)
  {
    FromRows(c.widen, cache.k[layer], c.Dim(layer), n)
  }

  function FreshV(c: Config, cache: LlmCache, n: nat, layer: nat): (r: seq<nat>)
    requires c.Sound() && layer < |c.cross| && LayerFits(c, cache, n, layer)
    ensures |r| == c.KvSize(layer, n)
  {
    if cache.transposed then FromColumns(c.widen, cache.v[layer], c.Dim(layer), n)
    else FromRows(c.widen, cache.v[layer], c.Dim(layer), n)
  }

  predicate AllFit(c: Config, cache: LlmCache, n: nat)
    requires c.Sound()
  {
    forall i: nat :: i < |c.cross| ==> LayerFits(c, cache, n, i)
  }

  /** The cache holds the first `count` layers of the language model's. */
  predicate Copied(c: Config, heap: Heap, kv: Kv, cache: LlmCache, n: nat, count: nat)
    requires c.Sound() && KvFull(c, heap, kv) && AllFit(c, cache, n) && count <= |c.cross|
  {
    KvLive(c, heap, kv);
    forall i: nat :: i < count ==>
      heap[kv.k[i]].data == FreshK(c, cache, n, i) && heap[kv.v[i]].data == FreshV(c, cache, n, i)
  }

  lemma NoneCopied(c: Config, heap: Heap, kv: Kv, cache: LlmCache, n: nat)
    requires c.Sound() && KvFull(c, heap, kv) && AllFit(c, cache, n)
    ensures Copied(c, heap, kv, cache, n, 0)
  {
  }

  lemma LayerHas(c: Config, heap: Heap, kv: Kv, i: nat)
    requires KvFull(c, heap, kv) && i < |c.cross|
    ensures |kv.k| == |kv.v| == |c.cross| && kv.k[i] != kv.v[i]
    ensures kv.k[i] in heap && heap[kv.k[i]].name == PrefixK(i) && |heap[kv.k[i]].data| == c.KvSize(i, kv.prefixLen)
    ensures kv.v[i] in heap && heap[kv.v[i]].name == PrefixV(i) && |heap[kv.v[i]].data| == c.KvSize(i, kv.prefixLen)
  {
    hide Config.KvSize;
    assert Has(heap, kv.k[i], PrefixK(i), c.KvSize(i, kv.prefixLen));
    assert Has(heap, kv.v[i], PrefixV(i), c.KvSize(i, kv.prefixLen));
  }

  lemma LayerFitsAt(c: Config, cache: LlmCache, n: nat, i: nat)
    requires c.Sound() && AllFit(c, cache, n) && i < |c.cross|
    ensures LayerFits(c, cache, n, i)
  {
  }

  /** The heap with one more layer copied. */
  function WithLayer(c: Config, heap: Heap, kv: Kv, cache: LlmCache, n: nat, i: nat): Heap
    requires c.Sound() && i < |c.cross| && |kv.k| == |kv.v| == |c.cross| && LayerFits(c, cache, n, i)
  {
    heap[kv.k[i] := Tensor(PrefixK(i), FreshK(c, cache, n, i))][kv.v[i] := Tensor(PrefixV(i), FreshV(c, cache, n, i))]
  }

  lemma LayerWritten(c: Config, heap: Heap, kv: Kv, cache: LlmCache, n: nat, i: nat)
    requires c.Sound() && KvFull(c, heap, kv) && kv.prefixLen == n && AllFit(c, cache, n)
    requires i < |c.cross| && Copied(c, heap, kv, cache, n, i)
    ensures LayerFits(c, cache, n, i)
    ensures var after := WithLayer(c, heap, kv, cache, n, i);
      && SameShapes(heap, after) && KvFull(c, after, kv) && Copied(c, after, kv, cache, n, i + 1)
      && Keeps(heap, after, AttentionContext) && Keeps(heap, after, StepContext)
  {
    hide Config.KvSize, FreshK, FreshV, LayerFits;
    LayerHas(c, heap, kv, i);
    LayerFitsAt(c, cache, n, i);
    var after := WithLayer(c, heap, kv, cache, n, i);
    assert SameShapes(heap, after);
    ShapesKv(c, heap, after, kv);
    forall j: nat | j < i ensures after[kv.k[j]] == heap[kv.k[j]] && after[kv.v[j]] == heap[kv.v[j]] {
      LayerHas(c, heap, kv, j);
    }
  }

  lemma CopiedKept(c: Config, before: Heap, after: Heap, kv: Kv, cache: LlmCache, n: nat, count: nat)
    requires c.Sound() && KvFull(c, before, kv) && AllFit(c, cache, n) && count <= |c.cross|
    requires Copied(c, before, kv, cache, n, count) && Keeps(before, after, KvContext)
    ensures KvFull(c, after, kv) && Copied(c, after, kv, cache, n, count)
  {
    hide Config.KvSize, FreshK, FreshV, LayerFits;
    KvKept(c, before, after, kv);
    KvLive(c, before, kv);
    KvLive(c, after, kv);
  }

  predicate Acceptable(c: Config, r: Request)
    requires c.Sound()
  {
    r.layout.vision > 0 && r.layout.Total() <= c.nCtx && r.decodes && AllFit(c, r.cache, r.layout.Total())
  }

  /** What a graph built from nothing for this request alone would read. */
  function Fresh(c: Config, r: Request): Inputs
    requires c.Sound() && Acceptable(c, r)
  {
    var n, mask, rows := r.layout.Total(), r.layout.Mask(), PadTo(c.chunk, c.pad);
    Inputs(n,
           seq(|c.cross|, i requires 0 <= i < |c.cross| => FreshK(c, r.cache, n, i)),
           seq(|c.cross|, i requires 0 <= i < |c.cross| => FreshV(c, r.cache, n, i)),
           SelfPositions(mask, c.chunk), CrossPositions(c.chunk),
           SelfMask(mask, c.chunk, rows), CrossMask(mask, c.chunk, rows),
           seq(c.steps, (i: nat) => [i]), r.noise)
  }

  /** The caches, once filled for a request, hold what a rebuild from scratch would. */
  lemma CachesAreFresh(c: Config, heap: Heap, kv: Kv, a: Attention, r: Request)
    requires c.Sound() && Acceptable(c, r) && KvFull(c, heap, kv) && AttentionFull(c, heap, a)
    requires kv.prefixLen == a.prefixLen == r.layout.Total()
    requires Copied(c, heap, kv, r.cache, r.layout.Total(), |c.cross|) && Filled(c, heap, a, r.layout.Mask())
    ensures CacheInputs(c, heap, kv, a, r.noise) == Fresh(c, r)
  {
    hide Config.KvSize, Config.SelfSize, Config.CrossSize, FreshK, FreshV, LayerFits, Layout.Mask;
    KvLive(c, heap, kv);
    assert DataOf(heap, kv.k) == Fresh(c, r).k;
    assert DataOf(heap, kv.v) == Fresh(c, r).v;
  }

  /** Component `d` of token `t`, in rows of `dim`; in columns of `stride`. */
  function RowPlace(dim: nat, t: nat, d: nat): nat {
    t * dim + d
  }

  function ColumnPlace(stride: nat, t: nat, d: nat): nat {
    d * stride + t
  }

  lemma PlacesOf(stride: nat, dim: nat, n: nat, j: nat)
    requires dim > 0 && j < dim * n
    ensures j / dim < n && j % dim < dim
    ensures RowPlace(dim, j / dim, j % dim) == j && ColumnPlace(stride, j / dim, j % dim) == ColumnIndex(stride, dim, j)
  {
    Arith.AboveQuotient(n, j, dim);
  }

  /** Which way round the language model stores its values makes no difference. */
  lemma EitherLayout(c: Config, rows: seq<nat>, columns: seq<nat>, dim: nat, n: nat)
    requires dim > 0 && RowsFit(rows, dim, n) && ColumnsFit(columns, dim, n)
    requires forall t: nat, d: nat :: t < n && d < dim ==>
      && RowPlace(dim, t, d) < |rows| && ColumnPlace(|columns| / dim, t, d) < |columns|
      && rows[RowPlace(dim, t, d)] == columns[ColumnPlace(|columns| / dim, t, d)]
    ensures FromRows(c.widen, rows, dim, n) == FromColumns(c.widen, columns, dim, n)
  {
    hide ColumnIndex, RowPlace, ColumnPlace;
    forall j: nat | j < dim * n ensures c.widen(rows[j]) == ColumnAt(c.widen, columns, dim, n, j) {
      PlacesOf(|columns| / dim, dim, n, j);
    }
  }
}
