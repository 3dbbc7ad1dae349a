/** The action expert's caches, mutated in place, and the order in which a prediction drives them. */
module ExpertRuntime {
  import opened Bytes
  import opened AttentionMasks
  import opened PrefixFlow
  import opened ExpertState

  class Expert {
    const config: Config
    /** Nothing is ever refused. */
    const unlimited: bool
    var heap: Heap
    var nextId: Id
    var kv: Kv
    var attention: Attention
    var denoise: Denoise
    /** The graph the scheduler last allocated for. */
    var scheduled: Option<Graph>
    /** The mask the prepared tensors were filled from. */
    ghost var mask: seq<bool>
    /** Some allocation was refused. */
    ghost var denied: bool

    ghost predicate Valid()
      reads this
    {
      && config.Sound()
      && Owned(heap, nextId, kv, attention, denoise)
      && KvOk(config, heap, kv)
      && AttentionOk(config, heap, attention, mask)
      && DenoiseOk(config, heap, kv, attention, denoise, scheduled)
    }

    constructor (config: Config, unlimited: bool)
      requires config.Sound()
      ensures Valid() && this.config == config && this.unlimited == unlimited && heap == map[] && !denied
    {
      this.config, this.unlimited := config, unlimited;
      heap, nextId := map[], 1;
      kv, attention, denoise := NO_KV, NO_ATTENTION.(context := true), NO_DENOISE;
      scheduled, mask, denied := None, [], false;
    }

    // ------------------------------------------------------------- allocation

    method Allow() returns (ok: bool)
      modifies `denied
      ensures unlimited ==> denied == old(denied)
      ensures ok ==> denied == old(denied)
      ensures !ok ==> denied
    {
      if unlimited { return true; }
      ok := *;
      denied := denied || !ok;
    }

    /** A new identity, with whatever the memory held. */
    method NewNode(name: Name, size: nat) returns (id: Id)
      requires nextId > NULL && forall i :: i in heap ==> i < nextId
      modifies `heap, `nextId
      ensures id == old(nextId) && nextId == id + 1
      ensures Has(heap, id, name, size) && heap == old(heap)[id := heap[id]]
    {
      id := nextId;
      var memory: nat := *;
      heap, nextId := heap[id := Tensor(name, Memory(size, memory))], id + 1;
    }

    /** `ggml_new_tensor`: a new tensor, or null. */
    method NewTensor(name: Name, size: nat) returns (id: Id)
      requires nextId > NULL && forall i :: i in heap ==> i < nextId
      modifies `heap, `nextId, `denied
      ensures unlimited ==> denied == old(denied)
      ensures id == NULL ==> denied && heap == old(heap) && nextId == old(nextId)
      ensures id != NULL ==> id == old(nextId) && nextId == id + 1 && denied == old(denied)
      ensures id != NULL ==> Has(heap, id, name, size) && heap == old(heap)[id := heap[id]]
    {
      var ok := Allow();
      if !ok { return NULL; }
      id := NewNode(name, size);
    }

    /** `ggml_backend_tensor_set` over a whole tensor. */
    method WriteTensor(id: Id, data: seq<nat>)
      requires id in heap && |data| == |heap[id].data|
      modifies `heap
      ensures heap == old(heap)[id := Tensor(old(heap)[id].name, data)]
    {
      heap := heap[id := heap[id].(data := data)];
    }

    // ------------------------------------------------------------ invalidation

    method FreeContext(home: Home)
      modifies `heap
      ensures heap == Without(old(heap), home)
    {
      heap := Without(heap, home);
    }

    method ClearDenoise()
      requires Owned(heap, nextId, kv, attention, denoise) && Clearable(kv, attention, denoise)
      modifies `heap, `denoise
      ensures denoise == NO_DENOISE && Owned(heap, nextId, kv, attention, denoise)
      ensures Keeps(old(heap), heap, KvContext) && Keeps(old(heap), heap, AttentionContext)
      ensures Untouched(old(heap), heap, nextId)
    {
      hide Owned, Keeps, Untouched;
      ghost var noSteps, start := denoise.(stepIds := []), heap;
      NothingWritten(heap);
      if denoise.stepContext {
        OwnedFree(heap, nextId, kv, attention, denoise, StepContext, kv, attention, noSteps);
        FreeKeeps(heap, StepContext);
        FreeContext(StepContext);
      }
      OwnedFree(heap, nextId, kv, attention, noSteps, GraphContext, kv, attention, NO_DENOISE);
      if denoise.graphContext {
        ghost var before := heap;
        FreeKeeps(heap, GraphContext);
        FreeContext(GraphContext);
        KeepsTwice(start, before, heap, KvContext);
        KeepsTwice(start, before, heap, AttentionContext);
        UntouchedSince(start, before, heap, nextId, nextId);
      } else {
        NothingThere(heap, nextId, kv, attention, noSteps, GraphContext);
      }
      denoise := NO_DENOISE;
    }

    method ClearPrefixKv()
      requires Owned(heap, nextId, kv, attention, denoise) && Clearable(kv, attention, denoise)
      modifies `heap, `denoise, `kv
      ensures kv == NO_KV && denoise == NO_DENOISE && Owned(heap, nextId, kv, attention, denoise)
      ensures Keeps(old(heap), heap, AttentionContext) && Untouched(old(heap), heap, nextId)
    {
      hide Owned;
      ClearDenoise();
      OwnedFree(heap, nextId, kv, attention, denoise, KvContext, NO_KV, attention, denoise);
      if kv.context {
        FreeContext(KvContext);
      } else {
        NothingThere(heap, nextId, kv, attention, denoise, KvContext);
      }
      kv := NO_KV;
    }

    method ClearAttention()
      requires Owned(heap, nextId, kv, attention, denoise) && Clearable(kv, attention, denoise)
      modifies `heap, `denoise, `attention
      ensures attention == NO_ATTENTION && denoise == NO_DENOISE && Owned(heap, nextId, kv, attention, denoise)
      ensures Keeps(old(heap), heap, KvContext)
    {
      hide Owned;
      ClearDenoise();
      OwnedFree(heap, nextId, kv, attention, denoise, AttentionContext, kv, NO_ATTENTION, denoise);
      if attention.context {
        FreeContext(AttentionContext);
      } else {
        NothingThere(heap, nextId, kv, attention, denoise, AttentionContext);
      }
      attention := NO_ATTENTION;
    }

    // ---------------------------------------------------------------- prefix KV

    method NewK(i: nat, size: nat)
      requires Owned(heap, nextId, kv, attention, denoise) && i < |kv.k| && kv.k[i] == NULL
      modifies `heap, `nextId, `denied, `kv
      ensures unlimited ==> denied == old(denied)
      ensures Owned(heap, nextId, kv, attention, denoise) && Extends(old(heap), heap)
      ensures nextId >= old(nextId) && Untouched(old(heap), heap, old(nextId))
      ensures |kv.k| == |old(kv.k)| && kv == old(kv).(k := old(kv.k)[i := kv.k[i]])
      ensures if kv.k[i] == NULL then denied else denied == old(denied) && Has(heap, kv.k[i], PrefixK(i), size)
    {
      hide Owned, Extends, Untouched;
      OwnedBounds(heap, nextId, kv, attention, denoise);
      NothingWritten(heap);
      var id := NewTensor(PrefixK(i), size);
      if id != NULL {
        OwnedK(old(heap), id, heap[id], kv, attention, denoise, i);
        OneMore(old(heap), heap, id, old(nextId));
      } else {
        assert kv.k[i := id] == kv.k;
      }
      kv := kv.(k := kv.k[i := id]);
    }

    method NewV(i: nat, size: nat)
      requires Owned(heap, nextId, kv, attention, denoise) && i < |kv.v| && kv.v[i] == NULL
      modifies `heap, `nextId, `denied, `kv
      ensures unlimited ==> denied == old(denied)
      ensures Owned(heap, nextId, kv, attention, denoise) && Extends(old(heap), heap)
      ensures nextId >= old(nextId) && Untouched(old(heap), heap, old(nextId))
      ensures |kv.v| == |old(kv.v)| && kv == old(kv).(v := old(kv.v)[i := kv.v[i]])
      ensures if kv.v[i] == NULL then denied else denied == old(denied) && Has(heap, kv.v[i], PrefixV(i), size)
    {
      hide Owned, Extends, Untouched;
      OwnedBounds(heap, nextId, kv, attention, denoise);
      NothingWritten(heap);
      var id := NewTensor(PrefixV(i), size);
      if id != NULL {
        OwnedV(old(heap), id, heap[id], kv, attention, denoise, i);
        OneMore(old(heap), heap, id, old(nextId));
      } else {
        assert kv.v[i := id] == kv.v;
      }
      kv := kv.(v := kv.v[i := id]);
    }

    /** The pair of tensors of layer `i`. */
    method CreateLayer(i: nat, n: nat) returns (ok: bool)
      requires Owned(heap, nextId, kv, attention, denoise)
      requires KvPart(config, heap, kv, n, i) && i < |config.cross|
      modifies `heap, `nextId, `denied, `kv
      ensures unlimited ==> denied == old(denied)
      ensures Owned(heap, nextId, kv, attention, denoise) && Extends(old(heap), heap)
      ensures nextId >= old(nextId) && Untouched(old(heap), heap, old(nextId))
      ensures kv.context && kv.prefixLen == -1
      ensures if ok then denied == old(denied) && KvPart(config, heap, kv, n, i + 1) else denied
    {
      hide Owned, Has, Extends, Untouched, Config.KvSize;
      ghost var before, since := heap, nextId;
      NewK(i, config.KvSize(i, n));
      if kv.k[i] == NULL { return false; }
      ghost var middle, id := heap, nextId;
      NewV(i, config.KvSize(i, n));
      ExtendsTwice(before, middle, heap);
      UntouchedSince(before, middle, heap, since, id);
      if kv.v[i] == NULL { return false; }
      HasKept(middle, heap, kv.k[i], PrefixK(i), config.KvSize(i, n));
      KvPartNext(config, before, heap, old(kv), n, i, kv.k[i], kv.v[i]);
      ok := true;
    }

    /** One pair of tensors a layer, in an open context; stops at the first refusal. */
    method CreateKvTensors(n: nat) returns (ok: bool)
      requires n > 0 && kv == Kv(-1, true, false, seq(|config.cross|, i => NULL), seq(|config.cross|, i => NULL))
      requires Owned(heap, nextId, kv, attention, denoise)
      modifies `heap, `nextId, `denied, `kv
      ensures unlimited ==> denied == old(denied)
      ensures Owned(heap, nextId, kv, attention, denoise) && Extends(old(heap), heap)
      ensures nextId >= old(nextId) && Untouched(old(heap), heap, old(nextId))
      ensures kv.context && kv.prefixLen == -1
      ensures if ok then denied == old(denied) else denied
      ensures ok ==> KvFull(config, heap, kv.(buffer := true, prefixLen := n))
    {
      hide Owned, Has, KvPart, KvFull, Extends, Untouched, Config.KvSize;
      KvPartNone(config, heap, kv, n);
      NothingWritten(heap);
      for i := 0 to |config.cross|
        invariant denied == old(denied) && KvPart(config, heap, kv, n, i) && kv.context && kv.prefixLen == -1
        invariant Owned(heap, nextId, kv, attention, denoise) && Extends(old(heap), heap)
        invariant nextId >= old(nextId) && Untouched(old(heap), heap, old(nextId))
      {
        ghost var before, since := heap, nextId;
        var made := CreateLayer(i, n);
        ExtendsTwice(old(heap), before, heap);
        UntouchedSince(old(heap), before, heap, old(nextId), since);
        if !made { return false; }
      }
      KvPartDone(config, heap, kv, n);
      ok := true;
    }

    /** Everything after the early return: cleared, then built again, or cleared once more. */
    method RebuildPrefixKv(n: nat) returns (ok: bool)
      requires n > 0 && Owned(heap, nextId, kv, attention, denoise) && Clearable(kv, attention, denoise)
      modifies `heap, `nextId, `denied, `kv, `denoise
      ensures unlimited ==> denied == old(denied)
      ensures Owned(heap, nextId, kv, attention, denoise) && KvOk(config, heap, kv) && denoise == NO_DENOISE
      ensures if ok then kv.prefixLen == n && denied == old(denied) else denied
      ensures Keeps(old(heap), heap, AttentionContext)
      ensures nextId >= old(nextId) && Untouched(old(heap), heap, old(nextId))
    {
      hide Owned, Has, Keeps, Untouched, Extends, Config.KvSize;
      ClearPrefixKv();
      ghost var cleared, since, none := heap, nextId, kv;
      ok := Allow();
      if !ok {
        ClearPrefixKv();
        KeepsTwice(old(heap), cleared, heap, AttentionContext);
        UntouchedSince(old(heap), cleared, heap, since, since);
        return;
      }
      kv := kv.(context := true, k := seq(|config.cross|, i => NULL), v := seq(|config.cross|, i => NULL));
      OwnedSame(heap, nextId, none, attention, denoise, kv, attention, denoise);
      ok := CreateKvTensors(n);
      ExtendsKeeps(cleared, heap);
      KeepsTwice(old(heap), cleared, heap, AttentionContext);
      UntouchedSince(old(heap), cleared, heap, since, since);
      ghost var made := heap;
      if ok {
        ok := Allow();
      }
      if !ok {
        ClearPrefixKv();
        KeepsTwice(old(heap), made, heap, AttentionContext);
        UntouchedSince(old(heap), made, heap, since, nextId);
        return;
      }
      OwnedSame(heap, nextId, kv, attention, denoise, kv.(buffer := true, prefixLen := n), attention, denoise);
      kv := kv.(buffer := true, prefixLen := n);
    }

    method EnsurePrefixKv(n: int) returns (ok: bool)
      requires Valid()
      modifies `heap, `nextId, `denied, `kv, `denoise
      ensures unlimited ==> denied == old(denied)
      ensures Valid()
      ensures ok ==> n > 0 && kv.prefixLen == n && denied == old(denied)
      ensures !ok ==> n <= 0 || denied
      ensures Keeps(old(heap), heap, AttentionContext)
      ensures nextId >= old(nextId) && Untouched(old(heap), heap, old(nextId))
    {
      hide Owned, Filled, Has, StepsNumbered, Config.KvSize, Config.SelfSize, Config.CrossSize;
      if n <= 0 { return false; }
      if kv.prefixLen == n && kv.context && kv.buffer { return true; }
      ok := RebuildPrefixKv(n);
      AttentionKept(config, old(heap), heap, attention, mask);
    }

    // ---------------------------------------------------------------- attention

    method NewAttention(name: Name, size: nat) returns (id: Id)
      requires HomeOf(name) == AttentionContext && Slot(kv, attention, denoise, name) == NULL
      requires Owned(heap, nextId, kv, attention, denoise)
      modifies `heap, `nextId, `denied, `attention
      ensures unlimited ==> denied == old(denied)
      ensures Owned(heap, nextId, kv, attention, denoise) && Extends(old(heap), heap)
      ensures attention == Holding(old(attention), name, id)
      ensures if id == NULL then denied else denied == old(denied) && Has(heap, id, name, size)
    {
      id := NewTensor(name, size);
      if id != NULL {
        OwnedNew(old(heap), id, heap[id], kv, attention, denoise, kv, Holding(attention, name, id), denoise);
      }
      attention := Holding(attention, name, id);
    }

    /** All four are created before any is checked. */
    method FourTensors(n: nat) returns (ok: bool)
      requires config.Sound() && n > 0 && attention == NO_ATTENTION.(context := true)
      requires Owned(heap, nextId, kv, attention, denoise)
      modifies `heap, `nextId, `denied, `attention
      ensures unlimited ==> denied == old(denied)
      ensures Owned(heap, nextId, kv, attention, denoise) && Extends(old(heap), heap)
      ensures attention.context && !attention.buffer && !attention.prepared && attention.prefixLen == -1
      ensures if ok then denied == old(denied) else denied
      ensures ok ==> AttentionFull(config, heap, attention.(buffer := true, prefixLen := n))
    {
      hide Owned, Has, Extends, Config.SelfSize, Config.CrossSize;
      var selfPos := NewAttention(SelfPos, config.chunk);
      ghost var first := heap;
      var crossPos := NewAttention(CrossPos, config.chunk);
      ghost var second := heap;
      var selfBias := NewAttention(SelfBias, config.SelfSize(n));
      ghost var third := heap;
      var crossBias := NewAttention(CrossBias, config.CrossSize(n));
      ExtendsTwice(second, third, heap);
      ExtendsTwice(first, second, heap);
      ExtendsTwice(old(heap), first, heap);
      ok := attention.selfPos != NULL && attention.crossPos != NULL
            && attention.selfBias != NULL && attention.crossBias != NULL;
      if ok {
        HasKept(first, heap, selfPos, SelfPos, config.chunk);
        HasKept(second, heap, crossPos, CrossPos, config.chunk);
        HasKept(third, heap, selfBias, SelfBias, config.SelfSize(n));
      }
    }

    method RebuildAttention(n: nat) returns (ok: bool)
      requires config.Sound() && n > 0
      requires Owned(heap, nextId, kv, attention, denoise) && Clearable(kv, attention, denoise)
      modifies `heap, `nextId, `denied, `attention, `denoise
      ensures unlimited ==> denied == old(denied)
      ensures Owned(heap, nextId, kv, attention, denoise) && denoise == NO_DENOISE
      ensures if ok then denied == old(denied) else denied
      ensures if ok then AttentionFull(config, heap, attention) && attention.prefixLen == n && !attention.prepared
              else attention == NO_ATTENTION
      ensures Keeps(old(heap), heap, KvContext)
    {
      hide Owned, Has, Config.SelfSize, Config.CrossSize;
      ClearAttention();
      ok := Allow();
      if !ok {
        ClearAttention();
        return;
      }
      ghost var none := attention;
      attention := attention.(context := true);
      OwnedSame(heap, nextId, kv, none, denoise, kv, attention, denoise);
      ok := FourTensors(n);
      if ok {
        ok := Allow();
      }
      if !ok {
        ClearAttention();
        return;
      }
      OwnedSame(heap, nextId, kv, attention, denoise, kv,
                attention.(buffer := true, prefixLen := n, prepared := false), denoise);
      attention := attention.(buffer := true, prefixLen := n, prepared := false);
    }

    method CreateAttentionTensors(n: int) returns (ok: bool)
      requires Valid()
      modifies `heap, `nextId, `denied, `attention, `denoise
      ensures unlimited ==> denied == old(denied)
      ensures Valid()
      ensures ok ==> n > 0 && attention.prefixLen == n && !attention.prepared && denied == old(denied)
      ensures !ok ==> n <= 0 || denied
      ensures Keeps(old(heap), heap, KvContext)
    {
      hide Owned, Filled, Has, StepsNumbered, Config.KvSize, Config.SelfSize, Config.CrossSize;
      if n <= 0 { return false; }
      if attention.prefixLen == n && attention.context && attention.buffer && attention.selfPos != NULL
         && attention.crossPos != NULL && attention.selfBias != NULL && attention.crossBias != NULL {
        OwnedSame(heap, nextId, kv, attention, denoise, kv, attention.(prepared := false), denoise);
        attention := attention.(prepared := false);
        return true;
      }
      ok := RebuildAttention(n);
      KvKept(config, old(heap), heap, kv);
    }

    /** Computes positions and masks for this valid mask and uploads them. */
    method FillAttention(valid: seq<bool>)
      requires config.Sound() && AttentionFull(config, heap, attention) && |valid| == attention.prefixLen
      modifies `heap
      ensures SameShapes(old(heap), heap) && AttentionFull(config, heap, attention)
      ensures Filled(config, heap, attention, valid)
      ensures Keeps(old(heap), heap, KvContext) && Keeps(old(heap), heap, StepContext)
    {
      hide SelfMask, CrossMask, SelfPositions, CrossPositions, PadTo, Filled, SameShapes, Keeps;
      hide Config.SelfSize, Config.CrossSize;
      ghost var before := heap;
      var selfBias, selfPos := BuildSelfMask(valid, config.chunk, config.pad);
      var crossBias, crossPos := BuildCrossMask(valid, config.chunk, config.pad);
      SizesOf(config, valid);
      UploadedShapes(config, before, attention, selfPos, crossPos, selfBias, crossBias);
      UploadedKeeps(config, before, attention, selfPos, crossPos, selfBias, crossBias);
      UploadedFills(config, before, attention, valid);
      WriteTensor(attention.selfPos, selfPos);
      WriteTensor(attention.crossPos, crossPos);
      WriteTensor(attention.selfBias, selfBias);
      WriteTensor(attention.crossBias, crossBias);
      assert heap == Uploaded(before, attention, selfPos, crossPos, selfBias, crossBias);
    }

    /** The masks of this valid mask, in tensors of its length. */
    method UploadMasks(valid: seq<bool>)
      requires Valid() && AttentionFull(config, heap, attention) && |valid| == attention.prefixLen
      modifies `heap, `attention, `mask
      ensures Valid() && mask == valid && attention == old(attention).(prepared := true)
      ensures Keeps(old(heap), heap, KvContext)
    {
      hide Owned, Has, KvOk, DenoiseReady, Filled, SameShapes, Keeps, Config.SelfSize, Config.CrossSize;
      FillAttention(valid);
      ShapesAll(config, old(heap), heap, nextId, kv, attention, denoise, scheduled);
      Prepared(config, heap, nextId, kv, attention, denoise, scheduled, valid);
      attention := attention.(prepared := true);
      mask := valid;
    }

    /** A call that finds the runtime prepared at this length returns at once and keeps the old masks. */
    method PrepareAttentionCache(valid: seq<bool>, n: int) returns (ok: bool)
      requires Valid() && |valid| == n
      modifies `heap, `nextId, `denied, `attention, `denoise, `mask
      ensures unlimited ==> denied == old(denied)
      ensures Valid()
      ensures ok ==> n > 0 && attention.prepared && attention.prefixLen == n && denied == old(denied)
      ensures ok ==> mask == if old(attention.prepared && attention.prefixLen == n) then old(mask) else valid
      ensures !ok ==> n <= 0 || denied
      ensures Keeps(old(heap), heap, KvContext)
    {
      hide Owned, Has, KvFull, Filled, StepsNumbered, Config.KvSize, Config.SelfSize, Config.CrossSize;
      if n <= 0 { return false; }
      if attention.prepared && attention.prefixLen == n { return true; }
      if attention.prefixLen != n || attention.selfPos == NULL || attention.crossPos == NULL
         || attention.selfBias == NULL || attention.crossBias == NULL {
        ok := CreateAttentionTensors(n);
        if !ok { return; }
      }
      UploadMasks(valid);
      ok := true;
    }

    // ------------------------------------------------------------ denoise graph

    method NewStep(i: nat)
      requires Owned(heap, nextId, kv, attention, denoise) && i < |denoise.stepIds| && denoise.stepIds[i] == NULL
      modifies `heap, `nextId, `denied, `denoise
      ensures unlimited ==> denied == old(denied)
      ensures Owned(heap, nextId, kv, attention, denoise) && Extends(old(heap), heap)
      ensures |denoise.stepIds| == |old(denoise.stepIds)|
      ensures denoise == old(denoise).(stepIds := old(denoise.stepIds)[i := denoise.stepIds[i]])
      ensures if denoise.stepIds[i] == NULL then denied
              else denied == old(denied) && Has(heap, denoise.stepIds[i], StepId(i), 1)
    {
      hide Owned, Extends, Untouched;
      OwnedBounds(heap, nextId, kv, attention, denoise);
      NothingWritten(heap);
      var id := NewTensor(StepId(i), 1);
      if id != NULL {
        OwnedStep(old(heap), id, heap[id], kv, attention, denoise, i);
        OneMore(old(heap), heap, id, old(nextId));
      } else {
        assert denoise.stepIds[i := id] == denoise.stepIds;
      }
      denoise := denoise.(stepIds := denoise.stepIds[i := id]);
    }

    method NumberSteps()
      requires Owned(heap, nextId, kv, attention, denoise) && StepsThere(heap, denoise.stepIds, config.steps)
      modifies `heap
      ensures Owned(heap, nextId, kv, attention, denoise) && StepsNumbered(heap, denoise.stepIds, config.steps)
      ensures Keeps(old(heap), heap, KvContext) && Keeps(old(heap), heap, AttentionContext)
    {
      hide Owned, Has, SameShapes, Keeps;
      NothingWritten(heap);
      for i := 0 to config.steps
        invariant StepsThere(heap, denoise.stepIds, config.steps) && StepsNumbered(heap, denoise.stepIds, i)
        invariant SameShapes(old(heap), heap)
        invariant Keeps(old(heap), heap, KvContext) && Keeps(old(heap), heap, AttentionContext)
      {
        ghost var before := heap;
        assert Has(heap, denoise.stepIds[i], StepId(i), 1);
        StepIsThere(heap, denoise.stepIds[i], i);
        WriteTensor(denoise.stepIds[i], [i]);
        NumberOne(before, heap, denoise.stepIds, i, config.steps);
        ShapesTwice(old(heap), before, heap);
        KeepsTwice(old(heap), before, heap, KvContext);
        KeepsTwice(old(heap), before, heap, AttentionContext);
      }
      ShapesOwned(old(heap), heap, nextId, kv, attention, denoise);
    }

    /** The step tensors, created, allocated and then numbered. */
    method CreateSteps() returns (ok: bool)
      requires denoise
        == NO_DENOISE.(stepContext := true, graphContext := true, stepIds := seq(config.steps, i => NULL))
      requires Owned(heap, nextId, kv, attention, denoise)
      modifies `heap, `nextId, `denied, `denoise
      ensures unlimited ==> denied == old(denied)
      ensures Owned(heap, nextId, kv, attention, denoise)
      ensures Keeps(old(heap), heap, KvContext) && Keeps(old(heap), heap, AttentionContext)
      ensures denoise.stepContext && denoise.graphContext && if ok then denied == old(denied) else denied
      ensures ok ==>
        denoise == NO_DENOISE.(stepContext := true, graphContext := true, buffer := true, stepIds := denoise.stepIds)
      ensures ok ==> |denoise.stepIds| == config.steps && StepsNumbered(heap, denoise.stepIds, config.steps)
    {
      hide Owned, Extends, Untouched, Keeps, StepsMade;
      NothingWritten(heap);
      NoSteps(heap, denoise.stepIds, config.steps);
      for i := 0 to config.steps
        invariant denied == old(denied) && |denoise.stepIds| == config.steps
        invariant denoise == NO_DENOISE.(stepContext := true, graphContext := true, stepIds := denoise.stepIds)
        invariant Owned(heap, nextId, kv, attention, denoise) && Extends(old(heap), heap)
        invariant StepsMade(heap, denoise.stepIds, config.steps, i)
      {
        ghost var before, stepIds := heap, denoise.stepIds;
        NextStepIsNull(heap, stepIds, config.steps, i);
        NewStep(i);
        ExtendsTwice(old(heap), before, heap);
        ExtendsKeeps(old(heap), heap);
        if denoise.stepIds[i] == NULL { return false; }
        OneStepMore(before, heap, stepIds, config.steps, i, denoise.stepIds[i]);
      }
      ExtendsKeeps(old(heap), heap);
      AllStepsMade(heap, denoise.stepIds, config.steps);
      ok := Allow();
      if !ok { return; }
      OwnedSame(heap, nextId, kv, attention, denoise, kv, attention, denoise.(buffer := true));
      denoise := denoise.(buffer := true);
      ghost var made := heap;
      NumberSteps();
      KeepsTwice(old(heap), made, heap, KvContext);
      KeepsTwice(old(heap), made, heap, AttentionContext);
    }

    method NewInput() returns (ok: bool)
      requires Owned(heap, nextId, kv, attention, denoise) && denoise.input == NULL
      modifies `heap, `nextId, `denied, `denoise
      ensures unlimited ==> denied == old(denied)
      ensures Owned(heap, nextId, kv, attention, denoise) && Extends(old(heap), heap)
      ensures denoise == old(denoise).(input := denoise.input)
      ensures if ok then denied == old(denied) && Has(heap, denoise.input, Input, config.actions) else denied
    {
      hide Owned, Extends, Untouched;
      OwnedBounds(heap, nextId, kv, attention, denoise);
      NothingWritten(heap);
      var id := NewTensor(Input, config.actions);
      if id == NULL { return false; }
      OwnedInput(old(heap), id, heap[id], kv, attention, denoise);
      OneMore(old(heap), heap, id, old(nextId));
      denoise := denoise.(input := id);
      ok := true;
    }

    method NewOutput()
      requires Owned(heap, nextId, kv, attention, denoise) && denoise.output == NULL
      modifies `heap, `nextId, `denoise
      ensures Owned(heap, nextId, kv, attention, denoise) && Extends(old(heap), heap)
      ensures denoise == old(denoise).(output := denoise.output)
      ensures denoise.output in heap && heap[denoise.output].name == Output
    {
      hide Owned, Extends, Untouched;
      OwnedBounds(heap, nextId, kv, attention, denoise);
      var id := NewNode(Output, config.actions);
      OwnedOutput(old(heap), id, heap[id], kv, attention, denoise);
      OneMore(old(heap), heap, id, old(nextId));
      denoise := denoise.(output := id);
    }

    /** The action tensor the graph starts from, and the one it ends with. */
    method CreateEnds() returns (ok: bool)
      requires Owned(heap, nextId, kv, attention, denoise) && denoise.input == denoise.output == NULL
      modifies `heap, `nextId, `denied, `denoise
      ensures unlimited ==> denied == old(denied)
      ensures Owned(heap, nextId, kv, attention, denoise) && Extends(old(heap), heap)
      ensures denoise == old(denoise).(input := denoise.input, output := denoise.output)
      ensures if ok then denied == old(denied) else denied
      ensures ok ==> Has(heap, denoise.input, Input, config.actions)
      ensures ok ==> denoise.output in heap && heap[denoise.output].name == Output
    {
      hide Owned, Has, Extends;
      NothingWritten(heap);
      ok := NewInput();
      if !ok { return; }
      ghost var before, input := heap, denoise.input;
      NewOutput();
      ExtendsTwice(old(heap), before, heap);
      HasKept(before, heap, input, Input, config.actions);
    }

    /** Both contexts of the denoise runtime. */
    method OpenDenoise() returns (ok: bool)
      requires denoise == NO_DENOISE && Owned(heap, nextId, kv, attention, denoise)
      modifies `denied, `denoise
      ensures unlimited ==> denied == old(denied)
      ensures Owned(heap, nextId, kv, attention, denoise) && Clearable(kv.(context := true), NO_ATTENTION, denoise)
      ensures if ok then denied == old(denied) else denied
      ensures ok ==>
        denoise == NO_DENOISE.(stepContext := true, graphContext := true, stepIds := seq(config.steps, i => NULL))
    {
      ok := Allow();
      if !ok { return; }
      denoise := denoise.(graphContext := true);
      ok := Allow();
      if !ok { return; }
      denoise := denoise.(stepContext := true, stepIds := seq(config.steps, i => NULL));
    }

    /** All that the graph needs, up to the graph itself. */
    method CreateGraphTensors() returns (ok: bool)
      requires Owned(heap, nextId, kv, attention, denoise) && denoise == NO_DENOISE
      modifies `heap, `nextId, `denied, `denoise
      ensures unlimited ==> denied == old(denied)
      ensures Owned(heap, nextId, kv, attention, denoise) && Clearable(kv.(context := true), NO_ATTENTION, denoise)
      ensures Keeps(old(heap), heap, KvContext) && Keeps(old(heap), heap, AttentionContext)
      ensures if ok then GraphTensors(config, heap, denoise) && denied == old(denied) else denied
    {
      hide Owned;
      ok := OpenDenoise();
      if !ok { return; }
      ok := CreateSteps();
      if !ok { return; }
      ghost var before, stepIds := heap, denoise.stepIds;
      ok := CreateEnds();
      if !ok { return; }
      assert StepsNumbered(heap, denoise.stepIds, config.steps) by {
        forall i: nat | i < config.steps ensures heap[stepIds[i]] == before[stepIds[i]] {
          assert Has(before, stepIds[i], StepId(i), 1);
        }
      }
    }

    /** Builds the graph over the tensors as they are now, and has it scheduled. */
    method Record(n: nat)
      requires config.Sound() && Owned(heap, nextId, kv, attention, denoise) && GraphTensors(config, heap, denoise)
      requires KvFull(config, heap, kv) && AttentionFull(config, heap, attention)
      requires kv.prefixLen == attention.prefixLen == n
      modifies `denoise, `scheduled
      ensures Owned(heap, nextId, kv, attention, denoise) && denoise.ready
      ensures DenoiseOk(config, heap, kv, attention, denoise, scheduled)
    {
      hide Owned, Has, KvFull, AttentionFull, GraphTensors, StepsNumbered;
      ghost var built := denoise;
      var graph := Current(kv, attention, denoise);
      denoise := denoise.(prefixLen := n, ready := true, graph := Some(graph));
      scheduled := denoise.graph;
      OwnedSame(heap, nextId, kv, attention, built, kv, attention, denoise);
      ReadyWhen(config, heap, kv, attention, built, denoise, scheduled);
    }

    /** Everything after the early return. The graph captures the cache tensors as they are now. */
    method BuildDenoise(n: nat) returns (ok: bool)
      requires config.Sound() && Owned(heap, nextId, kv, attention, denoise) && Clearable(kv, attention, denoise)
      requires KvFull(config, heap, kv) && AttentionFull(config, heap, attention)
      requires kv.prefixLen == attention.prefixLen == n
      modifies `heap, `nextId, `denied, `denoise, `scheduled
      ensures unlimited ==> denied == old(denied)
      ensures Owned(heap, nextId, kv, attention, denoise)
      ensures Keeps(old(heap), heap, KvContext) && Keeps(old(heap), heap, AttentionContext)
      ensures if ok then denoise.ready && denied == old(denied) else denoise == NO_DENOISE && denied
      ensures DenoiseOk(config, heap, kv, attention, denoise, scheduled)
    {
      hide Owned, Has, Keeps, Untouched, GraphTensors, StepsNumbered, KvFull, AttentionFull;
      ClearDenoise();
      ghost var cleared := heap;
      ok := CreateGraphTensors();
      KeepsTwice(old(heap), cleared, heap, KvContext);
      KeepsTwice(old(heap), cleared, heap, AttentionContext);
      if ok {
        scheduled := None;
        ok := Allow();
      }
      if !ok {
        ghost var before := heap;
        ClearDenoise();
        KeepsTwice(old(heap), before, heap, KvContext);
        KeepsTwice(old(heap), before, heap, AttentionContext);
        return;
      }
      KvKept(config, old(heap), heap, kv);
      FullKept(config, old(heap), heap, attention);
      Record(n);
    }

    /** Reuses a ready graph of this length; does not look at which tensors it captured. */
    method EnsureDenoise(n: int) returns (ok: bool)
      requires Valid() && KvFull(config, heap, kv) && AttentionFull(config, heap, attention)
      requires kv.prefixLen == attention.prefixLen == n
      modifies `heap, `nextId, `denied, `denoise, `scheduled
      ensures unlimited ==> denied == old(denied)
      ensures Valid() && Keeps(old(heap), heap, KvContext) && Keeps(old(heap), heap, AttentionContext)
      ensures if ok then denoise.ready && denied == old(denied) else denied
    {
      hide Owned, Has, Filled, StepsNumbered, Config.KvSize, Config.SelfSize, Config.CrossSize;
      if denoise.ready && denoise.prefixLen == n && denoise.graphContext && denoise.graph.Some? && denoise.input != NULL
         && |denoise.stepIds| == config.steps && denoise.output != NULL {
        return true;
      }
      ok := BuildDenoise(n);
      KvKept(config, old(heap), heap, kv);
      AttentionKept(config, old(heap), heap, attention, mask);
    }

    /** The noise, into the tensor the graph starts from. */
    method Upload(noise: seq<nat>)
      requires Valid() && denoise.ready && |noise| == config.actions
      modifies `heap
      ensures Valid() && Keeps(old(heap), heap, KvContext) && Keeps(old(heap), heap, AttentionContext)
      ensures denoise.input in heap && heap[denoise.input].data == noise
    {
      hide Owned, KvFull, AttentionFull, Filled, StepsNumbered, Keeps;
      InputWritten(heap, denoise.input, noise);
      WriteTensor(denoise.input, noise);
      ShapesAll(config, old(heap), heap, nextId, kv, attention, denoise, scheduled);
      AttentionKept(config, old(heap), heap, attention, mask);
    }

    /** The output tensor, written at whatever size the graph gives it. */
    method WriteOutput(out: seq<nat>)
      requires Valid() && denoise.ready && denoise.output in heap
      modifies `heap
      ensures Valid() && Keeps(old(heap), heap, KvContext) && Keeps(old(heap), heap, AttentionContext)
      ensures denoise.output in heap && heap[denoise.output].data == out
    {
      hide Owned, KvFull, AttentionFull, Has, Filled, StepsNumbered, Keeps;
      heap := heap[denoise.output := heap[denoise.output].(data := out)];
      OutputWritten(config, old(heap), heap, nextId, kv, attention, denoise, scheduled, out);
      AttentionKept(config, old(heap), heap, attention, mask);
    }

    /** Uploads the noise, runs the graph over whatever it captured, and reads the actions back. */
    method RunGraph(noise: seq<nat>) returns (actions: seq<nat>)
      requires Valid() && denoise.ready && |noise| == config.actions
      modifies `heap
      ensures Valid() && Keeps(old(heap), heap, KvContext) && Keeps(old(heap), heap, AttentionContext)
      ensures KvFull(config, heap, kv) && AttentionFull(config, heap, attention)
      ensures actions == config.kernel(CacheInputs(config, heap, kv, attention, noise))
    {
      hide Owned, KvFull, AttentionFull, Has, Filled, StepsNumbered, Keeps, CacheInputs;
      Upload(noise);
      ghost var before := heap;
      ReadyReads(config, heap, kv, attention, denoise, scheduled);
      var out := config.kernel(Read(heap, scheduled.value));
      OutputIsThere(config, heap, kv, attention, denoise, scheduled);
      WriteOutput(out);
      CacheInputsKept(config, before, heap, kv, attention, noise);
      KeepsTwice(old(heap), before, heap, KvContext);
      KeepsTwice(old(heap), before, heap, AttentionContext);
      actions := heap[denoise.output].data;
    }

    method EvalDenoise(noise: seq<nat>) returns (actions: Option<seq<nat>>)
      requires Valid() && |noise| == config.actions
      modifies `heap, `nextId, `denied, `denoise, `scheduled
      ensures unlimited ==> denied == old(denied)
      ensures Valid() && Keeps(old(heap), heap, KvContext) && Keeps(old(heap), heap, AttentionContext)
      ensures actions.Some? ==> denied == old(denied) && attention.prepared && attention.prefixLen == kv.prefixLen
      ensures actions.None? ==> denied || !attention.prepared || attention.prefixLen != kv.prefixLen
      ensures actions.Some? ==> KvFull(config, heap, kv) && AttentionFull(config, heap, attention)
      ensures actions.Some? ==> actions.value == config.kernel(CacheInputs(config, heap, kv, attention, noise))
    {
      hide Owned, Has, Filled, StepsNumbered, Config.KvSize, Config.SelfSize, Config.CrossSize;
      if !(attention.prepared && attention.prefixLen == kv.prefixLen) { return None; }
      var ok := EnsureDenoise(kv.prefixLen);
      if !ok { return None; }
      var out := RunGraph(noise);
      actions := Some(out);
    }

    // -------------------------------------------------------- copying the prefix

    method CopyLayer(cache: LlmCache, n: nat, i: nat)
      requires config.Sound() && KvFull(config, heap, kv) && kv.prefixLen == n && AllFit(config, cache, n)
      requires i < |config.cross| && Copied(config, heap, kv, cache, n, i)
      modifies `heap
      ensures SameShapes(old(heap), heap) && KvFull(config, heap, kv) && Copied(config, heap, kv, cache, n, i + 1)
      ensures Keeps(old(heap), heap, AttentionContext) && Keeps(old(heap), heap, StepContext)
    {
      hide KvFull, AllFit, Copied, SameShapes, Keeps, Has, Config.KvSize, FreshK, FreshV, LayerFits;
      LayerHas(config, heap, kv, i);
      LayerFitsAt(config, cache, n, i);
      LayerWritten(config, heap, kv, cache, n, i);
      WriteTensor(kv.k[i], FreshK(config, cache, n, i));
      WriteTensor(kv.v[i], FreshV(config, cache, n, i));
    }

    method CopyLayers(cache: LlmCache, n: nat)
      requires Valid() && KvFull(config, heap, kv) && kv.prefixLen == n && AllFit(config, cache, n)
      modifies `heap
      ensures Valid() && KvFull(config, heap, kv) && Copied(config, heap, kv, cache, n, |config.cross|)
      ensures Keeps(old(heap), heap, AttentionContext)
    {
      hide Owned, Has, KvFull, AllFit, Filled, StepsNumbered, Copied, SameShapes, Keeps, AttentionFull, KvOk, DenoiseOk;
      NoneCopied(config, heap, kv, cache, n);
      NothingWritten(heap);
      for i := 0 to |config.cross|
        invariant SameShapes(old(heap), heap) && KvFull(config, heap, kv) && Copied(config, heap, kv, cache, n, i)
        invariant Keeps(old(heap), heap, AttentionContext) && Keeps(old(heap), heap, StepContext)
      {
        ghost var before := heap;
        CopyLayer(cache, n, i);
        ShapesTwice(old(heap), before, heap);
        KeepsTwice(old(heap), before, heap, AttentionContext);
        KeepsTwice(old(heap), before, heap, StepContext);
      }
      ShapesAll(config, old(heap), heap, nextId, kv, attention, denoise, scheduled);
      AttentionKept(config, old(heap), heap, attention, mask);
    }

    /** Every layer is checked before any is copied. */
    method PreparePrefixKv(cache: LlmCache, n: int) returns (ok: bool)
      requires Valid()
      modifies `heap, `nextId, `denied, `kv, `denoise
      ensures unlimited ==> denied == old(denied)
      ensures Valid() && Keeps(old(heap), heap, AttentionContext)
      ensures ok ==> n > 0 && kv.prefixLen == n && AllFit(config, cache, n) && denied == old(denied)
      ensures ok ==> KvFull(config, heap, kv) && Copied(config, heap, kv, cache, n, |config.cross|)
      ensures !ok ==> n <= 0 || denied || !AllFit(config, cache, n)
      ensures !ok ==> Untouched(old(heap), heap, old(nextId))
    {
      hide Owned, Has, LayerFits, Filled, StepsNumbered, Copied, Config.KvSize, Config.SelfSize, Config.CrossSize;
      ok := EnsurePrefixKv(n);
      if !ok { return; }
      ok := Allow();
      if !ok { return; }
      for i := 0 to |config.cross|
        invariant forall j: nat :: j < i ==> LayerFits(config, cache, n, j)
      {
        if !LayerFits(config, cache, n, i) { return false; }
      }
      ok := Allow();
      if !ok { return; }
      CopyLayers(cache, n);
    }

    // ------------------------------------------------------------------ driving

    method InitFixedPrefix(n: int) returns (ok: bool)
      requires Valid()
      modifies `heap, `nextId, `denied, `kv, `attention, `denoise
      ensures unlimited ==> denied == old(denied)
      ensures Valid()
      ensures ok ==> n > 0 && kv.prefixLen == attention.prefixLen == n && !attention.prepared && denied == old(denied)
      ensures !ok ==> n <= 0 || denied
    {
      hide Owned, Has, Filled, StepsNumbered, KvFull, AttentionFull;
      ok := EnsurePrefixKv(n);
      if !ok { return; }
      ok := CreateAttentionTensors(n);
    }

    /**
      * One prediction. Whatever the caches held before, a success returns what a graph built from nothing for this
      * request would compute; and it succeeds unless the request does not fit or an allocation is refused.
      */
    method Predict(r: Request) returns (actions: Option<seq<nat>>)
      requires Valid() && r.layout.raw <= r.layout.task && r.layout.state <= 1 && |r.noise| == config.actions
      modifies this
      ensures Valid()
      ensures actions.Some? <==> Acceptable(config, r) && !denied
      ensures unlimited ==> !denied
      ensures actions.Some? ==> actions.value == config.kernel(Fresh(config, r))
    {
      hide Owned, Has, Filled, StepsNumbered, KvFull, AttentionFull, AllFit, Copied;
      hide Config.KvSize, Config.SelfSize, Config.CrossSize, Fresh, CacheInputs;
      denied := false;
      var n := r.layout.Total();
      if r.layout.vision <= 0 || n <= 0 { return None; }
      if n > config.nCtx { return None; }
      var ok := InitFixedPrefix(n);
      if !ok { return None; }
      var valid, positions, seqIds := AssemblePrefix(r.layout);
      if !r.decodes { return None; }
      ok := PreparePrefixKv(r.cache, n);
      if !ok { return None; }
      ghost var copied := heap;
      ok := PrepareAttentionCache(valid, n);
      if !ok { return None; }
      CopiedKept(config, copied, heap, kv, r.cache, n, |config.cross|);
      ghost var filled := heap;
      actions := EvalDenoise(r.noise);
      if actions.Some? {
        CopiedKept(config, filled, heap, kv, r.cache, n, |config.cross|);
        CachesAreFresh(config, heap, kv, attention, r);
      }
    }

    /** Over any run of predictions, each is as if it had been the only one. */
    method PredictAll(rs: seq<Request>) returns (results: seq<Option<seq<nat>>>, ghost refused: seq<bool>)
      requires Valid()
      requires forall i :: 0 <= i < |rs| ==>
        rs[i].layout.raw <= rs[i].layout.task && rs[i].layout.state <= 1 && |rs[i].noise| == config.actions
      modifies this
      ensures Valid() && |results| == |refused| == |rs|
      ensures forall i :: 0 <= i < |rs| ==> (results[i].Some? <==> Acceptable(config, rs[i]) && !refused[i])
      ensures unlimited ==> forall i :: 0 <= i < |rs| ==> (results[i].Some? <==> Acceptable(config, rs[i]))
      ensures forall i :: 0 <= i < |rs| && results[i].Some? ==> results[i].value == config.kernel(Fresh(config, rs[i]))
    {
      hide Owned, KvOk, AttentionOk, DenoiseOk, Fresh, Acceptable;
      results, refused := [], [];
      for i := 0 to |rs|
        invariant Valid() && |results| == |refused| == i
        invariant forall j :: 0 <= j < i ==> (results[j].Some? <==> Acceptable(config, rs[j]) && !refused[j])
        invariant unlimited ==> forall j :: 0 <= j < i ==> !refused[j]
        invariant forall j :: 0 <= j < i && results[j].Some? ==> results[j].value == config.kernel(Fresh(config, rs[j]))
      {
        var actions := Predict(rs[i]);
        results, refused := results + [actions], refused + [denied];
      }
    }

    /** Whatever was done before, freeing the runtimes frees every tensor. */
    method Free()
      requires Valid()
      modifies `heap, `kv, `attention, `denoise
      ensures heap == map[]
    {
      hide Has, Filled, StepsNumbered;
      ClearDenoise();
      ClearAttention();
      ClearPrefixKv();
      NothingOwned(heap, nextId);
    }
  }
}
