/** The Python client's own encoder and decoder, and how they agree with the C++ ones. */
module PythonClient {
  import opened Bytes
  import opened Faults
  import opened ProtocolSpec
  import opened ProtocolProofs
  import opened Client

  // --------------------------------------------------------------- requests

  /** One image after `image_to_rgb_hwc_u8_bytes`; Python integers have no width. */
  datatype PyImage = PyImage(name: bytes, rgb: bytes, width: int, height: int, stride: int)

  /** F is the type of a Python float. Names and prompt are already encoded. */
  datatype PyObservation<F> = PyObservation(images: seq<PyImage>, state: seq<F>, initialNoise: seq<F>, prompt: bytes)

  /** `struct.pack("<f")`: the bits of the nearest 32-bit float, or None where it raises because there is none. */
  type Narrow<!F> = F -> Option<u32>

  predicate AllNarrow<F>(values: seq<F>, narrow: Narrow<F>) {
    forall i :: 0 <= i < |values| ==> narrow(values[i]).Some?
  }

  function Narrowed<F>(values: seq<F>, narrow: Narrow<F>): (r: seq<u32>)
    requires AllNarrow(values, narrow)
    ensures |r| == |values| && forall i :: 0 <= i < |r| ==> Some(r[i]) == narrow(values[i])
  {
    seq(|values|, i requires 0 <= i < |values| => narrow(values[i]).value)
  }

  /** `struct.pack("<I")` raises for an integer that does not fit. */
  predicate Packs32(v: int) {
    0 <= v < 0x1_0000_0000
  }

  predicate Packs(image: PyImage) {
    && Packs32(|image.name|) && Packs32(image.width) && Packs32(image.height) && Packs32(image.stride)
    && |image.rgb| < 0x1_0000_0000_0000_0000
  }

  predicate AllPack(images: seq<PyImage>) {
    forall i :: 0 <= i < |images| ==> Packs(images[i])
  }

  function ToPayload(image: PyImage): ImagePayload
    requires Packs(image)
  {
    ImagePayload(RAW_RGB_U8, image.width, image.height, 3, image.stride, image.name, image.rgb)
  }

  function ToPayloads(images: seq<PyImage>): (r: seq<ImagePayload>)
    requires AllPack(images)
    ensures |r| == |images| && forall i :: 0 <= i < |r| ==> r[i] == ToPayload(images[i])
  {
    seq(|images|, i requires 0 <= i < |images| => ToPayload(images[i]))
  }

  predicate Encodable<F>(obs: PyObservation<F>, narrow: Narrow<F>) {
    && obs.images != [] && AllPack(obs.images) && AllNarrow(obs.state, narrow) && AllNarrow(obs.initialNoise, narrow)
    && Packs32(|obs.images|) && Packs32(|obs.state|) && Packs32(|obs.initialNoise|) && Packs32(|obs.prompt|)
  }

  function ToRequest<F>(obs: PyObservation<F>, narrow: Narrow<F>): PredictRequest
    requires Encodable(obs, narrow)
  {
    PredictRequest(ToPayloads(obs.images), Narrowed(obs.state, narrow), Narrowed(obs.initialNoise, narrow), obs.prompt)
  }

  lemma PackedMeta(image: PyImage)
    requires Packs(image)
    ensures MetaBytes(ToPayload(image))
         == LE(RAW_RGB_U8, 4) + (LE(|image.name|, 4) + (LE(image.width, 4) + (LE(image.height, 4)
            + (LE(3, 4) + (LE(image.stride, 4) + LE(|image.rgb|, 8))))))
  {
  }

  lemma MetasNext(images: seq<ImagePayload>, i: nat, payload: bytes)
    requires i < |images|
    ensures payload + MetasBytes(images[i..]) == payload + MetaBytes(images[i]) + MetasBytes(images[i + 1..])
  {
    hide MetaBytes;
    assert images[i..][1..] == images[i + 1..];
    Associate(payload, MetaBytes(images[i]), MetasBytes(images[i + 1..]));
  }

  lemma NoMetas(images: seq<ImagePayload>, payload: bytes)
    ensures payload + MetasBytes(images[|images|..]) == payload && images[0..] == images
  {
  }

  method PackMetadata(images: seq<PyImage>) returns (r: Option<bytes>)
    ensures r.Some? <==> AllPack(images)
    ensures r.Some? ==> r.value == MetasBytes(ToPayloads(images))
  {
    hide LE, MetaBytes, MetasBytes;
    var payload := [];
    for i := 0 to |images|
      invariant forall k :: 0 <= k < i ==> Packs(images[k])
      invariant AllPack(images) ==> payload + MetasBytes(ToPayloads(images)[i..]) == MetasBytes(ToPayloads(images))
    {
      var image := images[i];
      if !Packs(image) { return None; }
      PackedMeta(image);
      if AllPack(images) { MetasNext(ToPayloads(images), i, payload); }
      payload := payload + (LE(RAW_RGB_U8, 4) + (LE(|image.name|, 4) + (LE(image.width, 4) + (LE(image.height, 4)
                 + (LE(3, 4) + (LE(image.stride, 4) + LE(|image.rgb|, 8)))))));
    }
    if AllPack(images) { NoMetas(ToPayloads(images), payload); }
    return Some(payload);
  }

  lemma FloatsNext(values: seq<u32>, i: nat)
    requires i < |values|
    ensures F32sBytes(values[i..]) == LE(values[i], 4) + F32sBytes(values[i + 1..])
  {
    assert values[i..][1..] == values[i + 1..];
  }

  method PackFloats<F>(values: seq<F>, narrow: Narrow<F>) returns (r: Option<bytes>)
    ensures r.Some? <==> AllNarrow(values, narrow)
    ensures r.Some? ==> r.value == F32sBytes(Narrowed(values, narrow))
  {
    hide LE;
    var payload := [];
    for i := 0 to |values|
      invariant AllNarrow(values[..i], narrow)
      invariant AllNarrow(values, narrow) ==>
        payload + F32sBytes(Narrowed(values, narrow)[i..]) == F32sBytes(Narrowed(values, narrow))
    {
      var packed := narrow(values[i]);
      if packed.None? { return None; }
      if AllNarrow(values, narrow) { FloatsNext(Narrowed(values, narrow), i); }
      payload := payload + LE(packed.value, 4);
      assert values[..i + 1] == values[..i] + [values[i]];
    }
    assert values[..|values|] == values;
    r := Some(payload);
  }

  lemma NextBody(images: seq<ImagePayload>, i: nat, payload: bytes)
    requires i < |images|
    ensures payload + BodiesBytes(images[i..])
         == payload + images[i].name + images[i].data + BodiesBytes(images[i + 1..])
  {
    var rest := BodiesBytes(images[i + 1..]);
    assert images[i..][1..] == images[i + 1..];
    Associate(payload, BodyBytes(images[i]), rest);
    Associate(payload, images[i].name, images[i].data);
  }

  lemma NoBodies(images: seq<ImagePayload>, payload: bytes)
    ensures payload + BodiesBytes(images[|images|..]) == payload
    ensures images[0..] == images && [] + BodiesBytes(images) == BodiesBytes(images)
  {
  }

  method PackBodies(images: seq<PyImage>) returns (payload: bytes)
    requires AllPack(images)
    ensures payload == BodiesBytes(ToPayloads(images))
  {
    hide BodiesBytes, BodyBytes;
    ghost var all := ToPayloads(images);
    payload := [];
    NoBodies(all, payload);
    for i := 0 to |images|
      invariant payload + BodiesBytes(all[i..]) == BodiesBytes(all)
    {
      NextBody(all, i, payload);
      payload := payload + images[i].name;
      payload := payload + images[i].rgb;
    }
    NoBodies(all, payload);
  }

  /**
    * The payload the Python client sends, or None where it raises: it is the C++ encoder's byte string for the same
    * fields, made without that encoder's checks.
    */
  method EncodePredictObservation<F>(obs: PyObservation<F>, narrow: Narrow<F>) returns (r: Option<bytes>)
    ensures r.Some? <==> Encodable(obs, narrow)
    ensures r.Some? ==> r.value == RequestBytes(ToRequest(obs, narrow))
  {
    hide LE, AllNarrow, Narrowed, MetasBytes, F32sBytes, BodiesBytes, ToPayloads;
    if obs.images == [] { return None; }
    if !(Packs32(|obs.images|) && Packs32(|obs.state|) && Packs32(|obs.initialNoise|) && Packs32(|obs.prompt|)) {
      return None;
    }
    var metadata := PackMetadata(obs.images);
    if metadata.None? { return None; }
    var state := PackFloats(obs.state, narrow);
    if state.None? { return None; }
    var noise := PackFloats(obs.initialNoise, narrow);
    if noise.None? { return None; }
    var bodies := PackBodies(obs.images);
    var counts := LE(|obs.images|, 4) + (LE(|obs.state|, 4) + (LE(|obs.initialNoise|, 4) + LE(|obs.prompt|, 4)));
    var scalars := state.value + (noise.value + (obs.prompt + bodies));
    assert counts + (metadata.value + scalars) == RequestBytes(ToRequest(obs, narrow));
    return Some(counts + (metadata.value + scalars));
  }

  function Widened<F>(values: seq<u32>, widen: u32 -> F): (r: seq<F>)
    ensures |r| == |values| && forall i :: 0 <= i < |r| ==> r[i] == widen(values[i])
  {
    seq(|values|, i requires 0 <= i < |values| => widen(values[i]))
  }

  function FromPayload(image: ImagePayload): PyImage {
    PyImage(image.name, image.data, image.width, image.height, image.strideBytes)
  }

  /** The observation with a request's own fields; `widen` turns a 32-bit float into a Python float. */
  function FromRequest<F>(req: PredictRequest, widen: u32 -> F): PyObservation<F> {
    PyObservation(seq(|req.images|, i requires 0 <= i < |req.images| => FromPayload(req.images[i])),
                  Widened(req.state, widen), Widened(req.initialNoise, widen), req.task)
  }

  /** Widening loses nothing of a finite value. */
  ghost predicate Exact<F>(widen: u32 -> F, narrow: Narrow<F>) {
    forall v: u32 :: IsFinite(v) ==> narrow(widen(v)) == Some(v)
  }

  lemma NarrowedBack<F>(values: seq<u32>, widen: u32 -> F, narrow: Narrow<F>)
    requires Exact(widen, narrow) && AllFinite(values)
    ensures AllNarrow(Widened(values, widen), narrow) && Narrowed(Widened(values, widen), narrow) == values
  {
    hide IsFinite;
    forall i | 0 <= i < |values| ensures narrow(Widened(values, widen)[i]) == Some(values[i]) {
      assert IsFinite(values[i]);
    }
  }

  /** On every request the C++ encoder accepts, the Python client sends the same bytes. */
  lemma SameRequestBytes<F>(req: PredictRequest, p: bytes, widen: u32 -> F, narrow: Narrow<F>)
    requires EncodeRequest(req) == Ok(p) && Exact(widen, narrow)
    ensures var obs := FromRequest(req, widen);
      Encodable(obs, narrow) && ToRequest(obs, narrow) == req && RequestBytes(ToRequest(obs, narrow)) == p
  {
    hide RequestBytes, AllFinite, AllNarrow, Narrowed, Widened, Exact;
    ImagesErrorMeans(req.images, 0);
    NarrowedBack(req.state, widen, narrow);
    NarrowedBack(req.initialNoise, widen, narrow);
    var obs := FromRequest(req, widen);
    forall i | 0 <= i < |req.images|
      ensures Packs(obs.images[i]) && ToPayload(obs.images[i]) == req.images[i]
    {
      assert ImageError(req.images[i]).None?;
    }
    assert ToPayloads(obs.images) == req.images;
  }

  /** What the Python client sends is decoded by the server exactly when the C++ encoder would have accepted it. */
  lemma PythonRequestDecodes<F>(obs: PyObservation<F>, narrow: Narrow<F>)
    requires Encodable(obs, narrow)
    ensures var req := ToRequest(obs, narrow);
      && (DecodeRequest(RequestBytes(req)).Ok? <==> RequestError(req).None?)
      && (DecodeRequest(RequestBytes(req)).Ok? ==> DecodeRequest(RequestBytes(req)) == Ok(req))
  {
    hide LE, DecodeRequest, RequestBytes, Narrowed;
    var req := ToRequest(obs, narrow);
    var p := RequestBytes(req);
    RequestCodec(req, p);
    if DecodeRequest(p).Ok? {
      var got := DecodeRequest(p).value;
      RequestCodec(got, p);
      ImagesErrorMeans(got.images, 0);
      RequestBytesInjective(req, got);
    }
  }

  // -------------------------------------------------------------- responses

  /** `timings` is keyed by the decoded name, which Python's text codec makes; a later metric replaces an earlier. */
  datatype PyResponse<K> = PyResponse(chunkSize: u32, actionDim: u32, actions: seq<u32>, timings: map<K, u64>)

  function LastWins<K>(metrics: seq<Metric>, text: bytes -> K): map<K, u64> {
    if metrics == [] then map[]
    else LastWins(metrics[..|metrics| - 1], text)[text(metrics[|metrics| - 1].name) := metrics[|metrics| - 1].value]
  }

  /** The metric loop of the Python decoder: an empty name is no error there. */
  function PyMetrics(n: nat, acc: seq<Metric>, s: bytes): Option<(seq<Metric>, bytes)>
    decreases n
  {
    if n == 0 then Some((acc, s))
    else if |s| < 12 || |s| - 12 < Get32(s) then None
    else PyMetrics(n - 1, acc + [Metric(s[12..12 + Get32(s)], Get64(s[4..]))], s[12 + Get32(s)..])
  }

  /** The fields the Python decoder finds, or None where it raises. */
  function PyFields(p: bytes): Option<PredictResponse> {
    if |p| < 16 || Get32(p[8..]) != ShapeSize(Get32(p), Get32(p[4..])) then None
    else
      match PyMetrics(Get32(p[12..]), [], p[16..])
      case None => None
      case Some((metrics, s)) =>
        if |s| != 4 * Get32(p[8..]) then None
        else
          match DecodeF32s(Get32(p[8..]), [], s, ShortResponse)
          case Err(_) => None
          case Ok((actions, _)) => Some(PredictResponse(Get32(p), Get32(p[4..]), actions, metrics))
  }

  method UnpackFloats(n: nat, s: bytes) returns (values: seq<u32>)
    requires |s| == 4 * n
    ensures DecodeF32s(n, [], s, ShortResponse) == Ok((values, []))
  {
    hide FromLE;
    values := [];
    for i := 0 to n
      invariant DecodeF32s(n - i, values, s[4 * i..], ShortResponse) == DecodeF32s(n, [], s, ShortResponse)
    {
      assert s[4 * i..][4..] == s[4 * (i + 1)..];
      values := values + [Get32(s[4 * i..])];
    }
  }

  /** One round of the metric loop, at its place in the payload. */
  lemma NextMetric(n: nat, acc: seq<Metric>, p: bytes, pos: nat)
    requires n > 0 && pos + 12 <= |p| && pos + 12 + Get32(p[pos..]) <= |p|
    ensures var end := pos + 12 + Get32(p[pos..]);
      PyMetrics(n, acc, p[pos..]) == PyMetrics(n - 1, acc + [Metric(p[pos + 12..end], Get64(p[pos..][4..]))], p[end..])
  {
    hide Get32, Get64;
    var nameLen: nat := Get32(p[pos..]);
    DropTwice(p, pos, 12 + nameLen);
    assert p[pos..][12..12 + nameLen] == p[pos + 12..pos + 12 + nameLen];
  }

  lemma NoMetric(n: nat, acc: seq<Metric>, p: bytes, pos: nat)
    requires n > 0 && pos <= |p| && (pos + 12 > |p| || pos + 12 + Get32(p[pos..]) > |p|)
    ensures PyMetrics(n, acc, p[pos..]) == None
  {
    hide Get32, Get64;
  }

  lemma NoMoreMetrics(acc: seq<Metric>, s: bytes)
    ensures PyMetrics(0, acc, s) == Some((acc, s))
  {
  }

  lemma LastWinsPush<K>(metrics: seq<Metric>, m: Metric, text: bytes -> K)
    ensures LastWins(metrics + [m], text) == LastWins(metrics, text)[text(m.name) := m.value]
  {
    assert (metrics + [m])[..|metrics|] == metrics;
  }

  lemma NoneYet<K>(text: bytes -> K)
    ensures LastWins([], text) == map[]
  {
  }

  method DecodePredictResponse<K>(payload: bytes, text: bytes -> K) returns (r: Option<PyResponse<K>>)
    ensures match PyFields(payload)
            case None => r.None?
            case Some(f) => r == Some(PyResponse(f.chunkSize, f.actionDim, f.actions, LastWins(f.metrics, text)))
  {
    hide Get32, Get64, ShapeSize, DecodeF32s, LastWins, PyMetrics;
    if |payload| < 16 { return None; }
    var chunkSize, actionDim := Get32(payload), Get32(payload[4..]);
    var actionCount, metricCount := Get32(payload[8..]), Get32(payload[12..]);
    if actionCount as int != ShapeSize(chunkSize, actionDim) { return None; }
    var pos := 16;
    var timings := map[];
    ghost var metrics := [];
    NoneYet(text);
    for i := 0 to metricCount
      invariant 16 <= pos <= |payload|
      invariant PyMetrics(metricCount - i, metrics, payload[pos..]) == PyMetrics(metricCount, [], payload[16..])
      invariant timings == LastWins(metrics, text)
    {
      var metricEnd := pos + 12;
      if |payload| < metricEnd {
        NoMetric(metricCount - i, metrics, payload, pos);
        return None;
      }
      var nameLen, value := Get32(payload[pos..]), Get64(payload[pos..][4..]);
      var nameEnd := metricEnd + nameLen;
      if |payload| < nameEnd {
        NoMetric(metricCount - i, metrics, payload, pos);
        return None;
      }
      var name := payload[metricEnd..nameEnd];
      NextMetric(metricCount - i, metrics, payload, pos);
      LastWinsPush(metrics, Metric(name, value), text);
      metrics := metrics + [Metric(name, value)];
      timings := timings[text(name) := value];
      pos := nameEnd;
    }
    NoMoreMetrics(metrics, payload[pos..]);
    var actionBytes: nat := actionCount as int * 4;
    if |payload| != pos + actionBytes { return None; }
    F32sShort(actionCount, [], payload[pos..], ShortResponse);
    var actions := UnpackFloats(actionCount, payload[pos..pos + actionBytes]);
    assert payload[pos..pos + actionBytes] == payload[pos..];
    return Some(PyResponse(chunkSize, actionDim, actions, timings));
  }

  predicate AllNamed(metrics: seq<Metric>) {
    forall i :: 0 <= i < |metrics| ==> metrics[i].name != []
  }

  lemma {:induction false} PyMetricsKeeps(n: nat, acc: seq<Metric>, s: bytes)
    requires PyMetrics(n, acc, s).Some?
    ensures acc <= PyMetrics(n, acc, s).value.0
    decreases n
  {
    hide FromLE;
    if n > 0 {
      PyMetricsKeeps(n - 1, acc + [Metric(s[12..12 + Get32(s)], Get64(s[4..]))], s[12 + Get32(s)..]);
    }
  }

  lemma {:induction false} MetricsAgree(n: nat, acc: seq<Metric>, s: bytes)
    requires AllNamed(acc)
    ensures match DecodeMetrics(n, acc, s)
            case Ok(r) => PyMetrics(n, acc, s) == Some(r) && AllNamed(r.0)
            case Err(_) => PyMetrics(n, acc, s).Some? ==> !AllNamed(PyMetrics(n, acc, s).value.0)
    decreases n
  {
    hide FromLE;
    if n > 0 && |s| >= 12 && |s| - 12 >= Get32(s) {
      var m := Metric(s[12..12 + Get32(s)], Get64(s[4..]));
      if Get32(s) == 0 {
        assert s[12 + Get32(s)..] == s[12..];
        if PyMetrics(n - 1, acc + [m], s[12..]).Some? {
          PyMetricsKeeps(n - 1, acc + [m], s[12..]);
          assert PyMetrics(n - 1, acc + [m], s[12..]).value.0[|acc|] == m;
        }
      } else {
        MetricsAgree(n - 1, acc + [m], s[12 + Get32(s)..]);
      }
    }
  }

  lemma {:induction false} ShortFaultsAgree(n: nat, acc: seq<u32>, s: bytes, a: Fault, b: Fault)
    ensures match DecodeF32s(n, acc, s, a)
            case Ok((values, rest)) => DecodeF32s(n, acc, s, b) == Ok((values, rest)) && |rest| == |s| - 4 * n
            case Err(_) => DecodeF32s(n, acc, s, b).Err?
    decreases n
  {
    hide FromLE;
    if n > 0 && |s| >= 4 {
      ShortFaultsAgree(n - 1, acc + [Get32(s)], s[4..], a, b);
    }
  }

  /**
    * The Python decoder accepts every response the C++ decoder accepts, with the same shape, actions and metrics, and
    * what it accepts beyond that are exactly the responses with an empty metric name.
    */
  lemma SameResponses(p: bytes, resp: PredictResponse)
    ensures DecodeResponse(p) == Ok(resp) <==> PyFields(p) == Some(resp) && AllNamed(resp.metrics)
  {
    hide FromLE, DecodeMetrics, PyMetrics;
    if |p| >= 16 {
      MetricsAgree(Get32(p[12..]), [], p[16..]);
      match PyMetrics(Get32(p[12..]), [], p[16..])
      case None =>
      case Some((metrics, s)) =>
        ShortFaultsAgree(Get32(p[8..]), [], s, ShortArray(Actions), ShortResponse);
        F32sShort(Get32(p[8..]), [], s, ShortResponse);
    }
  }

  /** The text codec tells this name from the others. */
  ghost predicate ToldApart<K>(metrics: seq<Metric>, text: bytes -> K, name: bytes) {
    forall i :: 0 <= i < |metrics| && text(metrics[i].name) == text(name) ==> metrics[i].name == name
  }

  predicate IsFirst(metrics: seq<Metric>, name: bytes, i: int) {
    0 <= i < |metrics| && metrics[i].name == name && forall j :: 0 <= j < i ==> metrics[j].name != name
  }

  predicate IsLast(metrics: seq<Metric>, name: bytes, i: int) {
    0 <= i < |metrics| && metrics[i].name == name && forall j :: i < j < |metrics| ==> metrics[j].name != name
  }

  lemma {:induction false} FirstValue(metrics: seq<Metric>, name: bytes, i: nat)
    requires IsFirst(metrics, name, i)
    ensures FirstNamed(metrics, name) == Some(metrics[i].value)
  {
    if i > 0 { FirstValue(metrics[1..], name, i - 1); }
  }

  lemma {:induction false} LastValue<K>(metrics: seq<Metric>, text: bytes -> K, name: bytes, i: nat)
    requires ToldApart(metrics, text, name) && IsLast(metrics, name, i)
    ensures text(name) in LastWins(metrics, text) && LastWins(metrics, text)[text(name)] == metrics[i].value
  {
    var n := |metrics| - 1;
    if i < n {
      LastValue(metrics[..n], text, name, i);
      assert text(metrics[n].name) != text(name);
    }
  }

  /** Under a name that occurs more than once, the C++ client reports the first value and the Python client the last. */
  lemma LookupsMean<K>(metrics: seq<Metric>, text: bytes -> K, name: bytes, first: nat, last: nat)
    requires ToldApart(metrics, text, name) && IsFirst(metrics, name, first) && IsLast(metrics, name, last)
    ensures FirstNamed(metrics, name) == Some(metrics[first].value)
    ensures text(name) in LastWins(metrics, text) && LastWins(metrics, text)[text(name)] == metrics[last].value
  {
    FirstValue(metrics, name, first);
    LastValue(metrics, text, name, last);
  }
}
