/** The encoders and decoders as the server runs them: bytes pushed into a vector, a reader with a moving position. */
module Protocol {
  import opened Bytes
  import opened Faults
  import opened ProtocolSpec

  /** The output vector of the encoders. */
  class ByteVector {
    var data: bytes

    constructor ()
      ensures data == []
    {
      data := [];
    }

    method Clear()
      modifies this
      ensures data == []
    {
      data := [];
    }

    method PutU16(v: u16)
      modifies this
      ensures data == old(data) + LE(v, 2)
    {
      data := data + [v % 256];
      data := data + [v / 256 % 256];
      LEAt(v, 2, 0); LEAt(v, 2, 1);
      assert ShiftRight8(v, 1) == v / 256;
      assert LE(v, 2) == [LE(v, 2)[0], LE(v, 2)[1]];
    }

    method PutU32(v: u32)
      modifies this
      ensures data == old(data) + LE(v, 4)
    {
      hide LE, ShiftRight8;
      for i := 0 to 4
        invariant data == old(data) + LE(v, 4)[..i]
      {
        LEAt(v, 4, i);
        data := data + [ShiftRight8(v, i) % 256];
      }
    }

    method PutU64(v: u64)
      modifies this
      ensures data == old(data) + LE(v, 8)
    {
      hide LE, ShiftRight8;
      for i := 0 to 8
        invariant data == old(data) + LE(v, 8)[..i]
      {
        LEAt(v, 8, i);
        data := data + [ShiftRight8(v, i) % 256];
      }
    }

    method Insert(s: bytes)
      modifies this
      ensures data == old(data) + s
    {
      data := data + s;
    }
  }

  /** The input of the decoders: a read succeeds when enough bytes remain, and then moves the position past them. */
  class Reader {
    const data: bytes
    var pos: nat

    ghost predicate Valid()
      reads this
    {
      pos <= |data|
    }

    ghost function Rest(): bytes
      requires Valid()
      reads this
    {
      data[pos..]
    }

    constructor (data: bytes)
      ensures this.data == data && Valid() && Rest() == data
    {
      this.data := data;
      pos := 0;
    }

    function Remaining(): nat
      requires Valid()
      reads this
    {
      |data| - pos
    }

    method U16() returns (r: Option<u16>)
      requires Valid()
      modifies this
      ensures Valid()
      ensures r == if |old(Rest())| < 2 then None else Some(Get16(old(Rest())))
      ensures Rest() == if r.None? then old(Rest()) else old(Rest())[2..]
    {
      if Remaining() < 2 { return None; }
      ghost var s := Rest();
      assert FromLE(s[..2]) == s[0] + 256 * FromLE(s[..2][1..]);
      assert s[..2][1..] == [s[1]];
      var v: int := data[pos] as int + data[pos + 1] as int * 256;
      pos := pos + 2;
      r := Some(v);
    }

    method U32() returns (r: Option<u32>)
      requires Valid()
      modifies this
      ensures Valid()
      ensures r == if |old(Rest())| < 4 then None else Some(Get32(old(Rest())))
      ensures Rest() == if r.None? then old(Rest()) else old(Rest())[4..]
    {
      if Remaining() < 4 { return None; }
      var v := 0;
      ghost var s := Rest();
      for i := 0 to 4
        invariant pos == old(pos)
        invariant v == FromLE(s[..i])
      {
        FromLEPush(s[..i], s[i]);
        assert s[..i] + [s[i]] == s[..i + 1];
        v := v + data[pos + i] * Pow256(i);
      }
      Widths(); FromLEBound(s[..4]);
      pos := pos + 4;
      r := Some(v);
    }

    method U64() returns (r: Option<u64>)
      requires Valid()
      modifies this
      ensures Valid()
      ensures r == if |old(Rest())| < 8 then None else Some(Get64(old(Rest())))
      ensures Rest() == if r.None? then old(Rest()) else old(Rest())[8..]
    {
      if Remaining() < 8 { return None; }
      var v := 0;
      ghost var s := Rest();
      for i := 0 to 8
        invariant pos == old(pos)
        invariant v == FromLE(s[..i])
      {
        FromLEPush(s[..i], s[i]);
        assert s[..i] + [s[i]] == s[..i + 1];
        v := v + data[pos + i] * Pow256(i);
      }
      Widths(); FromLEBound(s[..8]);
      pos := pos + 8;
      r := Some(v);
    }

    method Bytes(n: nat) returns (r: Option<bytes>)
      requires Valid()
      modifies this
      ensures Valid()
      ensures r == if |old(Rest())| < n then None else Some(old(Rest())[..n])
      ensures Rest() == if r.None? then old(Rest()) else old(Rest())[n..]
    {
      if Remaining() < n { return None; }
      r := Some(data[pos..pos + n]);
      assert r.value == Rest()[..n];
      pos := pos + n;
    }
  }

  // ------------------------------------------------------------- validation

  method ValidateF32Array(values: seq<u32>, field: Field) returns (fault: Option<Fault>)
    ensures fault == FiniteError(values, field)
  {
    for i := 0 to |values|
      invariant forall k :: 0 <= k < i ==> IsFinite(values[k])
    {
      if !IsFinite(values[i]) {
        return Some(NonFinite(field));
      }
    }
    return None;
  }

  method ValidateImages(images: seq<ImagePayload>) returns (fault: Option<Fault>)
    ensures fault == ImagesError(images, 0)
  {
    for i := 0 to |images|
      invariant ImagesError(images, 0) == ImagesError(images, i)
    {
      var f := ImageError(images[i]);
      if f.Some? {
        return Some(BadImage(i, f.value));
      }
    }
    return None;
  }

  // ---------------------------------------------------------------- headers

  method WriteHeader(h: Header, out: ByteVector)
    modifies out
    ensures out.data == EncodeHeader(h)
  {
    hide LE;
    out.Clear();
    out.PutU32(h.magic); out.PutU16(h.version); out.PutU16(h.headerSize); out.PutU16(h.op); out.PutU16(h.flags);
    out.PutU32(h.requestId); out.PutU32(h.status); out.PutU64(h.payloadLen); out.PutU32(h.reserved);
  }

  method ReadHeader(data: bytes) returns (r: Result<Header>)
    ensures r == DecodeHeader(data)
  {
    hide FromLE;
    if |data| < 32 { return Err(ShortHeader); }
    var reader := new Reader(data);
    var magic := reader.U32();
    var version := reader.U16();
    var headerSize := reader.U16();
    var op := reader.U16();
    var flags := reader.U16();
    assert reader.Rest() == data[12..];
    var requestId := reader.U32();
    var status := reader.U32();
    var payloadLen := reader.U64();
    assert reader.Rest() == data[28..];
    var reserved := reader.U32();
    return Ok(Header(magic.value, version.value, headerSize.value, op.value, flags.value,
                     requestId.value, status.value, payloadLen.value, reserved.value));
  }

  // --------------------------------------------------------------- requests

  /** The checks that come before the first byte is written. */
  method CheckRequest(req: PredictRequest) returns (fault: Option<Fault>)
    ensures fault == RequestError(req)
  {
    hide IsFinite;
    if req.images == [] { return Some(NoImages); }
    fault := First(CountError(|req.images|, Images), First(CountError(|req.state|, State),
             First(CountError(|req.initialNoise|, InitialNoise), CountError(|req.task|, Task))));
    if fault.Some? { return; }
    fault := ValidateF32Array(req.state, State);
    if fault.Some? { return; }
    fault := ValidateF32Array(req.initialNoise, InitialNoise);
    if fault.Some? { return; }
    fault := ValidateImages(req.images);
  }

  /** The four counts; `rest` is what has to follow. */
  method WriteCounts(req: PredictRequest, out: ByteVector, ghost rest: bytes)
    requires |req.images| <= U32_MAX && |req.state| <= U32_MAX && |req.initialNoise| <= U32_MAX && |req.task| <= U32_MAX
    requires out.data == []
    modifies out
    ensures out.data + rest == LE(|req.images|, 4) + (LE(|req.state|, 4) + (LE(|req.initialNoise|, 4)
                                + (LE(|req.task|, 4) + rest)))
  {
    hide LE;
    ghost var a, b, c, d := LE(|req.images|, 4), LE(|req.state|, 4), LE(|req.initialNoise|, 4), LE(|req.task|, 4);
    out.PutU32(|req.images|); out.PutU32(|req.state|); out.PutU32(|req.initialNoise|); out.PutU32(|req.task|);
    assert [] + a == a;
    Associate(a + b + c, d, rest);
    Associate(a + b, c, d + rest);
    Associate(a, b, c + (d + rest));
  }

  method WriteMeta(image: ImagePayload, out: ByteVector)
    requires |image.name| <= U32_MAX
    modifies out
    ensures out.data == old(out.data) + MetaBytes(image)
  {
    hide LE;
    ghost var s, a, b, c := out.data, LE(image.format, 4), LE(|image.name|, 4), LE(image.width, 4);
    ghost var d, e, f := LE(image.height, 4), LE(image.channels, 4), LE(image.strideBytes, 4);
    ghost var g := LE(|image.data|, 8);
    out.PutU32(image.format); out.PutU32(|image.name|); out.PutU32(image.width);
    out.PutU32(image.height); out.PutU32(image.channels); out.PutU32(image.strideBytes);
    out.PutU64(|image.data|);
    Associate(s + a + b + c + d + e, f, g);
    Associate(s + a + b + c + d, e, f + g);
    Associate(s + a + b + c, d, e + (f + g));
    Associate(s + a + b, c, d + (e + (f + g)));
    Associate(s + a, b, c + (d + (e + (f + g))));
    Associate(s, a, b + (c + (d + (e + (f + g)))));
  }

  method WriteMetas(images: seq<ImagePayload>, out: ByteVector)
    requires forall k :: 0 <= k < |images| ==> |images[k].name| <= U32_MAX
    modifies out
    ensures out.data == old(out.data) + MetasBytes(images)
  {
    hide MetaBytes;
    for i := 0 to |images|
      invariant out.data + MetasBytes(images[i..]) == old(out.data) + MetasBytes(images)
    {
      assert images[i..][1..] == images[i + 1..];
      Associate(out.data, MetaBytes(images[i]), MetasBytes(images[i + 1..]));
      WriteMeta(images[i], out);
    }
  }

  method WriteF32s(values: seq<u32>, out: ByteVector)
    modifies out
    ensures out.data == old(out.data) + F32sBytes(values)
  {
    hide LE;
    for i := 0 to |values|
      invariant out.data + F32sBytes(values[i..]) == old(out.data) + F32sBytes(values)
    {
      assert values[i..][1..] == values[i + 1..];
      out.PutU32(values[i]);
    }
  }

  method WriteBodies(images: seq<ImagePayload>, out: ByteVector)
    modifies out
    ensures out.data == old(out.data) + BodiesBytes(images)
  {
    for i := 0 to |images|
      invariant out.data + BodiesBytes(images[i..]) == old(out.data) + BodiesBytes(images)
    {
      assert images[i..][1..] == images[i + 1..];
      out.Insert(images[i].name);
      out.Insert(images[i].data);
    }
  }

  method WriteFields(req: PredictRequest, out: ByteVector)
    requires |req.images| <= U32_MAX && |req.state| <= U32_MAX && |req.initialNoise| <= U32_MAX && |req.task| <= U32_MAX
    requires forall k :: 0 <= k < |req.images| ==> |req.images[k].name| <= U32_MAX
    requires out.data == []
    modifies out
    ensures out.data == RequestBytes(req)
  {
    hide LE, MetasBytes, F32sBytes, BodiesBytes;
    ghost var t6 := req.task + BodiesBytes(req.images);
    ghost var t5 := F32sBytes(req.initialNoise) + t6;
    ghost var t4 := F32sBytes(req.state) + t5;
    ghost var t3 := MetasBytes(req.images) + t4;
    WriteCounts(req, out, t3);
    ghost var sofar := out.data;
    WriteMetas(req.images, out);
    Associate(sofar, MetasBytes(req.images), t4);
    sofar := out.data;
    WriteF32s(req.state, out);
    Associate(sofar, F32sBytes(req.state), t5);
    sofar := out.data;
    WriteF32s(req.initialNoise, out);
    Associate(sofar, F32sBytes(req.initialNoise), t6);
    sofar := out.data;
    out.Insert(req.task);
    Associate(sofar, req.task, BodiesBytes(req.images));
    WriteBodies(req.images, out);
  }

  lemma NamesFitWhenAccepted(images: seq<ImagePayload>, i: nat)
    requires i <= |images| && ImagesError(images, i).None?
    ensures forall k :: i <= k < |images| ==> |images[k].name| <= U32_MAX
    decreases |images| - i
  {
    if i < |images| {
      NamesFitWhenAccepted(images, i + 1);
    }
  }

  method WriteRequest(req: PredictRequest, out: ByteVector) returns (fault: Option<Fault>)
    modifies out
    ensures fault == RequestError(req)
    ensures out.data == if fault.Some? then [] else RequestBytes(req)
  {
    hide LE, FiniteError;
    out.Clear();
    fault := CheckRequest(req);
    if fault.Some? { return; }
    NamesFitWhenAccepted(req.images, 0);
    WriteFields(req, out);
  }

  method ReadMeta(reader: Reader) returns (r: Result<Meta>)
    requires reader.Valid()
    modifies reader
    ensures reader.Valid()
    ensures match MetaStep(old(reader.Rest()))
            case Err(f) => r == Err(f)
            case Ok((m, rest)) => r == Ok(m) && reader.Rest() == rest
  {
    hide FromLE;
    ghost var s := reader.Rest();
    var format := reader.U32();
    if format.None? { return Err(ShortImageMetadata); }
    var nameLen := reader.U32();
    if nameLen.None? { return Err(ShortImageMetadata); }
    var width := reader.U32();
    if width.None? { return Err(ShortImageMetadata); }
    var height := reader.U32();
    if height.None? { return Err(ShortImageMetadata); }
    var channels := reader.U32();
    if channels.None? { return Err(ShortImageMetadata); }
    var stride := reader.U32();
    if stride.None? { return Err(ShortImageMetadata); }
    assert reader.Rest() == s[24..];
    var dataLen := reader.U64();
    if dataLen.None? { return Err(ShortImageMetadata); }
    var m := Meta(format.value, width.value, height.value, channels.value, stride.value, nameLen.value, dataLen.value);
    if m.format != RAW_RGB_U8 { return Err(UnsupportedImageFormat); }
    if m.width == 0 || m.height == 0 || m.channels != 3 { return Err(InvalidDimensions); }
    return Ok(m);
  }

  method ReadMetas(n: u32, reader: Reader) returns (r: Result<seq<Meta>>)
    requires reader.Valid()
    modifies reader
    ensures reader.Valid()
    ensures match DecodeMetas(n, [], old(reader.Rest()))
            case Err(f) => r == Err(f)
            case Ok((metas, rest)) => r == Ok(metas) && reader.Rest() == rest
  {
    hide FromLE;
    var metas := [];
    for i := 0 to n
      invariant reader.Valid() && |metas| == i
      invariant DecodeMetas(n - i, metas, reader.Rest()) == DecodeMetas(n, [], old(reader.Rest()))
    {
      ghost var s := reader.Rest();
      var m := ReadMeta(reader);
      if m.Err? { return Err(m.fault); }
      metas := metas + [m.value];
    }
    return Ok(metas);
  }

  method ReadF32s(n: u32, reader: Reader, short: Fault) returns (r: Result<seq<u32>>)
    requires reader.Valid()
    modifies reader
    ensures reader.Valid()
    ensures match DecodeF32s(n, [], old(reader.Rest()), short)
            case Err(f) => r == Err(f)
            case Ok((values, rest)) => r == Ok(values) && reader.Rest() == rest
  {
    hide FromLE;
    var values := [];
    for i := 0 to n
      invariant reader.Valid() && |values| == i
      invariant DecodeF32s(n - i, values, reader.Rest(), short) == DecodeF32s(n, [], old(reader.Rest()), short)
    {
      var v := reader.U32();
      if v.None? { return Err(short); }
      values := values + [v.value];
    }
    return Ok(values);
  }

  method ReadFinite(n: u32, reader: Reader, field: Field) returns (r: Result<seq<u32>>)
    requires reader.Valid()
    modifies reader
    ensures reader.Valid()
    ensures match DecodeFinite(n, old(reader.Rest()), field)
            case Err(f) => r == Err(f)
            case Ok((values, rest)) => r == Ok(values) && reader.Rest() == rest
  {
    r := ReadF32s(n, reader, ShortArray(field));
    if r.Err? { return; }
    var fault := ValidateF32Array(r.value, field);
    if fault.Some? { return Err(fault.value); }
  }

  lemma RestIs(reader: Reader)
    requires reader.Valid()
    ensures reader.Remaining() == |reader.Rest()|
  {
  }

  method ReadBody(m: Meta, i: nat, reader: Reader) returns (r: Result<ImagePayload>)
    requires reader.Valid()
    modifies reader
    ensures reader.Valid()
    ensures match BodyStep(m, i, old(reader.Rest()))
            case Err(f) => r == Err(f)
            case Ok((image, rest)) => r == Ok(image) && reader.Rest() == rest
  {
    hide ImageError, Reader.Rest;
    ghost var s := reader.Rest();
    var name := reader.Bytes(m.nameLen);
    if name.None? { return Err(ShortImageName); }
    RestIs(reader);
    if m.dataLen > reader.Remaining() { return Err(ImageExceedsPayload); }
    var data := reader.Bytes(m.dataLen);
    TakeAfter(s, m.nameLen, m.dataLen);
    DropTwice(s, m.nameLen, m.dataLen);
    var image := ImagePayload(m.format, m.width, m.height, m.channels, m.strideBytes, name.value, data.value);
    var fault := ImageError(image);
    if fault.Some? { return Err(BadImage(i, fault.value)); }
    return Ok(image);
  }

  method ReadFields(metas: seq<Meta>, stateDim: u32, noiseDim: u32, taskLen: u32, reader: Reader)
    returns (r: Result<PredictRequest>)
    requires reader.Valid()
    modifies reader
    ensures r == DecodeFields(metas, stateDim, noiseDim, taskLen, old(reader.Rest()))
  {
    hide FromLE, Stride, IsFinite;
    var scalarBytes := (stateDim + noiseDim) * 4;
    if scalarBytes > reader.Remaining() || taskLen > reader.Remaining() - scalarBytes {
      return Err(FieldsExceedPayload);
    }
    var state := ReadFinite(stateDim, reader, State);
    if state.Err? { return Err(state.fault); }
    var noise := ReadFinite(noiseDim, reader, InitialNoise);
    if noise.Err? { return Err(noise.fault); }
    var task := reader.Bytes(taskLen);
    if task.None? { return Err(ShortTask); }
    ghost var start := reader.Rest();
    var images := [];
    for i := 0 to |metas|
      invariant reader.Valid() && |images| == i
      invariant DecodeBodies(metas, images, reader.Rest()) == DecodeBodies(metas, [], start)
    {
      var image := ReadBody(metas[i], i, reader);
      if image.Err? { return Err(image.fault); }
      images := images + [image.value];
    }
    if reader.Remaining() != 0 { return Err(TrailingRequestBytes); }
    return Ok(PredictRequest(images, state.value, noise.value, task.value));
  }

  /** The four counts both payloads start with. */
  method ReadCounts(reader: Reader) returns (r: Option<(u32, u32, u32, u32)>)
    requires reader.Valid()
    modifies reader
    ensures reader.Valid()
    ensures r.None? <==> |old(reader.Rest())| < 16
    ensures r.Some? ==> var s := old(reader.Rest());
      && r.value == (Get32(s), Get32(s[4..]), Get32(s[8..]), Get32(s[12..])) && reader.Rest() == s[16..]
  {
    hide Get32, Reader.Rest;
    ghost var s := reader.Rest();
    var first := reader.U32();
    if first.None? { return None; }
    var second := reader.U32();
    if second.None? { return None; }
    DropTwice(s, 4, 4);
    var third := reader.U32();
    if third.None? { return None; }
    DropTwice(s, 8, 4);
    var fourth := reader.U32();
    if fourth.None? { return None; }
    DropTwice(s, 12, 4);
    return Some((first.value, second.value, third.value, fourth.value));
  }

  method ReadRequest(payload: bytes) returns (r: Result<PredictRequest>)
    ensures r == DecodeRequest(payload)
  {
    hide Get32, DecodeMetas, DecodeFields, Reader.Rest;
    var reader := new Reader(payload);
    var counts := ReadCounts(reader);
    if counts.None? { return Err(ShortRequest); }
    var (imageCount, stateDim, noiseDim, taskLen) := counts.value;
    if imageCount == 0 { return Err(NoImages); }
    RestIs(reader);
    if imageCount > reader.Remaining() / 32 { return Err(TooManyImages); }
    var metas := ReadMetas(imageCount, reader);
    if metas.Err? { return Err(metas.fault); }
    r := ReadFields(metas.value, stateDim, noiseDim, taskLen, reader);
  }

  // -------------------------------------------------------------- responses

  method CheckMetrics(metrics: seq<Metric>) returns (fault: Option<Fault>)
    ensures fault == MetricsError(metrics)
  {
    for i := 0 to |metrics|
      invariant MetricsError(metrics) == MetricsError(metrics[i..])
    {
      assert metrics[i..][1..] == metrics[i + 1..];
      if metrics[i].name == [] { return Some(EmptyMetricName); }
      fault := CountError(|metrics[i].name|, MetricName);
      if fault.Some? { return; }
    }
    return None;
  }

  lemma {:induction false} MetricNamesFit(metrics: seq<Metric>)
    requires MetricsError(metrics).None?
    ensures forall k :: 0 <= k < |metrics| ==> |metrics[k].name| <= U32_MAX
  {
    if metrics != [] {
      MetricNamesFit(metrics[1..]);
      assert forall k :: 1 <= k < |metrics| ==> metrics[k] == metrics[1..][k - 1];
    }
  }

  method WriteMetrics(metrics: seq<Metric>, out: ByteVector)
    requires forall k :: 0 <= k < |metrics| ==> |metrics[k].name| <= U32_MAX
    modifies out
    ensures out.data == old(out.data) + MetricsBytes(metrics)
  {
    hide LE;
    for i := 0 to |metrics|
      invariant out.data + MetricsBytes(metrics[i..]) == old(out.data) + MetricsBytes(metrics)
    {
      assert metrics[i..][1..] == metrics[i + 1..];
      ghost var before := out.data;
      out.PutU32(|metrics[i].name|);
      out.PutU64(metrics[i].value);
      out.Insert(metrics[i].name);
      assert out.data == before + MetricBytes(metrics[i]);
    }
  }

  method WriteResponseFields(resp: PredictResponse, out: ByteVector)
    requires |resp.actions| <= U32_MAX && |resp.metrics| <= U32_MAX
    requires forall k :: 0 <= k < |resp.metrics| ==> |resp.metrics[k].name| <= U32_MAX
    requires out.data == []
    modifies out
    ensures out.data == ResponseBytes(resp)
  {
    hide LE, MetricsBytes, F32sBytes;
    out.PutU32(resp.chunkSize); out.PutU32(resp.actionDim); out.PutU32(|resp.actions|); out.PutU32(|resp.metrics|);
    WriteMetrics(resp.metrics, out);
    WriteF32s(resp.actions, out);
  }

  method WriteResponse(resp: PredictResponse, out: ByteVector) returns (fault: Option<Fault>)
    modifies out
    ensures fault == ResponseError(resp)
    ensures out.data == if fault.Some? then [] else ResponseBytes(resp)
  {
    hide LE;
    out.Clear();
    if ShapeSize(resp.chunkSize, resp.actionDim) != |resp.actions| { return Some(ShapeMismatch); }
    fault := First(CountError(|resp.actions|, Actions), CountError(|resp.metrics|, Metrics));
    if fault.Some? { return; }
    fault := CheckMetrics(resp.metrics);
    if fault.Some? { return; }
    MetricNamesFit(resp.metrics);
    WriteResponseFields(resp, out);
  }

  method ReadMetric(reader: Reader) returns (r: Result<Metric>)
    requires reader.Valid()
    modifies reader
    ensures reader.Valid()
    ensures match MetricStep(old(reader.Rest()))
            case Err(f) => r == Err(f)
            case Ok((m, rest)) => r == Ok(m) && reader.Rest() == rest
  {
    hide FromLE;
    ghost var s := reader.Rest();
    var nameLen := reader.U32();
    if nameLen.None? { return Err(ShortMetric); }
    var value := reader.U64();
    if value.None? { return Err(ShortMetric); }
    var name := reader.Bytes(nameLen.value);
    if name.None? { return Err(ShortMetricName); }
    assert name.value == s[12..12 + nameLen.value];
    if name.value == [] { return Err(EmptyMetricName); }
    return Ok(Metric(name.value, value.value));
  }

  method ReadMetrics(n: u32, reader: Reader) returns (r: Result<seq<Metric>>)
    requires reader.Valid()
    modifies reader
    ensures reader.Valid()
    ensures match DecodeMetrics(n, [], old(reader.Rest()))
            case Err(f) => r == Err(f)
            case Ok((metrics, rest)) => r == Ok(metrics) && reader.Rest() == rest
  {
    hide FromLE, MetricStep;
    var metrics := [];
    for i := 0 to n
      invariant reader.Valid() && |metrics| == i
      invariant DecodeMetrics(n - i, metrics, reader.Rest()) == DecodeMetrics(n, [], old(reader.Rest()))
    {
      var m := ReadMetric(reader);
      if m.Err? { return Err(m.fault); }
      metrics := metrics + [m.value];
    }
    return Ok(metrics);
  }

  method ReadResponse(payload: bytes) returns (r: Result<PredictResponse>)
    ensures r == DecodeResponse(payload)
  {
    hide Get32, DecodeMetrics, DecodeF32s, Reader.Rest, ShapeSize;
    var reader := new Reader(payload);
    var counts := ReadCounts(reader);
    if counts.None? { return Err(ShortResponse); }
    var (chunkSize, actionDim, actionCount, metricCount) := counts.value;
    if ShapeSize(chunkSize, actionDim) != actionCount { return Err(ShapeMismatch); }
    var metrics := ReadMetrics(metricCount, reader);
    if metrics.Err? { return Err(metrics.fault); }
    var actions := ReadF32s(actionCount, reader, ShortArray(Actions));
    if actions.Err? { return Err(actions.fault); }
    RestIs(reader);
    if reader.Remaining() != 0 { return Err(TrailingResponseBytes); }
    return Ok(PredictResponse(chunkSize, actionDim, actions.value, metrics.value));
  }
}
