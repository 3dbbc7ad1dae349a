/** The wire format byte by byte: which value stands at which offset, and which values may stand there at all. */
module Layouts {
  import opened Bytes
  import opened Faults
  import opened ProtocolSpec
  import opened ProtocolProofs
  import opened SessionSpec

  // ----------------------------------------------------------------- integers

  predicate Holds16(s: bytes, at: nat, v: int) {
    at + 2 <= |s| && v == s[at] as int + 0x100 * (s[at + 1] as int)
  }

  predicate Holds32(s: bytes, at: nat, v: int) {
    && at + 4 <= |s|
    && v == s[at] as int + 0x100 * (s[at + 1] as int) + 0x1_0000 * (s[at + 2] as int) + 0x100_0000 * (s[at + 3] as int)
  }

  /** Eight bytes: the low half, then the high half. */
  predicate Holds64(s: bytes, at: nat, v: int) {
    Holds32(s, at, v % 0x1_0000_0000) && Holds32(s, at + 4, v / 0x1_0000_0000)
  }

  lemma Two(s: bytes)
    requires |s| == 2
    ensures FromLE(s) == s[0] as int + 0x100 * (s[1] as int)
  {
    assert FromLE(s[1..]) == s[1] as int + 256 * FromLE(s[1..][1..]);
  }

  lemma Four(s: bytes)
    requires |s| == 4
    ensures FromLE(s) == s[0] as int + 0x100 * (s[1] as int) + 0x1_0000 * (s[2] as int) + 0x100_0000 * (s[3] as int)
  {
    Two(s[2..]);
    assert s[1..][1..] == s[2..];
    assert FromLE(s[1..]) == s[1] as int + 256 * FromLE(s[2..]);
  }

  lemma Eight(s: bytes)
    requires |s| == 8
    ensures FromLE(s) == FromLE(s[..4]) + 0x1_0000_0000 * FromLE(s[4..])
  {
    var t := s[4..];
    assert s[3..][1..] == t && s[2..][1..] == s[3..] && s[1..][1..] == s[2..];
    assert FromLE(s[3..]) == s[3] as int + 256 * FromLE(t);
    assert FromLE(s[2..]) == s[2] as int + 256 * FromLE(s[3..]);
    assert FromLE(s[1..]) == s[1] as int + 256 * FromLE(s[2..]);
    Four(s[..4]);
  }

  lemma Is16(s: bytes, at: nat, v: u16)
    requires at + 2 <= |s| && Get16(s[at..]) == v
    ensures Holds16(s, at, v)
  {
    Two(s[at..][..2]);
  }

  lemma Is32(s: bytes, at: nat, v: u32)
    requires at + 4 <= |s| && Get32(s[at..]) == v
    ensures Holds32(s, at, v)
  {
    Four(s[at..][..4]);
  }

  lemma Halves(low: nat, high: nat)
    requires low < 0x1_0000_0000
    ensures (low + 0x1_0000_0000 * high) % 0x1_0000_0000 == low
    ensures (low + 0x1_0000_0000 * high) / 0x1_0000_0000 == high
  {
  }

  lemma Is64(s: bytes, at: nat, v: u64)
    requires at + 8 <= |s| && Get64(s[at..]) == v
    ensures Holds64(s, at, v)
  {
    hide FromLE;
    var t := s[at..][..8];
    Eight(t);
    Four(t[..4]);
    Four(t[4..]);
    Halves(FromLE(t[..4]), FromLE(t[4..]));
  }

  /** The same values at the same distance, further on. */
  lemma Deeper(s: bytes, before: bytes, at: nat, v: int)
    ensures Holds32(s, at, v) ==> Holds32(before + s, |before| + at, v)
    ensures Holds64(s, at, v) ==> Holds64(before + s, |before| + at, v)
  {
  }

  lemma Longer(s: bytes, after: bytes, at: nat, v: int)
    ensures Holds32(s, at, v) ==> Holds32(s + after, at, v)
    ensures Holds64(s, at, v) ==> Holds64(s + after, at, v)
  {
  }

  lemma InTheMiddle(before: bytes, s: bytes, whole: bytes, at: nat, v: int)
    requires before + s <= whole
    ensures Holds32(s, at, v) ==> Holds32(whole, |before| + at, v)
  {
    assert before + s + whole[|before + s|..] == whole;
    Deeper(s, before, at, v);
    Longer(before + s, whole[|before + s|..], |before| + at, v);
  }

  // ------------------------------------------------------------------ headers

  lemma HeaderLayout(h: Header)
    ensures var s := EncodeHeader(h);
      && Holds32(s, 0, h.magic) && Holds16(s, 4, h.version) && Holds16(s, 6, h.headerSize) && Holds16(s, 8, h.op)
      && Holds16(s, 10, h.flags) && Holds32(s, 12, h.requestId) && Holds32(s, 16, h.status)
      && Holds64(s, 20, h.payloadLen) && Holds32(s, 28, h.reserved)
  {
    hide EncodeHeader, Get16, Get32, Get64, Holds16, Holds32, Holds64;
    var s := EncodeHeader(h);
    HeaderRoundTrip(h);
    assert s[0..] == s;
    Is32(s, 0, h.magic); Is16(s, 4, h.version); Is16(s, 6, h.headerSize); Is16(s, 8, h.op); Is16(s, 10, h.flags);
    Is32(s, 12, h.requestId); Is32(s, 16, h.status); Is64(s, 20, h.payloadLen); Is32(s, 28, h.reserved);
  }

  lemma OpeningBytes()
    ensures LE(0x414c5653, 4) == [0x53, 0x56, 0x4C, 0x41] && LE(4, 2) == [4, 0] && LE(32, 2) == [32, 0]
  {
    assert LE(0x41, 1) == [0x41] + LE(0, 0);
    assert LE(0x414c, 2) == [0x4C] + LE(0x41, 1);
    assert LE(0x414c56, 3) == [0x56] + LE(0x414c, 2);
    assert LE(0, 1) == [0] + LE(0, 0);
  }

  lemma Opening(h: Header)
    requires h.magic == 0x414c5653 && h.version == 4 && h.headerSize == 32
    ensures EncodeHeader(h)[..8] == [0x53, 0x56, 0x4C, 0x41, 4, 0, 32, 0]
  {
    hide LE;
    OpeningBytes();
  }

  /** Every frame opens with "SVLA", version 4 and a header of 32 bytes; its payload follows the header. */
  lemma FrameLayout(f: Frame, s: bytes)
    requires |f.payload| < 0x1_0000_0000_0000_0000 && s == FrameBytes(f)
    ensures |s| == 32 + |f.payload| && s[32..] == f.payload && s[..8] == [0x53, 0x56, 0x4C, 0x41, 4, 0, 32, 0]
    ensures Holds16(s, 8, f.op) && Holds16(s, 10, f.flags) && Holds32(s, 12, f.requestId) && Holds32(s, 16, f.status)
    ensures Holds64(s, 20, |f.payload|) && Holds32(s, 28, f.reserved)
  {
    hide EncodeHeader, Holds32, Holds64;
    var h := FrameHeader(f);
    HeaderLayout(h);
    Opening(h);
    assert s[..8] == EncodeHeader(h)[..8];
    Longer(EncodeHeader(h), f.payload, 12, f.requestId); Longer(EncodeHeader(h), f.payload, 16, f.status);
    Longer(EncodeHeader(h), f.payload, 20, |f.payload|); Longer(EncodeHeader(h), f.payload, 28, f.reserved);
  }

  // ----------------------------------------------------------------- requests

  /** The record of an image, and its 32 bytes. */
  predicate HoldsMeta(s: bytes, at: nat, image: ImagePayload) {
    && Holds32(s, at, image.format) && Holds32(s, at + 4, |image.name|) && Holds32(s, at + 8, image.width)
    && Holds32(s, at + 12, image.height) && Holds32(s, at + 16, image.channels)
    && Holds32(s, at + 20, image.strideBytes) && Holds64(s, at + 24, |image.data|)
  }

  lemma MetaLayout(image: ImagePayload)
    requires |image.name| <= U32_MAX
    ensures HoldsMeta(MetaBytes(image), 0, image)
  {
    hide MetaBytes, Get32, Get64, Holds32, Holds64;
    var s := MetaBytes(image);
    assert s + [] == s && s[0..] == s;
    MetaAtOf(image, []);
    Is32(s, 0, image.format); Is32(s, 4, |image.name|); Is32(s, 8, image.width); Is32(s, 12, image.height);
    Is32(s, 16, image.channels); Is32(s, 20, image.strideBytes); Is64(s, 24, |image.data|);
  }

  lemma MetaDeeper(s: bytes, before: bytes, at: nat, image: ImagePayload)
    ensures HoldsMeta(s, at, image) ==> HoldsMeta(before + s, |before| + at, image)
  {
    hide Holds32, Holds64;
    Deeper(s, before, at, image.format); Deeper(s, before, at + 4, |image.name|);
    Deeper(s, before, at + 8, image.width); Deeper(s, before, at + 12, image.height);
    Deeper(s, before, at + 16, image.channels); Deeper(s, before, at + 20, image.strideBytes);
    Deeper(s, before, at + 24, |image.data|);
  }

  lemma MetaLonger(s: bytes, after: bytes, at: nat, image: ImagePayload)
    ensures HoldsMeta(s, at, image) ==> HoldsMeta(s + after, at, image)
  {
    hide Holds32, Holds64;
    Longer(s, after, at, image.format); Longer(s, after, at + 4, |image.name|); Longer(s, after, at + 8, image.width);
    Longer(s, after, at + 12, image.height); Longer(s, after, at + 16, image.channels);
    Longer(s, after, at + 20, image.strideBytes); Longer(s, after, at + 24, |image.data|);
  }

  lemma {:induction false} MetasLayout(images: seq<ImagePayload>, i: nat)
    requires i < |images| && |images[i].name| <= U32_MAX
    ensures HoldsMeta(MetasBytes(images), 32 * i, images[i])
  {
    hide MetaBytes, Holds32, Holds64;
    if i == 0 {
      MetaLayout(images[0]);
      MetaLonger(MetaBytes(images[0]), MetasBytes(images[1..]), 0, images[0]);
    } else {
      MetasLayout(images[1..], i - 1);
      MetaDeeper(MetasBytes(images[1..]), MetaBytes(images[0]), 32 * (i - 1), images[i]);
    }
  }

  lemma {:induction false} F32sLayout(values: seq<u32>, j: nat)
    requires j < |values|
    ensures Holds32(F32sBytes(values), 4 * j, values[j])
  {
    hide Holds32, Holds64;
    if j == 0 {
      var s := LE(values[0], 4);
      assert s + [] == s && s[0..] == s;
      Get32Of(values[0], []);
      Is32(s, 0, values[0]);
      Longer(s, F32sBytes(values[1..]), 0, values[0]);
    } else {
      F32sLayout(values[1..], j - 1);
      Deeper(F32sBytes(values[1..]), LE(values[0], 4), 4 * (j - 1), values[j]);
    }
  }

  /** How many bytes the names and pixels of the first `i` images take. */
  function BodySizes(images: seq<ImagePayload>, i: nat): nat
    requires i <= |images|
  {
    if i == 0 then 0 else BodySizes(images, i - 1) + |images[i - 1].name| + |images[i - 1].data|
  }

  lemma {:induction false} SizesFromSecond(images: seq<ImagePayload>, i: nat)
    requires i < |images|
    ensures BodySizes(images, i + 1) == |images[0].name| + |images[0].data| + BodySizes(images[1..], i)
  {
    if i > 0 { SizesFromSecond(images, i - 1); }
  }

  /** These bytes stand at this offset. */
  predicate Stands(s: bytes, at: nat, part: bytes) {
    at + |part| <= |s| && s[at..at + |part|] == part
  }

  lemma StandsAlone(s: bytes)
    ensures Stands(s, 0, s)
  {
  }

  lemma StandsWithin(s: bytes, before: bytes, after: bytes, at: nat, part: bytes)
    ensures Stands(s, at, part) ==> Stands(before + s + after, |before| + at, part)
  {
    if Stands(s, at, part) {
      var p := before + s + after;
      forall k | 0 <= k < |part| ensures p[|before| + at + k] == part[k] {
        assert s[at..at + |part|][k] == s[at + k];
      }
    }
  }

  lemma FirstBody(image: ImagePayload, rest: bytes)
    ensures Stands(BodyBytes(image) + rest, 0, image.name)
    ensures Stands(BodyBytes(image) + rest, |image.name|, image.data)
  {
  }

  lemma StandsAfter(s: bytes, before: bytes, at: nat, part: bytes)
    ensures Stands(s, at, part) ==> Stands(before + s, |before| + at, part)
  {
    StandsWithin(s, before, [], at, part);
    assert before + s + [] == before + s;
  }

  lemma BodiesSplit(images: seq<ImagePayload>)
    requires images != []
    ensures BodiesBytes(images) == BodyBytes(images[0]) + BodiesBytes(images[1..])
    ensures |BodyBytes(images[0])| == |images[0].name| + |images[0].data|
  {
  }

  lemma {:induction false} BodiesLayout(images: seq<ImagePayload>, i: nat, at: nat)
    requires i < |images| && at == BodySizes(images, i)
    ensures Stands(BodiesBytes(images), at, images[i].name)
    ensures Stands(BodiesBytes(images), at + |images[i].name|, images[i].data)
  {
    hide Stands, BodiesBytes, BodyBytes;
    var first, rest := BodyBytes(images[0]), BodiesBytes(images[1..]);
    BodiesSplit(images);
    if i == 0 {
      FirstBody(images[0], rest);
    } else {
      SizesFromSecond(images, i - 1);
      var next := at - |first|;
      BodiesLayout(images[1..], i - 1, next);
      StandsAfter(rest, first, next, images[i].name);
      StandsAfter(rest, first, next + |images[i].name|, images[i].data);
    }
  }

  lemma {:induction false} BodiesLength(images: seq<ImagePayload>)
    ensures |BodiesBytes(images)| == BodySizes(images, |images|)
  {
    if images != [] {
      BodiesLength(images[1..]);
      SizesFromSecond(images, |images| - 1);
    }
  }

  /** Where the task starts. */
  function TaskAt(req: PredictRequest): nat {
    16 + 32 * |req.images| + 4 * |req.state| + 4 * |req.initialNoise|
  }

  function Counts(req: PredictRequest): (s: bytes)
    ensures |s| == 16
  {
    LE(|req.images|, 4) + (LE(|req.state|, 4) + (LE(|req.initialNoise|, 4) + LE(|req.task|, 4)))
  }

  lemma RegroupCounts(a: bytes, b: bytes, c: bytes, d: bytes, rest: bytes)
    ensures a + (b + (c + (d + rest))) == a + (b + (c + d)) + rest
  {
    assert b + (c + (d + rest)) == b + (c + d) + rest;
  }

  lemma RegroupFields(a: bytes, m: bytes, s: bytes, n: bytes, t: bytes, e: bytes)
    ensures a + (m + (s + (n + (t + e)))) == a + m + s + n + t + e
  {
    Associate(a, m, s + (n + (t + e)));
    Associate(a + m, s, n + (t + e));
    Associate(a + m + s, n, t + e);
    Associate(a + m + s + n, t, e);
  }

  lemma RequestParts(req: PredictRequest)
    ensures RequestBytes(req) == Counts(req) + MetasBytes(req.images) + F32sBytes(req.state)
                                 + F32sBytes(req.initialNoise) + req.task + BodiesBytes(req.images)
  {
    hide LE, MetasBytes, F32sBytes, BodiesBytes;
    var a, b, c, d := LE(|req.images|, 4), LE(|req.state|, 4), LE(|req.initialNoise|, 4), LE(|req.task|, 4);
    var m, s, n, t := MetasBytes(req.images), F32sBytes(req.state), F32sBytes(req.initialNoise), req.task;
    var e := BodiesBytes(req.images);
    RegroupCounts(a, b, c, d, m + (s + (n + (t + e))));
    RegroupFields(Counts(req), m, s, n, t, e);
  }

  predicate CountsFit(req: PredictRequest) {
    && |req.images| <= U32_MAX && |req.state| <= U32_MAX && |req.initialNoise| <= U32_MAX && |req.task| <= U32_MAX
    && forall i :: 0 <= i < |req.images| ==> |req.images[i].name| <= U32_MAX
  }

  lemma CountsLayout(req: PredictRequest)
    requires CountsFit(req)
    ensures var s := Counts(req);
      && Holds32(s, 0, |req.images|) && Holds32(s, 4, |req.state|) && Holds32(s, 8, |req.initialNoise|)
      && Holds32(s, 12, |req.task|)
  {
    hide LE, Get32, Holds32, Holds64;
    var s := Counts(req);
    assert LE(|req.task|, 4) + [] == LE(|req.task|, 4) && s[0..] == s;
    FourCounts(|req.images|, |req.state|, |req.initialNoise|, |req.task|, []);
    Is32(s, 0, |req.images|); Is32(s, 4, |req.state|); Is32(s, 8, |req.initialNoise|); Is32(s, 12, |req.task|);
  }

  /** The counts, and how long the whole is. */
  lemma RequestHead(req: PredictRequest, p: bytes)
    requires CountsFit(req) && p == RequestBytes(req)
    ensures Holds32(p, 0, |req.images|) && Holds32(p, 4, |req.state|) && Holds32(p, 8, |req.initialNoise|)
    ensures Holds32(p, 12, |req.task|)
    ensures |p| == TaskAt(req) + |req.task| + BodySizes(req.images, |req.images|)
  {
    hide Counts, Holds32, Holds64, RequestBytes;
    RequestParts(req);
    CountsLayout(req);
    BodiesLength(req.images);
    var rest := p[16..];
    assert p == Counts(req) + rest;
    Longer(Counts(req), rest, 0, |req.images|); Longer(Counts(req), rest, 4, |req.state|);
    Longer(Counts(req), rest, 8, |req.initialNoise|); Longer(Counts(req), rest, 12, |req.task|);
  }

  lemma RequestMeta(req: PredictRequest, p: bytes, i: nat)
    requires CountsFit(req) && p == RequestBytes(req) && i < |req.images|
    ensures HoldsMeta(p, 16 + 32 * i, req.images[i])
  {
    hide Counts, HoldsMeta, RequestBytes;
    RequestParts(req);
    MetasLayout(req.images, i);
    var metas := MetasBytes(req.images);
    var rest := p[16 + |metas|..];
    assert p == Counts(req) + (metas + rest);
    MetaLonger(metas, rest, 32 * i, req.images[i]);
    MetaDeeper(metas + rest, Counts(req), 32 * i, req.images[i]);
  }

  lemma RequestState(req: PredictRequest, p: bytes, j: nat)
    requires CountsFit(req) && p == RequestBytes(req) && j < |req.state|
    ensures Holds32(p, 16 + 32 * |req.images| + 4 * j, req.state[j])
  {
    hide Counts, Holds32, Holds64, RequestBytes;
    RequestParts(req);
    F32sLayout(req.state, j);
    InTheMiddle(Counts(req) + MetasBytes(req.images), F32sBytes(req.state), p, 4 * j, req.state[j]);
  }

  lemma RequestNoise(req: PredictRequest, p: bytes, j: nat)
    requires CountsFit(req) && p == RequestBytes(req) && j < |req.initialNoise|
    ensures Holds32(p, 16 + 32 * |req.images| + 4 * |req.state| + 4 * j, req.initialNoise[j])
  {
    hide Counts, Holds32, Holds64, RequestBytes;
    RequestParts(req);
    F32sLayout(req.initialNoise, j);
    InTheMiddle(Counts(req) + MetasBytes(req.images) + F32sBytes(req.state), F32sBytes(req.initialNoise), p, 4 * j,
                req.initialNoise[j]);
  }

  lemma RequestTask(req: PredictRequest, p: bytes)
    requires p == RequestBytes(req)
    ensures Stands(p, TaskAt(req), req.task)
  {
    hide Counts, Stands, RequestBytes;
    RequestParts(req);
    StandsAlone(req.task);
    StandsWithin(req.task, Counts(req) + MetasBytes(req.images) + F32sBytes(req.state) + F32sBytes(req.initialNoise),
                 BodiesBytes(req.images), 0, req.task);
  }

  /** After the task, each image's name and then its pixels. */
  lemma RequestBody(req: PredictRequest, p: bytes, i: nat, at: nat)
    requires p == RequestBytes(req) && i < |req.images| && at == TaskAt(req) + |req.task| + BodySizes(req.images, i)
    ensures Stands(p, at, req.images[i].name) && Stands(p, at + |req.images[i].name|, req.images[i].data)
  {
    hide Counts, Stands, RequestBytes, BodySizes;
    RequestParts(req);
    var before := Counts(req) + MetasBytes(req.images) + F32sBytes(req.state) + F32sBytes(req.initialNoise) + req.task;
    var bodies, first := BodiesBytes(req.images), BodySizes(req.images, i);
    BodiesLayout(req.images, i, first);
    StandsAfter(bodies, before, first, req.images[i].name);
    StandsAfter(bodies, before, first + |req.images[i].name|, req.images[i].data);
  }

  // ---------------------------------------------------------------- responses

  /** How many bytes the first `i` metrics take. */
  function MetricSizes(metrics: seq<Metric>, i: nat): nat
    requires i <= |metrics|
  {
    if i == 0 then 0 else MetricSizes(metrics, i - 1) + 12 + |metrics[i - 1].name|
  }

  lemma {:induction false} MetricSizesFromSecond(metrics: seq<Metric>, i: nat)
    requires i < |metrics|
    ensures MetricSizes(metrics, i + 1) == 12 + |metrics[0].name| + MetricSizes(metrics[1..], i)
  {
    if i > 0 { MetricSizesFromSecond(metrics, i - 1); }
  }

  /** A metric: how long its name is, its value, its name. */
  predicate HoldsMetric(s: bytes, at: nat, m: Metric) {
    Holds32(s, at, |m.name|) && Holds64(s, at + 4, m.value) && Stands(s, at + 12, m.name)
  }

  lemma MetricLayout(m: Metric)
    requires |m.name| <= U32_MAX
    ensures HoldsMetric(MetricBytes(m), 0, m)
  {
    hide LE, Get32, Get64, Holds32, Holds64;
    var s := MetricBytes(m);
    Get32Of(|m.name|, LE(m.value, 8) + m.name);
    Get64Of(m.value, m.name);
    assert s[0..] == s;
    Is32(s, 0, |m.name|);
    Is64(s, 4, m.value);
  }

  lemma MetricWithin(s: bytes, before: bytes, after: bytes, at: nat, m: Metric)
    ensures HoldsMetric(s, at, m) ==> HoldsMetric(before + s + after, |before| + at, m)
  {
    hide Holds32, Holds64, Stands;
    Deeper(s, before, at, |m.name|); Deeper(s, before, at + 4, m.value);
    Longer(before + s, after, |before| + at, |m.name|); Longer(before + s, after, |before| + at + 4, m.value);
    StandsWithin(s, before, after, at + 12, m.name);
  }

  lemma MetricLength(m: Metric)
    ensures |MetricBytes(m)| == 12 + |m.name|
  {
  }

  lemma {:induction false} MetricsLayout(metrics: seq<Metric>, i: nat)
    requires i < |metrics| && |metrics[i].name| <= U32_MAX
    ensures HoldsMetric(MetricsBytes(metrics), MetricSizes(metrics, i), metrics[i])
  {
    hide MetricBytes, HoldsMetric;
    var first, rest := MetricBytes(metrics[0]), MetricsBytes(metrics[1..]);
    if i == 0 {
      MetricLayout(metrics[0]);
      MetricWithin(first, [], rest, 0, metrics[0]);
      assert [] + first + rest == MetricsBytes(metrics);
    } else {
      MetricsLayout(metrics[1..], i - 1);
      MetricSizesFromSecond(metrics, i - 1);
      MetricWithin(rest, first, [], MetricSizes(metrics[1..], i - 1), metrics[i]);
      assert |first| == 12 + |metrics[0].name| by { MetricLength(metrics[0]); }
      assert first + rest + [] == MetricsBytes(metrics);
    }
  }

  lemma {:induction false} MetricsLength(metrics: seq<Metric>)
    ensures |MetricsBytes(metrics)| == MetricSizes(metrics, |metrics|)
  {
    hide MetricBytes;
    if metrics != [] {
      MetricsLength(metrics[1..]);
      MetricLength(metrics[0]);
      MetricSizesFromSecond(metrics, |metrics| - 1);
    }
  }

  lemma ResponseParts(resp: PredictResponse, p: bytes)
    requires p == ResponseBytes(resp) && |resp.metrics| <= U32_MAX && |resp.actions| <= U32_MAX
    ensures |p| >= 16 && p[16..] == MetricsBytes(resp.metrics) + F32sBytes(resp.actions)
    ensures Holds32(p, 0, resp.chunkSize) && Holds32(p, 4, resp.actionDim) && Holds32(p, 8, |resp.actions|)
    ensures Holds32(p, 12, |resp.metrics|)
  {
    hide LE, Get32, Holds32, MetricsBytes, F32sBytes;
    FourCounts(resp.chunkSize, resp.actionDim, |resp.actions|, |resp.metrics|,
               MetricsBytes(resp.metrics) + F32sBytes(resp.actions));
    assert p[0..] == p;
    Is32(p, 0, resp.chunkSize); Is32(p, 4, resp.actionDim); Is32(p, 8, |resp.actions|); Is32(p, 12, |resp.metrics|);
  }

  /** Four counts, and after them the metrics. */
  lemma ResponseMetric(resp: PredictResponse, p: bytes, i: nat, at: nat)
    requires p == ResponseBytes(resp) && i < |resp.metrics| <= U32_MAX && |resp.actions| <= U32_MAX
    requires |resp.metrics[i].name| <= U32_MAX && at == 16 + MetricSizes(resp.metrics, i)
    ensures Holds32(p, 0, resp.chunkSize) && Holds32(p, 4, resp.actionDim) && Holds32(p, 8, |resp.actions|)
    ensures Holds32(p, 12, |resp.metrics|) && HoldsMetric(p, at, resp.metrics[i])
  {
    hide Holds32, HoldsMetric, ResponseBytes, MetricSizes;
    var metrics, floats := MetricsBytes(resp.metrics), F32sBytes(resp.actions);
    ResponseParts(resp, p);
    assert p == p[..16] + metrics + floats;
    MetricsLayout(resp.metrics, i);
    MetricWithin(metrics, p[..16], floats, MetricSizes(resp.metrics, i), resp.metrics[i]);
  }

  /** The actions come last. */
  lemma ResponseAction(resp: PredictResponse, p: bytes, j: nat, at: nat)
    requires p == ResponseBytes(resp) && |resp.metrics| <= U32_MAX && j < |resp.actions| <= U32_MAX
    requires at == 16 + MetricSizes(resp.metrics, |resp.metrics|)
    ensures Holds32(p, at + 4 * j, resp.actions[j]) && |p| == at + 4 * |resp.actions|
  {
    hide Holds32, ResponseBytes, MetricSizes;
    var metrics, floats := MetricsBytes(resp.metrics), F32sBytes(resp.actions);
    ResponseParts(resp, p);
    assert p == p[..16] + metrics + floats;
    MetricsLength(resp.metrics);
    F32sLayout(resp.actions, j);
    Deeper(floats, p[..16] + metrics, 4 * j, resp.actions[j]);
  }

  // --------------------------------------------------------------- acceptance

  /** Without its sign, a finite float is below the bits of infinity. */
  lemma FiniteMeans(bits: u32)
    ensures IsFinite(bits) <==> bits % 0x8000_0000 < 0x7F80_0000
  {
    var exponent := bits / 0x80_0000;
    assert bits % 0x8000_0000 == exponent % 0x100 * 0x80_0000 + bits % 0x80_0000;
  }

  predicate Finite(values: seq<u32>) {
    forall i :: 0 <= i < |values| ==> values[i] % 0x8000_0000 < 0x7F80_0000
  }

  lemma AllFiniteMeans(values: seq<u32>)
    ensures AllFinite(values) <==> Finite(values)
  {
    hide IsFinite;
    forall i | 0 <= i < |values| ensures IsFinite(values[i]) <==> values[i] % 0x8000_0000 < 0x7F80_0000 {
      FiniteMeans(values[i]);
    }
  }

  /** A raw RGB image whose rows, as long as they are said to be, are all there. */
  predicate IsRawImage(image: ImagePayload) {
    var row := image.width * 3 % 0x1_0000_0000;
    var stride := if image.strideBytes == 0 then row else image.strideBytes;
    && image.format == 1 && image.width > 0 && image.height > 0 && image.channels == 3 && image.data != []
    && row <= stride && stride * image.height <= |image.data| && |image.name| <= 0xFFFF_FFFF
  }

  lemma ImageErrorMeans(image: ImagePayload)
    ensures ImageError(image).None? <==> IsRawImage(image)
  {
  }

  /** What the encoder of requests accepts; by the round trip, also what the decoder does. */
  lemma RequestAccepted(req: PredictRequest)
    ensures EncodeRequest(req).Ok? <==>
      && 1 <= |req.images| <= 0xFFFF_FFFF && |req.state| <= 0xFFFF_FFFF && |req.initialNoise| <= 0xFFFF_FFFF
      && |req.task| <= 0xFFFF_FFFF && Finite(req.state) && Finite(req.initialNoise)
      && forall i :: 0 <= i < |req.images| ==> IsRawImage(req.images[i])
  {
    hide ImageError, IsRawImage, AllFinite, Finite;
    AllFiniteMeans(req.state);
    AllFiniteMeans(req.initialNoise);
    ImagesErrorMeans(req.images, 0);
    forall i | 0 <= i < |req.images| ensures ImageError(req.images[i]).None? <==> IsRawImage(req.images[i]) {
      ImageErrorMeans(req.images[i]);
    }
  }

  lemma {:induction false} MetricsErrorMeans(metrics: seq<Metric>)
    ensures MetricsError(metrics).None? <==> forall i :: 0 <= i < |metrics| ==> 1 <= |metrics[i].name| <= 0xFFFF_FFFF
  {
    if metrics != [] {
      MetricsErrorMeans(metrics[1..]);
      assert metrics == [metrics[0]] + metrics[1..];
    }
  }

  lemma ResponseAccepted(resp: PredictResponse)
    ensures EncodeResponse(resp).Ok? <==>
      && resp.chunkSize * resp.actionDim == |resp.actions| <= 0xFFFF_FFFF && |resp.metrics| <= 0xFFFF_FFFF
      && forall i :: 0 <= i < |resp.metrics| ==> 1 <= |resp.metrics[i].name| <= 0xFFFF_FFFF
  {
    MetricsErrorMeans(resp.metrics);
  }

  lemma IsMagic(s: bytes, v: u32)
    requires Holds32(s, 0, v)
    ensures v == 0x414c5653 <==> s[..4] == [0x53, 0x56, 0x4C, 0x41]
  {
  }

  lemma IsVersion(s: bytes, v: u16)
    requires Holds16(s, 4, v)
    ensures v == 4 <==> s[4..6] == [4, 0]
  {
  }

  lemma IsSize(s: bytes, v: u16)
    requires Holds16(s, 6, v)
    ensures v == 32 <==> s[6..8] == [32, 0]
  {
  }

  lemma OneValue(s: bytes, at: nat, n: u64, k: u64)
    requires Holds64(s, at, n) && Holds64(s, at, k)
    ensures n == k
  {
    assert n % 0x1_0000_0000 == k % 0x1_0000_0000 && n / 0x1_0000_0000 == k / 0x1_0000_0000;
  }

  /** How a stream starts: too little, the first thing wrong with its header, or a frame with `n` bytes of payload. */
  lemma ParseMeans(s: bytes, n: u64)
    requires |s| >= 32 ==> Holds64(s, 20, n)
    ensures |s| < 32 ==> Parse(s) == Incomplete
    ensures |s| >= 32 ==>
      if s[..4] != [0x53, 0x56, 0x4C, 0x41] then Parse(s) == Refused(BadMagic)
      else if s[4..6] != [4, 0] then Parse(s) == Refused(BadVersion)
      else if s[6..8] != [32, 0] then Parse(s) == Refused(BadHeaderSize)
      else if n > 268_435_456 then Parse(s) == Refused(PayloadTooLarge)
      else if |s| < 32 + n then Parse(s) == Incomplete
      else Parse(s).Whole? && Parse(s).frame.payload == s[32..32 + n] && Parse(s).rest == s[32 + n..]
  {
    if |s| >= 32 {
      hide EncodeHeader, DecodeHeader, Holds16, Holds32, Holds64;
      var head := s[..32];
      HeaderLong(head);
      var h := DecodeHeader(head).value;
      HeaderBytesBack(head);
      HeaderLayout(h);
      IsMagic(head, h.magic);
      IsVersion(head, h.version);
      IsSize(head, h.headerSize);
      assert head + s[32..] == s;
      Longer(head, s[32..], 20, h.payloadLen);
      OneValue(s, 20, n, h.payloadLen);
      assert head[..4] == s[..4] && head[4..6] == s[4..6] && head[6..8] == s[6..8];
    }
  }
}
