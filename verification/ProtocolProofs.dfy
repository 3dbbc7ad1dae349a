/** The wire format loses nothing: every encoder and its decoder are inverse bijections. */
module ProtocolProofs {
  import opened Bytes
  import opened Faults
  import opened ProtocolSpec

  // ---------------------------------------------------------------- headers

  lemma HeaderRoundTrip(h: Header)
    ensures DecodeHeader(EncodeHeader(h)) == Ok(h)
  {
    hide LE, FromLE;
    var s8 := LE(h.reserved, 4);
    var s7 := LE(h.payloadLen, 8) + s8;
    var s6 := LE(h.status, 4) + s7;
    var s5 := LE(h.requestId, 4) + s6;
    var s4 := LE(h.flags, 2) + s5;
    var s3 := LE(h.op, 2) + s4;
    var s2 := LE(h.headerSize, 2) + s3;
    var s1 := LE(h.version, 2) + s2;
    var s := LE(h.magic, 4) + s1;
    Get32Of(h.magic, s1); Get16Of(h.version, s2); Get16Of(h.headerSize, s3); Get16Of(h.op, s4);
    Get16Of(h.flags, s5); Get32Of(h.requestId, s6); Get32Of(h.status, s7); Get64Of(h.payloadLen, s8);
    Get32Of(h.reserved, []); assert s8 + [] == s8;
    assert s[4..] == s1; assert s[6..] == s2; assert s[8..] == s3; assert s[10..] == s4;
    assert s[12..] == s5; assert s[16..] == s6; assert s[20..] == s7; assert s[28..] == s8;
  }

  lemma HeaderLong(s: bytes)
    requires |s| >= 32
    ensures DecodeHeader(s).Ok?
  {
  }

  lemma HeaderBytesBack(s: bytes)
    requires |s| == 32
    ensures EncodeHeader(DecodeHeader(s).value) == s
  {
    hide LE, FromLE, Get16, Get32, Get64;
    var h := DecodeHeader(s).value;
    var t8 := LE(h.reserved, 4);
    assert t8 == s[28..] by { OfGet32(s, 28); }
    var t7 := LE(h.payloadLen, 8) + t8;
    assert t7 == s[20..] by { OfGet64(s, 20); }
    var t6 := LE(h.status, 4) + t7;
    assert t6 == s[16..] by { OfGet32(s, 16); }
    var t5 := LE(h.requestId, 4) + t6;
    assert t5 == s[12..] by { OfGet32(s, 12); }
    var t4 := LE(h.flags, 2) + t5;
    assert t4 == s[10..] by { OfGet16(s, 10); }
    var t3 := LE(h.op, 2) + t4;
    assert t3 == s[8..] by { OfGet16(s, 8); }
    var t2 := LE(h.headerSize, 2) + t3;
    assert t2 == s[6..] by { OfGet16(s, 6); }
    var t1 := LE(h.version, 2) + t2;
    assert t1 == s[4..] by { OfGet16(s, 4); }
    assert LE(h.magic, 4) + t1 == s by { OfGet32(s, 0); assert s[0..] == s; }
  }

  /** On 32 bytes the header codec is a bijection. */
  lemma HeaderCodec(h: Header, s: bytes)
    requires |s| == 32
    ensures EncodeHeader(h) == s <==> DecodeHeader(s) == Ok(h)
  {
    HeaderRoundTrip(h);
    HeaderBytesBack(s);
  }

  // --------------------------------------------------------------- requests

  function MetaOf(image: ImagePayload): Meta
    requires |image.name| <= U32_MAX
  {
    Meta(image.format, image.width, image.height, image.channels, image.strideBytes, |image.name|, |image.data|)
  }

  predicate NamesFit(images: seq<ImagePayload>) {
    forall i :: 0 <= i < |images| ==> |images[i].name| <= U32_MAX
  }

  function MetasOf(images: seq<ImagePayload>): (ms: seq<Meta>)
    requires NamesFit(images)
    ensures |ms| == |images| && forall i :: 0 <= i < |ms| ==> ms[i] == MetaOf(images[i])
  {
    if images == [] then [] else
    assert NamesFit(images[1..]);
    [MetaOf(images[0])] + MetasOf(images[1..])
  }

  predicate AllImagesOk(images: seq<ImagePayload>) {
    forall i :: 0 <= i < |images| ==> ImageError(images[i]).None?
  }

  lemma {:induction false} ImagesErrorMeans(images: seq<ImagePayload>, i: nat)
    requires i <= |images|
    ensures ImagesError(images, i).None?
        <==> forall k :: i <= k < |images| ==> ImageError(images[k]).None?
    decreases |images| - i
  {
    if i < |images| {
      ImagesErrorMeans(images, i + 1);
    }
  }

  lemma MetaAtOf(image: ImagePayload, rest: bytes)
    requires |image.name| <= U32_MAX
    ensures MetaAt(MetaBytes(image) + rest) == MetaOf(image) && (MetaBytes(image) + rest)[32..] == rest
  {
    hide LE, FromLE;
    var s6 := LE(|image.data|, 8) + rest;
    var s5 := LE(image.strideBytes, 4) + s6;
    var s4 := LE(image.channels, 4) + s5;
    var s3 := LE(image.height, 4) + s4;
    var s2 := LE(image.width, 4) + s3;
    var s1 := LE(|image.name|, 4) + s2;
    var s := LE(image.format, 4) + s1;
    assert MetaBytes(image) + rest == s;
    Get32Of(image.format, s1); Get32Of(|image.name|, s2); Get32Of(image.width, s3); Get32Of(image.height, s4);
    Get32Of(image.channels, s5); Get32Of(image.strideBytes, s6); Get64Of(|image.data|, rest);
    assert s[4..] == s1; assert s[8..] == s2; assert s[12..] == s3; assert s[16..] == s4;
    assert s[20..] == s5; assert s[24..] == s6; assert s[32..] == rest;
  }

  lemma MetaRoundTrip(image: ImagePayload, rest: bytes)
    requires ImageError(image).None?
    ensures MetaStep(MetaBytes(image) + rest) == Ok((MetaOf(image), rest))
  {
    hide MetaBytes, MetaAt;
    MetaAtOf(image, rest);
  }

  /** The bytes of a metadata record, rebuilt from its fields. */
  function MetaRecord(m: Meta): bytes {
    LE(m.format, 4) + (LE(m.nameLen, 4) + (LE(m.width, 4) + (LE(m.height, 4)
    + (LE(m.channels, 4) + (LE(m.strideBytes, 4) + LE(m.dataLen, 8))))))
  }

  lemma MetaRecordBack(s: bytes)
    requires |s| == 32
    ensures MetaRecord(MetaAt(s)) == s
  {
    hide LE, FromLE, Get32, Get64;
    var m := MetaAt(s);
    var t6 := LE(m.dataLen, 8);
    assert t6 == s[24..] by { OfGet64(s, 24); }
    var t5 := LE(m.strideBytes, 4) + t6;
    assert t5 == s[20..] by { OfGet32(s, 20); }
    var t4 := LE(m.channels, 4) + t5;
    assert t4 == s[16..] by { OfGet32(s, 16); }
    var t3 := LE(m.height, 4) + t4;
    assert t3 == s[12..] by { OfGet32(s, 12); }
    var t2 := LE(m.width, 4) + t3;
    assert t2 == s[8..] by { OfGet32(s, 8); }
    var t1 := LE(m.nameLen, 4) + t2;
    assert t1 == s[4..] by { OfGet32(s, 4); }
    assert LE(m.format, 4) + t1 == s by { OfGet32(s, 0); assert s[0..] == s; }
  }

  lemma MetaBytesBack(s: bytes)
    requires MetaStep(s).Ok?
    ensures var (m, rest) := MetaStep(s).value; MetaRecord(m) + rest == s
  {
    hide LE, FromLE;
    MetaRecordBack(s[..32]);
    assert s[..32][4..][..4] == s[4..][..4] && s[..32][8..][..4] == s[8..][..4] && s[..32][12..][..4] == s[12..][..4];
    assert s[..32][16..][..4] == s[16..][..4] && s[..32][20..][..4] == s[20..][..4];
    assert s[..32][24..][..8] == s[24..][..8];
    assert s[..32][..4] == s[..4];
    assert MetaAt(s[..32]) == MetaAt(s);
  }

  lemma {:induction false} MetasRoundTrip(images: seq<ImagePayload>, acc: seq<Meta>, rest: bytes)
    requires AllImagesOk(images) && NamesFit(images)
    ensures DecodeMetas(|images|, acc, MetasBytes(images) + rest) == Ok((acc + MetasOf(images), rest))
    decreases |images|
  {
    hide MetaStep, MetaBytes;
    if images == [] {
      assert MetasBytes(images) + rest == rest;
      assert acc + MetasOf(images) == acc;
    } else {
      var tail := MetasBytes(images[1..]) + rest;
      assert MetasBytes(images) + rest == MetaBytes(images[0]) + tail;
      MetaRoundTrip(images[0], tail);
      MetasRoundTrip(images[1..], acc + [MetaOf(images[0])], rest);
      assert acc + MetasOf(images) == acc + [MetaOf(images[0])] + MetasOf(images[1..]);
    }
  }

  function MetaRecords(ms: seq<Meta>): bytes {
    if ms == [] then [] else MetaRecord(ms[0]) + MetaRecords(ms[1..])
  }

  lemma {:induction false} MetaRecordsOf(images: seq<ImagePayload>)
    requires NamesFit(images)
    ensures MetaRecords(MetasOf(images)) == MetasBytes(images)
  {
    if images != [] {
      MetaRecordsOf(images[1..]);
      assert MetasOf(images)[1..] == MetasOf(images[1..]);
    }
  }

  lemma PrefixPush<T>(s: seq<T>, acc: seq<T>, x: T)
    requires |s| > |acc| && s[..|acc| + 1] == acc + [x]
    ensures s[..|acc|] == acc && s[|acc|] == x && s[|acc|..] == [x] + s[|acc| + 1..]
  {
    assert s[|acc|] == s[..|acc| + 1][|acc|];
    assert s[..|acc|] == s[..|acc| + 1][..|acc|];
  }

  lemma {:induction false} MetasBytesBack(n: nat, acc: seq<Meta>, s: bytes)
    requires DecodeMetas(n, acc, s).Ok?
    ensures var (ms, rest) := DecodeMetas(n, acc, s).value;
      && |ms| == |acc| + n && ms[..|acc|] == acc && MetaRecords(ms[|acc|..]) + rest == s
    decreases n
  {
    hide MetaRecord, MetaStep;
    var (ms, rest) := DecodeMetas(n, acc, s).value;
    if n > 0 {
      var (m, tail) := MetaStep(s).value;
      MetaBytesBack(s);
      MetasBytesBack(n - 1, acc + [m], tail);
      PrefixPush(ms, acc, m);
      assert MetaRecords(ms[|acc|..]) + rest == MetaRecord(m) + (MetaRecords(ms[|acc| + 1..]) + rest);
    } else {
      assert ms[|acc|..] == [];
    }
  }

  lemma {:induction false} F32sRoundTrip(values: seq<u32>, acc: seq<u32>, rest: bytes, short: Fault)
    ensures DecodeF32s(|values|, acc, F32sBytes(values) + rest, short) == Ok((acc + values, rest))
    decreases |values|
  {
    hide LE, FromLE;
    if values == [] {
      assert F32sBytes(values) + rest == rest;
      assert acc + values == acc;
    } else {
      var tail := F32sBytes(values[1..]) + rest;
      assert F32sBytes(values) + rest == LE(values[0], 4) + tail;
      Get32Of(values[0], tail);
      F32sRoundTrip(values[1..], acc + [values[0]], rest, short);
      assert acc + [values[0]] + values[1..] == acc + values;
    }
  }

  lemma FloatsNext(values: seq<u32>, k: nat, rest: bytes)
    requires k < |values|
    ensures F32sBytes(values[k..]) + rest == LE(values[k], 4) + (F32sBytes(values[k + 1..]) + rest)
  {
    hide LE;
    assert values[k..][1..] == values[k + 1..];
    Associate(LE(values[k], 4), F32sBytes(values[k + 1..]), rest);
  }

  lemma NoFloats(values: seq<u32>, rest: bytes)
    ensures F32sBytes(values[|values|..]) + rest == rest
  {
  }

  lemma {:induction false} F32sBytesBack(n: nat, acc: seq<u32>, s: bytes, short: Fault)
    requires DecodeF32s(n, acc, s, short).Ok?
    ensures var (values, rest) := DecodeF32s(n, acc, s, short).value;
      |values| == |acc| + n && values[..|acc|] == acc && F32sBytes(values[|acc|..]) + rest == s
    decreases n
  {
    hide LE, FromLE, Get32, F32sBytes;
    var (values, rest) := DecodeF32s(n, acc, s, short).value;
    if n > 0 {
      F32sBytesBack(n - 1, acc + [Get32(s)], s[4..], short);
      PrefixPush(values, acc, Get32(s));
      OfGet32(s, 0);
      assert s[0..] == s;
      FloatsNext(values, |acc|, rest);
    } else {
      NoFloats(values, rest);
    }
  }

  lemma {:induction false} F32sShort(n: nat, acc: seq<u32>, s: bytes, short: Fault)
    ensures DecodeF32s(n, acc, s, short).Ok? <==> |s| >= 4 * n
    decreases n
  {
    if n > 0 && |s| >= 4 {
      F32sShort(n - 1, acc + [Get32(s)], s[4..], short);
    }
  }

  lemma BodyRoundTrip(image: ImagePayload, i: nat, rest: bytes)
    requires ImageError(image).None?
    ensures BodyStep(MetaOf(image), i, BodyBytes(image) + rest) == Ok((image, rest))
  {
    var s := BodyBytes(image) + rest;
    assert s[..|image.name|] == image.name;
    assert s[|image.name|..|image.name| + |image.data|] == image.data;
    assert s[|image.name| + |image.data|..] == rest;
  }

  lemma BodyBytesBack(m: Meta, i: nat, s: bytes)
    requires BodyStep(m, i, s).Ok?
    ensures var (image, rest) := BodyStep(m, i, s).value;
      && |image.name| <= U32_MAX && MetaOf(image) == m && ImageError(image).None?
      && BodyBytes(image) + rest == s
  {
  }

  lemma {:induction false} BodiesRoundTrip(images: seq<ImagePayload>, k: nat, rest: bytes)
    requires k <= |images| && NamesFit(images) && AllImagesOk(images)
    ensures DecodeBodies(MetasOf(images), images[..k], BodiesBytes(images[k..]) + rest) == Ok((images, rest))
    decreases |images| - k
  {
    if k == |images| {
      assert images[..k] == images;
      assert BodiesBytes(images[k..]) + rest == rest;
    } else {
      var tail := BodiesBytes(images[k + 1..]) + rest;
      assert images[k..][1..] == images[k + 1..];
      assert BodiesBytes(images[k..]) + rest == BodyBytes(images[k]) + tail;
      BodyRoundTrip(images[k], k, tail);
      assert images[..k] + [images[k]] == images[..k + 1];
      BodiesRoundTrip(images, k + 1, rest);
    }
  }

  /** The image that a body of this record was read into. */
  ghost predicate ReadFrom(image: ImagePayload, m: Meta) {
    |image.name| <= U32_MAX && MetaOf(image) == m && ImageError(image).None?
  }

  lemma BodyReadBack(m: Meta, i: nat, s: bytes)
    requires BodyStep(m, i, s).Ok?
    ensures var (image, rest) := BodyStep(m, i, s).value; ReadFrom(image, m) && BodyBytes(image) + rest == s
  {
    hide BodyStep, MetaOf, ImageError, BodyBytes;
    BodyBytesBack(m, i, s);
  }

  lemma BodiesNext(images: seq<ImagePayload>, k: nat, rest: bytes)
    requires k < |images|
    ensures BodiesBytes(images[k..]) + rest == BodyBytes(images[k]) + (BodiesBytes(images[k + 1..]) + rest)
  {
    hide BodyBytes;
    assert images[k..][1..] == images[k + 1..];
    Associate(BodyBytes(images[k]), BodiesBytes(images[k + 1..]), rest);
  }

  lemma NoBodies(images: seq<ImagePayload>, rest: bytes)
    ensures BodiesBytes(images[|images|..]) + rest == rest
  {
  }

  lemma {:induction false} BodiesBytesBack(metas: seq<Meta>, acc: seq<ImagePayload>, s: bytes)
    requires |acc| <= |metas| && DecodeBodies(metas, acc, s).Ok?
    ensures var (images, rest) := DecodeBodies(metas, acc, s).value;
      && |images| == |metas| && images[..|acc|] == acc && BodiesBytes(images[|acc|..]) + rest == s
      && (forall i :: |acc| <= i < |images| ==> ReadFrom(images[i], metas[i]))
    decreases |metas| - |acc|
  {
    hide BodyStep, BodyBytes, ReadFrom, BodiesBytes;
    var (images, rest) := DecodeBodies(metas, acc, s).value;
    if |acc| < |metas| {
      var (image, tail) := BodyStep(metas[|acc|], |acc|, s).value;
      BodyReadBack(metas[|acc|], |acc|, s);
      BodiesBytesBack(metas, acc + [image], tail);
      PrefixPush(images, acc, image);
      BodiesNext(images, |acc|, rest);
    } else {
      NoBodies(images, rest);
    }
  }

  lemma FieldsRoundTrip(req: PredictRequest, s3: bytes, extra: bytes)
    requires RequestError(req).None? && NamesFit(req.images) && s3 == BodiesBytes(req.images) + extra
    ensures DecodeFields(MetasOf(req.images), |req.state|, |req.initialNoise|, |req.task|,
                         F32sBytes(req.state) + (F32sBytes(req.initialNoise) + (req.task + s3)))
         == if extra == [] then Ok(req) else Err(TrailingRequestBytes)
  {
    hide F32sBytes, BodiesBytes, MetasOf, DecodeF32s, DecodeBodies;
    var s2 := req.task + s3;
    var s1 := F32sBytes(req.initialNoise) + s2;
    F32sRoundTrip(req.state, [], s1, ShortArray(State));
    F32sRoundTrip(req.initialNoise, [], s2, ShortArray(InitialNoise));
    assert [] + req.state == req.state && [] + req.initialNoise == req.initialNoise;
    assert s2[..|req.task|] == req.task && s2[|req.task|..] == s3;
    ImagesErrorMeans(req.images, 0);
    BodiesRoundTrip(req.images, 0, extra);
    assert req.images[0..] == req.images && req.images[..0] == [];
  }

  lemma FourCounts(a: u32, b: u32, c: u32, d: u32, rest: bytes)
    ensures var p := LE(a, 4) + (LE(b, 4) + (LE(c, 4) + (LE(d, 4) + rest)));
      && |p| == 16 + |rest| && Get32(p) == a && Get32(p[4..]) == b && Get32(p[8..]) == c && Get32(p[12..]) == d
      && p[16..] == rest
  {
    hide LE, Get32;
    var s3 := LE(d, 4) + rest;
    var s2 := LE(c, 4) + s3;
    var s1 := LE(b, 4) + s2;
    var p := LE(a, 4) + s1;
    Get32Of(a, s1); Get32Of(b, s2); Get32Of(c, s3); Get32Of(d, rest);
    DropTwice(p, 4, 4); DropTwice(p, 8, 4); DropTwice(p, 12, 4);
  }

  lemma AcceptedImages(req: PredictRequest)
    requires RequestError(req).None?
    ensures req.images != [] && |req.images| <= U32_MAX && |req.state| <= U32_MAX && |req.initialNoise| <= U32_MAX
    ensures |req.task| <= U32_MAX && AllImagesOk(req.images) && NamesFit(req.images)
  {
    hide IsFinite;
    ImagesErrorMeans(req.images, 0);
    forall i | 0 <= i < |req.images| ensures |req.images[i].name| <= U32_MAX {
      assert ImageError(req.images[i]).None?;
    }
  }

  lemma WithExtra(req: PredictRequest, extra: bytes)
    ensures RequestBytes(req) + extra
         == LE(|req.images|, 4) + (LE(|req.state|, 4) + (LE(|req.initialNoise|, 4) + (LE(|req.task|, 4)
            + (MetasBytes(req.images) + (F32sBytes(req.state) + (F32sBytes(req.initialNoise)
            + (req.task + (BodiesBytes(req.images) + extra))))))))
  {
    hide LE, MetasBytes, F32sBytes, BodiesBytes;
    var s4 := req.task + BodiesBytes(req.images);
    var s3 := F32sBytes(req.initialNoise) + s4;
    var s2 := F32sBytes(req.state) + s3;
    var s1 := MetasBytes(req.images) + s2;
    var t := LE(|req.task|, 4) + s1;
    var n := LE(|req.initialNoise|, 4) + t;
    Associate(LE(|req.images|, 4), LE(|req.state|, 4) + n, extra);
    Associate(LE(|req.state|, 4), n, extra);
    Associate(LE(|req.initialNoise|, 4), t, extra);
    Associate(LE(|req.task|, 4), s1, extra);
    Associate(MetasBytes(req.images), s2, extra);
    Associate(F32sBytes(req.state), s3, extra);
    Associate(F32sBytes(req.initialNoise), s4, extra);
    Associate(req.task, BodiesBytes(req.images), extra);
  }

  /** An encoded request decodes to itself, and with anything after it to the fault that says so. */
  lemma RequestRoundTrip(req: PredictRequest, extra: bytes)
    requires RequestError(req).None?
    ensures DecodeRequest(RequestBytes(req) + extra) == if extra == [] then Ok(req) else Err(TrailingRequestBytes)
  {
    hide LE, Get32, RequestError, RequestBytes, MetasBytes, F32sBytes, BodiesBytes, DecodeMetas, DecodeFields, MetasOf;
    hide NamesFit, AllImagesOk;
    AcceptedImages(req);
    WithExtra(req, extra);
    var s3 := BodiesBytes(req.images) + extra;
    var s5 := F32sBytes(req.state) + (F32sBytes(req.initialNoise) + (req.task + s3));
    FourCounts(|req.images|, |req.state|, |req.initialNoise|, |req.task|, MetasBytes(req.images) + s5);
    MetasRoundTrip(req.images, [], s5);
    assert [] + MetasOf(req.images) == MetasOf(req.images);
    FieldsRoundTrip(req, s3, extra);
  }

  lemma FiniteBytesBack(n: nat, s: bytes, field: Field)
    requires DecodeFinite(n, s, field).Ok?
    ensures var (values, rest) := DecodeFinite(n, s, field).value;
      |values| == n && AllFinite(values) && F32sBytes(values) + rest == s
  {
    hide F32sBytes, DecodeF32s, AllFinite;
    F32sBytesBack(n, [], s, ShortArray(field));
    var (values, rest) := DecodeF32s(n, [], s, ShortArray(field)).value;
    assert values[0..] == values;
  }

  /** All images of a payload were read from their records. */
  lemma AllReadFrom(images: seq<ImagePayload>, metas: seq<Meta>)
    requires |images| == |metas| && forall i :: 0 <= i < |images| ==> ReadFrom(images[i], metas[i])
    ensures AllImagesOk(images) && NamesFit(images) && MetasOf(images) == metas
  {
    hide ImageError;
    assert NamesFit(images) by {
      forall i | 0 <= i < |images| ensures |images[i].name| <= U32_MAX { assert ReadFrom(images[i], metas[i]); }
    }
    forall i | 0 <= i < |images| ensures ImageError(images[i]).None? && MetaOf(images[i]) == metas[i] {
      assert ReadFrom(images[i], metas[i]);
    }
  }

  lemma FieldsBytesBack(metas: seq<Meta>, stateDim: u32, noiseDim: u32, taskLen: u32, s: bytes)
    requires DecodeFields(metas, stateDim, noiseDim, taskLen, s).Ok?
    ensures var req := DecodeFields(metas, stateDim, noiseDim, taskLen, s).value;
      && |req.images| == |metas| && |req.state| == stateDim && |req.initialNoise| == noiseDim && |req.task| == taskLen
      && AllFinite(req.state) && AllFinite(req.initialNoise) && AllImagesOk(req.images)
      && NamesFit(req.images) && MetasOf(req.images) == metas
      && s == F32sBytes(req.state) + (F32sBytes(req.initialNoise) + (req.task + BodiesBytes(req.images)))
  {
    hide F32sBytes, BodiesBytes, DecodeFinite, DecodeBodies, AllFinite, ReadFrom, AllImagesOk, NamesFit, MetasOf;
    FiniteBytesBack(stateDim, s, State);
    var s1 := DecodeFinite(stateDim, s, State).value.1;
    FiniteBytesBack(noiseDim, s1, InitialNoise);
    var s2 := DecodeFinite(noiseDim, s1, InitialNoise).value.1;
    BodiesBytesBack(metas, [], s2[taskLen..]);
    var (images, rest) := DecodeBodies(metas, [], s2[taskLen..]).value;
    assert images[0..] == images && BodiesBytes(images) + rest == BodiesBytes(images);
    AllReadFrom(images, metas);
    assert s2 == s2[..taskLen] + s2[taskLen..];
  }

  lemma RequestBytesBack(p: bytes)
    requires DecodeRequest(p).Ok?
    ensures EncodeRequest(DecodeRequest(p).value) == Ok(p)
  {
    hide LE, FromLE, DecodeFields, DecodeMetas, MetasBytes, F32sBytes, BodiesBytes, MetaRecords, ImageError, AllFinite;
    var req := DecodeRequest(p).value;
    var imageCount, stateDim, noiseDim, taskLen := Get32(p), Get32(p[4..]), Get32(p[8..]), Get32(p[12..]);
    MetasBytesBack(imageCount, [], p[16..]);
    var (metas, s) := DecodeMetas(imageCount, [], p[16..]).value;
    assert metas[0..] == metas;
    FieldsBytesBack(metas, stateDim, noiseDim, taskLen, s);
    ImagesErrorMeans(req.images, 0);
    assert RequestError(req).None?;
    MetaRecordsOf(req.images);
    assert MetasBytes(req.images) + s == p[16..];
    OfGet32(p, 0); OfGet32(p, 4); OfGet32(p, 8); OfGet32(p, 12);
  }

  /** Encoder and decoder of requests are inverse bijections between accepted requests and accepted payloads. */
  lemma RequestCodec(req: PredictRequest, p: bytes)
    ensures EncodeRequest(req) == Ok(p) <==> DecodeRequest(p) == Ok(req)
  {
    if EncodeRequest(req) == Ok(p) {
      RequestRoundTrip(req, []);
      assert p + [] == p;
    }
    if DecodeRequest(p) == Ok(req) {
      RequestBytesBack(p);
    }
  }

  /** An encoded request cut short is refused, and one with more after it, with the fault that says so. */
  lemma RequestPrefixFree(req: PredictRequest, p: bytes, k: nat, extra: bytes)
    requires EncodeRequest(req) == Ok(p) && k < |p| && extra != []
    ensures DecodeRequest(p[..k]).Err? && DecodeRequest(p + extra) == Err(TrailingRequestBytes)
  {
    hide DecodeRequest, RequestBytes, RequestError;
    RequestRoundTrip(req, extra);
    RequestCodec(req, p);
    assert p[..k] + p[k..] == p;
    if DecodeRequest(p[..k]).Ok? {
      var other := DecodeRequest(p[..k]).value;
      RequestCodec(other, p[..k]);
      RequestRoundTrip(other, p[k..]);
    }
  }

  lemma {:induction false} MetasInjective(a: seq<ImagePayload>, b: seq<ImagePayload>, ra: bytes, rb: bytes)
    requires |a| == |b| && NamesFit(a) && NamesFit(b) && MetasBytes(a) + ra == MetasBytes(b) + rb
    ensures MetasOf(a) == MetasOf(b) && ra == rb
  {
    hide MetaBytes;
    if a == [] {
      assert MetasBytes(a) + ra == ra && MetasBytes(b) + rb == rb;
    } else {
      var ta, tb := MetasBytes(a[1..]) + ra, MetasBytes(b[1..]) + rb;
      assert MetasBytes(a) + ra == MetaBytes(a[0]) + ta && MetasBytes(b) + rb == MetaBytes(b[0]) + tb;
      MetaAtOf(a[0], ta);
      MetaAtOf(b[0], tb);
      MetasInjective(a[1..], b[1..], ra, rb);
    }
  }

  /** A body of known lengths is cut off the front of the bytes in one way. */
  lemma BodyCuts(image: ImagePayload, rest: bytes)
    ensures var s := BodyBytes(image) + rest;
      && s[..|image.name|] == image.name
      && s[|image.name|..|image.name| + |image.data|] == image.data
      && s[|image.name| + |image.data|..] == rest
  {
  }

  lemma OneBody(a: ImagePayload, b: ImagePayload, ra: bytes, rb: bytes)
    requires |a.name| <= U32_MAX && |b.name| <= U32_MAX && MetaOf(a) == MetaOf(b)
    requires BodyBytes(a) + ra == BodyBytes(b) + rb
    ensures a == b && ra == rb
  {
    hide BodyBytes;
    BodyCuts(a, ra);
    BodyCuts(b, rb);
  }

  lemma {:induction false} BodiesInjective(a: seq<ImagePayload>, b: seq<ImagePayload>)
    requires NamesFit(a) && NamesFit(b) && MetasOf(a) == MetasOf(b) && BodiesBytes(a) == BodiesBytes(b)
    ensures a == b
    decreases |a|
  {
    hide BodyBytes, MetaOf;
    if a != [] {
      assert MetaOf(a[0]) == MetasOf(a)[0] == MetasOf(b)[0] == MetaOf(b[0]);
      OneBody(a[0], b[0], BodiesBytes(a[1..]), BodiesBytes(b[1..]));
      assert MetasOf(a)[1..] == MetasOf(a[1..]) && MetasOf(b)[1..] == MetasOf(b[1..]);
      BodiesInjective(a[1..], b[1..]);
    }
  }

  predicate Countable(req: PredictRequest) {
    && |req.images| <= U32_MAX && |req.state| <= U32_MAX && |req.initialNoise| <= U32_MAX && |req.task| <= U32_MAX
    && NamesFit(req.images)
  }

  lemma CountsInjective(a: PredictRequest, b: PredictRequest, ta: bytes, tb: bytes)
    requires Countable(a) && Countable(b)
    requires LE(|a.images|, 4) + (LE(|a.state|, 4) + (LE(|a.initialNoise|, 4) + (LE(|a.task|, 4) + ta)))
          == LE(|b.images|, 4) + (LE(|b.state|, 4) + (LE(|b.initialNoise|, 4) + (LE(|b.task|, 4) + tb)))
    ensures |a.images| == |b.images| && |a.state| == |b.state| && |a.initialNoise| == |b.initialNoise|
         && |a.task| == |b.task| && ta == tb
  {
    hide LE, FromLE;
    Get32Of(|a.images|, LE(|a.state|, 4) + (LE(|a.initialNoise|, 4) + (LE(|a.task|, 4) + ta)));
    Get32Of(|b.images|, LE(|b.state|, 4) + (LE(|b.initialNoise|, 4) + (LE(|b.task|, 4) + tb)));
    Get32Of(|a.state|, LE(|a.initialNoise|, 4) + (LE(|a.task|, 4) + ta));
    Get32Of(|b.state|, LE(|b.initialNoise|, 4) + (LE(|b.task|, 4) + tb));
    Get32Of(|a.initialNoise|, LE(|a.task|, 4) + ta);
    Get32Of(|b.initialNoise|, LE(|b.task|, 4) + tb);
    Get32Of(|a.task|, ta);
    Get32Of(|b.task|, tb);
  }

  /** The layout itself is unambiguous: no two requests share a payload, whether or not they pass the checks. */
  lemma RequestBytesInjective(a: PredictRequest, b: PredictRequest)
    requires Countable(a) && Countable(b) && RequestBytes(a) == RequestBytes(b)
    ensures a == b
  {
    hide LE, FromLE, MetasBytes, F32sBytes, BodiesBytes, NamesFit;
    var a3, b3 := a.task + BodiesBytes(a.images), b.task + BodiesBytes(b.images);
    var a2, b2 := F32sBytes(a.initialNoise) + a3, F32sBytes(b.initialNoise) + b3;
    var a1, b1 := F32sBytes(a.state) + a2, F32sBytes(b.state) + b2;
    CountsInjective(a, b, MetasBytes(a.images) + a1, MetasBytes(b.images) + b1);
    MetasInjective(a.images, b.images, a1, b1);
    F32sRoundTrip(a.state, [], a2, ShortHeader); F32sRoundTrip(b.state, [], b2, ShortHeader);
    assert [] + a.state == a.state && [] + b.state == b.state;
    F32sRoundTrip(a.initialNoise, [], a3, ShortHeader); F32sRoundTrip(b.initialNoise, [], b3, ShortHeader);
    assert [] + a.initialNoise == a.initialNoise && [] + b.initialNoise == b.initialNoise;
    assert a.task == a3[..|a.task|] && b.task == b3[..|b.task|];
    assert BodiesBytes(a.images) == a3[|a.task|..] && BodiesBytes(b.images) == b3[|b.task|..];
    BodiesInjective(a.images, b.images);
  }

  // -------------------------------------------------------------- responses

  lemma MetricRoundTrip(m: Metric, rest: bytes)
    requires 0 < |m.name| <= U32_MAX
    ensures MetricStep(MetricBytes(m) + rest) == Ok((m, rest))
  {
    hide LE, FromLE;
    var s2 := m.name + rest;
    var s1 := LE(m.value, 8) + s2;
    var s := LE(|m.name|, 4) + s1;
    assert MetricBytes(m) + rest == s;
    Get32Of(|m.name|, s1); Get64Of(m.value, s2);
    assert s[12..12 + |m.name|] == m.name;
    assert s[12 + |m.name|..] == rest;
  }

  lemma Regroup(a: bytes, b: bytes, c: bytes, d: bytes)
    ensures a + (b + c) + d == a + (b + (c + d))
  {
  }

  lemma MetricBytesBack(s: bytes)
    requires MetricStep(s).Ok?
    ensures var (m, rest) := MetricStep(s).value; 0 < |m.name| <= U32_MAX && MetricBytes(m) + rest == s
  {
    hide LE, FromLE;
    var (m, rest) := MetricStep(s).value;
    var tail := m.name + rest;
    assert s[12..] == tail;
    OfGet64(s, 4);
    OfGet32(s, 0);
    assert LE(|m.name|, 4) + (LE(m.value, 8) + tail) == s;
    Regroup(LE(|m.name|, 4), LE(m.value, 8), m.name, rest);
  }

  lemma {:induction false} MetricsRoundTrip(metrics: seq<Metric>, acc: seq<Metric>, rest: bytes)
    requires MetricsError(metrics).None?
    ensures DecodeMetrics(|metrics|, acc, MetricsBytes(metrics) + rest) == Ok((acc + metrics, rest))
    decreases |metrics|
  {
    hide MetricStep, MetricBytes;
    if metrics == [] {
      assert MetricsBytes(metrics) + rest == rest;
      assert acc + metrics == acc;
    } else {
      var tail := MetricsBytes(metrics[1..]) + rest;
      assert MetricsBytes(metrics) + rest == MetricBytes(metrics[0]) + tail;
      MetricRoundTrip(metrics[0], tail);
      MetricsRoundTrip(metrics[1..], acc + [metrics[0]], rest);
      assert acc + [metrics[0]] + metrics[1..] == acc + metrics;
    }
  }

  lemma {:induction false} MetricsBytesBack(n: nat, acc: seq<Metric>, s: bytes)
    requires DecodeMetrics(n, acc, s).Ok?
    ensures var (metrics, rest) := DecodeMetrics(n, acc, s).value;
      && |metrics| == |acc| + n && metrics[..|acc|] == acc
      && MetricsError(metrics[|acc|..]).None? && MetricsBytes(metrics[|acc|..]) + rest == s
    decreases n
  {
    hide MetricStep, MetricBytes;
    var (metrics, rest) := DecodeMetrics(n, acc, s).value;
    if n > 0 {
      var (m, tail) := MetricStep(s).value;
      MetricBytesBack(s);
      MetricsBytesBack(n - 1, acc + [m], tail);
      PrefixPush(metrics, acc, m);
      assert MetricsBytes(metrics[|acc|..]) + rest == MetricBytes(m) + (MetricsBytes(metrics[|acc| + 1..]) + rest);
    } else {
      assert metrics[|acc|..] == [];
    }
  }

  lemma ResponseWithExtra(resp: PredictResponse, extra: bytes)
    ensures ResponseBytes(resp) + extra
         == LE(resp.chunkSize, 4) + (LE(resp.actionDim, 4) + (LE(|resp.actions|, 4) + (LE(|resp.metrics|, 4)
            + (MetricsBytes(resp.metrics) + (F32sBytes(resp.actions) + extra)))))
  {
    hide LE, MetricsBytes, F32sBytes;
    var s1 := MetricsBytes(resp.metrics) + F32sBytes(resp.actions);
    var t := LE(|resp.metrics|, 4) + s1;
    var n := LE(|resp.actions|, 4) + t;
    Associate(LE(resp.chunkSize, 4), LE(resp.actionDim, 4) + n, extra);
    Associate(LE(resp.actionDim, 4), n, extra);
    Associate(LE(|resp.actions|, 4), t, extra);
    Associate(LE(|resp.metrics|, 4), s1, extra);
    Associate(MetricsBytes(resp.metrics), F32sBytes(resp.actions), extra);
  }

  lemma ResponseRoundTrip(resp: PredictResponse, extra: bytes)
    requires ResponseError(resp).None?
    ensures DecodeResponse(ResponseBytes(resp) + extra) == if extra == [] then Ok(resp) else Err(TrailingResponseBytes)
  {
    hide LE, Get32, ResponseBytes, MetricsBytes, F32sBytes, DecodeMetrics, DecodeF32s, MetricsError;
    var s4 := MetricsBytes(resp.metrics) + (F32sBytes(resp.actions) + extra);
    ResponseWithExtra(resp, extra);
    FourCounts(resp.chunkSize, resp.actionDim, |resp.actions|, |resp.metrics|, s4);
    MetricsRoundTrip(resp.metrics, [], F32sBytes(resp.actions) + extra);
    assert [] + resp.metrics == resp.metrics && [] + resp.actions == resp.actions;
    F32sRoundTrip(resp.actions, [], extra, ShortArray(Actions));
  }

  lemma ResponseBytesBack(p: bytes)
    requires DecodeResponse(p).Ok?
    ensures EncodeResponse(DecodeResponse(p).value) == Ok(p)
  {
    hide LE, FromLE;
    var resp := DecodeResponse(p).value;
    var metricCount := Get32(p[12..]);
    MetricsBytesBack(metricCount, [], p[16..]);
    var (metrics, s) := DecodeMetrics(metricCount, [], p[16..]).value;
    assert metrics[0..] == metrics;
    F32sBytesBack(Get32(p[8..]), [], s, ShortArray(Actions));
    assert resp.actions[0..] == resp.actions;
    assert F32sBytes(resp.actions) + [] == F32sBytes(resp.actions);
    OfGet32(p, 0); OfGet32(p, 4); OfGet32(p, 8); OfGet32(p, 12);
  }

  /** Encoder and decoder of responses are inverse bijections, on bit patterns. */
  lemma ResponseCodec(resp: PredictResponse, p: bytes)
    ensures EncodeResponse(resp) == Ok(p) <==> DecodeResponse(p) == Ok(resp)
  {
    if EncodeResponse(resp) == Ok(p) {
      ResponseRoundTrip(resp, []);
      assert p + [] == p;
    }
    if DecodeResponse(p) == Ok(resp) {
      ResponseBytesBack(p);
    }
  }

  /** The same for responses. */
  lemma ResponsePrefixFree(resp: PredictResponse, p: bytes, k: nat, extra: bytes)
    requires EncodeResponse(resp) == Ok(p) && k < |p| && extra != []
    ensures DecodeResponse(p[..k]).Err? && DecodeResponse(p + extra) == Err(TrailingResponseBytes)
  {
    hide DecodeResponse, ResponseBytes, ResponseError;
    ResponseRoundTrip(resp, extra);
    ResponseCodec(resp, p);
    assert p[..k] + p[k..] == p;
    if DecodeResponse(p[..k]).Ok? {
      var other := DecodeResponse(p[..k]).value;
      ResponseCodec(other, p[..k]);
      ResponseRoundTrip(other, p[k..]);
    }
  }
}
