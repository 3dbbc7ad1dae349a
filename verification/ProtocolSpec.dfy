/** The wire format: what the encoders put on the wire and what the decoders accept. */
module ProtocolSpec {
  import opened Bytes
  import opened Faults

  const MAGIC: u32 := 0x414c5653
  const VERSION: u16 := 4
  const HEADER_SIZE: u16 := 32
  const MAX_PAYLOAD: u64 := 256 * 1024 * 1024

  const OP_HEALTH: u16 := 1
  const OP_RESET: u16 := 2
  const OP_PREDICT: u16 := 3
  const OP_SHUTDOWN: u16 := 4

  const STATUS_OK: u32 := 0
  const STATUS_BAD_REQUEST: u32 := 1
  const STATUS_INTERNAL_ERROR: u32 := 5

  const RAW_RGB_U8: u32 := 1

  datatype Header = Header(magic: u32, version: u16, headerSize: u16, op: u16, flags: u16,
                           requestId: u32, status: u32, payloadLen: u64, reserved: u32)

  datatype ImagePayload = ImagePayload(format: u32, width: u32, height: u32, channels: u32, strideBytes: u32,
                                       name: Buffer, data: Buffer)

  /** Floats are kept as their bit patterns: 32 bits for `float`, 64 for `double`. */
  datatype PredictRequest = PredictRequest(images: seq<ImagePayload>, state: seq<u32>, initialNoise: seq<u32>,
                                           task: bytes)

  datatype Metric = Metric(name: bytes, value: u64)

  datatype PredictResponse = PredictResponse(chunkSize: u32, actionDim: u32, actions: seq<u32>, metrics: seq<Metric>)

  /** `std::isfinite` of the float with these bits: the exponent is not all ones. */
  predicate IsFinite(bits: u32) {
    bits / 0x80_0000 % 0x100 != 0xFF
  }

  predicate AllFinite(values: seq<u32>) {
    forall i :: 0 <= i < |values| ==> IsFinite(values[i])
  }

  // ---------------------------------------------------------------- headers

  function EncodeHeader(h: Header): (s: bytes)
    ensures |s| == 32
  {
    LE(h.magic, 4) + (LE(h.version, 2) + (LE(h.headerSize, 2) + (LE(h.op, 2) + (LE(h.flags, 2)
    + (LE(h.requestId, 4) + (LE(h.status, 4) + (LE(h.payloadLen, 8) + LE(h.reserved, 4))))))))
  }

  function DecodeHeader(s: bytes): Result<Header> {
    if |s| < 32 then Err(ShortHeader)
    else
      Ok(Header(Get32(s), Get16(s[4..]), Get16(s[6..]), Get16(s[8..]), Get16(s[10..]),
                Get32(s[12..]), Get32(s[16..]), Get64(s[20..]), Get32(s[28..])))
  }

  /** The reason `validate_header` refuses a header, if it does. */
  function HeaderError(h: Header, maxPayload: u64): Option<Fault> {
    if h.magic != MAGIC then Some(BadMagic)
    else if h.version != VERSION then Some(BadVersion)
    else if h.headerSize != HEADER_SIZE then Some(BadHeaderSize)
    else if h.payloadLen > maxPayload then Some(PayloadTooLarge)
    else None
  }

  // --------------------------------------------------------------- requests

  function CountError(n: nat, field: Field): Option<Fault> {
    if n > U32_MAX then Some(TooLarge(field)) else None
  }

  function FiniteError(values: seq<u32>, field: Field): Option<Fault> {
    if AllFinite(values) then None else Some(NonFinite(field))
  }

  /** The row length used by the size check; `width * channels` is a 32-bit product. */
  function Stride(image: ImagePayload): u32 {
    if image.strideBytes == 0 then image.width * image.channels % 0x1_0000_0000 else image.strideBytes
  }

  function ImageError(image: ImagePayload): Option<ImageFault> {
    if image.format != RAW_RGB_U8 then Some(UnsupportedFormat)
    else if image.width == 0 || image.height == 0 || image.channels != 3 || |image.data| == 0 then Some(InvalidImage)
    else if Stride(image) < image.width * image.channels % 0x1_0000_0000 then Some(SmallStride)
    else if |image.data| < Stride(image) * image.height then Some(SmallData)
    else if |image.name| > U32_MAX then Some(LongName)
    else None
  }

  function ImagesError(images: seq<ImagePayload>, i: nat): Option<Fault>
    requires i <= |images|
    decreases |images| - i
  {
    if i == |images| then None
    else
      match ImageError(images[i])
      case Some(fault) => Some(BadImage(i, fault))
      case None => ImagesError(images, i + 1)
  }

  function First(a: Option<Fault>, b: Option<Fault>): Option<Fault> {
    if a.Some? then a else b
  }

  /** The first check of the encoder that a request fails, in the order the encoder makes them. */
  function RequestError(req: PredictRequest): Option<Fault> {
    if req.images == [] then Some(NoImages)
    else
      First(CountError(|req.images|, Images),
      First(CountError(|req.state|, State),
      First(CountError(|req.initialNoise|, InitialNoise),
      First(CountError(|req.task|, Task),
      First(FiniteError(req.state, State),
      First(FiniteError(req.initialNoise, InitialNoise),
            ImagesError(req.images, 0)))))))
  }

  function MetaBytes(image: ImagePayload): (s: bytes)
    ensures |s| == 32
  {
    LE(image.format, 4) + (LE(|image.name|, 4) + (LE(image.width, 4) + (LE(image.height, 4)
    + (LE(image.channels, 4) + (LE(image.strideBytes, 4) + LE(|image.data|, 8))))))
  }

  function MetasBytes(images: seq<ImagePayload>): (s: bytes)
    ensures |s| == 32 * |images|
  {
    if images == [] then [] else MetaBytes(images[0]) + MetasBytes(images[1..])
  }

  function F32sBytes(values: seq<u32>): (s: bytes)
    ensures |s| == 4 * |values|
  {
    if values == [] then [] else LE(values[0], 4) + F32sBytes(values[1..])
  }

  function BodyBytes(image: ImagePayload): bytes {
    image.name + image.data
  }

  function BodiesBytes(images: seq<ImagePayload>): bytes {
    if images == [] then [] else BodyBytes(images[0]) + BodiesBytes(images[1..])
  }

  function RequestBytes(req: PredictRequest): bytes {
    LE(|req.images|, 4) + (LE(|req.state|, 4) + (LE(|req.initialNoise|, 4) + (LE(|req.task|, 4)
    + (MetasBytes(req.images) + (F32sBytes(req.state) + (F32sBytes(req.initialNoise)
    + (req.task + BodiesBytes(req.images))))))))
  }

  function EncodeRequest(req: PredictRequest): Result<bytes> {
    var e := RequestError(req);
    if e.Some? then Err(e.value) else Ok(RequestBytes(req))
  }

  /** One decoded metadata record: the image without its name and data, and their lengths. */
  datatype Meta = Meta(format: u32, width: u32, height: u32, channels: u32, strideBytes: u32, nameLen: u32,
                       dataLen: u64)

  function MetaAt(s: bytes): Meta
    requires |s| >= 32
  {
    Meta(Get32(s), Get32(s[8..]), Get32(s[12..]), Get32(s[16..]), Get32(s[20..]), Get32(s[4..]), Get64(s[24..]))
  }

  /** One round of the metadata loop. */
  function MetaStep(s: bytes): Result<(Meta, bytes)> {
    if |s| < 32 then Err(ShortImageMetadata)
    else
      var m := MetaAt(s);
      if m.format != RAW_RGB_U8 then Err(UnsupportedImageFormat)
      else if m.width == 0 || m.height == 0 || m.channels != 3 then Err(InvalidDimensions)
      else Ok((m, s[32..]))
  }

  function DecodeMetas(n: nat, acc: seq<Meta>, s: bytes): Result<(seq<Meta>, bytes)>
    decreases n
  {
    if n == 0 then Ok((acc, s))
    else
      match MetaStep(s)
      case Err(e) => Err(e)
      case Ok((m, rest)) => DecodeMetas(n - 1, acc + [m], rest)
  }

  function DecodeF32s(n: nat, acc: seq<u32>, s: bytes, short: Fault): Result<(seq<u32>, bytes)>
    decreases n
  {
    if n == 0 then Ok((acc, s))
    else if |s| < 4 then Err(short)
    else DecodeF32s(n - 1, acc + [Get32(s)], s[4..], short)
  }

  function DecodeFinite(n: nat, s: bytes, field: Field): Result<(seq<u32>, bytes)> {
    match DecodeF32s(n, [], s, ShortArray(field))
    case Err(e) => Err(e)
    case Ok((values, rest)) =>
      if FiniteError(values, field).Some? then Err(FiniteError(values, field).value) else Ok((values, rest))
  }

  /** One round of the loop that reads names and pixels, for image number `i`. */
  function BodyStep(m: Meta, i: nat, s: bytes): Result<(ImagePayload, bytes)> {
    if |s| < m.nameLen then Err(ShortImageName)
    else if |s| - m.nameLen < m.dataLen then Err(ImageExceedsPayload)
    else
      var image := ImagePayload(m.format, m.width, m.height, m.channels, m.strideBytes,
                                s[..m.nameLen], s[m.nameLen..m.nameLen + m.dataLen]);
      var e := ImageError(image);
      if e.Some? then Err(BadImage(i, e.value)) else Ok((image, s[m.nameLen + m.dataLen..]))
  }

  function DecodeBodies(metas: seq<Meta>, acc: seq<ImagePayload>, s: bytes): Result<(seq<ImagePayload>, bytes)>
    requires |acc| <= |metas|
    decreases |metas| - |acc|
  {
    if |acc| == |metas| then Ok((acc, s))
    else
      match BodyStep(metas[|acc|], |acc|, s)
      case Err(e) => Err(e)
      case Ok((image, rest)) => DecodeBodies(metas, acc + [image], rest)
  }

  function DecodeFields(metas: seq<Meta>, stateDim: u32, noiseDim: u32, taskLen: u32, s: bytes)
    : Result<PredictRequest>
  {
    var scalarBytes := (stateDim + noiseDim) * 4;
    if scalarBytes > |s| || taskLen > |s| - scalarBytes then Err(FieldsExceedPayload)
    else
      match DecodeFinite(stateDim, s, State)
      case Err(e) => Err(e)
      case Ok((state, s1)) =>
        match DecodeFinite(noiseDim, s1, InitialNoise)
        case Err(e) => Err(e)
        case Ok((noise, s2)) =>
          if |s2| < taskLen then Err(ShortTask)
          else
            match DecodeBodies(metas, [], s2[taskLen..])
            case Err(e) => Err(e)
            case Ok((images, rest)) =>
              if rest != [] then Err(TrailingRequestBytes)
              else Ok(PredictRequest(images, state, noise, s2[..taskLen]))
  }

  function DecodeRequest(p: bytes): Result<PredictRequest> {
    if |p| < 16 then Err(ShortRequest)
    else
      var imageCount, stateDim, noiseDim, taskLen := Get32(p), Get32(p[4..]), Get32(p[8..]), Get32(p[12..]);
      if imageCount == 0 then Err(NoImages)
      else if imageCount > |p[16..]| / 32 then Err(TooManyImages)
      else
        match DecodeMetas(imageCount, [], p[16..])
        case Err(e) => Err(e)
        case Ok((metas, s)) => DecodeFields(metas, stateDim, noiseDim, taskLen, s)
  }

  // -------------------------------------------------------------- responses

  function MetricsError(metrics: seq<Metric>): Option<Fault> {
    if metrics == [] then None
    else if metrics[0].name == [] then Some(EmptyMetricName)
    else First(CountError(|metrics[0].name|, MetricName), MetricsError(metrics[1..]))
  }

  /** How many actions a response must hold, in 64 bits. */
  function ShapeSize(chunkSize: u32, actionDim: u32): int {
    chunkSize * actionDim
  }

  function ResponseError(resp: PredictResponse): Option<Fault> {
    if ShapeSize(resp.chunkSize, resp.actionDim) != |resp.actions| then Some(ShapeMismatch)
    else
      First(CountError(|resp.actions|, Actions),
      First(CountError(|resp.metrics|, Metrics), MetricsError(resp.metrics)))
  }

  function MetricBytes(m: Metric): bytes {
    LE(|m.name|, 4) + (LE(m.value, 8) + m.name)
  }

  function MetricsBytes(metrics: seq<Metric>): bytes {
    if metrics == [] then [] else MetricBytes(metrics[0]) + MetricsBytes(metrics[1..])
  }

  function ResponseBytes(resp: PredictResponse): bytes {
    LE(resp.chunkSize, 4) + (LE(resp.actionDim, 4) + (LE(|resp.actions|, 4) + (LE(|resp.metrics|, 4)
    + (MetricsBytes(resp.metrics) + F32sBytes(resp.actions)))))
  }

  function EncodeResponse(resp: PredictResponse): Result<bytes> {
    var e := ResponseError(resp);
    if e.Some? then Err(e.value) else Ok(ResponseBytes(resp))
  }

  /** One round of the metric loop. */
  function MetricStep(s: bytes): Result<(Metric, bytes)> {
    if |s| < 12 then Err(ShortMetric)
    else
      var nameLen := Get32(s);
      if |s| - 12 < nameLen then Err(ShortMetricName)
      else if nameLen == 0 then Err(EmptyMetricName)
      else Ok((Metric(s[12..12 + nameLen], Get64(s[4..])), s[12 + nameLen..]))
  }

  function DecodeMetrics(n: nat, acc: seq<Metric>, s: bytes): Result<(seq<Metric>, bytes)>
    decreases n
  {
    if n == 0 then Ok((acc, s))
    else
      match MetricStep(s)
      case Err(e) => Err(e)
      case Ok((m, rest)) => DecodeMetrics(n - 1, acc + [m], rest)
  }

  function DecodeResponse(p: bytes): Result<PredictResponse> {
    if |p| < 16 then Err(ShortResponse)
    else
      var chunkSize, actionDim, actionCount, metricCount := Get32(p), Get32(p[4..]), Get32(p[8..]), Get32(p[12..]);
      if ShapeSize(chunkSize, actionDim) != actionCount then Err(ShapeMismatch)
      else
        match DecodeMetrics(metricCount, [], p[16..])
        case Err(e) => Err(e)
        case Ok((metrics, s)) =>
          match DecodeF32s(actionCount, [], s, ShortArray(Actions))
          case Err(e) => Err(e)
          case Ok((actions, rest)) =>
            if rest != [] then Err(TrailingResponseBytes)
            else Ok(PredictResponse(chunkSize, actionDim, actions, metrics))
  }
}
