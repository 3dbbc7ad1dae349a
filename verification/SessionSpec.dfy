/** What one client connection does, as a function of the bytes that arrive on it. */
module SessionSpec {
  import opened Bytes
  import opened Faults
  import opened ProtocolSpec

  // ------------------------------------------------------------------ model

  /** The observation handed to a model. `data` is None where the source passes null. */
  datatype ModelImage = ModelImage(name: bytes, data: Option<bytes>, width: i32, height: i32, channels: i32,
                                   strideBytes: i32)

  datatype Observation = Observation(images: seq<ModelImage>, state: seq<u32>, initialNoise: seq<u32>, task: bytes)

  datatype ModelResult = ModelResult(actions: seq<u32>, chunkSize: i32, actionDim: i32, metrics: seq<Metric>)

  /** A prediction that succeeded, or the error text of one that failed. */
  datatype Outcome = Predicted(result: ModelResult) | Failed(text: Buffer)

  /** Any model: a name and two operations over a private state of type S. */
  datatype Model<!S> = Model(name: bytes, predict: (S, Observation) -> (S, Outcome), reset: S -> S)

  function ToModelImage(image: ImagePayload): ModelImage {
    ModelImage(if image.name == [] then Ascii("image") else image.name,
               if image.data == [] then None else Some(image.data),
               ToI32(image.width), ToI32(image.height), ToI32(image.channels), ToI32(image.strideBytes))
  }

  function ToModelImages(images: seq<ImagePayload>): (r: seq<ModelImage>)
    ensures |r| == |images| && forall i :: 0 <= i < |r| ==> r[i] == ToModelImage(images[i])
  {
    if images == [] then [] else [ToModelImage(images[0])] + ToModelImages(images[1..])
  }

  function ToObservation(req: PredictRequest): Observation {
    Observation(ToModelImages(req.images), req.state, req.initialNoise, req.task)
  }

  /** The adapter's answer, given the metrics the response already carries. No model at all is an error, too. */
  function Predict<S>(model: Option<Model<S>>, s: S, req: PredictRequest, metrics: seq<Metric>)
    : (S, Result<PredictResponse>)
  {
    match model
    case None => (s, Err(Said(Ascii("model adapter is not initialized"))))
    case Some(m) =>
      var (s', r) := m.predict(s, ToObservation(req));
      match r
      case Failed(text) => (s', Err(Said(text)))
      case Predicted(result) =>
        (s', Ok(PredictResponse(ToU32(result.chunkSize), ToU32(result.actionDim), result.actions,
                                metrics + result.metrics)))
  }

  function Reset<S>(model: Option<Model<S>>, s: S): S {
    match model
    case None => s
    case Some(m) => m.reset(s)
  }

  function Name<S>(model: Option<Model<S>>): bytes {
    match model
    case None => Ascii("invalid")
    case Some(m) => m.name
  }

  // ----------------------------------------------------------------- frames

  /** A message as it stands on the wire. */
  datatype Frame = Frame(op: u16, flags: u16, requestId: u32, status: u32, reserved: u32, payload: bytes)

  function FrameHeader(f: Frame): Header {
    Header(MAGIC, VERSION, HEADER_SIZE, f.op, f.flags, f.requestId, f.status,
           |f.payload| % 0x1_0000_0000_0000_0000, f.reserved)
  }

  function FrameBytes(f: Frame): bytes {
    EncodeHeader(FrameHeader(f)) + f.payload
  }

  function Wire(frames: seq<Frame>): bytes {
    if frames == [] then [] else FrameBytes(frames[0]) + Wire(frames[1..])
  }

  /** The start of a byte stream: a whole frame, a header that is refused, or not enough bytes yet. */
  datatype Start = Incomplete | Refused(fault: Fault) | Whole(frame: Frame, rest: bytes)

  function Parse(s: bytes): Start {
    if |s| < 32 then Incomplete
    else
      var h := DecodeHeader(s[..32]).value;
      match HeaderError(h, MAX_PAYLOAD)
      case Some(f) => Refused(f)
      case None =>
        if |s| - 32 < h.payloadLen then Incomplete
        else Whole(Frame(h.op, h.flags, h.requestId, h.status, h.reserved, s[32..32 + h.payloadLen]),
                   s[32 + h.payloadLen..])
  }

  // ---------------------------------------------------------------- session

  /** The clock readings taken while serving one request, in milliseconds, as bits of a double. */
  datatype Timing = Timing(recv: u64, queue: u64, predict: u64)

  /** Where a session stands: the model's state, the frames served, the replies made, and whether it has stopped. */
  datatype Session<S> = Session(state: S, served: nat, replies: seq<Frame>, stopped: bool)

  function Reply(request: Frame, status: u32, payload: bytes): Frame {
    Frame(request.op, 0, request.requestId, status, 0, payload)
  }

  function Measured(name: string, value: u64): Metric {
    Metric(Ascii(name), value)
  }

  function WithServerMetrics(resp: PredictResponse, t: Timing): PredictResponse {
    resp.(metrics := resp.metrics + [Measured("server_queue_ms", t.queue), Measured("server_predict_ms", t.predict)])
  }

  function ResponseReply(f: Frame, resp: PredictResponse): Frame {
    match EncodeResponse(resp)
    case Err(fault) => Reply(f, STATUS_INTERNAL_ERROR, Message(fault))
    case Ok(out) => Reply(f, STATUS_OK, out)
  }

  function PredictReply<S>(model: Option<Model<S>>, t: Timing, s: S, f: Frame): (S, Frame) {
    match DecodeRequest(f.payload)
    case Err(fault) => (s, Reply(f, STATUS_BAD_REQUEST, Message(fault)))
    case Ok(req) =>
      var (s', r) := Predict(model, s, req, [Measured("server_recv_ms", t.recv)]);
      match r
      case Err(fault) => (s', Reply(f, STATUS_INTERNAL_ERROR, Message(fault)))
      case Ok(resp) => (s', ResponseReply(f, WithServerMetrics(resp, t)))
  }

  /** One frame: the model's next state and the reply. */
  function Serve<S>(model: Option<Model<S>>, t: Timing, s: S, f: Frame): (S, Frame) {
    if f.op == OP_HEALTH then (s, Reply(f, STATUS_OK, Ascii("ok policy=") + Name(model)))
    else if f.op == OP_RESET then (Reset(model, s), Reply(f, STATUS_OK, Ascii("ok")))
    else if f.op == OP_SHUTDOWN then (s, Reply(f, STATUS_OK, Ascii("ok")))
    else if f.op == OP_PREDICT then PredictReply(model, t, s, f)
    else (s, Reply(f, STATUS_BAD_REQUEST, Ascii("unknown op")))
  }

  function Step<S>(model: Option<Model<S>>, clock: nat -> Timing, at: Session<S>, f: Frame): Session<S> {
    var (s, reply) := Serve(model, clock(at.served), at.state, f);
    Session(s, at.served + 1, at.replies + [reply], f.op == OP_SHUTDOWN)
  }

  /** The session on a byte stream: serve whole frames until told to stop, or until the stream yields no frame. */
  function Run<S>(model: Option<Model<S>>, clock: nat -> Timing, at: Session<S>, s: bytes): Session<S>
    decreases |s|
  {
    if at.stopped then at
    else
      match Parse(s)
      case Whole(f, rest) => Run(model, clock, Step(model, clock, at, f), rest)
      case _ => at
  }
}
