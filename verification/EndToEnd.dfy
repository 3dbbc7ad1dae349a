/** The whole trip: from the client's observation through the wire and the server to the model, and back. */
module EndToEnd {
  import Arith
  import opened Bytes
  import opened Faults
  import opened ProtocolSpec
  import ProtocolProofs
  import opened SessionSpec
  import opened SessionProofs
  import opened Client

  /** The premise on rows: `width * 3` does not wrap around in 32 bits. */
  predicate Unwrapped(obs: ClientObservation) {
    forall i :: 0 <= i < |obs.images| ==> 3 * obs.images[i].width < 0x1_0000_0000
  }

  /** The image a model should see, said with plain arithmetic: the client's own values, with the defaults filled in. */
  predicate SeesImage(seen: ModelImage, image: ClientImage, i: nat) {
    var stride: int := if image.strideBytes == 0 then 3 * image.width else image.strideBytes;
    && (if image.name != [] then seen.name == image.name
        else |seen.name| > 5 && seen.name[..5] == [105, 109, 97, 103, 101]
             && IsNumeral(seen.name[5..]) && NumeralValue(seen.name[5..]) == i)
    && seen.width as int == image.width && seen.height as int == image.height && seen.channels == 3
    && seen.strideBytes as int == stride && stride >= 3 * image.width
    && image.pixels.Some? && stride * image.height <= |image.pixels.value|
    && seen.data == Some(image.pixels.value[..stride * image.height])
  }

  predicate Sees(seen: Observation, obs: ClientObservation) {
    && |seen.images| == |obs.images|
    && (forall i :: 0 <= i < |obs.images| ==> SeesImage(seen.images[i], obs.images[i], i))
    && seen.state == obs.state && seen.initialNoise == obs.initialNoise && seen.task == obs.prompt
  }

  lemma {:induction false} PayloadsOf(obs: ClientObservation, acc: seq<ImagePayload>)
    requires Given(obs) && |acc| <= |obs.images| && ToPayloads(obs, acc).Ok?
    ensures var images := ToPayloads(obs, acc).value;
      && |images| == |obs.images| && images[..|acc|] == acc
      && forall i :: |acc| <= i < |images| ==>
           ClientImageError(obs.images[i], i).None? && images[i] == ToPayload(obs.images[i], i)
    decreases |obs.images| - |acc|
  {
    hide ClientImageError, ToPayload;
    if |acc| < |obs.images| {
      var image := ToPayload(obs.images[|acc|], |acc|);
      PayloadsOf(obs, acc + [image]);
      ProtocolProofs.PrefixPush(ToPayloads(obs, acc).value, acc, image);
    }
  }

  lemma {:induction false} DataInBodies(images: seq<ImagePayload>, i: nat)
    requires i < |images|
    ensures |images[i].data| <= |BodiesBytes(images)|
  {
    if i > 0 {
      DataInBodies(images[1..], i - 1);
    }
  }

  lemma DataInRequest(req: PredictRequest, i: nat)
    requires i < |req.images|
    ensures |req.images[i].data| <= |RequestBytes(req)|
  {
    hide LE;
    DataInBodies(req.images, i);
  }

  lemma ProductBounds(stride: nat, height: nat, bound: nat)
    requires 0 < stride && 0 < height && stride * height <= bound
    ensures stride <= bound && height <= bound
  {
    Arith.MulMono2(stride, 1, stride, height);
    Arith.MulMono2(1, height, stride, height);
  }

  lemma RowBytesAre(image: ClientImage, i: nat)
    requires ClientImageError(image, i).None? && 3 * image.width < 0x1_0000_0000
    ensures image.pixels.Some? && image.width > 0 && image.height > 0
    ensures RowBytes(image) as int == if image.strideBytes == 0 then 3 * image.width else image.strideBytes
    ensures RowBytes(image) as int >= 3 * image.width
  {
  }

  /** Small numbers keep their value under a sign, and nothing that is there is replaced. */
  lemma KeptAsSent(p: ImagePayload)
    requires p.name != [] && p.data != []
    requires p.width < 0x8000_0000 && p.height < 0x8000_0000 && p.channels == 3 && p.strideBytes < 0x8000_0000
    ensures ToModelImage(p) == ModelImage(p.name, Some(p.data), p.width, p.height, 3, p.strideBytes)
  {
  }

  /** What the model is to see of an image whose rows take `row` bytes. */
  lemma SeenRows(image: ClientImage, i: nat, row: nat)
    requires row == if image.strideBytes == 0 then 3 * image.width else image.strideBytes
    requires image.width < 0x8000_0000 && image.height < 0x8000_0000 && 3 * image.width <= row < 0x8000_0000
    requires image.pixels.Some? && row * image.height <= |image.pixels.value|
    ensures row * image.height >= 0
    ensures SeesImage(ModelImage(ImageName(image, i), Some(image.pixels.value[..row * image.height]),
                                 image.width, image.height, 3, row), image, i)
  {
    hide ImageName, IsNumeral;
    ImageNameMeans(image, i);
  }

  /** An image that fits the payload limit reaches the model unchanged. */
  lemma SeesWhatWasGiven(image: ClientImage, i: nat)
    requires i < 0x1000_0000_0000_0000 && ClientImageError(image, i).None? && Readable(image)
    requires 3 * image.width < 0x1_0000_0000 && |ToPayload(image, i).data| <= MAX_PAYLOAD
    ensures SeesImage(ToModelImage(ToPayload(image, i)), image, i)
  {
    RowBytesAre(image, i);
    hide RowBytes, ClientImageError, ImageName, ToModelImage, SeesImage;
    var row := RowBytes(image);
    ProductBounds(row, image.height, MAX_PAYLOAD);
    Arith.MulMono2(1, 1, row, image.height);
    ImageNameFits(image, i);
    KeptAsSent(ToPayload(image, i));
    SeenRows(image, i, row);
  }

  /** What the server decodes is what the client asked for, and the model sees exactly the client's observation. */
  lemma RequestArrives(obs: ClientObservation, payload: bytes)
    requires Given(obs) && Unwrapped(obs) && MakeRequest(obs).Ok?
    requires EncodeRequest(MakeRequest(obs).value) == Ok(payload) && |payload| <= MAX_PAYLOAD
    ensures DecodeRequest(payload) == Ok(MakeRequest(obs).value)
    ensures Sees(ToObservation(MakeRequest(obs).value), obs)
  {
    hide RequestBytes, RequestError, DecodeRequest, ToModelImage, ToPayload, ClientImageError, SeesImage;
    var req := MakeRequest(obs).value;
    ProtocolProofs.RequestCodec(req, payload);
    PayloadsOf(obs, []);
    forall i | 0 <= i < |obs.images|
      ensures SeesImage(ToObservation(req).images[i], obs.images[i], i)
    {
      DataInRequest(req, i);
      SeesWhatWasGiven(obs.images[i], i);
    }
  }

  /** The response a successful prediction becomes, before it is encoded. */
  function FullResponse(result: ModelResult, t: Timing): PredictResponse {
    WithServerMetrics(PredictResponse(ToU32(result.chunkSize), ToU32(result.actionDim), result.actions,
                                      [Measured("server_recv_ms", t.recv)] + result.metrics), t)
  }

  function ErrorReply(text: bytes): Result<PredictResponse> {
    if |text| > MAX_PAYLOAD then Err(PayloadTooLarge)
    else Err(Said(if |text| == 0 then Ascii("server returned error") else text))
  }

  /** What the client gets for an outcome of the model: every case. */
  function Expected(outcome: Outcome, t: Timing): Result<PredictResponse> {
    match outcome
    case Failed(text) => ErrorReply(text)
    case Predicted(result) =>
      match ResponseError(FullResponse(result, t))
      case Some(f) => ErrorReply(Message(f))
      case None =>
        if |ResponseBytes(FullResponse(result, t))| > MAX_PAYLOAD then Err(PayloadTooLarge)
        else Ok(FullResponse(result, t))
  }

  /** What the model returned, and the texts about it, fit in memory. */
  ghost predicate InMemory(outcome: Outcome, t: Timing) {
    outcome.Predicted? ==>
      && |ResponseBytes(FullResponse(outcome.result, t))| < 0x1_0000_0000_0000_0000
      && (ResponseError(FullResponse(outcome.result, t)).Some? ==>
           |Message(ResponseError(FullResponse(outcome.result, t)).value)| < 0x1_0000_0000_0000_0000)
  }

  lemma ReceivesError(f: Frame, id: u32, status: u32, text: bytes)
    requires f.requestId == id && status != STATUS_OK && |text| < 0x1_0000_0000_0000_0000
    ensures ReceivePrediction(id, FrameBytes(Reply(f, status, text))) == ErrorReply(text)
  {
    hide FrameBytes, Parse;
    ParseFrame(Reply(f, status, text), []);
    assert FrameBytes(Reply(f, status, text)) + [] == FrameBytes(Reply(f, status, text));
  }

  lemma ReceivesResponse(f: Frame, id: u32, resp: PredictResponse)
    requires f.requestId == id && ResponseError(resp).None? && |ResponseBytes(resp)| < 0x1_0000_0000_0000_0000
    ensures ReceivePrediction(id, FrameBytes(Reply(f, STATUS_OK, ResponseBytes(resp))))
         == if |ResponseBytes(resp)| > MAX_PAYLOAD then Err(PayloadTooLarge) else Ok(resp)
  {
    hide FrameBytes, Parse, ResponseBytes, DecodeResponse, ResponseError;
    var reply := Reply(f, STATUS_OK, ResponseBytes(resp));
    ParseFrame(reply, []);
    assert FrameBytes(reply) + [] == FrameBytes(reply);
    ProtocolProofs.ResponseCodec(resp, ResponseBytes(resp));
  }

  lemma SaidIsText(text: bytes)
    ensures Message(Said(text)) == text
  {
  }

  lemma ReplyArrives<S>(model: Model<S>, t: Timing, s: S, f: Frame, id: u32, req: PredictRequest)
    requires f.requestId == id && DecodeRequest(f.payload) == Ok(req)
    requires InMemory(model.predict(s, ToObservation(req)).1, t)
    ensures var (s', reply) := PredictReply(Some(model), t, s, f);
      && s' == model.predict(s, ToObservation(req)).0
      && ReceivePrediction(id, FrameBytes(reply)) == Expected(model.predict(s, ToObservation(req)).1, t)
  {
    hide FrameBytes, Parse, ResponseBytes, DecodeResponse, ResponseError, ReceivePrediction, DecodeRequest, Message;
    hide ErrorReply;
    var (s', outcome) := model.predict(s, ToObservation(req));
    match outcome
    case Failed(text) =>
      SaidIsText(text);
      ReceivesError(f, id, STATUS_INTERNAL_ERROR, text);
    case Predicted(result) =>
      var resp := FullResponse(result, t);
      if ResponseError(resp).Some? {
        ReceivesError(f, id, STATUS_INTERNAL_ERROR, Message(ResponseError(resp).value));
      } else {
        ReceivesResponse(f, id, resp);
      }
  }

  lemma RunNothing<S>(model: Option<Model<S>>, clock: nat -> Timing, at: Session<S>)
    ensures Run(model, clock, at, []) == at
  {
  }

  /**
    * End to end. The request frame the client sends makes a fresh session hand the model an observation that is
    * exactly the client's, and the bytes the session sends back make the client return exactly what the model's
    * outcome calls for: its own error text, or its chunk, dimension, actions and metrics between the server's.
    */
  lemma EndToEnd<S>(model: Model<S>, clock: nat -> Timing, s: S, obs: ClientObservation, id: u32, payload: bytes)
    requires Given(obs) && Unwrapped(obs) && MakeRequest(obs).Ok?
    requires EncodeRequest(MakeRequest(obs).value) == Ok(payload) && |payload| <= MAX_PAYLOAD
    requires InMemory(model.predict(s, ToObservation(MakeRequest(obs).value)).1, clock(0))
    ensures exists seen ::
      && Sees(seen, obs)
      && var (s', outcome) := model.predict(s, seen);
         var end := Run(Some(model), clock, Session(s, 0, [], false),
                        FrameBytes(Frame(3, 0, id, 0, 0, payload)));
         && end.state == s' && |end.replies| == 1
         && ReceivePrediction(id, Wire(end.replies)) == Expected(outcome, clock(0))
  {
    hide FrameBytes, Parse, DecodeRequest, RequestError, RequestBytes, ReceivePrediction, Expected, Sees, PredictReply;
    hide InMemory;
    var req := MakeRequest(obs).value;
    var f := RequestFrame(OP_PREDICT, id, payload);
    RequestArrives(obs, payload);
    var seen := ToObservation(req);
    FrameCodec(f, FrameBytes(f), []);
    assert FrameBytes(f) + [] == FrameBytes(f);
    ReplyArrives(model, clock(0), s, f, id, req);
    var (s', reply) := PredictReply(Some(model), clock(0), s, f);
    var at := Session(s', 1, [] + [reply], false);
    assert Step(Some(model), clock, Session(s, 0, [], false), f) == at;
    RunNothing(Some(model), clock, at);
    var end := Run(Some(model), clock, Session(s, 0, [], false), FrameBytes(f));
    assert end == at;
    assert end.replies == [reply];
    assert Wire(end.replies) == FrameBytes(reply) by { assert Wire([reply]) == FrameBytes(reply) + Wire([]); }
    assert Sees(seen, obs) && end.state == s' && |end.replies| == 1;
  }

  /** A request over the limit is refused by the server without a reply, and the client sees the connection close. */
  lemma TooLargeIsRefused<S>(model: Option<Model<S>>, clock: nat -> Timing, s: S, id: u32, payload: bytes)
    requires MAX_PAYLOAD < |payload| < 0x1_0000_0000_0000_0000
    ensures var end := Run(model, clock, Session(s, 0, [], false), FrameBytes(Frame(3, 0, id, 0, 0, payload)));
      && end.state == s && end.replies == [] && ReceivePrediction(id, Wire(end.replies)) == Err(PeerClosed)
  {
    hide FrameBytes;
    var f := RequestFrame(OP_PREDICT, id, payload);
    ParseFrame(f, []);
    assert FrameBytes(f) + [] == FrameBytes(f);
  }

  lemma ActionsInResponse(resp: PredictResponse)
    ensures 4 * |resp.actions| <= |ResponseBytes(resp)|
  {
    hide LE;
  }

  /** What the client makes of a whole frame. */
  lemma ReceiveMeans(id: u32, f: Frame, rest: bytes)
    requires |f.payload| <= 268_435_456
    ensures Receive(id, FrameBytes(f) + rest)
         == if f.requestId != id then Err(WrongRequestId) else if f.status == 0 then Ok(f.payload)
            else if f.payload == [] then Err(Said(Ascii("server returned error"))) else Err(Said(f.payload))
  {
    hide FrameBytes, Parse;
    ParseFrame(f, rest);
  }

  /** The client gets a response exactly for a prediction that encodes within the limit, else the text of a failure. */
  lemma ExpectedMeans(outcome: Outcome, t: Timing)
    ensures Expected(outcome, t).Ok?
       <==> outcome.Predicted? && EncodeResponse(FullResponse(outcome.result, t)).Ok?
            && |EncodeResponse(FullResponse(outcome.result, t)).value| <= 268_435_456
    ensures outcome.Failed? && 0 < |outcome.text| <= 268_435_456 ==> Expected(outcome, t) == Err(Said(outcome.text))
    ensures outcome.Failed? && outcome.text == [] ==>
      Expected(outcome, t) == Err(Said(Ascii("server returned error")))
    ensures outcome.Failed? && |outcome.text| > 268_435_456 ==> Expected(outcome, t) == Err(PayloadTooLarge)
  {
    hide Ascii, ResponseBytes, ResponseError;
  }

  /** On success the numbers are the model's own, whenever the model returned any action. */
  lemma SuccessIsExact(outcome: Outcome, t: Timing)
    requires Expected(outcome, t).Ok?
    ensures outcome.Predicted?
    ensures var resp, result := Expected(outcome, t).value, outcome.result;
      && resp.actions == result.actions
      && resp.metrics == [Measured("server_recv_ms", t.recv)] + result.metrics
                         + [Measured("server_queue_ms", t.queue), Measured("server_predict_ms", t.predict)]
      && (result.actions != [] ==>
            resp.chunkSize as int == result.chunkSize && resp.actionDim as int == result.actionDim)
  {
    hide Ascii, ResponseBytes;
    var resp, result := Expected(outcome, t).value, outcome.result;
    ActionsInResponse(resp);
    if result.actions != [] {
      ProductBounds(resp.chunkSize, resp.actionDim, MAX_PAYLOAD);
    }
  }

  lemma StrideCovers(image: ImagePayload)
    requires 3 * image.width < 0x1_0000_0000 && ImageError(image).None?
    ensures Stride(image) >= 3 * image.width && |image.data| >= Stride(image) * image.height
  {
  }

  /**
    * The premise on widths is needed, and no stronger one is: the size checks of the server guarantee at least
    * `3 * width` bytes per row for every accepted image of a given width exactly when that product does not wrap.
    */
  lemma RowsAreWholeExactlyWhenUnwrapped(width: u32)
    requires width > 0
    ensures (forall image: ImagePayload :: image.width == width && ImageError(image).None? ==>
              |image.data| >= 3 * width * image.height)
        <==> 3 * width < 0x1_0000_0000
  {
    if 3 * width < 0x1_0000_0000 {
      forall image: ImagePayload | image.width == width && ImageError(image).None?
        ensures |image.data| >= 3 * width * image.height
      {
        StrideCovers(image);
        Arith.MulMono2(3 * width, image.height, Stride(image), image.height);
      }
    } else {
      var row := 3 * width % 0x1_0000_0000;
      var image := ImagePayload(RAW_RGB_U8, width, 1, 3, 0, [], seq(row, i => 0));
      assert ImageError(image).None?;
    }
  }
}
