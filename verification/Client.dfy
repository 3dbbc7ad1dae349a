/** The C++ client: what it puts into a request, how it calls the server, and what it makes of the reply. */
module Client {
  import Arith
  import opened Bytes
  import opened Faults
  import opened ProtocolSpec
  import opened Protocol
  import opened SessionSpec
  import opened SessionLoop
  import opened Transport

  /** An image as the caller gives it; None stands for null. */
  datatype ClientImage = ClientImage(pixels: Option<bytes>, width: u32, height: u32, strideBytes: u32, name: Buffer)

  datatype ClientObservation = ClientObservation(images: seq<ClientImage>, state: seq<u32>, initialNoise: seq<u32>,
                                                 prompt: bytes)

  /** The row length the client uses: 32-bit arithmetic, as in the source. */
  function RowBytes(image: ClientImage): u32 {
    if image.strideBytes == 0 then image.width * 3 % 0x1_0000_0000 else image.strideBytes
  }

  /** The client copies `RowBytes * height` bytes, so the caller's buffer must hold that many. */
  predicate Readable(image: ClientImage) {
    image.pixels.Some? ==> RowBytes(image) * image.height <= |image.pixels.value|
  }

  /** What the caller owes: readable buffers, and no more images than a vector can hold. */
  predicate Given(obs: ClientObservation) {
    |obs.images| < 0x1000_0000_0000_0000 && forall i :: 0 <= i < |obs.images| ==> Readable(obs.images[i])
  }

  function ImageName(image: ClientImage, i: nat): bytes {
    if image.name == [] then Ascii("image") + Decimal(i) else image.name
  }

  function ClientImageError(image: ClientImage, i: nat): Option<Fault> {
    if image.pixels.None? || image.width == 0 || image.height == 0 then Some(NoPixels(i))
    else if RowBytes(image) < image.width * 3 % 0x1_0000_0000 then Some(SmallClientStride(i))
    else None
  }

  /** The client's own name where it gave one, else "image" and the numeral of the index. */
  predicate IsNameOf(name: bytes, image: ClientImage, i: nat) {
    if image.name != [] then name == image.name
    else |name| > 5 && name[..5] == [105, 109, 97, 103, 101] && IsNumeral(name[5..]) && NumeralValue(name[5..]) == i
  }

  lemma {:induction false} DecimalIsShort(n: nat)
    ensures 0 < |Decimal(n)| <= n + 1
  {
    if n >= 10 {
      DecimalIsShort(n / 10);
    }
  }

  lemma ImageNameMeans(image: ClientImage, i: nat)
    ensures IsNameOf(ImageName(image, i), image, i)
  {
    if image.name == [] {
      hide Decimal, IsNumeral;
      assert Ascii("image") == [105, 109, 97, 103, 101];
      DecimalMeans(i);
      assert ImageName(image, i)[5..] == Decimal(i);
      assert Decimal(i) != [] by { DecimalIsShort(i); }
    }
  }

  lemma ImageNameFits(image: ClientImage, i: nat)
    requires i < 0x1000_0000_0000_0000
    ensures 0 < |ImageName(image, i)| < 0x1_0000_0000_0000_0000
  {
    hide Decimal;
    DecimalIsShort(i);
  }

  lemma ProductFits(a: u32, b: u32)
    ensures 0 <= a * b < 0x1_0000_0000_0000_0000
  {
    Arith.MulMono2(a, b, 0xFFFF_FFFF, 0xFFFF_FFFF);
  }

  function ToPayload(image: ClientImage, i: nat): ImagePayload
    requires i < 0x1000_0000_0000_0000 && ClientImageError(image, i).None? && Readable(image)
  {
    ImageNameFits(image, i);
    var row := RowBytes(image);
    ProductFits(row, image.height);
    ImagePayload(RAW_RGB_U8, image.width, image.height, 3, row, ImageName(image, i),
                 image.pixels.value[..row * image.height])
  }

  function ToPayloads(obs: ClientObservation, acc: seq<ImagePayload>): Result<seq<ImagePayload>>
    requires Given(obs) && |acc| <= |obs.images|
    decreases |obs.images| - |acc|
  {
    if |acc| == |obs.images| then Ok(acc)
    else
      match ClientImageError(obs.images[|acc|], |acc|)
      case Some(f) => Err(f)
      case None => ToPayloads(obs, acc + [ToPayload(obs.images[|acc|], |acc|)])
  }

  /** What the client asks of an image: pixels, a size, and rows at least as long as three times the width, mod 2^32. */
  predicate IsGiven(image: ClientImage) {
    && image.pixels.Some? && image.width > 0 && image.height > 0
    && (image.strideBytes != 0 ==> image.strideBytes >= 3 * image.width % 0x1_0000_0000)
  }

  /** Every field of the image as it goes out. */
  predicate IsSentAs(sent: ImagePayload, image: ClientImage, i: nat) {
    && sent.format == 1 && sent.channels == 3 && sent.width == image.width && sent.height == image.height
    && sent.strideBytes == (if image.strideBytes == 0 then 3 * image.width % 0x1_0000_0000 else image.strideBytes)
    && IsNameOf(sent.name, image, i)
    && image.pixels.Some? && 0 <= sent.strideBytes * sent.height <= |image.pixels.value|
    && sent.data == image.pixels.value[..sent.strideBytes * sent.height]
  }

  lemma SentAs(image: ClientImage, i: nat)
    requires i < 0x1000_0000_0000_0000 && Readable(image)
    ensures ClientImageError(image, i).None? <==> IsGiven(image)
    ensures ClientImageError(image, i).None? ==> IsSentAs(ToPayload(image, i), image, i)
    ensures ClientImageError(image, i).Some? ==>
      ClientImageError(image, i).value
      == if image.pixels.None? || image.width == 0 || image.height == 0 then NoPixels(i) else SmallClientStride(i)
  {
    assert image.width * 3 == 3 * image.width;
    if ClientImageError(image, i).None? {
      hide ImageName, IsNameOf;
      ImageNameMeans(image, i);
      ProductFits(RowBytes(image), image.height);
    }
  }

  /** Image `i` is the first that is not as it should be: no pixels to speak of, or rows that are too short. */
  predicate IsFirstFault(obs: ClientObservation, from: nat, i: int, fault: Fault)
    requires from <= i < |obs.images|
  {
    && !IsGiven(obs.images[i]) && (forall k :: from <= k < i ==> IsGiven(obs.images[k]))
    && var image := obs.images[i];
       fault == if image.pixels.None? || image.width == 0 || image.height == 0 then NoPixels(i)
                else SmallClientStride(i)
  }

  /** The images go out whole and in order, or the first that is not as it should be is reported. */
  lemma {:induction false} PayloadsMean(obs: ClientObservation, acc: seq<ImagePayload>)
    requires Given(obs) && |acc| <= |obs.images|
    ensures var r := ToPayloads(obs, acc);
      && (r.Ok? <==> forall i :: |acc| <= i < |obs.images| ==> IsGiven(obs.images[i]))
      && (r.Ok? ==>
           && |r.value| == |obs.images| && r.value[..|acc|] == acc
           && forall i :: |acc| <= i < |obs.images| ==> IsSentAs(r.value[i], obs.images[i], i))
      && (r.Err? ==> exists i :: |acc| <= i < |obs.images| && IsFirstFault(obs, |acc|, i, r.fault))
    decreases |obs.images| - |acc|
  {
    hide ClientImageError, ToPayload, IsGiven, IsSentAs;
    if |acc| < |obs.images| {
      SentAs(obs.images[|acc|], |acc|);
      if ClientImageError(obs.images[|acc|], |acc|).None? {
        var image := ToPayload(obs.images[|acc|], |acc|);
        PayloadsMean(obs, acc + [image]);
        var r := ToPayloads(obs, acc + [image]);
        if r.Ok? {
          assert r.value[|acc|] == r.value[..|acc| + 1][|acc|];
          assert r.value[..|acc|] == r.value[..|acc| + 1][..|acc|];
        } else {
          var i :| |acc| + 1 <= i < |obs.images| && IsFirstFault(obs, |acc| + 1, i, r.fault);
          assert IsFirstFault(obs, |acc|, i, r.fault);
        }
      } else {
        assert IsFirstFault(obs, |acc|, |acc|, ClientImageError(obs.images[|acc|], |acc|).value);
      }
    }
  }

  function MakeRequest(obs: ClientObservation): Result<PredictRequest>
    requires Given(obs)
  {
    if obs.images == [] then Err(NoClientImages)
    else
      match ToPayloads(obs, [])
      case Err(f) => Err(f)
      case Ok(images) => Ok(PredictRequest(images, obs.state, obs.initialNoise, obs.prompt))
  }

  function RequestFrame(op: u16, id: u32, payload: bytes): Frame {
    Frame(op, 0, id, STATUS_OK, 0, payload)
  }

  /** What `call` makes of the bytes that come back. */
  function Receive(id: u32, s: bytes): Result<bytes> {
    match Parse(s)
    case Incomplete => Err(PeerClosed)
    case Refused(f) => Err(f)
    case Whole(f, _) =>
      if f.requestId != id then Err(WrongRequestId)
      else if f.status != STATUS_OK then
        Err(Said(if |f.payload| == 0 then Ascii("server returned error") else f.payload))
      else Ok(f.payload)
  }

  function ReceivePrediction(id: u32, s: bytes): Result<PredictResponse> {
    match Receive(id, s)
    case Err(f) => Err(f)
    case Ok(payload) => DecodeResponse(payload)
  }

  /** Where the first metric of a name is. */
  function FirstNamed(metrics: seq<Metric>, name: bytes): Option<u64> {
    if metrics == [] then None
    else if metrics[0].name == name then Some(metrics[0].value)
    else FirstNamed(metrics[1..], name)
  }

  method MetricValue(metrics: seq<Metric>, name: bytes, fallback: u64) returns (value: u64)
    ensures value == match FirstNamed(metrics, name) { case Some(v) => v case None => fallback }
  {
    for i := 0 to |metrics|
      invariant FirstNamed(metrics, name) == FirstNamed(metrics[i..], name)
    {
      if metrics[i].name == name { return metrics[i].value; }
      assert metrics[i..][1..] == metrics[i + 1..];
    }
    value := fallback;
  }

  class ModelClient {
    var nextRequestId: u32

    constructor ()
      ensures nextRequestId == 1
    {
      nextRequestId := 1;
    }

    method MakePredictRequest(obs: ClientObservation) returns (r: Result<PredictRequest>)
      requires Given(obs)
      ensures r == MakeRequest(obs)
      ensures r.Ok? <==> obs.images != [] && forall i :: 0 <= i < |obs.images| ==> IsGiven(obs.images[i])
      ensures r.Ok? ==>
        && |r.value.images| == |obs.images|
        && (forall i :: 0 <= i < |obs.images| ==> IsSentAs(r.value.images[i], obs.images[i], i))
        && r.value.state == obs.state && r.value.initialNoise == obs.initialNoise && r.value.task == obs.prompt
      ensures r.Err? ==> if obs.images == [] then r.fault == NoClientImages
                         else exists i :: 0 <= i < |obs.images| && IsFirstFault(obs, 0, i, r.fault)
    {
      hide IsSentAs, IsGiven;
      PayloadsMean(obs, []);
      if obs.images == [] { return Err(NoClientImages); }
      var images := [];
      for i := 0 to |obs.images|
        invariant |images| == i
        invariant ToPayloads(obs, images) == ToPayloads(obs, [])
      {
        var fault := ClientImageError(obs.images[i], i);
        if fault.Some? { return Err(fault.value); }
        images := images + [ToPayload(obs.images[i], i)];
      }
      return Ok(PredictRequest(images, obs.state, obs.initialNoise, obs.prompt));
    }

    /** Sends one request on a fresh connection and reads one reply. */
    method Call(conn: Connection, op: u16, payload: bytes) returns (r: Result<bytes>)
      requires !conn.recvFailed && !conn.sendFailed
      modifies this, conn
      ensures nextRequestId == (old(nextRequestId) + 1) % 0x1_0000_0000
      ensures !conn.sendFailed ==>
        conn.sent == old(conn.sent) + FrameBytes(Frame(op, 0, old(nextRequestId), 0, 0, payload))
      ensures !conn.sendFailed && !conn.recvFailed ==> r == Receive(old(nextRequestId), old(conn.inbound))
    {
      hide FrameBytes, Parse;
      var id := nextRequestId;
      nextRequestId := (nextRequestId + 1) % 0x1_0000_0000;
      var fault := SendMessage(conn, RequestFrame(op, id, payload));
      if fault.Some? { return Err(fault.value); }
      var reply, taken := ReadMessage(conn);
      ParseExtend(taken, conn.inbound);
      assert conn.inbound == [] ==> taken + conn.inbound == taken;
      if reply.Err? { return Err(reply.fault); }
      var f := reply.value;
      if f.requestId != id { return Err(WrongRequestId); }
      if f.status != STATUS_OK {
        return Err(Said(if |f.payload| == 0 then Ascii("server returned error") else f.payload));
      }
      return Ok(f.payload);
    }

    /** A request that cannot be built or encoded is refused before anything is sent. */
    method Predict(conn: Connection, obs: ClientObservation) returns (r: Result<PredictResponse>)
      requires Given(obs) && !conn.recvFailed && !conn.sendFailed
      modifies this, conn
      ensures MakeRequest(obs).Err? ==> r == Err(MakeRequest(obs).fault) && conn.sent == old(conn.sent)
      ensures MakeRequest(obs).Ok? ==>
        match EncodeRequest(MakeRequest(obs).value)
        case Err(f) => r == Err(f) && conn.sent == old(conn.sent)
        case Ok(payload) =>
          && (!conn.sendFailed ==>
               conn.sent == old(conn.sent) + FrameBytes(Frame(3, 0, old(nextRequestId), 0, 0, payload)))
          && (!conn.sendFailed && !conn.recvFailed ==> r == ReceivePrediction(old(nextRequestId), old(conn.inbound)))
    {
      hide FrameBytes, MakeRequest, DecodeResponse, RequestBytes, RequestError, Receive;
      var req := MakePredictRequest(obs);
      if req.Err? { return Err(req.fault); }
      var out := new ByteVector();
      var fault := WriteRequest(req.value, out);
      if fault.Some? { return Err(fault.value); }
      var payload := Call(conn, OP_PREDICT, out.data);
      if payload.Err? { return Err(payload.fault); }
      r := ReadResponse(payload.value);
    }
  }
}
