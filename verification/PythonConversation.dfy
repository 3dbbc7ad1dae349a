/** The Python client on the wire: receiving, calling, and how its view of a reply compares with the C++ client's. */
module PythonConversation {
  import opened Bytes
  import opened Faults
  import opened ProtocolSpec
  import opened Transport
  import opened SessionSpec
  import SessionLoop
  import Client
  import PythonClient

  /** No limit on the payload. */
  const NO_LIMIT: u64 := 0xFFFF_FFFF_FFFF_FFFF

  /** What `_recv_message` makes of the start of a stream. */
  function ParseAny(s: bytes): Start {
    if |s| < 32 then Incomplete
    else
      var h := DecodeHeader(s[..32]).value;
      match HeaderError(h, NO_LIMIT)
      case Some(f) => Refused(f)
      case None =>
        if |s| - 32 < h.payloadLen then Incomplete
        else Whole(Frame(h.op, h.flags, h.requestId, h.status, h.reserved, s[32..32 + h.payloadLen]),
                   s[32 + h.payloadLen..])
  }

  /** What `_call` returns or raises. T is the type of Python text, which `text` decodes from bytes. */
  datatype Answer<T> = Payload(payload: bytes) | Raised(fault: Fault) | Told(text: T)

  /** What `_call` makes of the bytes that come back. */
  function Receive<T>(id: u32, s: bytes, text: bytes -> T): Answer<T> {
    match ParseAny(s)
    case Incomplete => Raised(PeerClosed)
    case Refused(f) => Raised(f)
    case Whole(f, _) =>
      if f.requestId != id then Raised(WrongRequestId)
      else if f.status != STATUS_OK then Told(text(f.payload))
      else Payload(f.payload)
  }

  /** `_recv_all`: succeeds exactly when `n` more bytes arrive, and joins them however they were cut. */
  method RecvAll(conn: Connection, n: nat) returns (r: Result<bytes>, ghost taken: bytes)
    modifies conn`inbound, conn`recvFailed
    ensures old(conn.inbound) == taken + conn.inbound && |taken| <= n && (r.Ok? <==> |taken| == n)
    ensures r.Ok? ==> r.value == taken && conn.recvFailed == old(conn.recvFailed)
    ensures r.Err? ==> (r.fault == PeerClosed && conn.inbound == []) || (r.fault == SocketError && conn.recvFailed)
  {
    var chunks, remaining := [], n;
    taken := [];
    while remaining > 0
      invariant 0 <= remaining <= n && |chunks| == n - remaining && chunks == taken
      invariant old(conn.inbound) == taken + conn.inbound && conn.recvFailed == old(conn.recvFailed)
    {
      ghost var pending := conn.inbound;
      var got, chunk := conn.Recv(remaining);
      if got < 0 { return Err(SocketError), taken; }
      if got == 0 { return Err(PeerClosed), taken; }
      assert pending == chunk + conn.inbound;
      chunks, taken, remaining := chunks + chunk, taken + chunk, remaining - |chunk|;
    }
    r := Ok(chunks);
  }

  method RecvMessage(conn: Connection) returns (r: Result<Frame>, ghost taken: bytes)
    modifies conn`inbound, conn`recvFailed
    ensures old(conn.inbound) == taken + conn.inbound
    ensures match r
      case Ok(f) => ParseAny(taken) == Whole(f, []) && conn.recvFailed == old(conn.recvFailed)
      case Err(fault) =>
        || ParseAny(taken) == Refused(fault)
        || (ParseAny(taken) == Incomplete && fault == PeerClosed && conn.inbound == [])
        || (ParseAny(taken) == Incomplete && fault == SocketError && conn.recvFailed)
  {
    hide DecodeHeader, HeaderError;
    var raw, head := RecvAll(conn, 32);
    if raw.Err? { return Err(raw.fault), head; }
    SessionLoop.LongEnough(raw.value);
    var h := DecodeHeader(raw.value).value;
    assert head[..32] == head;
    var refused := HeaderError(h, NO_LIMIT);
    if refused.Some? { return Err(refused.value), head; }
    var payload, body := RecvAll(conn, h.payloadLen);
    taken := head + body;
    assert taken[..32] == head && taken[32..] == body;
    if payload.Err? { return Err(payload.fault), taken; }
    assert taken[32..32 + h.payloadLen] == payload.value && taken[32 + h.payloadLen..] == [];
    r := Ok(Frame(h.op, h.flags, h.requestId, h.status, h.reserved, payload.value));
  }

  lemma ParseExtend(s: bytes, more: bytes)
    ensures match ParseAny(s)
            case Whole(f, rest) => ParseAny(s + more) == Whole(f, rest + more)
            case Refused(fault) => ParseAny(s + more) == Refused(fault)
            case Incomplete => true
  {
    hide DecodeHeader, HeaderError;
    if |s| >= 32 {
      assert (s + more)[..32] == s[..32];
      SessionLoop.LongEnough(s[..32]);
      var h := DecodeHeader(s[..32]).value;
      if HeaderError(h, NO_LIMIT).None? && |s| - 32 >= h.payloadLen {
        assert (s + more)[32..32 + h.payloadLen] == s[32..32 + h.payloadLen];
        assert (s + more)[32 + h.payloadLen..] == s[32 + h.payloadLen..] + more;
      }
    }
  }

  class ModelClient {
    /** Incremented before use, and never wrapped. */
    var requestId: nat

    constructor ()
      ensures requestId == 0
    {
      requestId := 0;
    }

    /** None of the request is sent once the id no longer packs into 32 bits. */
    method Call<T>(conn: Connection, op: u16, payload: bytes, text: bytes -> T) returns (r: Answer<T>)
      requires !conn.recvFailed && !conn.sendFailed
      modifies this, conn
      ensures requestId == old(requestId) + 1
      ensures requestId > U32_MAX ==> r.Raised? && conn.sent == old(conn.sent)
      ensures requestId <= U32_MAX && !conn.sendFailed ==>
        conn.sent == old(conn.sent) + FrameBytes(SessionSpec.Frame(op, 0, requestId, 0, 0, payload))
      ensures requestId <= U32_MAX && !conn.sendFailed && !conn.recvFailed ==>
        r == Receive(requestId, old(conn.inbound), text)
    {
      hide FrameBytes, ParseAny;
      requestId := requestId + 1;
      if requestId > U32_MAX { return Raised(Said(Ascii("argument out of range"))); }
      var fault := SessionLoop.SendMessage(conn, Client.RequestFrame(op, requestId, payload));
      if fault.Some? { return Raised(fault.value); }
      var reply, taken := RecvMessage(conn);
      ParseExtend(taken, conn.inbound);
      assert conn.inbound == [] ==> taken + conn.inbound == taken;
      if reply.Err? { return Raised(reply.fault); }
      var f := reply.value;
      if f.requestId != requestId { return Raised(WrongRequestId); }
      if f.status != STATUS_OK { return Told(text(f.payload)); }
      r := Payload(f.payload);
    }
  }

  // -------------------------------------------------------- beside the C++ client

  /** The error text of the C++ client: the bytes as they came, or words of its own in place of none. */
  function Words(payload: bytes): bytes {
    if |payload| == 0 then Ascii("server returned error") else payload
  }

  /**
    * Both clients make the same of the same bytes, however they are cut, but for two things: the C++ client refuses a
    * payload over the limit, and an error text is raw bytes to it and decoded text to Python.
    */
  lemma SameReply<T>(id: u32, s: bytes, text: bytes -> T)
    ensures Client.Receive(id, s) == Err(PayloadTooLarge) || match Receive(id, s, text)
      case Payload(p) => Client.Receive(id, s) == Ok(p)
      case Raised(f) => Client.Receive(id, s) == Err(f)
      case Told(t) => exists raw :: text(raw) == t && Client.Receive(id, s) == Err(Said(Words(raw)))
    ensures Client.Receive(id, s).Ok? ==> Receive(id, s, text) == Payload(Client.Receive(id, s).value)
  {
    hide DecodeHeader;
  }

  lemma SmallReply<T>(id: u32, s: bytes, text: bytes -> T)
    requires Receive(id, s, text).Payload?
    ensures var p := Receive(id, s, text).payload;
      Client.Receive(id, s) == if |p| <= MAX_PAYLOAD then Ok(p) else Err(PayloadTooLarge)
  {
    hide DecodeHeader;
    SessionLoop.LongEnough(s[..32]);
    var h := DecodeHeader(s[..32]).value;
    assert HeaderError(h, NO_LIMIT).None? && |s| - 32 >= h.payloadLen;
    assert Receive(id, s, text).payload == s[32..32 + h.payloadLen];
    assert HeaderError(h, MAX_PAYLOAD) == if h.payloadLen <= MAX_PAYLOAD then None else Some(PayloadTooLarge);
  }

  /**
    * The two clients return the same response for the same bytes: whenever C++ returns one, Python returns it, and
    * what Python returns beyond that has a payload over the limit or an empty metric name.
    */
  lemma SameResponse<T>(id: u32, s: bytes, resp: PredictResponse, text: bytes -> T)
    ensures Client.ReceivePrediction(id, s) == Ok(resp) <==>
      && Receive(id, s, text).Payload? && |Receive(id, s, text).payload| <= MAX_PAYLOAD
      && PythonClient.PyFields(Receive(id, s, text).payload) == Some(resp) && PythonClient.AllNamed(resp.metrics)
  {
    SameReply(id, s, text);
    hide DecodeHeader, DecodeResponse, PythonClient.PyFields, Receive, Client.Receive, ParseAny, SessionSpec.Parse;
    if Receive(id, s, text).Payload? {
      SmallReply(id, s, text);
      PythonClient.SameResponses(Receive(id, s, text).payload, resp);
    }
  }
}
