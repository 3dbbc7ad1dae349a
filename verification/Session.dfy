/** The request loop of the server, over a socket that fragments and may fail. */
module SessionLoop {
  import SessionProofs
  import opened Bytes
  import opened Faults
  import opened ProtocolSpec
  import opened Protocol
  import opened SessionSpec
  import opened Transport

  /** The adapter between the wire and the model; the model's state changes in place. */
  class ModelAdapter<S> {
    const model: Option<Model<S>>
    var state: S

    constructor (model: Option<Model<S>>, state: S)
      ensures this.model == model && this.state == state
    {
      this.model := model;
      this.state := state;
    }

    method Predict(req: PredictRequest, metrics: seq<Metric>) returns (r: Result<PredictResponse>)
      modifies this
      ensures (state, r) == SessionSpec.Predict(model, old(state), req, metrics)
      ensures state == if model.Some? then model.value.predict(old(state), ToObservation(req)).0 else old(state)
    {
      if model.None? { return Err(Said(Ascii("model adapter is not initialized"))); }
      var images := [];
      for i := 0 to |req.images|
        invariant state == old(state)
        invariant |images| == i && forall k :: 0 <= k < i ==> images[k] == ToModelImage(req.images[k])
      {
        images := images + [ToModelImage(req.images[i])];
      }
      assert images == ToModelImages(req.images);
      var (s, outcome) := model.value.predict(state, Observation(images, req.state, req.initialNoise, req.task));
      state := s;
      if outcome.Failed? { return Err(Said(outcome.text)); }
      var out := metrics;
      for i := 0 to |outcome.result.metrics|
        invariant state == s
        invariant out == metrics + outcome.result.metrics[..i]
      {
        out := out + [outcome.result.metrics[i]];
      }
      assert outcome.result.metrics[..|outcome.result.metrics|] == outcome.result.metrics;
      return Ok(PredictResponse(ToU32(outcome.result.chunkSize), ToU32(outcome.result.actionDim),
                                outcome.result.actions,
                                out));
    }

    method Reset()
      modifies this
      ensures state == SessionSpec.Reset(model, old(state))
      ensures state == if model.Some? then model.value.reset(old(state)) else old(state)
    {
      if model.Some? {
        state := model.value.reset(state);
      }
    }
  }

  method SendMessage(conn: Connection, f: Frame) returns (fault: Option<Fault>)
    modifies conn`sent, conn`sendFailed
    ensures fault.None? ==> conn.sent == old(conn.sent) + FrameBytes(f) && conn.sendFailed == old(conn.sendFailed)
    ensures fault.Some? ==> conn.sendFailed
  {
    hide EncodeHeader;
    var header := new ByteVector();
    WriteHeader(FrameHeader(f), header);
    fault := conn.SendAll(header.data);
    if fault.Some? || f.payload == [] { return; }
    fault := conn.SendAll(f.payload);
  }

  lemma LongEnough(s: bytes)
    requires |s| >= 32
    ensures DecodeHeader(s).Ok?
  {
  }

  /** Reads one message. What it found is exactly what `Parse` finds in the bytes it took from the stream. */
  method ReadMessage(conn: Connection) returns (r: Result<Frame>, ghost taken: bytes)
    modifies conn`inbound, conn`recvFailed
    ensures old(conn.inbound) == taken + conn.inbound
    ensures match r
      case Ok(f) => Parse(taken) == Whole(f, []) && conn.recvFailed == old(conn.recvFailed)
      case Err(fault) =>
        || Parse(taken) == Refused(fault)
        || (Parse(taken) == Incomplete && fault == PeerClosed && conn.inbound == [])
        || (Parse(taken) == Incomplete && fault == SocketError && conn.recvFailed)
  {
    hide DecodeHeader, HeaderError;
    var raw, head := conn.RecvExact(32);
    if raw.Err? { return Err(raw.fault), head; }
    var decoded := ReadHeader(raw.value);
    assert decoded == Ok(decoded.value) by { LongEnough(raw.value); }
    var h := decoded.value;
    assert head[..32] == head;
    var refused := HeaderError(h, MAX_PAYLOAD);
    if refused.Some? { return Err(refused.value), head; }
    var payload, body := conn.RecvExact(h.payloadLen);
    taken := head + body;
    assert taken[..32] == head && taken[32..] == body;
    if payload.Err? { return Err(payload.fault), taken; }
    assert taken[32..32 + h.payloadLen] == payload.value && taken[32 + h.payloadLen..] == [];
    return Ok(Frame(h.op, h.flags, h.requestId, h.status, h.reserved, payload.value)), taken;
  }

  lemma {:induction false} WirePush(frames: seq<Frame>, f: Frame)
    ensures Wire(frames + [f]) == Wire(frames) + FrameBytes(f)
  {
    hide FrameBytes;
    if frames == [] {
      assert frames + [f] == [f];
      assert Wire([f]) == FrameBytes(f) + Wire([]);
    } else {
      WirePush(frames[1..], f);
      assert (frames + [f])[1..] == frames[1..] + [f];
    }
  }

  /** The bytes after a whole frame, or after a refused header, do not change how the stream starts. */
  lemma ParseExtend(s: bytes, more: bytes)
    ensures match Parse(s)
            case Whole(f, rest) => Parse(s + more) == Whole(f, rest + more)
            case Refused(fault) => Parse(s + more) == Refused(fault)
            case Incomplete => true
  {
    hide DecodeHeader, HeaderError;
    if |s| >= 32 {
      LongEnough(s[..32]);
      assert (s + more)[..32] == s[..32];
      var h := DecodeHeader(s[..32]).value;
      if HeaderError(h, MAX_PAYLOAD).None? && |s| - 32 >= h.payloadLen {
        assert (s + more)[32..32 + h.payloadLen] == s[32..32 + h.payloadLen];
        assert (s + more)[32 + h.payloadLen..] == s[32 + h.payloadLen..] + more;
      }
    }
  }

  method ServePredict<S>(conn: Connection, adapter: ModelAdapter<S>, t: Timing, f: Frame)
    returns (ok: bool, ghost reply: Frame)
    modifies conn`sent, conn`sendFailed, adapter
    ensures (adapter.state, reply) == PredictReply(adapter.model, t, old(adapter.state), f)
    ensures !conn.sendFailed ==> conn.sent == old(conn.sent) + FrameBytes(reply) && !old(conn.sendFailed)
    ensures !ok ==> conn.sendFailed
  {
    hide FrameBytes, DecodeRequest, Message;
    var fault: Option<Fault>;
    var req := ReadRequest(f.payload);
    if req.Err? {
      fault := SendMessage(conn, Reply(f, STATUS_BAD_REQUEST, Message(req.fault)));
      return true, Reply(f, STATUS_BAD_REQUEST, Message(req.fault));
    }
    var resp := adapter.Predict(req.value, [Measured("server_recv_ms", t.recv)]);
    if resp.Err? {
      fault := SendMessage(conn, Reply(f, STATUS_INTERNAL_ERROR, Message(resp.fault)));
      return true, Reply(f, STATUS_INTERNAL_ERROR, Message(resp.fault));
    }
    var full := WithServerMetrics(resp.value, t);
    var out := new ByteVector();
    fault := WriteResponse(full, out);
    if fault.Some? {
      reply := Reply(f, STATUS_INTERNAL_ERROR, Message(fault.value));
      fault := SendMessage(conn, Reply(f, STATUS_INTERNAL_ERROR, Message(fault.value)));
      return true, reply;
    }
    reply := Reply(f, STATUS_OK, out.data);
    fault := SendMessage(conn, Reply(f, STATUS_OK, out.data));
    ok := fault.None?;
  }

  /** Serves one frame, replies, and says whether the caller's loop goes on. */
  method ServeFrame<S>(conn: Connection, adapter: ModelAdapter<S>, t: Timing, f: Frame)
    returns (ok: bool, ghost reply: Frame)
    modifies conn`sent, conn`sendFailed, adapter
    ensures (adapter.state, reply) == Serve(adapter.model, t, old(adapter.state), f)
    ensures !conn.sendFailed ==> conn.sent == old(conn.sent) + FrameBytes(reply) && !old(conn.sendFailed)
    ensures !ok ==> conn.sendFailed
  {
    hide FrameBytes;
    var fault: Option<Fault>;
    if f.op == OP_HEALTH {
      fault := SendMessage(conn, Reply(f, STATUS_OK, Ascii("ok policy=") + Name(adapter.model)));
      return true, Reply(f, STATUS_OK, Ascii("ok policy=") + Name(adapter.model));
    } else if f.op == OP_RESET {
      adapter.Reset();
      fault := SendMessage(conn, Reply(f, STATUS_OK, Ascii("ok")));
      return true, Reply(f, STATUS_OK, Ascii("ok"));
    } else if f.op == OP_SHUTDOWN {
      fault := SendMessage(conn, Reply(f, STATUS_OK, Ascii("ok")));
      return true, Reply(f, STATUS_OK, Ascii("ok"));
    } else if f.op == OP_PREDICT {
      ok, reply := ServePredict(conn, adapter, t, f);
    } else {
      fault := SendMessage(conn, Reply(f, STATUS_BAD_REQUEST, Ascii("unknown op")));
      return true, Reply(f, STATUS_BAD_REQUEST, Ascii("unknown op"));
    }
  }

  /** What one turn of the loop did: the stream gave no frame, or a frame was served and its reply sent or lost. */
  datatype Turn = Ended | Served(frame: Frame) | Lost(frame: Frame)

  lemma WholeIsLong(s: bytes)
    requires Parse(s).Whole?
    ensures |s| >= 32
  {
  }

  method TakeTurn<S>(conn: Connection, adapter: ModelAdapter<S>, t: Timing)
    returns (turn: Turn, ghost piece: bytes, ghost reply: Frame)
    modifies conn`inbound, conn`recvFailed, conn`sent, conn`sendFailed, adapter
    ensures old(conn.inbound) == piece + conn.inbound
    ensures turn.Ended? ==>
      && adapter.state == old(adapter.state) && conn.sent == old(conn.sent) && conn.sendFailed == old(conn.sendFailed)
      && !Parse(piece).Whole? && (conn.recvFailed || Parse(piece).Refused? || conn.inbound == [])
    ensures !turn.Ended? ==>
      && Parse(piece) == Whole(turn.frame, []) && |piece| >= 32 && conn.recvFailed == old(conn.recvFailed)
      && (adapter.state, reply) == Serve(adapter.model, t, old(adapter.state), turn.frame)
      && (!conn.sendFailed ==> conn.sent == old(conn.sent) + FrameBytes(reply) && !old(conn.sendFailed))
    ensures turn.Lost? ==> conn.sendFailed
  {
    hide Serve, FrameBytes, Parse;
    var read;
    read, piece := ReadMessage(conn);
    if read.Err? { return Ended, piece, *; }
    var keep;
    WholeIsLong(piece);
    keep, reply := ServeFrame(conn, adapter, t, read.value);
    turn := if keep then Served(read.value) else Lost(read.value);
  }

  /** `Run` has reached `at` once it has gone through `taken`, whatever comes after. */
  ghost predicate Reached<S>(model: Option<Model<S>>, clock: nat -> Timing, start: Session<S>, taken: bytes,
                                   at: Session<S>)
  {
    forall more :: Run(model, clock, start, taken + more) == Run(model, clock, at, more)
  }

  lemma ReachedNothing<S>(model: Option<Model<S>>, clock: nat -> Timing, start: Session<S>)
    ensures Reached(model, clock, start, [], start)
  {
    hide Run;
    forall more: bytes
      ensures Run(model, clock, start, [] + more) == Run(model, clock, start, more)
    {
      assert [] + more == more;
    }
  }

  lemma ReachedStep<S>(model: Option<Model<S>>, clock: nat -> Timing, start: Session<S>, taken: bytes,
                       at: Session<S>, piece: bytes, f: Frame)
    requires Reached(model, clock, start, taken, at) && !at.stopped && Parse(piece) == Whole(f, [])
    ensures Reached(model, clock, start, taken + piece, Step(model, clock, at, f))
  {
    hide Parse, Step;
    forall more: bytes
      ensures Run(model, clock, start, taken + piece + more) == Run(model, clock, Step(model, clock, at, f), more)
    {
      assert taken + piece + more == taken + (piece + more);
      ParseExtend(piece, more);
      assert [] + more == more;
    }
  }

  lemma ParseNothing()
    ensures Parse([]) == Incomplete
  {
  }

  /** A run ends where it was told to stop, or at a piece that is no whole frame. */
  lemma ReachedEnd<S>(model: Option<Model<S>>, clock: nat -> Timing, start: Session<S>, taken: bytes,
                      at: Session<S>, piece: bytes, unread: bytes)
    requires Reached(model, clock, start, taken, at) && (at.stopped || !Parse(piece).Whole?)
    ensures Run(model, clock, start, taken + piece) == at
    ensures at.stopped || Parse(piece).Refused? || unread == [] ==>
      Run(model, clock, start, taken + piece + unread) == at
  {
    hide Parse, Step;
    assert taken + piece + unread == taken + (piece + unread);
    ParseExtend(piece, unread);
    assert piece + [] == piece;
  }

  /** Only the last of these frames may be a shutdown; a session not told to stop has stopped there or not at all. */
  predicate UpToShutdown(frames: seq<Frame>, stop: bool, stopped: bool) {
    && (forall i :: 0 <= i < |frames| - 1 ==> frames[i].op != OP_SHUTDOWN)
    && (stopped <==> stop || (frames != [] && frames[|frames| - 1].op == OP_SHUTDOWN))
  }

  /** A session, from its start, after the bytes `done`: the frames served so far. */
  ghost predicate Progress<S>(model: Option<Model<S>>, clock: nat -> Timing, start: Session<S>, at: Session<S>,
                              done: bytes, frames: seq<Frame>)
  {
    && Reached(model, clock, start, done, at) && done == Wire(frames) && |frames| == at.served
    && UpToShutdown(frames, start.stopped, at.stopped)
  }

  lemma NoFrames(stop: bool)
    ensures UpToShutdown([], stop, stop)
  {
  }

  lemma ProgressNothing<S>(model: Option<Model<S>>, clock: nat -> Timing, s: S, stop: bool)
    ensures var start := SessionSpec.Session(s, 0, [], stop); Progress(model, clock, start, start, [], [])
    ensures Wire([]) == []
  {
    hide Run, Reached, UpToShutdown;
    NoFrames(stop);
    ReachedNothing(model, clock, SessionSpec.Session(s, 0, [], stop));
  }

  lemma NextFrame(frames: seq<Frame>, f: Frame, stop: bool)
    requires UpToShutdown(frames, stop, false)
    ensures UpToShutdown(frames + [f], stop, f.op == OP_SHUTDOWN)
  {
  }

  lemma PieceIsFrame(piece: bytes, f: Frame)
    requires Parse(piece) == Whole(f, [])
    ensures piece == FrameBytes(f)
  {
    hide Parse, FrameBytes;
    SessionProofs.ParseBack(piece);
    assert FrameBytes(f) + [] == FrameBytes(f);
  }

  lemma ProgressStep<S>(model: Option<Model<S>>, clock: nat -> Timing, start: Session<S>, at: Session<S>,
                        done: bytes, frames: seq<Frame>, piece: bytes, f: Frame)
    requires Progress(model, clock, start, at, done, frames) && !at.stopped && Parse(piece) == Whole(f, [])
    ensures Progress(model, clock, start, Step(model, clock, at, f), done + piece, frames + [f])
  {
    hide Serve, FrameBytes, Parse, Reached, Wire, UpToShutdown;
    ReachedStep(model, clock, start, done, at, piece, f);
    WirePush(frames, f);
    PieceIsFrame(piece, f);
    NextFrame(frames, f, start.stopped);
  }

  lemma ProgressEnd<S>(model: Option<Model<S>>, clock: nat -> Timing, start: Session<S>, at: Session<S>,
                       done: bytes, frames: seq<Frame>, piece: bytes, unread: bytes)
    requires Progress(model, clock, start, at, done, frames) && (at.stopped || !Parse(piece).Whole?)
    ensures Run(model, clock, start, done + piece) == at
    ensures at.stopped || Parse(piece).Refused? || unread == [] ==>
      Run(model, clock, start, done + piece + unread) == at
    ensures done == Wire(frames) && |frames| == at.served && UpToShutdown(frames, start.stopped, at.stopped)
  {
    hide Parse, Run, Reached, Wire, UpToShutdown;
    ReachedEnd(model, clock, start, done, at, piece, unread);
  }

  /**
    * One connection, from the first byte to its end. Whatever the fragmentation and whatever fails, the model has
    * gone through exactly what `Run` says for the bytes taken; unless a send failed, the bytes sent are exactly the
    * replies of that run; and if nothing failed, the whole of what the peer sent would have given the same run.
    * The bytes taken are the served frames and a tail that is no frame; after a shutdown not a byte more is taken.
    */
  method HandleClient<S>(conn: Connection, adapter: ModelAdapter<S>, clock: nat -> Timing, stop: bool)
    returns (ok: bool, stopped: bool, ghost taken: bytes, ghost frames: seq<Frame>, ghost tail: bytes)
    requires !conn.recvFailed && !conn.sendFailed
    modifies conn`inbound, conn`recvFailed, conn`sent, conn`sendFailed, adapter
    ensures old(conn.inbound) == taken + conn.inbound
    ensures var start := SessionSpec.Session(old(adapter.state), 0, [], stop);
      var end := Run(adapter.model, clock, start, taken);
      && adapter.state == end.state && ok == stopped == end.stopped
      && (!conn.sendFailed ==> conn.sent == old(conn.sent) + Wire(end.replies))
      && (!conn.sendFailed && !conn.recvFailed ==> Run(adapter.model, clock, start, old(conn.inbound)) == end)
      && |frames| == end.served
    ensures taken == Wire(frames) + tail && !Parse(tail).Whole? && (stopped ==> tail == [])
    ensures UpToShutdown(frames, stop, stopped)
  {
    hide Serve, FrameBytes, Parse, Run, Wire, UpToShutdown, Progress;
    ghost var start := SessionSpec.Session(adapter.state, 0, [], stop);
    ghost var at, done, piece := start, [], [];
    var served := 0;
    stopped, frames := stop, [];
    ProgressNothing(adapter.model, clock, adapter.state, stop);
    while !stopped
      invariant at.state == adapter.state && at.stopped == stopped && at.served == served && piece == []
      invariant old(conn.inbound) == done + conn.inbound
      invariant !conn.recvFailed
      invariant !conn.sendFailed ==> conn.sent == old(conn.sent) + Wire(at.replies)
      invariant Progress(adapter.model, clock, start, at, done, frames)
      decreases |conn.inbound|
    {
      var turn;
      ghost var reply;
      turn, piece, reply := TakeTurn(conn, adapter, clock(served));
      if turn.Ended? { break; }
      ProgressStep(adapter.model, clock, start, at, done, frames, piece, turn.frame);
      WirePush(at.replies, reply);
      frames := frames + [turn.frame];
      done, at, piece := done + piece, Step(adapter.model, clock, at, turn.frame), [];
      stopped, served := turn.frame.op == OP_SHUTDOWN, served + 1;
      if turn.Lost? { break; }
    }
    ok, taken, tail := stopped, done + piece, piece;
    ParseNothing();
    ProgressEnd(adapter.model, clock, start, at, done, frames, piece, conn.inbound);
  }
}
