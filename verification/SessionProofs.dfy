/** Whole conversations: framing is unambiguous, and every request served gets exactly one matching reply. */
module SessionProofs {
  import opened Bytes
  import opened Faults
  import opened ProtocolSpec
  import ProtocolProofs
  import opened SessionSpec

  predicate Fits(f: Frame) {
    |f.payload| <= MAX_PAYLOAD
  }

  predicate AllFit(frames: seq<Frame>) {
    forall i :: 0 <= i < |frames| ==> Fits(frames[i])
  }

  // ---------------------------------------------------------------- framing

  lemma ParseFrame(f: Frame, rest: bytes)
    requires |f.payload| < 0x1_0000_0000_0000_0000
    ensures Parse(FrameBytes(f) + rest) == if Fits(f) then Whole(f, rest) else Refused(PayloadTooLarge)
  {
    hide EncodeHeader, DecodeHeader;
    var h := FrameHeader(f);
    var s := FrameBytes(f) + rest;
    ProtocolProofs.HeaderRoundTrip(h);
    assert s[..32] == EncodeHeader(h);
    if Fits(f) {
      assert s[32..32 + |f.payload|] == f.payload;
      assert s[32 + |f.payload|..] == rest;
    }
  }

  lemma ParseBack(s: bytes)
    requires Parse(s).Whole?
    ensures var Whole(f, rest) := Parse(s); Fits(f) && s == FrameBytes(f) + rest
  {
    hide EncodeHeader, DecodeHeader;
    assert DecodeHeader(s[..32]).Ok? by { ProtocolProofs.HeaderLong(s[..32]); }
    ProtocolProofs.HeaderBytesBack(s[..32]);
  }

  /** A stream starts with a whole frame exactly when it is that frame's bytes, of legal size, and then the rest. */
  lemma FrameCodec(f: Frame, s: bytes, rest: bytes)
    ensures Parse(s) == Whole(f, rest) <==> Fits(f) && s == FrameBytes(f) + rest
  {
    if Fits(f) && s == FrameBytes(f) + rest {
      ParseFrame(f, rest);
    }
    if Parse(s) == Whole(f, rest) {
      ParseBack(s);
    }
  }

  lemma FrameBytesLength(f: Frame)
    ensures |FrameBytes(f)| == 32 + |f.payload|
  {
  }

  /** The frames of a stream, and the tail that yields no further frame. */
  function Split(s: bytes): (r: (seq<Frame>, bytes))
    decreases |s|
  {
    match Parse(s)
    case Whole(f, rest) =>
      var (fs, tail) := Split(rest);
      ([f] + fs, tail)
    case _ => ([], s)
  }

  ghost predicate Splits(s: bytes, frames: seq<Frame>, tail: bytes) {
    s == Wire(frames) + tail && AllFit(frames) && !Parse(tail).Whole?
  }

  lemma AllFitSplit(frames: seq<Frame>)
    requires frames != []
    ensures AllFit(frames) <==> Fits(frames[0]) && AllFit(frames[1..])
  {
    hide Fits;
    if AllFit(frames[1..]) && Fits(frames[0]) {
      forall i | 0 <= i < |frames| ensures Fits(frames[i]) {
        if i > 0 { assert frames[i] == frames[1..][i - 1]; }
      }
    }
  }

  /** A splitting is empty when the stream starts with no frame, and starts with the stream's frame when it has one. */
  lemma FirstOf(s: bytes, frames: seq<Frame>, tail: bytes)
    ensures frames == [] ==> (Splits(s, frames, tail) <==> s == tail && !Parse(s).Whole?)
    ensures frames != [] ==>
      (Splits(s, frames, tail) <==>
        && Parse(s).Whole? && Parse(s).frame == frames[0] && Splits(Parse(s).rest, frames[1..], tail))
  {
    hide Fits, FrameBytes, Parse;
    assert Wire([]) + tail == tail;
    if frames != [] {
      var after := Wire(frames[1..]) + tail;
      Associate(FrameBytes(frames[0]), Wire(frames[1..]), tail);
      FrameCodec(frames[0], s, after);
      if Parse(s).Whole? {
        FrameCodec(Parse(s).frame, s, Parse(s).rest);
      }
      AllFitSplit(frames);
    }
  }

  /** Every byte stream is, in exactly one way, a run of frames of legal size and a tail that is no frame. */
  lemma {:induction false} UniqueFraming(s: bytes, frames: seq<Frame>, tail: bytes)
    ensures Splits(s, frames, tail) <==> Split(s) == (frames, tail)
    decreases |s|
  {
    hide Fits, FrameBytes, Parse;
    FirstOf(s, frames, tail);
    if Parse(s).Whole? {
      var Whole(f, rest) := Parse(s);
      FrameCodec(f, s, rest);
      FrameBytesLength(f);
      if frames != [] {
        UniqueFraming(rest, frames[1..], tail);
        assert frames == [frames[0]] + frames[1..];
      }
    }
  }

  // ------------------------------------------------------------------- runs

  /** How many frames a session serves: all of them, or up to and including the first shutdown. */
  function Served(frames: seq<Frame>): (n: nat)
    ensures n <= |frames|
  {
    if frames == [] then 0 else if frames[0].op == OP_SHUTDOWN then 1 else 1 + Served(frames[1..])
  }

  lemma {:induction false} ServedMeans(frames: seq<Frame>, n: nat)
    ensures Served(frames) == n
      <==> && n <= |frames|
           && (forall i :: 0 <= i < n - 1 ==> frames[i].op != OP_SHUTDOWN)
           && (n == |frames| || (n > 0 && frames[n - 1].op == OP_SHUTDOWN))
  {
    if frames != [] && frames[0].op != OP_SHUTDOWN && n > 0 {
      ServedMeans(frames[1..], n - 1);
      assert forall i :: 1 <= i < |frames| ==> frames[i] == frames[1..][i - 1];
    }
  }

  /** The replies to a list of frames, each answered from the state the frames before it have left. */
  function Replies<S>(model: Option<Model<S>>, clock: nat -> Timing, s: S, k: nat, frames: seq<Frame>): (S, seq<Frame>)
    decreases |frames|
  {
    if frames == [] then (s, [])
    else
      var (s1, reply) := Serve(model, clock(k), s, frames[0]);
      var (s2, replies) := Replies(model, clock, s1, k + 1, frames[1..]);
      (s2, [reply] + replies)
  }

  lemma RunOne<S>(model: Option<Model<S>>, clock: nat -> Timing, at: Session<S>, frames: seq<Frame>, tail: bytes)
    requires AllFit(frames) && !at.stopped && frames != []
    ensures Run(model, clock, at, Wire(frames) + tail)
         == Run(model, clock, Step(model, clock, at, frames[0]), Wire(frames[1..]) + tail)
  {
    hide Fits, FrameBytes, Parse, Step;
    var after := Wire(frames[1..]) + tail;
    Associate(FrameBytes(frames[0]), Wire(frames[1..]), tail);
    FrameCodec(frames[0], Wire(frames) + tail, after);
  }

  lemma StoppedStays<S>(model: Option<Model<S>>, clock: nat -> Timing, at: Session<S>, s: bytes)
    requires at.stopped
    ensures Run(model, clock, at, s) == at
  {
  }

  lemma ServesShutdown<S>(model: Option<Model<S>>, clock: nat -> Timing, at: Session<S>, frames: seq<Frame>,
                          tail: bytes)
    requires AllFit(frames) && !at.stopped && frames != [] && frames[0].op == OP_SHUTDOWN
    ensures var (s, replies) := Replies(model, clock, at.state, at.served, frames[..1]);
      Run(model, clock, at, Wire(frames) + tail) == Session(s, at.served + 1, at.replies + replies, true)
  {
    hide AllFit, Serve, Wire;
    RunOne(model, clock, at, frames, tail);
    StoppedStays(model, clock, Step(model, clock, at, frames[0]), Wire(frames[1..]) + tail);
    assert frames[..1][1..] == [];
  }

  predicate Shuts(frames: seq<Frame>) {
    if frames == [] then false else frames[0].op == OP_SHUTDOWN || Shuts(frames[1..])
  }

  lemma ServesNext<S>(model: Option<Model<S>>, clock: nat -> Timing, at: Session<S>, frames: seq<Frame>, tail: bytes)
    requires AllFit(frames) && !at.stopped && frames != [] && frames[0].op != OP_SHUTDOWN
    requires var next, n := Step(model, clock, at, frames[0]), Served(frames[1..]);
      var (s, replies) := Replies(model, clock, next.state, next.served, frames[1..][..n]);
      Run(model, clock, next, Wire(frames[1..]) + tail)
      == Session(s, next.served + n, next.replies + replies, Shuts(frames[1..]))
    ensures var n := Served(frames);
      var (s, replies) := Replies(model, clock, at.state, at.served, frames[..n]);
      Run(model, clock, at, Wire(frames) + tail) == Session(s, at.served + n, at.replies + replies, Shuts(frames))
  {
    hide AllFit, Serve, Wire, Run;
    RunOne(model, clock, at, frames, tail);
    var next, n := Step(model, clock, at, frames[0]), Served(frames[1..]);
    var (s, replies) := Replies(model, clock, next.state, next.served, frames[1..][..n]);
    assert frames[..n + 1][0] == frames[0] && frames[..n + 1][1..] == frames[1..][..n];
    Associate(at.replies, [next.replies[|at.replies|]], replies);
  }

  /** A session over a stream of frames and any tail that is no frame. */
  lemma {:induction false} RunServes<S>(model: Option<Model<S>>, clock: nat -> Timing, at: Session<S>,
                                        frames: seq<Frame>, tail: bytes)
    requires AllFit(frames) && !at.stopped
    requires !Parse(tail).Whole? || Shuts(frames)
    ensures var n := Served(frames);
      var (s, replies) := Replies(model, clock, at.state, at.served, frames[..n]);
      Run(model, clock, at, Wire(frames) + tail) == Session(s, at.served + n, at.replies + replies, Shuts(frames))
    decreases |frames|
  {
    hide Fits, FrameBytes, Parse, Serve;
    if frames == [] {
      assert Wire(frames) + tail == tail;
      assert at.replies + [] == at.replies;
    } else if frames[0].op == OP_SHUTDOWN {
      ServesShutdown(model, clock, at, frames, tail);
    } else {
      var next := Step(model, clock, at, frames[0]);
      RunServes(model, clock, next, frames[1..], tail);
      ServesNext(model, clock, at, frames, tail);
    }
  }

  lemma {:induction false} ShutsMeans(frames: seq<Frame>)
    ensures Shuts(frames) <==> exists i :: 0 <= i < |frames| && frames[i].op == OP_SHUTDOWN
  {
    if frames != [] {
      ShutsMeans(frames[1..]);
      assert forall i :: 1 <= i < |frames| ==> frames[i] == frames[1..][i - 1];
      if Shuts(frames[1..]) {
        var i :| 0 <= i < |frames[1..]| && frames[1..][i].op == OP_SHUTDOWN;
        assert frames[i + 1].op == OP_SHUTDOWN;
      }
    }
  }

  /** A 32-bit number under a sign. */
  predicate IsSigned(v: i32, bits: u32) {
    v == if bits < 0x8000_0000 then bits else bits - 0x1_0000_0000
  }

  /** What the model is handed for a request: an empty name becomes "image", no bytes become none. */
  lemma ObservationMeans(req: PredictRequest)
    ensures var seen := ToObservation(req);
      && seen.state == req.state && seen.initialNoise == req.initialNoise && seen.task == req.task
      && |seen.images| == |req.images|
      && forall i :: 0 <= i < |req.images| ==>
           && seen.images[i].name == (if req.images[i].name == [] then [105, 109, 97, 103, 101] else req.images[i].name)
           && seen.images[i].data == (if req.images[i].data == [] then None else Some(req.images[i].data))
           && IsSigned(seen.images[i].width, req.images[i].width)
           && IsSigned(seen.images[i].height, req.images[i].height)
           && IsSigned(seen.images[i].channels, req.images[i].channels)
           && IsSigned(seen.images[i].strideBytes, req.images[i].strideBytes)
  {
    assert Ascii("image") == [105, 109, 97, 103, 101];
    hide Ascii;
  }

  /** The answer to a predict request, when the model has been asked. */
  predicate AnswersOutcome(reply: Frame, outcome: Outcome, t: Timing) {
    match outcome
    case Failed(text) => reply.status == 5 && reply.payload == text
    case Predicted(result) =>
      var resp := PredictResponse(result.chunkSize % 0x1_0000_0000, result.actionDim % 0x1_0000_0000, result.actions,
                                  [Metric(Ascii("server_recv_ms"), t.recv)] + result.metrics
                                  + [Metric(Ascii("server_queue_ms"), t.queue),
                                     Metric(Ascii("server_predict_ms"), t.predict)]);
      match ResponseError(resp)
      case None => reply.status == 0 && reply.payload == ResponseBytes(resp)
      case Some(fault) => reply.status == 5 && reply.payload == Message(fault)
  }

  lemma AnswersPrediction<S>(m: Model<S>, t: Timing, s: S, f: Frame, req: PredictRequest)
    requires f.op == 3 && DecodeRequest(f.payload) == Ok(req)
    ensures var (s', reply) := Serve(Some(m), t, s, f);
      s' == m.predict(s, ToObservation(req)).0 && AnswersOutcome(reply, m.predict(s, ToObservation(req)).1, t)
  {
    hide DecodeRequest, ResponseError, ResponseBytes, Ascii, ToObservation;
    var (s', outcome) := m.predict(s, ToObservation(req));
    if outcome.Predicted? {
      Associate([Metric(Ascii("server_recv_ms"), t.recv)], outcome.result.metrics,
                [Metric(Ascii("server_queue_ms"), t.queue), Metric(Ascii("server_predict_ms"), t.predict)]);
    }
  }

  lemma Words()
    ensures Ascii("ok") == [111, 107] && Ascii("ok policy=") == [111, 107, 32, 112, 111, 108, 105, 99, 121, 61]
    ensures Ascii("invalid") == [105, 110, 118, 97, 108, 105, 100]
    ensures Ascii("unknown op") == [117, 110, 107, 110, 111, 119, 110, 32, 111, 112]
  {
  }

  /**
    * Every answer, operation by operation, and the state it leaves: health (1), reset (2), predict (3), shutdown (4).
    * It echoes operation and request id; it is BAD_REQUEST (1) iff the operation is none of these or the request does
    * not decode.
    */
  lemma ServeAnswers<S>(model: Option<Model<S>>, t: Timing, s: S, f: Frame)
    ensures var (s', reply) := Serve(model, t, s, f);
      && reply.op == f.op && reply.requestId == f.requestId && reply.flags == 0 && reply.reserved == 0
      && (reply.status == 1 <==> f.op !in {1, 2, 3, 4} || (f.op == 3 && DecodeRequest(f.payload).Err?))
      && (f.op == 1 ==>
           && s' == s && reply.status == 0
           && reply.payload == [111, 107, 32, 112, 111, 108, 105, 99, 121, 61]
                + if model.Some? then model.value.name else [105, 110, 118, 97, 108, 105, 100])
      && (f.op == 2 ==>
           && s' == (if model.Some? then model.value.reset(s) else s)
           && reply.status == 0 && reply.payload == [111, 107])
      && (f.op == 3 ==>
           match DecodeRequest(f.payload)
           case Err(fault) => s' == s && reply.payload == Message(fault)
           case Ok(req) =>
             if model.None? then s' == s && reply.status == 5
             else
               && s' == model.value.predict(s, ToObservation(req)).0
               && AnswersOutcome(reply, model.value.predict(s, ToObservation(req)).1, t))
      && (f.op == 4 ==> s' == s && reply.status == 0 && reply.payload == [111, 107])
      && (f.op !in {1, 2, 3, 4} ==> s' == s && reply.payload == [117, 110, 107, 110, 111, 119, 110, 32, 111, 112])
  {
    hide DecodeRequest, EncodeResponse, Message, ToObservation, AnswersOutcome;
    Words();
    if f.op == 3 && DecodeRequest(f.payload).Ok? && model.Some? {
      AnswersPrediction(model.value, t, s, f, DecodeRequest(f.payload).value);
    }
    hide Ascii;
  }

  lemma {:induction false} RepliesMatch<S>(model: Option<Model<S>>, clock: nat -> Timing, s: S, k: nat,
                                           frames: seq<Frame>)
    ensures var replies := Replies(model, clock, s, k, frames).1;
      && |replies| == |frames|
      && forall i :: 0 <= i < |frames| ==> replies[i].op == frames[i].op && replies[i].requestId == frames[i].requestId
    decreases |frames|
  {
    hide Serve;
    if frames != [] {
      var (s1, reply) := Serve(model, clock(k), s, frames[0]);
      ServeAnswers(model, clock(k), s, frames[0]);
      RepliesMatch(model, clock, s1, k + 1, frames[1..]);
    }
  }

  /**
    * Safety of a whole session, for any frames and any tail: one reply per frame served, in order, with the frame's
    * operation and request id; the frames served are all, or those up to the first shutdown; after a shutdown
    * nothing is served whatever follows, and at a refused header or at the end of the stream nothing is replied.
    */
  lemma SessionSafety<S>(model: Option<Model<S>>, clock: nat -> Timing, s: S, frames: seq<Frame>, tail: bytes)
    requires AllFit(frames)
    requires !Parse(tail).Whole? || exists i :: 0 <= i < |frames| && frames[i].op == OP_SHUTDOWN
    ensures var end := Run(model, clock, Session(s, 0, [], false), Wire(frames) + tail);
      && end.served == |end.replies| == Served(frames)
      && (end.stopped <==> exists i :: 0 <= i < |frames| && frames[i].op == OP_SHUTDOWN)
      && (forall i :: 0 <= i < |end.replies| ==>
           end.replies[i].op == frames[i].op && end.replies[i].requestId == frames[i].requestId)
  {
    hide Fits, FrameBytes, Parse, Serve;
    ShutsMeans(frames);
    var n := Served(frames);
    RunServes(model, clock, Session(s, 0, [], false), frames, tail);
    ServedMeans(frames, n);
    RepliesMatch(model, clock, s, 0, frames[..n]);
    var replies := Replies(model, clock, s, 0, frames[..n]).1;
    assert [] + replies == replies;
  }

  // ---------------------------------------------------- the state frames are served in

  lemma {:induction false} WireAppend(a: seq<Frame>, b: seq<Frame>)
    ensures Wire(a + b) == Wire(a) + Wire(b)
  {
    hide FrameBytes;
    if a == [] {
      assert a + b == b;
    } else {
      WireAppend(a[1..], b);
      assert (a + b)[1..] == a[1..] + b;
      Associate(FrameBytes(a[0]), Wire(a[1..]), Wire(b));
    }
  }

  predicate NoShutdown(frames: seq<Frame>) {
    forall i :: 0 <= i < |frames| ==> frames[i].op != 4
  }

  lemma NothingMore<S>(model: Option<Model<S>>, clock: nat -> Timing, at: Session<S>)
    ensures Run(model, clock, at, []) == at
  {
  }

  lemma StepAdds<S>(model: Option<Model<S>>, clock: nat -> Timing, at: Session<S>, f: Frame)
    ensures var next := Step(model, clock, at, f);
      && next.served == at.served + 1 && next.replies == at.replies + [Serve(model, clock(at.served), at.state, f).1]
      && next.state == Serve(model, clock(at.served), at.state, f).0 && (next.stopped <==> f.op == 4)
  {
    hide Serve;
  }

  /** Frames that are no shutdown are served one after the other, and what follows them after that. */
  lemma {:induction false} RunAfter<S>(model: Option<Model<S>>, clock: nat -> Timing, at: Session<S>,
                                       frames: seq<Frame>, more: bytes)
    requires AllFit(frames) && NoShutdown(frames) && !at.stopped
    ensures var last := Run(model, clock, at, Wire(frames));
      && Run(model, clock, at, Wire(frames) + more) == Run(model, clock, last, more)
      && !last.stopped && last.served == at.served + |frames| && |last.replies| == |at.replies| + |frames|
    decreases |frames|
  {
    hide Fits, Run, Step;
    if frames == [] {
      assert Wire(frames) + more == more;
      NothingMore(model, clock, at);
    } else {
      var next := Step(model, clock, at, frames[0]);
      StepAdds(model, clock, at, frames[0]);
      RunOne(model, clock, at, frames, more);
      RunOne(model, clock, at, frames, []);
      assert Wire(frames) + [] == Wire(frames) && Wire(frames[1..]) + [] == Wire(frames[1..]);
      RunAfter(model, clock, next, frames[1..], more);
    }
  }

  lemma FrameIsLonger(s: bytes)
    requires Parse(s).Whole?
    ensures |Parse(s).rest| < |s|
  {
  }

  /** Replies made are never taken back. */
  lemma {:induction false} RepliesStay<S>(model: Option<Model<S>>, clock: nat -> Timing, at: Session<S>, s: bytes)
    ensures at.replies <= Run(model, clock, at, s).replies
    decreases |s|
  {
    hide Parse, Step;
    if !at.stopped && Parse(s).Whole? {
      var Whole(f, rest) := Parse(s);
      StepAdds(model, clock, at, f);
      FrameIsLonger(s);
      RepliesStay(model, clock, Step(model, clock, at, f), rest);
    }
  }

  /** The session after the first `i` frames. */
  function After<S>(model: Option<Model<S>>, clock: nat -> Timing, s: S, frames: seq<Frame>, i: nat): Session<S>
    requires i <= |frames|
  {
    Run(model, clock, Session(s, 0, [], false), Wire(frames[..i]))
  }

  lemma OneFrame<S>(model: Option<Model<S>>, clock: nat -> Timing, at: Session<S>, f: Frame, rest: bytes)
    requires Fits(f) && !at.stopped
    ensures Run(model, clock, at, Wire([f]) + rest) == Run(model, clock, Step(model, clock, at, f), rest)
  {
    hide Fits, Run, Step, FrameBytes;
    RunOne(model, clock, at, [f], rest);
    assert [f][1..] == [] && Wire([]) + rest == rest;
  }

  /** In any run frame `i` is answered in the state the frames before it left, and leaves that of its own answer. */
  lemma StatesFollow<S>(model: Option<Model<S>>, clock: nat -> Timing, s: S, frames: seq<Frame>, tail: bytes, i: nat)
    requires AllFit(frames) && i < |frames| && NoShutdown(frames[..i])
    ensures var before, after := After(model, clock, s, frames, i), After(model, clock, s, frames, i + 1);
      var end := Run(model, clock, Session(s, 0, [], false), Wire(frames) + tail);
      && i < |end.replies|
      && (after.state, end.replies[i]) == Serve(model, clock(i), before.state, frames[i])
  {
    hide Fits, Run, Step, Serve, Wire;
    var start := Session(s, 0, [], false);
    var f, rest := frames[i], Wire(frames[i + 1..]) + tail;
    var before := After(model, clock, s, frames, i);
    assert AllFit(frames[..i]) by { forall k | 0 <= k < i ensures Fits(frames[..i][k]) { assert Fits(frames[k]); } }
    RunAfter(model, clock, start, frames[..i], Wire([f]));
    RunAfter(model, clock, start, frames[..i], Wire([f]) + rest);
    assert frames[..i + 1] == frames[..i] + [f] && frames == frames[..i + 1] + frames[i + 1..];
    WireAppend(frames[..i], [f]);
    WireAppend(frames[..i + 1], frames[i + 1..]);
    Associate(Wire(frames[..i]), Wire([f]), rest);
    Associate(Wire(frames[..i + 1]), Wire(frames[i + 1..]), tail);
    OneFrame(model, clock, before, f, []);
    OneFrame(model, clock, before, f, rest);
    assert Wire([f]) + [] == Wire([f]);
    StepAdds(model, clock, before, f);
    NothingMore(model, clock, Step(model, clock, before, f));
    RepliesStay(model, clock, Step(model, clock, before, f), rest);
  }

  /** A reset takes hold: the frame after it is answered in the state the model's reset makes of the one before it. */
  lemma ResetTakesHold<S>(m: Model<S>, clock: nat -> Timing, s: S, frames: seq<Frame>, tail: bytes, i: nat)
    requires AllFit(frames) && i + 1 < |frames| && NoShutdown(frames[..i]) && frames[i].op == 2
    ensures var before := After(Some(m), clock, s, frames, i);
      var end := Run(Some(m), clock, Session(s, 0, [], false), Wire(frames) + tail);
      && After(Some(m), clock, s, frames, i + 1).state == m.reset(before.state)
      && i + 1 < |end.replies|
      && end.replies[i + 1] == Serve(Some(m), clock(i + 1), m.reset(before.state), frames[i + 1]).1
  {
    hide Fits, Run, Step, Wire, After;
    StatesFollow(Some(m), clock, s, frames, tail, i);
    ServeAnswers(Some(m), clock(i), After(Some(m), clock, s, frames, i).state, frames[i]);
    assert frames[..i + 1] == frames[..i] + [frames[i]];
    StatesFollow(Some(m), clock, s, frames, tail, i + 1);
  }
}
