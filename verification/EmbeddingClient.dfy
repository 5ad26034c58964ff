/**
  The embedding client (internal/embedding/client.go) against the Python peer's loop (`_handle_client` in
  ai_service/app/main.py), over one reused connection. The client must drop the connection whenever it could be out
  of step with the peer, because a response is matched to its request by position: an empty requestId is accepted.
 */
module EmbeddingClient {
  import opened Bytes
  import opened EmbedTrim
  import opened Framing
  import opened Trimming
  import opened Wrappers

  // ---------------------------------------------------------------------------------------------------
  // The peer
  // ---------------------------------------------------------------------------------------------------

  /**
    What the peer makes of its i-th request, as a response payload; None if dispatching raises. With the position as an
    argument this covers every behaviour of the model behind it.
   */
  type Dispatch = (nat, Bytes) -> Option<Bytes>

  /** One turn of the loop: the response payload and what is left to read, or None if the loop ends here. */
  function Turn(dispatch: Dispatch, i: nat, s: Bytes): (t: Option<(Bytes, Bytes)>)
    ensures t.Some? ==> |t.value.0| <= MAX_PAYLOAD && |t.value.1| < |s|
  {
    match PyReadFrame(s)
    case Err(_) => None
    case Ok((raw, rest)) =>
      match dispatch(i, raw)
      case None => None
      case Some(out) => if |out| > MAX_PAYLOAD then None else Some((out, rest))
  }

  /** The response payloads the loop writes for the bytes it is sent, from its i-th request on. */
  function Answers(dispatch: Dispatch, i: nat, s: Bytes): (ps: seq<Bytes>)
    ensures AllFit(ps)
    decreases |s|
  {
    match Turn(dispatch, i, s)
    case None => []
    case Some((out, rest)) => [out] + Answers(dispatch, i + 1, rest)
  }

  /** The bytes the loop has written once it has dealt with all it is sent. */
  function PeerOutput(dispatch: Dispatch, s: Bytes): Bytes {
    FrameAll(Answers(dispatch, 0, s))
  }

  /** One turn of `_handle_client`: read a frame, dispatch it, write one frame. */
  method ServeOne(dispatch: Dispatch, i: nat, r: Reader, w: Writer) returns (more: bool)
    modifies r, w
    ensures match Turn(dispatch, i, old(r.rest))
            case None => !more && w.written == old(w.written)
            case Some((out, rest)) => more && w.written == old(w.written) + Frame(out) && r.rest == rest
  {
    var raw := PyRead(r);
    if raw.Err? {
      return false;
    }
    var out := dispatch(i, raw.value);
    if out.None? {
      return false;
    }
    var wrapped := WrapFrame(out.value);
    if wrapped.None? {
      return false;
    }
    WritersAgree(out.value);
    w.Write(wrapped.value);
    return true;
  }

  /** `_handle_client`: the first failure ends the loop. */
  method HandleClient(dispatch: Dispatch, r: Reader, w: Writer)
    requires w.written == []
    modifies r, w
    ensures w.written == PeerOutput(dispatch, old(r.rest))
  {
    hide Turn, Answers, Frame, FrameAll;
    var i := 0;
    ghost var done: seq<Bytes> := [];
    ghost var all := Answers(dispatch, 0, r.rest);
    NoFrames();
    assert done + all == all;
    while true
      invariant AllFit(done) && w.written == FrameAll(done)
      invariant all == done + Answers(dispatch, i, r.rest)
      decreases |r.rest|
    {
      ghost var s := r.rest;
      AnswersUnfold(dispatch, i, s);
      var more := ServeOne(dispatch, i, r, w);
      if !more {
        assert done + [] == done;
        break;
      }
      ghost var out := Turn(dispatch, i, s).value.0;
      FrameAllConcat(done, [out]);
      FrameOne(out);
      assert done + ([out] + Answers(dispatch, i + 1, r.rest)) == (done + [out]) + Answers(dispatch, i + 1, r.rest);
      done := done + [out];
      i := i + 1;
    }
  }

  lemma AnswersUnfold(dispatch: Dispatch, i: nat, s: Bytes)
    ensures Answers(dispatch, i, s) == match Turn(dispatch, i, s)
                                       case None => []
                                       case Some((out, rest)) => [out] + Answers(dispatch, i + 1, rest)
  {
  }

  lemma NoFrames()
    ensures FrameAll([]) == []
  {
  }

  lemma FrameOne(p: Bytes)
    requires |p| <= MAX_PAYLOAD
    ensures AllFit([p]) && FrameAll([p]) == Frame(p)
  {
    assert FrameAll([p]) == Frame(p) + [];
  }

  // ---------------------------------------------------------------------------------------------------
  // Requests and answers stay in step
  // ---------------------------------------------------------------------------------------------------

  /** The peer answers every one of the requests, and sends nothing else. */
  predicate AllAnswered(dispatch: Dispatch, i: nat, requests: seq<Bytes>)
    requires AllFit(requests)
  {
    |Answers(dispatch, i, FrameAll(requests))| == |requests|
  }

  /** The peer's answer to a payload that arrives as its i-th request. */
  function AnswerTo(dispatch: Dispatch, i: nat, p: Bytes): (a: seq<Bytes>)
    ensures |a| <= 1 && AllFit(a)
  {
    if !Sendable(p) then []
    else
      match dispatch(i, p)
      case None => []
      case Some(out) => if |out| > MAX_PAYLOAD then [] else [out]
  }

  lemma PeerReadsFrame(p: Bytes, rest: Bytes)
    requires |p| <= MAX_PAYLOAD
    ensures if Sendable(p) then PyReadFrame(Frame(p) + rest) == Ok((p, rest)) else PyReadFrame(Frame(p) + rest).Err?
  {
    ReadersAgree(Frame(p) + rest);
    if Sendable(p) {
      ParseFramed(p, rest);
    } else {
      LengthOfHeader(0);
      assert (Frame(p) + rest)[..4] == Header(0);
    }
  }

  lemma PeerReadsNothing()
    ensures PyReadFrame([]).Err?
  {
  }

  /** One more request on a connection in step: its answer is the only thing that is added. */
  lemma {:induction false} OneMoreRequest(dispatch: Dispatch, i: nat, requests: seq<Bytes>, p: Bytes)
    requires AllFit(requests) && |p| <= MAX_PAYLOAD && AllAnswered(dispatch, i, requests)
    ensures AllFit(requests + [p])
    ensures Answers(dispatch, i, FrameAll(requests + [p]))
         == Answers(dispatch, i, FrameAll(requests)) + AnswerTo(dispatch, i + |requests|, p)
    decreases |requests|
  {
    hide Frame, FrameAll, PyReadFrame, ParseFrame, Turn, Answers, AnswerTo;
    NoFrames();
    if requests == [] {
      assert requests + [p] == [p];
      FrameFirst([p]);
      AnswersToFrame(dispatch, i, p, []);
      NoAnswers(dispatch, i);
      NoAnswers(dispatch, i + 1);
    } else {
      var q, more := requests[0], requests[1..];
      assert (requests + [p])[0] == q && (requests + [p])[1..] == more + [p];
      FrameFirst(requests);
      FrameFirst(requests + [p]);
      TailAnswered(dispatch, i, q, more);
      OneMoreRequest(dispatch, i + 1, more, p);
      BehindFrame(dispatch, i, q, FrameAll(more), FrameAll(more + [p]), AnswerTo(dispatch, i + |requests|, p));
    }
  }

  lemma TailAnswered(dispatch: Dispatch, i: nat, q: Bytes, more: seq<Bytes>)
    requires |q| <= MAX_PAYLOAD && AllFit(more)
    requires |Answers(dispatch, i, Frame(q) + FrameAll(more))| == |more| + 1
    ensures AnswerTo(dispatch, i, q) != [] && AllAnswered(dispatch, i + 1, more)
  {
    hide Frame, FrameAll, Turn, Answers, AnswerTo;
    AnswersToFrame(dispatch, i, q, FrameAll(more));
  }

  /** What is added behind an answered request is added behind its answer. */
  lemma BehindFrame(dispatch: Dispatch, i: nat, q: Bytes, x: Bytes, y: Bytes, last: seq<Bytes>)
    requires |q| <= MAX_PAYLOAD && AnswerTo(dispatch, i, q) != []
    requires Answers(dispatch, i + 1, y) == Answers(dispatch, i + 1, x) + last
    ensures Answers(dispatch, i, Frame(q) + y) == Answers(dispatch, i, Frame(q) + x) + last
  {
    hide Frame, Turn, Answers, AnswerTo;
    AnswersToFrame(dispatch, i, q, x);
    AnswersToFrame(dispatch, i, q, y);
    var a, rest := AnswerTo(dispatch, i, q), Answers(dispatch, i + 1, x);
    assert a + (rest + last) == (a + rest) + last;
  }

  lemma FrameFirst(ps: seq<Bytes>)
    requires AllFit(ps) && ps != []
    ensures FrameAll(ps) == Frame(ps[0]) + FrameAll(ps[1..])
  {
  }

  /** What the loop writes for one frame and what follows: nothing more once a request is not answered. */
  lemma AnswersToFrame(dispatch: Dispatch, i: nat, p: Bytes, rest: Bytes)
    requires |p| <= MAX_PAYLOAD
    ensures var a := AnswerTo(dispatch, i, p);
      Answers(dispatch, i, Frame(p) + rest) == if a == [] then [] else a + Answers(dispatch, i + 1, rest)
  {
    hide Frame, PyReadFrame;
    PeerReadsFrame(p, rest);
  }

  lemma NoAnswers(dispatch: Dispatch, i: nat)
    ensures Answers(dispatch, i, []) == []
  {
    PeerReadsNothing();
  }

  // ---------------------------------------------------------------------------------------------------
  // Reading the next answer
  // ---------------------------------------------------------------------------------------------------

  /** Bytes from..to of a stream, as far as they exist. */
  function Window(s: Bytes, from: nat, to: nat): Bytes {
    if from <= to <= |s| then s[from..to] else if from <= |s| < to then s[from..] else []
  }

  /** The peer answers this payload with a frame the client accepts, and all of it arrives in time. */
  predicate Arrives(dispatch: Dispatch, before: seq<Bytes>, payload: Bytes, arrived: nat)
    requires AllFit(before)
  {
    var a := AnswerTo(dispatch, |before|, payload);
    a != [] && Sendable(a[0]) && |PeerOutput(dispatch, FrameAll(before))| + |Frame(a[0])| <= arrived
  }

  lemma RequestFramed(before: seq<Bytes>, payload: Bytes)
    requires AllFit(before) && |payload| <= MAX_PAYLOAD
    ensures AllFit(before + [payload]) && FrameAll(before + [payload]) == FrameAll(before) + Frame(payload)
  {
    hide Frame, FrameAll;
    FrameOne(payload);
    FrameAllConcat(before, [payload]);
  }

  lemma RequestAdded(dispatch: Dispatch, before: seq<Bytes>, payload: Bytes)
    requires AllFit(before) && |payload| <= MAX_PAYLOAD && AllAnswered(dispatch, 0, before)
    ensures AllFit(before + [payload])
    ensures PeerOutput(dispatch, FrameAll(before + [payload]))
         == PeerOutput(dispatch, FrameAll(before)) + FrameAll(AnswerTo(dispatch, |before|, payload))
    ensures AllAnswered(dispatch, 0, before + [payload]) <==> AnswerTo(dispatch, |before|, payload) != []
  {
    hide Answers, Turn, AnswerTo, Frame, FrameAll, PyReadFrame, AllFit;
    OneMoreRequest(dispatch, 0, before, payload);
    FrameAllConcat(Answers(dispatch, 0, FrameAll(before)), AnswerTo(dispatch, |before|, payload));
  }

  /** Behind `start` bytes already read, a reader gets the whole of the one frame that follows, or fails. */
  lemma ReadBehind(start: Bytes, p: Bytes, arrived: nat)
    requires |p| <= MAX_PAYLOAD
    ensures var seen := Window(start + Frame(p), |start|, arrived);
      if Sendable(p) && |start| + |Frame(p)| <= arrived
      then seen == Frame(p) && ParseFrame(seen) == Parsed(p, [])
      else ParseFrame(seen).Broken?
  {
    hide ParseFrame, PyReadFrame;
    var f := Frame(p);
    var seen := Window(start + f, |start|, arrived);
    if arrived < |start| + |f| {
      assert seen == f[..|seen|];
      ParseCut(p, |seen|);
    } else {
      assert seen == f && f == f + [];
      if Sendable(p) {
        ParseFramed(p, []);
      } else {
        ReadersAgree(f + []);
        PeerReadsFrame(p, []);
      }
    }
  }

  /**
    On a connection in step, what the client reads after writing one more request is the peer's answer to that request,
    all of it and no more, or it is an error.
   */
  lemma NextAnswer(dispatch: Dispatch, before: seq<Bytes>, payload: Bytes, arrived: nat)
    requires AllFit(before) && |payload| <= MAX_PAYLOAD && AllAnswered(dispatch, 0, before)
    ensures AllFit(before + [payload])
    ensures var consumed := |PeerOutput(dispatch, FrameAll(before))|;
      var out := PeerOutput(dispatch, FrameAll(before + [payload]));
      match ParseFrame(Window(out, consumed, arrived))
      case Parsed(p, rest) =>
        Arrives(dispatch, before, payload, arrived) && AnswerTo(dispatch, |before|, payload) == [p] && rest == []
        && consumed + |Window(out, consumed, arrived)| == |out|
      case Broken(_, _) => !Arrives(dispatch, before, payload, arrived)
  {
    hide ParseFrame, Frame, FrameAll, Answers, AnswerTo, PeerOutput, AllAnswered;
    RequestAdded(dispatch, before, payload);
    var a := AnswerTo(dispatch, |before|, payload);
    var start := PeerOutput(dispatch, FrameAll(before));
    if a == [] {
      NoFrames();
      NothingToParse();
    } else {
      FrameOne(a[0]);
      assert a == [a[0]];
      ReadBehind(start, a[0], arrived);
    }
  }

  /**
    Why a failed read must drop the connection: if it were kept after the answer to p came too late, the answer to the
    next request q would be read as that same late answer to p.
   */
  lemma LateAnswer(dispatch: Dispatch, before: seq<Bytes>, p: Bytes, q: Bytes, arrived: nat)
    requires AllFit(before) && |p| <= MAX_PAYLOAD && |q| <= MAX_PAYLOAD && AllAnswered(dispatch, 0, before)
    requires Arrives(dispatch, before, p, arrived)
    ensures AllFit(before + [p]) && AllFit(before + [p] + [q])
    ensures var consumed := |PeerOutput(dispatch, FrameAll(before))|;
      var seen := Window(PeerOutput(dispatch, FrameAll(before + [p] + [q])), consumed, arrived);
      ParseFrame(seen).Parsed? && [ParseFrame(seen).payload] == AnswerTo(dispatch, |before|, p)
  {
    hide Answers, Turn, AnswerTo, Frame, FrameAll, PyReadFrame, ParseFrame, PeerOutput, AllAnswered;
    RequestAdded(dispatch, before, p);
    RequestAdded(dispatch, before + [p], q);
    var a := AnswerTo(dispatch, |before|, p);
    assert a == [a[0]];
    FrameOne(a[0]);
    var start := PeerOutput(dispatch, FrameAll(before));
    var more := FrameAll(AnswerTo(dispatch, |before + [p]|, q));
    ReadFirst(start, a[0], more, arrived);
  }

  lemma ReadFirst(start: Bytes, p: Bytes, more: Bytes, arrived: nat)
    requires Sendable(p) && |start| + |Frame(p)| <= arrived
    ensures var seen := Window(start + Frame(p) + more, |start|, arrived);
      ParseFrame(seen).Parsed? && ParseFrame(seen).payload == p
  {
    hide ParseFrame, Frame;
    var f := Frame(p);
    var s := start + f + more;
    var seen := Window(s, |start|, arrived);
    assert seen == f + seen[|f|..];
    ParseFramed(p, seen[|f|..]);
  }

  // ---------------------------------------------------------------------------------------------------
  // The client
  // ---------------------------------------------------------------------------------------------------

  datatype Request = Request(
    protocolVersion: int, requestId: string, kind: string, traceId: string, text: Bytes, model: string)

  const PROTOCOL_VERSION := 1

  datatype ResponseError = ResponseError(code: string, message: string)

  datatype Response = Response(
    requestId: string, kind: string, dimensions: int, embedding: seq<real>, model: string, error: Option<ResponseError>)

  /** The JSON layer: either direction may fail. */
  datatype Codec = Codec(marshal: Request -> Option<Bytes>, unmarshal: Bytes -> Option<Response>)

  /** A dialled connection: who is at the other end, all that was written, and how much of its output was read. */
  datatype Conn = Conn(peer: Dispatch, sent: Bytes, consumed: nat)

  /**
    What the world does to one round trip: whether the deadline was over before it began, who a dial reaches, whether
    writing works, and how many bytes of the peer's output arrive before the deadline or the end of the connection.
   */
  datatype World = World(expired: bool, dial: Option<Dispatch>, writes: bool, arrived: nat)

  datatype Reason =
    BadRequest | RequestTooLarge | Expired | DialFailed | WriteFailed | ReadFailed(e: ReadError) | BadJson | WrongId

  /** How a round trip ends: with a response that `onOK` accepts or rejects, or without one. */
  datatype Trip = Accepted(res: Response) | Rejected(res: Response) | Lost(reason: Reason)

  predicate Matches(res: Option<Response>, requestId: string) {
    res.Some? && (res.value.requestId == "" || res.value.requestId == requestId)
  }

  class Client {
    const codec: Codec
    var conn: Option<Conn>
    ghost var requests: seq<Bytes>   // the payloads written on the present connection

    /** On a connection that is kept, every request written has been answered and every answer been read. */
    ghost predicate Valid()
      reads this
    {
      conn.Some? ==>
        var Conn(peer, sent, consumed) := conn.value;
        && AllFit(requests) && sent == FrameAll(requests)
        && AllAnswered(peer, 0, requests)
        && consumed == |PeerOutput(peer, sent)|
    }

    /** The payloads already exchanged on the connection that the next round trip will use. */
    ghost function Exchanged(): seq<Bytes>
      reads this
    {
      if conn.Some? then requests else []
    }

    /** The peer the next round trip will talk to. */
    ghost function Peer(w: World): Option<Dispatch>
      reads this
    {
      if conn.Some? then Some(conn.value.peer) else w.dial
    }

    /** A response that answers the request the next round trip sends, and nothing else. */
    ghost predicate IsAnswer(w: World, req: Request, res: Response)
      reads this
    {
      && codec.marshal(req).Some? && Peer(w).Some?
      && var answer := Peer(w).value(|Exchanged()|, codec.marshal(req).value);
      answer.Some? && codec.unmarshal(answer.value) == Some(res) && Matches(Some(res), req.requestId)
    }

    /** The next round trip gets its answer. */
    ghost predicate GoesThrough(w: World, req: Request)
      reads this
      requires Valid()
    {
      && codec.marshal(req).Some? && |codec.marshal(req).value| <= MAX_PAYLOAD
      && !w.expired && Peer(w).Some? && w.writes
      && var before, p := Exchanged(), codec.marshal(req).value;
      && Arrives(Peer(w).value, before, p, w.arrived)
      && Matches(codec.unmarshal(AnswerTo(Peer(w).value, |before|, p)[0]), req.requestId)
    }

    constructor (codec: Codec)
      ensures Valid() && conn.None? && this.codec == codec
    {
      this.codec := codec;
      conn := None;
      requests := [];
    }

    method Close()
      modifies this
      ensures Valid() && conn.None?
    {
      conn := None;
    }

    /** `ensureConn` */
    method EnsureConn(w: World) returns (ok: bool)
      requires Valid()
      modifies this
      ensures Valid() && ok == old(Peer(w)).Some? && conn.Some? == ok
      ensures ok ==> requests == old(Exchanged()) && conn.value.peer == old(Peer(w)).value
    {
      if conn.Some? {
        return true;
      }
      if w.dial.None? {
        return false;
      }
      conn := Some(Conn(w.dial.value, [], 0));
      requests := [];
      PeerReadsNothing();
      return true;
    }

    /** Write one frame and read one frame, in step with the peer; any failure drops the connection. */
    method Exchange(payload: Bytes, w: World) returns (raw: Result<Bytes, Reason>)
      requires Valid() && conn.Some? && |payload| <= MAX_PAYLOAD
      modifies this
      ensures Valid() && conn.Some? == raw.Ok?
      ensures raw.Ok? ==>
        && conn.value.peer == old(conn).value.peer && requests == old(requests) + [payload]
        && AnswerTo(conn.value.peer, |old(requests)|, payload) == [raw.value]
      ensures raw.Ok? <==> w.writes && Arrives(old(conn).value.peer, old(requests), payload, w.arrived)
      ensures raw.Err? ==> raw.error.WriteFailed? || raw.error.ReadFailed?
    {
      hide Frame, FrameAll, Answers, AnswerTo, PeerOutput, AllAnswered, Arrives, Window, ParseFrame;
      var Conn(peer, sent, consumed) := conn.value;
      if !w.writes {
        conn := None;
        return Err(WriteFailed);
      }
      var out := new Writer();
      var e := WriteFrame(out, payload);
      assert out.written == Frame(payload) by { assert [] + Frame(payload) == Frame(payload); }
      sent := sent + out.written;
      RequestFramed(requests, payload);
      RequestAdded(peer, requests, payload);
      NextAnswer(peer, requests, payload, w.arrived);
      var incoming := Window(PeerOutput(peer, sent), consumed, w.arrived);
      var r := new Reader(incoming);
      var res := ReadFrame(r);
      if res.Err? {
        conn := None;
        return Err(ReadFailed(res.error));
      }
      conn := Some(Conn(peer, sent, consumed + |incoming| - |r.rest|));
      requests := requests + [payload];
      return Ok(res.value);
    }

    /**
      `roundTrip`. Whatever happens, the connection is either dropped or in step, and a response that is handed on is
      the peer's answer to this very request, even when it carries no requestId.
     */
    method RoundTrip(req: Request, onOK: Response -> bool, w: World) returns (t: Trip)
      requires Valid()
      modifies this
      ensures Valid()
      ensures !t.Lost? ==> conn.Some? && old(IsAnswer(w, req, t.res)) && (t.Accepted? <==> onOK(t.res))
      ensures !t.Lost? ==> requests == old(Exchanged()) + [codec.marshal(req).value]
      ensures !t.Lost? <==> old(GoesThrough(w, req))
      ensures t.Lost? ==>
        if t.reason.BadRequest? || t.reason.RequestTooLarge? || t.reason.Expired?
        then conn == old(conn) && requests == old(requests)
        else conn.None?
    {
      hide Frame, FrameAll, Answers, PeerOutput, AllAnswered, Arrives;
      var payload := codec.marshal(req);
      if payload.None? {
        return Lost(BadRequest);
      }
      if |payload.value| > MAX_PAYLOAD {
        return Lost(RequestTooLarge);
      }
      if w.expired {
        return Lost(Expired);
      }
      var ok := EnsureConn(w);
      if !ok {
        return Lost(DialFailed);
      }
      var raw := Exchange(payload.value, w);
      if raw.Err? {
        return Lost(raw.error);
      }
      var res := codec.unmarshal(raw.value);
      if res.None? {
        conn := None;
        return Lost(BadJson);
      }
      if res.value.requestId != "" && res.value.requestId != req.requestId {
        conn := None;
        return Lost(WrongId);
      }
      t := if onOK(res.value) then Accepted(res.value) else Rejected(res.value);
    }

    method Ping(requestId: string, w: World) returns (ok: bool)
      requires Valid()
      modifies this
      ensures Valid()
      ensures ok <==>
        var req := Request(1, requestId, "ping", "", [], "");
        old(GoesThrough(w, req))
        && exists res :: old(IsAnswer(w, req, res)) && res.error.None? && res.kind == "pong"
    {
      var t := RoundTrip(Request(PROTOCOL_VERSION, requestId, "ping", "", [], ""), IsPong, w);
      ok := t.Accepted?;
    }

    /** Nothing is sent for a text that is blank; otherwise the vector comes from the peer's answer to the trimmed text. */
    method Embed(input: Input, requestId: string, w: World) returns (out: Option<Vector>)
      requires Valid()
      modifies this
      ensures Valid()
      ensures Trim(input.text, IsBlankByte) == [] ==> out.None? && conn == old(conn) && requests == old(requests)
      ensures Trim(input.text, IsBlankByte) != [] ==>
        var req := Request(1, requestId, "embed", input.traceId, Trim(input.text, IsBlankByte), input.model);
        && (out.Some? ==>
              && old(GoesThrough(w, req))
              && exists res ::
                   && old(IsAnswer(w, req, res)) && res.error.None?
                   && 0 < res.dimensions == |res.embedding|
                   && out.value == Vector(res.dimensions, res.embedding, res.model))
        && (out.None? ==>
              old(GoesThrough(w, req)) ==>
                exists res :: old(IsAnswer(w, req, res)) && (res.error.Some? || !(0 < res.dimensions == |res.embedding|)))
    {
      var text := TrimEmbedText(input.text);
      if text == [] {
        return None;
      }
      var req := Request(PROTOCOL_VERSION, requestId, "embed", input.traceId, text, input.model);
      var t := RoundTrip(req, IsVector, w);
      return if t.Accepted? then Some(Vector(t.res.dimensions, t.res.embedding, t.res.model)) else None;
    }
  }

  datatype Input = Input(text: Bytes, traceId: string, model: string)

  datatype Vector = Vector(dimensions: int, embedding: seq<real>, model: string)

  predicate IsPong(res: Response) {
    res.error.None? && res.kind == "pong"
  }

  predicate IsVector(res: Response) {
    && res.error.None? && res.dimensions > 0 && |res.embedding| > 0
    && res.dimensions == |res.embedding|
  }
}
