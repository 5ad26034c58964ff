/**
  What the Python service answers (`_dispatch` and `_build_dispatch_result` in ai_service/app/main.py, with the
  validation of ai_service/app/schemas.py), and what the Go client makes of it: `Embed` and `Ping` from end to end.
  A text is its UTF-8 bytes here; trimming those is trimming its code points, by `EmbedTrim.TrimsAgree`.
 */
module EmbeddingService {
  import opened Bytes
  import opened EmbedTrim
  import opened EmbeddingClient
  import opened Framing
  import opened Trimming
  import opened Wrappers

  /** What the model behind the service makes of a text: a vector and the model's name, or an exception. */
  datatype Embedded =
    | Vec(embedding: seq<real>, model: string)
    | MemoryError
    | RuntimeError(message: string)
    | OtherError(message: string)

  /** The parts of the service that are not modelled, and JSON on its side. The empty model name stands for none. */
  datatype Service = Service(
    embed: (Bytes, string) -> Embedded,
    isUuid: string -> bool,
    canonical: string -> string,      // str(UUID(...))
    safeId: string -> string,         // _safe_request_id
    loading: string -> bool,          // the message says that the model is being loaded
    explain: Request -> string,       // the wording of a refusal
    parse: Bytes -> Option<Request>,
    render: Response -> Bytes)

  const NO_ID := "00000000-0000-0000-0000-000000000000"

  /** An error frame; building one with an empty message raises. */
  function Refusal(id: string, code: string, message: string): Option<Response> {
    if message == "" then None else Some(Response(id, "", 0, [], "", Some(ResponseError(code, message))))
  }

  predicate ValidIds(sv: Service, r: Request) {
    sv.isUuid(r.requestId) && (r.traceId == "" || sv.isUuid(r.traceId))
  }

  /** `_build_dispatch_result`; None if it raises. */
  function Respond(sv: Service, r: Request): Option<Response> {
    if r.protocolVersion != 1 then Refusal(sv.safeId(r.requestId), "UNSUPPORTED_VERSION", sv.explain(r))
    else if r.kind == "ping" then
      if ValidIds(sv, r) && r.text == [] && r.model == "" then
        Some(Response(sv.canonical(r.requestId), "pong", 0, [], "", None))
      else Refusal(sv.safeId(r.requestId), "VALIDATION_ERROR", sv.explain(r))
    else if r.kind != "" && r.kind != "embed" then
      Refusal(sv.safeId(r.requestId), "VALIDATION_ERROR", sv.explain(r))
    else if !ValidIds(sv, r) || Trim(r.text, IsBlankByte) == [] then
      Refusal(sv.safeId(r.requestId), "VALIDATION_ERROR", sv.explain(r))
    else
      var id := sv.canonical(r.requestId);
      match sv.embed(Trim(r.text, IsBlankByte), r.model)
      case MemoryError => Refusal(id, "MODEL_OOM", "侧车内存不足")
      case RuntimeError(m) => Refusal(id, if sv.loading(m) then "MODEL_NOT_READY" else "INFERENCE_FAILED", m)
      case OtherError(m) => Refusal(id, "INTERNAL", if m == "" then "内部错误" else m)
      case Vec(v, name) =>
        if v == [] then Refusal(id, "INFERENCE_FAILED", "空 embedding")
        else if name == "" then None
        else Some(Response(id, "", |v|, v, name, None))
  }

  /** `_dispatch` */
  function Answer(sv: Service, raw: Bytes): Option<Bytes> {
    var response := match sv.parse(raw)
                    case Some(r) => Respond(sv, r)
                    case None => Refusal(NO_ID, "VALIDATION_ERROR", "JSON");
    match response
    case Some(res) => Some(sv.render(res))
    case None => None
  }

  /** Both sides read what the other one writes. */
  ghost predicate SpeaksTo(sv: Service, codec: Codec) {
    && (forall r: Request :: codec.marshal(r).Some? ==> sv.parse(codec.marshal(r).value) == Some(r))
    && (forall res: Response :: codec.unmarshal(sv.render(res)) == Some(res))
  }

  /** The service is at the other end. */
  ghost predicate Runs(sv: Service, peer: Option<Dispatch>) {
    peer.Some? && forall i: nat, raw: Bytes :: peer.value(i, raw) == Answer(sv, raw)
  }

  /** Nothing goes wrong on the way there and back; `before` bytes of answers to earlier requests come first. */
  predicate Delivered(w: World, sent: Option<Bytes>, answer: Option<Bytes>, before: nat) {
    && !w.expired && w.writes
    && sent.Some? && 1 <= |sent.value| <= 4_194_304
    && (answer.Some? ==> 1 <= |answer.value| <= 4_194_304 && before + 4 + |answer.value| <= w.arrived)
  }

  ghost function ReadBefore(client: Client, w: World): nat
    reads client
    requires client.Valid() && client.Peer(w).Some?
  {
    |PeerOutput(client.Peer(w).value, FrameAll(client.Exchanged()))|
  }

  /** How a delivered request fares: the client gets exactly the service's response to it, if there is one. */
  lemma DeliveredGoesThrough(client: Client, sv: Service, w: World, req: Request)
    requires client.Valid() && Runs(sv, client.Peer(w)) && SpeaksTo(sv, client.codec)
    requires client.codec.marshal(req).Some?
    requires Delivered(w, client.codec.marshal(req), Answer(sv, client.codec.marshal(req).value), ReadBefore(client, w))
    ensures client.GoesThrough(w, req) <==> Matches(Respond(sv, req), req.requestId)
    ensures forall res :: client.IsAnswer(w, req, res) <==>
              Respond(sv, req) == Some(res) && Matches(Some(res), req.requestId)
  {
    hide Respond, PeerOutput;
    var p := client.codec.marshal(req).value;
    assert Answer(sv, p) == match Respond(sv, req) case Some(res) => Some(sv.render(res)) case None => None;
  }

  /**
    `Embed` from end to end. For a text that is not blank, with an id as uuid.NewString makes them, and if nothing goes
    wrong on the way: the result is exactly the model's vector, its length, and the model's name, for the trimmed text
    and the model asked for; and there is none if the model fails, has no vector or no name, or the trace id is no UUID.
   */
  method EmbedFromService(client: Client, sv: Service, input: Input, requestId: string, w: World)
    returns (out: Option<Vector>)
    requires client.Valid() && Runs(sv, client.Peer(w)) && SpeaksTo(sv, client.codec)
    requires sv.isUuid(requestId) && sv.canonical(requestId) == requestId
    requires Trim(input.text, IsBlankByte) != []
    requires var sent := client.codec.marshal(
                           Request(1, requestId, "embed", input.traceId, Trim(input.text, IsBlankByte), input.model));
      sent.Some? && Delivered(w, sent, Answer(sv, sent.value), ReadBefore(client, w))
    modifies client
    ensures client.Valid()
    ensures out == match sv.embed(Trim(input.text, IsBlankByte), input.model)
                   case Vec(v, name) =>
                     if v != [] && name != "" && (input.traceId == "" || sv.isUuid(input.traceId))
                     then Some(Vector(|v|, v, name)) else None
                   case _ => None
  {
    var req := Request(1, requestId, "embed", input.traceId, Trim(input.text, IsBlankByte), input.model);
    DeliveredGoesThrough(client, sv, w, req);
    TrimIdempotent(input.text, IsBlankByte);
    EmbedResponse(sv, req);
    hide Respond, Answer;
    out := client.Embed(input, requestId, w);
  }

  /** The response to an embed request that is in order, and what else there can be. */
  lemma EmbedResponse(sv: Service, r: Request)
    requires r.protocolVersion == 1 && r.kind == "embed" && Trim(r.text, IsBlankByte) != []
    requires sv.isUuid(r.requestId) && sv.canonical(r.requestId) == r.requestId
    ensures var ok := match sv.embed(Trim(r.text, IsBlankByte), r.model)
                      case Vec(v, name) => v != [] && name != "" && (r.traceId == "" || sv.isUuid(r.traceId))
                      case _ => false;
      if ok then
        var e := sv.embed(Trim(r.text, IsBlankByte), r.model);
        Respond(sv, r) == Some(Response(r.requestId, "", |e.embedding|, e.embedding, e.model, None))
      else Respond(sv, r).None? || Respond(sv, r).value.error.Some?
  {
  }

  /** `Ping` from end to end: it succeeds. */
  method PingService(client: Client, sv: Service, requestId: string, w: World) returns (ok: bool)
    requires client.Valid() && Runs(sv, client.Peer(w)) && SpeaksTo(sv, client.codec)
    requires sv.isUuid(requestId) && sv.canonical(requestId) == requestId
    requires var sent := client.codec.marshal(Request(1, requestId, "ping", "", [], ""));
      sent.Some? && Delivered(w, sent, Answer(sv, sent.value), ReadBefore(client, w))
    modifies client
    ensures client.Valid() && ok
  {
    var req := Request(1, requestId, "ping", "", [], "");
    DeliveredGoesThrough(client, sv, w, req);
    assert Respond(sv, req) == Some(Response(requestId, "pong", 0, [], "", None));
    ok := client.Ping(requestId, w);
  }

  /** A service that speaks another version of the protocol, or refuses for any reason, makes `Ping` fail. */
  method PingRefused(client: Client, sv: Service, requestId: string, w: World) returns (ok: bool)
    requires client.Valid() && Runs(sv, client.Peer(w)) && SpeaksTo(sv, client.codec)
    requires !sv.isUuid(requestId)
    modifies client
    ensures client.Valid() && !ok
  {
    ok := client.Ping(requestId, w);
  }
}
