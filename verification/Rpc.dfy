/**
 JSON-RPC 2.0 over framed packets: the server's dispatch and the client's call, put together. How
 values become JSON is a parameter.
 */
module Rpc {
  import opened Options
  import opened Framing

  const INVALID_REQUEST := -32600
  const METHOD_NOT_FOUND := -32601
  const CALLER_ERROR := -32000

  /** A request without an id is a notification. Parameters and results are JSON texts. */
  datatype Request = Request(version: string, id: Option<int>, method_: string, params: string)

  datatype RPCError = RPCError(code: int, message: string, data: string)

  /** A nil result is left out. */
  datatype Response = Response(version: string, id: int, result: Option<string>, error: Option<RPCError>)

  datatype Codec = Codec(
    isJSON: string -> bool,
    writeRequest: Request -> string,
    readRequest: string -> Option<Request>,
    writeResponse: Response -> string,
    readResponse: string -> Option<Response>)

  /** The codec reads back what it writes for `r`, and a packet can announce its length. */
  predicate CarriesRequest(c: Codec, r: Request) {
    var text := c.writeRequest(r);
    c.isJSON(text) && |text| < INT_LIMIT && c.readRequest(text) == Some(r)
  }

  predicate CarriesResponse(c: Codec, r: Response) {
    var text := c.writeResponse(r);
    c.isJSON(text) && |text| < INT_LIMIT && c.readResponse(text) == Some(r)
  }

  /** What a handler returns: a result, nil or not, or the text of an error. */
  datatype Answer = Returned(result: Option<string>) | Raised(text: string)

  type HandlerFunc = string -> Answer

  /** `handleRequest`. None: nothing is sent back. */
  function HandleRequest(methods: map<string, HandlerFunc>, req: Request): Option<Response> {
    if req.version != "2.0" then
      Some(Response("2.0", if req.id.Some? then req.id.value else 0, None,
        Some(RPCError(INVALID_REQUEST, "Invalid request", ""))))
    else if req.id.None? then None
    else if req.method_ !in methods then
      Some(Response("2.0", req.id.value, None, Some(RPCError(METHOD_NOT_FOUND, "Method not found", ""))))
    else
      match methods[req.method_](req.params)
      case Raised(text) => Some(Response("2.0", req.id.value, None, Some(RPCError(CALLER_ERROR, "Server error", text))))
      case Returned(result) => Some(Response("2.0", req.id.value, result, None))
  }

  /** A header value that survives the line reader. */
  predicate FitsHeader(traceparent: string) {
    '\n' !in traceparent && |traceparent| + 14 < LINE_BUFFER
  }

  class Server {
    var methods: map<string, HandlerFunc>
    var notifyMethods: map<string, string -> bool>
    /** The notifications handled, in order. */
    ghost var notified: seq<(string, string)>

    constructor ()
      ensures methods == map[] && notifyMethods == map[] && notified == []
    {
      methods, notifyMethods, notified := map[], map[], [];
    }

    method RegisterMethod(name: string, fn: HandlerFunc)
      modifies this
      ensures methods == old(methods)[name := fn]
      ensures notifyMethods == old(notifyMethods) && notified == old(notified)
    {
      methods := methods[name := fn];
    }

    method RegisterNotifyMethod(name: string, fn: string -> bool)
      modifies this
      ensures notifyMethods == old(notifyMethods)[name := fn]
      ensures methods == old(methods) && notified == old(notified)
    {
      notifyMethods := notifyMethods[name := fn];
    }

    /** `handleConnection`: one request in, at most one response out. */
    method HandleConnection(codec: Codec, input: string, traceparent: string) returns (output: string)
      modifies this`notified
      ensures var packet := ReadPacket(input, codec.isJSON);
        if packet.None? || codec.readRequest(packet.value.0.body).None? then output == "" && notified == old(notified)
        else
          var req := codec.readRequest(packet.value.0.body).value;
          var resp := HandleRequest(methods, req);
          && output == (if resp.None? then "" else WritePacket(codec.writeResponse(resp.value), traceparent))
          && notified == old(notified) +
            if req.version == "2.0" && req.id.None? && req.method_ in notifyMethods then [(req.method_, req.params)] else []
    {
      var packet, rest := ReceivePacket(input, codec.isJSON);
      if packet.None? {
        return "";
      }
      var parsed := codec.readRequest(packet.value.body);
      if parsed.None? {
        return "";
      }
      var req := parsed.value;
      var resp := None;
      if req.version == "2.0" && req.id.None? {
        if req.method_ in notifyMethods {
          // Its error, if any, is only logged.
          var handled := notifyMethods[req.method_](req.params);
          notified := notified + [(req.method_, req.params)];
        }
      } else {
        resp := HandleRequest(methods, req);
      }
      output := if resp.None? then "" else WritePacket(codec.writeResponse(resp.value), traceparent);
    }
  }

  // ---- the client ----

  datatype CallResult = Result(text: string) | Done | RemoteError(error: RPCError) | LocalError

  /** What a caller of `handleCall` should get for a handler's answer. A nil result cannot be stored in anything. */
  function Expected(methods: map<string, HandlerFunc>, name: string, params: string, wantsResult: bool): CallResult {
    if name !in methods then RemoteError(RPCError(METHOD_NOT_FOUND, "Method not found", ""))
    else
      match methods[name](params)
      case Raised(text) => RemoteError(RPCError(CALLER_ERROR, "Server error", text))
      case Returned(result) =>
        if !wantsResult then Done
        else if result.Some? then Result(result.value)
        else LocalError
  }

  const REQUEST_ID := 1

  /** `handleCall`: the request goes out, the server answers, and the response comes back. */
  method HandleCall(
    codec: Codec, server: Server, name: string, params: string, wantsResult: bool, sent: string, answered: string)
    returns (r: CallResult)
    requires FitsHeader(sent) && FitsHeader(answered)
    requires var request := Request("2.0", Some(1), name, params);
      CarriesRequest(codec, request) && CarriesResponse(codec, HandleRequest(server.methods, request).value)
    modifies server`notified
    ensures r == Expected(server.methods, name, params, wantsResult)
    ensures server.notified == old(server.notified)
  {
    var request := Request("2.0", Some(REQUEST_ID), name, params);
    var out := WritePacket(codec.writeRequest(request), sent);
    PacketArrives(codec.writeRequest(request), sent, codec.isJSON);
    var back := server.HandleConnection(codec, out, answered);
    ghost var expected := HandleRequest(server.methods, request).value;
    PacketArrives(codec.writeResponse(expected), answered, codec.isJSON);
    var packet, rest := ReceivePacket(back, codec.isJSON);
    if packet.None? {
      return LocalError;
    }
    var parsed := codec.readResponse(packet.value.body);
    if parsed.None? || parsed.value.id != REQUEST_ID {
      return LocalError;
    }
    var resp := parsed.value;
    if resp.error.Some? {
      return RemoteError(resp.error.value);
    }
    if !wantsResult {
      return Done;
    }
    r := if resp.result.None? then LocalError else Result(resp.result.value);
  }

  lemma PacketArrives(body: string, traceparent: string, isJSON: string -> bool)
    requires |body| < INT_LIMIT && FitsHeader(traceparent) && isJSON(body)
    ensures ReadPacket(WritePacket(body, traceparent), isJSON) == Some((Packet(|body|, traceparent, body), ""))
  {
    ReadUndoesWrite(body, traceparent, "", isJSON);
    assert WritePacket(body, traceparent) + "" == WritePacket(body, traceparent);
  }

  /** `handleNotify`: nothing comes back, and a registered method is notified once. */
  method HandleNotify(codec: Codec, server: Server, name: string, params: string, sent: string, answered: string)
    returns (back: string)
    requires FitsHeader(sent) && CarriesRequest(codec, Request("2.0", None, name, params))
    modifies server`notified
    ensures back == ""
    ensures server.notified == old(server.notified) + if name in server.notifyMethods then [(name, params)] else []
  {
    var request := Request("2.0", None, name, params);
    PacketArrives(codec.writeRequest(request), sent, codec.isJSON);
    back := server.HandleConnection(codec, WritePacket(codec.writeRequest(request), sent), answered);
  }

  /** Nothing is sent back exactly for the notifications of version 2.0; anything else gets one response, with its id if it has one. */
  lemma WhoGetsAnswers(methods: map<string, HandlerFunc>, req: Request)
    ensures HandleRequest(methods, req).None? <==> req.version == "2.0" && req.id.None?
    ensures HandleRequest(methods, req).Some? ==> HandleRequest(methods, req).value.version == "2.0"
    ensures HandleRequest(methods, req).Some? && req.id.Some? ==> HandleRequest(methods, req).value.id == req.id.value
    ensures HandleRequest(methods, req).Some? ==> !(HandleRequest(methods, req).value.result.Some? && HandleRequest(methods, req).value.error.Some?)
  {
  }

  /**
   Any request over the wire: what comes back is nothing exactly for a notification of version 2.0,
   and else one response with the request's id.
   */
  method Exchange(codec: Codec, server: Server, req: Request, sent: string, answered: string) returns (resp: Option<Response>)
    requires FitsHeader(sent) && FitsHeader(answered) && CarriesRequest(codec, req)
    requires HandleRequest(server.methods, req).Some? ==> CarriesResponse(codec, HandleRequest(server.methods, req).value)
    modifies server`notified
    ensures resp == HandleRequest(server.methods, req)
    ensures resp.None? <==> req.version == "2.0" && req.id.None?
    ensures resp.Some? ==> resp.value.version == "2.0" && resp.value.id == if req.id.Some? then req.id.value else 0
    ensures resp.Some? && req.version != "2.0" ==>
      resp.value.result == None && resp.value.error == Some(RPCError(-32600, "Invalid request", ""))
    ensures resp.Some? && req.version == "2.0" && req.method_ !in server.methods ==>
      resp.value.result == None && resp.value.error == Some(RPCError(-32601, "Method not found", ""))
    ensures resp.Some? && req.version == "2.0" && req.method_ in server.methods ==>
      match server.methods[req.method_](req.params)
      case Raised(text) => resp.value.result == None && resp.value.error == Some(RPCError(-32000, "Server error", text))
      case Returned(result) => resp.value.result == result && resp.value.error == None
    ensures server.notified == old(server.notified) +
      if req.version == "2.0" && req.id.None? && req.method_ in server.notifyMethods then [(req.method_, req.params)] else []
  {
    WhoGetsAnswers(server.methods, req);
    PacketArrives(codec.writeRequest(req), sent, codec.isJSON);
    var back := server.HandleConnection(codec, WritePacket(codec.writeRequest(req), sent), answered);
    ghost var expected := HandleRequest(server.methods, req);
    if expected.Some? {
      PacketArrives(codec.writeResponse(expected.value), answered, codec.isJSON);
      WritesSomething(codec.writeResponse(expected.value), answered);
    }
    if back == "" {
      return None;
    }
    var packet, rest := ReceivePacket(back, codec.isJSON);
    resp := codec.readResponse(packet.value.body);
  }

  lemma WritesSomething(body: string, traceparent: string)
    ensures WritePacket(body, traceparent) != ""
  {
  }
}
