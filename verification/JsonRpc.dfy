// The JSON-RPC 2.0 envelope (src/libs/ws/mcp.rs), from frames already read as JSON.
module JsonRpc {
  import opened Wrappers
  import opened Json
  import Types

  const INVALID_REQUEST := -32600
  const METHOD_NOT_FOUND := -32601
  const INVALID_PARAMS := -32602
  const INTERNAL_ERROR := -32603

  datatype RpcId = Number(n: Types.i64) | Text(s: string)

  datatype Request = Request(id: Option<RpcId>, methodName: string, params: Option<Value>)

  datatype RpcError = RpcError(code: int, message: string, data: Option<Value>)

  function IdValue(id: Option<RpcId>): Value {
    match id
    case None => Null
    case Some(Number(n)) => Int(n)
    case Some(Text(s)) => Str(s)
  }

  function ResultFrame(id: Option<RpcId>, result: Value): Value {
    Obj(map["jsonrpc" := Str("2.0"), "id" := IdValue(id), "result" := result])
  }

  function ErrorValue(e: RpcError): Value {
    var m := map["code" := Int(e.code), "message" := Str(e.message)];
    Obj(if e.data.Some? then m["data" := e.data.value] else m)
  }

  function ErrorFrame(id: Option<RpcId>, e: RpcError): Value {
    Obj(map["jsonrpc" := Str("2.0"), "id" := IdValue(id), "error" := ErrorValue(e)])
  }

  // A response object of section 5 of JSON-RPC 2.0, addressed to `id`.
  ghost predicate IsResponse(frame: Value, id: Value) {
    && frame.Obj?
    && (frame.members.Keys == {"jsonrpc", "id", "result"} || frame.members.Keys == {"jsonrpc", "id", "error"})
    && frame.members["jsonrpc"] == Str("2.0")
    && frame.members["id"] == id
    && ("error" in frame.members ==> IsErrorObject(frame.members["error"]))
  }

  // Section 5.1.
  ghost predicate IsErrorObject(e: Value) {
    && e.Obj?
    && {"code", "message"} <= e.members.Keys <= {"code", "message", "data"}
    && IsInteger(e.members["code"])
    && e.members["message"].Str?
  }

  // An id member that is absent or null is no id; one that is neither an integer of 64 bits nor
  // a string makes the frame malformed. `plain` says how a number was written, which its value
  // does not tell: without a fraction or an exponent. Written otherwise it is not an integer.
  function ParseId(m: map<string, Value>, plain: bool): Option<Option<RpcId>> {
    if "id" !in m || m["id"].Null? then Some(None)
    else match m["id"]
      case Num(x) =>
        if plain && x == x.Floor as real && -0x8000_0000_0000_0000 <= x.Floor < 0x8000_0000_0000_0000
        then Some(Some(Number(x.Floor))) else None
      case Str(s) => Some(Some(Text(s)))
      case _ => None
  }

  // None: not a JSON-RPC frame. An error frame: it declares itself one and is malformed.
  function Parse(v: Value, plain: bool, detail: string): Option<Result<Request, Value>> {
    if !v.Obj? || "jsonrpc" !in v.members || v.members["jsonrpc"] != Str("2.0") then None
    else
      var id := ParseId(v.members, plain);
      if id.None? || "method" !in v.members || !v.members["method"].Str?
      then Some(Err(ErrorFrame(None, RpcError(INVALID_REQUEST, "Invalid Request: " + detail, None))))
      else Some(Ok(Request(id.value, v.members["method"].s,
                           if "params" in v.members && !v.members["params"].Null? then Some(v.members["params"]) else None)))
  }

  // A legacy request, `{method, seq, params}`, names its method by number.
  predicate IsLegacyRequest(v: Value) {
    v.Obj? && "method" in v.members && v.members["method"].Num?
  }

  // The two protocols never claim the same request, the id comes back as it was sent, and a
  // malformed frame is answered by an error addressed to nobody.
  lemma ParseMeans(v: Value, plain: bool, detail: string)
    ensures Parse(v, plain, detail).Some? <==> v.Obj? && "jsonrpc" in v.members && v.members["jsonrpc"] == Str("2.0")
    ensures Parse(v, plain, detail).Some? && Parse(v, plain, detail).value.Ok? ==>
      && !IsLegacyRequest(v)
      && IdValue(Parse(v, plain, detail).value.value.id) == (if "id" in v.members then v.members["id"] else Null)
    ensures Parse(v, plain, detail).Some? && Parse(v, plain, detail).value.Ok? && "id" in v.members && v.members["id"].Num? ==>
      plain && IsInteger(v.members["id"])
    ensures Parse(v, plain, detail).Some? && Parse(v, plain, detail).value.Err? ==> IsResponse(Parse(v, plain, detail).value.error, Null)
  {
    if Parse(v, plain, detail).Some? && Parse(v, plain, detail).value.Err? {
      var e := Parse(v, plain, detail).value.error;
      assert "error" in e.members;
      ErrorFrameIsResponse(None, RpcError(INVALID_REQUEST, "Invalid Request: " + detail, None));
    }
  }

  lemma ResultFrameIsResponse(id: Option<RpcId>, result: Value)
    ensures IsResponse(ResultFrame(id, result), IdValue(id))
    ensures "result" in ResultFrame(id, result).members && ResultFrame(id, result).members["result"] == result
  {
  }

  lemma ErrorFrameIsResponse(id: Option<RpcId>, e: RpcError)
    ensures IsResponse(ErrorFrame(id, e), IdValue(id))
    ensures "error" in ErrorFrame(id, e).members && ErrorFrame(id, e).members["error"] == ErrorValue(e)
  {
    var m := ErrorValue(e).members;
    assert m.Keys == {"code", "message"} + (if e.data.Some? then {"data"} else {});
    assert ErrorFrame(id, e).members.Keys == {"jsonrpc", "id", "error"};
  }

  // Distinct ids make distinct frames: no response can be taken for another's.
  lemma IdsAreTold(id: Option<RpcId>, id': Option<RpcId>)
    ensures IdValue(id) == IdValue(id') <==> id == id'
  {
    if id.Some? && id'.Some? && id.value.Number? && id'.value.Number? {
      assert (id.value.n as real).Floor == id.value.n;
      assert (id'.value.n as real).Floor == id'.value.n;
    }
  }
}
