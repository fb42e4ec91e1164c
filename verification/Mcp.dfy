// The MCP router (src/libs/ws/mcp.rs): a list of tools and an index into it, built once from the
// registered handlers, and the answers both give to a caller with certain roles.
module Mcp {
  import opened Wrappers
  import opened Json
  import opened JsonRpc
  import opened Endpoints
  import Types
  import Schema = JsonSchema

  const PROTOCOL_VERSION := "2025-06-18"
  const STREAMING_NOTE := "(Streaming endpoint: stream frames are not delivered over MCP.)"

  datatype WsEndpoint = WsEndpoint(schema: EndpointSchema, allowedRoles: set<nat>)

  datatype ServerInfo = ServerInfo(name: string, version: string)

  datatype Tool = Tool(
    name: string,
    description: string,
    inputSchema: Value,
    outputSchema: Option<Value>,
    methodCode: nat,
    allowedRoles: set<nat>,
    streaming: bool)

  datatype McpState = McpState(tools: seq<Tool>, byName: map<string, nat>, info: ServerInfo)

  datatype BuildError = Unresolved(e: Schema.Error) | DuplicateName(name: string, first: nat, second: nat)

  datatype Action = Respond(frame: Value) | ToolCall(id: Option<RpcId>, methodCode: nat, arguments: Value) | Ignore

  // The router's role check.
  predicate RolesAllowed(actual: seq<nat>, allowed: set<nat>) {
    allowed != {} && actual != [] && exists r :: r in actual && r in allowed
  }

  // The legacy protocol's, which is written apart: any of the caller's roles among those allowed.
  predicate CheckRoles(actual: seq<nat>, allowed: set<nat>) {
    if allowed == {} || actual == [] then false else AnyAllowed(actual, allowed)
  }

  predicate AnyAllowed(actual: seq<nat>, allowed: set<nat>) {
    actual != [] && (actual[0] in allowed || AnyAllowed(actual[1..], allowed))
  }

  // Both say the same: some role is on both sides.
  lemma RoleChecksAgree(actual: seq<nat>, allowed: set<nat>)
    ensures RolesAllowed(actual, allowed) <==> CheckRoles(actual, allowed)
    ensures CheckRoles(actual, allowed) <==> (set r | r in actual) * allowed != {}
  {
    AnyAllowedIff(actual, allowed);
    if r :| r in actual && r in allowed {
      assert r in (set x | x in actual) * allowed;
    }
  }

  lemma {:induction false} AnyAllowedIff(actual: seq<nat>, allowed: set<nat>)
    ensures AnyAllowed(actual, allowed) <==> exists r :: r in actual && r in allowed
  {
    if actual != [] {
      AnyAllowedIff(actual[1..], allowed);
      assert forall r :: r in actual <==> r == actual[0] || r in actual[1..];
    }
  }

  // The handlers of a server are filed under their codes; registering a code twice panics.
  ghost predicate Keyed(handlers: map<nat, WsEndpoint>) {
    forall c :: c in handlers ==> handlers[c].schema.code == c
  }

  method AddHandler(handlers: map<nat, WsEndpoint>, schema: EndpointSchema, roles: seq<nat>)
    returns (r: Result<map<nat, WsEndpoint>, string>)
    requires Keyed(handlers)
    ensures r.Ok? <==> schema.code !in handlers
    ensures r.Ok? ==> Keyed(r.value) && r.value == handlers[schema.code := WsEndpoint(schema, set x | x in roles)]
  {
    if schema.code in handlers {
      return Err("Overwriting handler for endpoint " + handlers[schema.code].schema.name);
    }
    r := Ok(handlers[schema.code := WsEndpoint(schema, set x | x in roles)]);
  }

  // Codes in increasing order.

  ghost predicate IsLeast(codes: set<nat>, m: nat) {
    m in codes && forall x :: x in codes ==> m <= x
  }

  lemma {:induction false} HasLeast(codes: set<nat>)
    requires codes != {}
    ensures exists m :: IsLeast(codes, m)
  {
    var c :| c in codes;
    var rest := codes - {c};
    assert forall x :: x in codes ==> x == c || x in rest;
    if rest == {} {
      assert IsLeast(codes, c);
    } else {
      HasLeast(rest);
      var m :| IsLeast(rest, m);
      assert IsLeast(codes, if m < c then m else c);
    }
  }

  function Least(codes: set<nat>): (m: nat)
    requires codes != {}
    ensures IsLeast(codes, m)
  {
    HasLeast(codes);
    var m :| m in codes && forall x :: x in codes ==> m <= x;
    m
  }

  function Sorted(codes: set<nat>): seq<nat> {
    if codes == {} then [] else [Least(codes)] + Sorted(codes - {Least(codes)})
  }

  lemma {:induction false} SortedCodes(codes: set<nat>)
    ensures forall c :: c in Sorted(codes) <==> c in codes
    ensures forall i, j :: 0 <= i < j < |Sorted(codes)| ==> Sorted(codes)[i] < Sorted(codes)[j]
  {
    if codes != {} {
      var m := Least(codes);
      var rest := Sorted(codes - {m});
      SortedCodes(codes - {m});
      assert Sorted(codes) == [m] + rest;
      hide Sorted;
      forall i, j | 0 <= i < j < |[m] + rest|
        ensures ([m] + rest)[i] < ([m] + rest)[j]
      {
        assert rest[j - 1] in rest;
      }
    }
  }

  // The handlers in the order of their codes.
  function InOrder(handlers: map<nat, WsEndpoint>): seq<WsEndpoint> {
    SortedCodes(handlers.Keys);
    var codes := Sorted(handlers.Keys);
    seq(|codes|, i requires 0 <= i < |codes| => handlers[codes[i]])
  }

  function Describe(e: EndpointSchema): string {
    if e.streamResponse.None? then e.description
    else e.description + (if e.description != "" then " " else "") + STREAMING_NOTE
  }

  function ToolOf(cs: Schema.Casing, reg: Types.Registry, e: WsEndpoint): Result<Tool, Schema.Error>
    requires reg.Valid()
  {
    match Schema.McpSchema(cs, reg, e.schema.parameters)
    case Err(err) => Err(err)
    case Ok(input) =>
      var tool := Tool(cs.snake(e.schema.name), Describe(e.schema), input, None, e.schema.code, e.allowedRoles,
                       e.schema.streamResponse.Some?);
      if e.schema.results == [] then Ok(tool)
      else match Schema.McpSchema(cs, reg, e.schema.results)
        case Err(err) => Err(err)
        case Ok(output) => Ok(tool.(outputSchema := Some(output)))
  }

  // What a build of these endpoints amounts to: the tools in order, and each name at its place.
  ghost predicate Reflects(cs: Schema.Casing, reg: Types.Registry, endpoints: seq<WsEndpoint>, s: McpState)
    requires reg.Valid()
  {
    && |s.tools| == |endpoints|
    && (forall i :: 0 <= i < |endpoints| ==> ToolOf(cs, reg, endpoints[i]) == Ok(s.tools[i]))
    && (forall i :: 0 <= i < |endpoints| ==> s.tools[i].name in s.byName && s.byName[s.tools[i].name] == i)
    && (forall n :: n in s.byName ==> s.byName[n] < |s.tools| && s.tools[s.byName[n]].name == n)
  }

  // Every endpoint converts, and no two of them make the same tool name.
  ghost predicate Buildable(cs: Schema.Casing, reg: Types.Registry, endpoints: seq<WsEndpoint>)
    requires reg.Valid()
  {
    && (forall i :: 0 <= i < |endpoints| ==> ToolOf(cs, reg, endpoints[i]).Ok?)
    && (forall i, j :: 0 <= i < j < |endpoints| ==> cs.snake(endpoints[i].schema.name) != cs.snake(endpoints[j].schema.name))
  }

  lemma ToolKeeps(cs: Schema.Casing, reg: Types.Registry, e: WsEndpoint)
    requires reg.Valid() && ToolOf(cs, reg, e).Ok?
    ensures var t := ToolOf(cs, reg, e).value;
            t.name == cs.snake(e.schema.name) && t.methodCode == e.schema.code && t.allowedRoles == e.allowedRoles
  {
    hide Schema.McpSchema;
  }

  method Build(cs: Schema.Casing, reg: Types.Registry, handlers: map<nat, WsEndpoint>, info: ServerInfo)
    returns (r: Result<McpState, BuildError>)
    requires reg.Valid() && Keyed(handlers)
    ensures r.Ok? <==> Buildable(cs, reg, InOrder(handlers))
    ensures r.Ok? ==> Reflects(cs, reg, InOrder(handlers), r.value) && r.value.info == info
  {
    var endpoints := InOrder(handlers);
    hide InOrder, Keyed, Schema.McpSchema;
    var tools: seq<Tool> := [];
    var byName: map<string, nat> := map[];
    for i := 0 to |endpoints|
      invariant Reflects(cs, reg, endpoints[..i], McpState(tools, byName, info))
      invariant Buildable(cs, reg, endpoints[..i])
    {
      var e := endpoints[i].schema;
      var name := cs.snake(e.name);
      var description := e.description;
      assert e.description + "" == e.description;
      if e.streamResponse.Some? {
        if description != "" {
          description := description + " ";
        }
        description := description + STREAMING_NOTE;
      }
      var input := Schema.McpSchema(cs, reg, e.parameters);
      if input.Err? {
        NotBuildable(cs, reg, endpoints, i);
        return Err(Unresolved(input.error));
      }
      var output: Option<Value> := None;
      if e.results != [] {
        var o := Schema.McpSchema(cs, reg, e.results);
        if o.Err? {
          NotBuildable(cs, reg, endpoints, i);
          return Err(Unresolved(o.error));
        }
        output := Some(o.value);
      }
      var tool := Tool(name, description, input.value, output, e.code, endpoints[i].allowedRoles, e.streamResponse.Some?);
      assert ToolOf(cs, reg, endpoints[i]) == Ok(tool);
      if name in byName {
        NameTaken(cs, reg, endpoints, i, McpState(tools, byName, info));
        return Err(DuplicateName(name, tools[byName[name]].methodCode, e.code));
      }
      BuildStep(cs, reg, endpoints, i, McpState(tools, byName, info), tool);
      byName := byName[name := |tools|];
      tools := tools + [tool];
    }
    assert endpoints[..|endpoints|] == endpoints;
    r := Ok(McpState(tools, byName, info));
  }

  lemma BuildStep(cs: Schema.Casing, reg: Types.Registry, endpoints: seq<WsEndpoint>, i: nat, s: McpState, tool: Tool)
    requires reg.Valid() && i < |endpoints| && Reflects(cs, reg, endpoints[..i], s) && Buildable(cs, reg, endpoints[..i])
    requires ToolOf(cs, reg, endpoints[i]) == Ok(tool) && tool.name !in s.byName
    ensures Reflects(cs, reg, endpoints[..i + 1], McpState(s.tools + [tool], s.byName[tool.name := |s.tools|], s.info))
    ensures Buildable(cs, reg, endpoints[..i + 1])
  {
    hide ToolOf, Buildable, Reflects;
    NamesStayDistinct(cs, reg, endpoints[..i], endpoints[i], s, tool);
    ReflectsMore(cs, reg, endpoints[..i], endpoints[i], s, tool);
    assert endpoints[..i + 1] == endpoints[..i] + [endpoints[i]];
  }

  lemma ReflectsMore(cs: Schema.Casing, reg: Types.Registry, endpoints: seq<WsEndpoint>, e: WsEndpoint, s: McpState, tool: Tool)
    requires reg.Valid() && Reflects(cs, reg, endpoints, s) && ToolOf(cs, reg, e) == Ok(tool) && tool.name !in s.byName
    ensures Reflects(cs, reg, endpoints + [e], McpState(s.tools + [tool], s.byName[tool.name := |s.tools|], s.info))
  {
    hide ToolOf;
  }

  lemma NamesStayDistinct(cs: Schema.Casing, reg: Types.Registry, endpoints: seq<WsEndpoint>, e: WsEndpoint, s: McpState, tool: Tool)
    requires reg.Valid() && Reflects(cs, reg, endpoints, s) && Buildable(cs, reg, endpoints)
    requires ToolOf(cs, reg, e) == Ok(tool) && tool.name !in s.byName
    ensures Buildable(cs, reg, endpoints + [e])
  {
    ToolKeeps(cs, reg, e);
    hide ToolOf;
    forall j | 0 <= j < |endpoints|
      ensures cs.snake(endpoints[j].schema.name) in s.byName
    {
      assert ToolOf(cs, reg, endpoints[j]) == Ok(s.tools[j]);
      ToolKeeps(cs, reg, endpoints[j]);
    }
    hide Reflects;
  }

  lemma NotBuildable(cs: Schema.Casing, reg: Types.Registry, endpoints: seq<WsEndpoint>, i: nat)
    requires reg.Valid() && i < |endpoints| && ToolOf(cs, reg, endpoints[i]).Err?
    ensures !Buildable(cs, reg, endpoints)
  {
    hide ToolOf;
  }

  lemma NameTaken(cs: Schema.Casing, reg: Types.Registry, endpoints: seq<WsEndpoint>, i: nat, s: McpState)
    requires reg.Valid() && i < |endpoints| && Reflects(cs, reg, endpoints[..i], s)
    requires cs.snake(endpoints[i].schema.name) in s.byName
    ensures !Buildable(cs, reg, endpoints)
  {
    hide ToolOf;
    var j := s.byName[cs.snake(endpoints[i].schema.name)];
    assert ToolOf(cs, reg, endpoints[..i][j]) == Ok(s.tools[j]);
    ToolKeeps(cs, reg, endpoints[j]);
  }

  // Answers.

  function ListEntry(t: Tool): Value {
    var m := map["name" := Str(t.name), "description" := Str(t.description), "inputSchema" := t.inputSchema];
    Obj(if t.outputSchema.Some? then m["outputSchema" := t.outputSchema.value] else m)
  }

  function Listed(tools: seq<Tool>, roles: seq<nat>): seq<Value> {
    if tools == [] then []
    else (if RolesAllowed(roles, tools[0].allowedRoles) then [ListEntry(tools[0])] else []) + Listed(tools[1..], roles)
  }

  function InitializeResult(s: McpState): Value {
    Obj(map["protocolVersion" := Str(PROTOCOL_VERSION),
            "capabilities" := Obj(map["tools" := Obj(map[])]),
            "serverInfo" := Obj(map["name" := Str(s.info.name), "version" := Str(s.info.version)])])
  }

  function ToolsListResult(s: McpState, roles: seq<nat>): Value {
    Obj(map["tools" := Arr(Listed(s.tools, roles))])
  }

  function Member(v: Value, key: string): Option<Value> {
    if v.Obj? && key in v.members then Some(v.members[key]) else None
  }

  predicate WellIndexed(s: McpState) {
    forall n :: n in s.byName ==> s.byName[n] < |s.tools|
  }

  function RouteToolCall(s: McpState, req: Request, roles: seq<nat>): Action
    requires WellIndexed(s)
  {
    var params := if req.params.Some? then req.params.value else Null;
    var name := Member(params, "name");
    if name.None? || !name.value.Str? then
      Respond(ErrorFrame(req.id, RpcError(INVALID_PARAMS, "tools/call requires a string `name` param", None)))
    else if name.value.s !in s.byName || !RolesAllowed(roles, s.tools[s.byName[name.value.s]].allowedRoles) then
      Respond(ErrorFrame(req.id, RpcError(INVALID_PARAMS, "Unknown tool: " + name.value.s, None)))
    else
      var arguments := Member(params, "arguments");
      ToolCall(req.id, s.tools[s.byName[name.value.s]].methodCode, if arguments.Some? then arguments.value else Obj(map[]))
  }

  const NOTIFICATIONS := "notifications/"

  function Route(s: McpState, req: Request, roles: seq<nat>): Action
    requires WellIndexed(s)
  {
    if req.methodName == "initialize" then Respond(ResultFrame(req.id, InitializeResult(s)))
    else if req.methodName == "ping" then Respond(ResultFrame(req.id, Obj(map[])))
    else if NOTIFICATIONS <= req.methodName then Ignore
    else if req.methodName == "tools/list" then Respond(ResultFrame(req.id, ToolsListResult(s, roles)))
    else if req.methodName == "tools/call" then RouteToolCall(s, req, roles)
    else if req.id.None? then Ignore
    else Respond(ErrorFrame(req.id, RpcError(METHOD_NOT_FOUND, "Method not found: " + req.methodName, None)))
  }

  // A call of `name` with arbitrary arguments.
  function CallOf(id: Option<RpcId>, name: string, arguments: Value): Request {
    Request(id, "tools/call", Some(Obj(map["name" := Str(name), "arguments" := arguments])))
  }

  // The endpoint a tool name stands for.
  ghost predicate Names(cs: Schema.Casing, handlers: map<nat, WsEndpoint>, code: nat, name: string) {
    code in handlers && cs.snake(handlers[code].schema.name) == name
  }

  // The state that `Build` leaves behind, as a predicate.
  ghost predicate Built(cs: Schema.Casing, reg: Types.Registry, handlers: map<nat, WsEndpoint>, s: McpState)
    requires reg.Valid()
  {
    && Keyed(handlers)
    && Reflects(cs, reg, InOrder(handlers), s)
  }

  // A name in the index is the tool of the handler filed under its code, and conversely.
  ghost predicate Finds(cs: Schema.Casing, handlers: map<nat, WsEndpoint>, s: McpState, name: string)
    requires WellIndexed(s)
  {
    && (name in s.byName ==>
          var t := s.tools[s.byName[name]];
          t.name == name && Names(cs, handlers, t.methodCode, name) && t.allowedRoles == handlers[t.methodCode].allowedRoles)
    && (forall c :: Names(cs, handlers, c, name) ==> name in s.byName && s.tools[s.byName[name]].methodCode == c)
  }

  lemma BuiltFinds(cs: Schema.Casing, reg: Types.Registry, handlers: map<nat, WsEndpoint>, s: McpState, name: string)
    requires reg.Valid() && Built(cs, reg, handlers, s)
    ensures WellIndexed(s)
    ensures Finds(cs, handlers, s, name)
  {
    SortedCodes(handlers.Keys);
    var codes := Sorted(handlers.Keys);
    hide Sorted, ToolOf;
    var endpoints := InOrder(handlers);
    if name in s.byName {
      ToolKeeps(cs, reg, endpoints[s.byName[name]]);
    }
    forall c | Names(cs, handlers, c, name)
      ensures name in s.byName && s.tools[s.byName[name]].methodCode == c
    {
      assert c in codes;
      var i :| 0 <= i < |codes| && codes[i] == c;
      ToolKeeps(cs, reg, endpoints[i]);
      assert s.tools[i].name == name;
    }
  }

  // The tools in an answer to `tools/list`.
  function ToolsIn(frame: Value): seq<Value> {
    var result := Member(frame, "result");
    var tools := if result.Some? then Member(result.value, "tools") else None;
    if tools.Some? && tools.value.Arr? then tools.value.items else []
  }

  // The answer to `tools/list` has a tool of this name.
  ghost predicate Lists(s: McpState, id: Option<RpcId>, roles: seq<nat>, name: string)
    requires WellIndexed(s)
  {
    var answer := Route(s, Request(id, "tools/list", None), roles);
    answer.Respond? && exists entry :: entry in ToolsIn(answer.frame) && Member(entry, "name") == Some(Str(name))
  }

  lemma ListingAnswer(s: McpState, id: Option<RpcId>, roles: seq<nat>)
    requires WellIndexed(s)
    ensures var answer := Route(s, Request(id, "tools/list", None), roles);
            answer.Respond? && ToolsIn(answer.frame) == Listed(s.tools, roles)
  {
    hide Listed, RouteToolCall;
    assert NOTIFICATIONS[0] != "tools/list"[0];
    ResultFrameIsResponse(id, ToolsListResult(s, roles));
  }

  lemma {:induction false} ListedIff(tools: seq<Tool>, roles: seq<nat>, name: string)
    ensures (exists entry :: entry in Listed(tools, roles) && Member(entry, "name") == Some(Str(name)))
       <==> exists i :: 0 <= i < |tools| && tools[i].name == name && RolesAllowed(roles, tools[i].allowedRoles)
  {
    hide RolesAllowed;
    if tools != [] {
      ListedIff(tools[1..], roles, name);
      var rest := Listed(tools[1..], roles);
      var head := if RolesAllowed(roles, tools[0].allowedRoles) then [ListEntry(tools[0])] else [];
      assert Member(ListEntry(tools[0]), "name") == Some(Str(tools[0].name));
      assert Listed(tools, roles) == head + rest;
      assert forall e :: e in Listed(tools, roles) <==> e in head || e in rest;
      assert forall i :: 0 < i < |tools| ==> tools[i] == tools[1..][i - 1];
      assert forall i :: 0 <= i < |tools| - 1 ==> tools[1..][i] == tools[i + 1];
      hide Listed, ListEntry;
    }
  }

  lemma CallAnswer(s: McpState, roles: seq<nat>, name: string, id: Option<RpcId>, arguments: Value)
    requires WellIndexed(s)
    ensures Route(s, CallOf(id, name, arguments), roles) ==
      if name in s.byName && RolesAllowed(roles, s.tools[s.byName[name]].allowedRoles)
      then ToolCall(id, s.tools[s.byName[name]].methodCode, arguments)
      else Respond(ErrorFrame(id, RpcError(INVALID_PARAMS, "Unknown tool: " + name, None)))
  {
    assert NOTIFICATIONS[0] != "tools/call"[0];
    hide RolesAllowed, ErrorFrame;
  }

  lemma ListedIffIndexed(cs: Schema.Casing, reg: Types.Registry, handlers: map<nat, WsEndpoint>, s: McpState,
                         roles: seq<nat>, name: string, id: Option<RpcId>)
    requires reg.Valid() && Built(cs, reg, handlers, s) && WellIndexed(s)
    ensures Lists(s, id, roles, name) <==> name in s.byName && RolesAllowed(roles, s.tools[s.byName[name]].allowedRoles)
  {
    ListedIff(s.tools, roles, name);
    ListingAnswer(s, id, roles);
    assert forall i :: 0 <= i < |s.tools| && s.tools[i].name == name ==> name in s.byName && s.byName[name] == i;
    assert name in s.byName ==> s.tools[s.byName[name]].name == name;
    hide Built, Listed, RolesAllowed, ListEntry, Route, ToolsIn;
  }

  // A tool is listed for a caller if and only if its call dispatches, if and only if the role
  // check of the legacy protocol admits the caller to the endpoint of that name; and then the
  // call goes to that endpoint, whose code is a key of the handlers, with the arguments given.
  lemma ListedIffCallable(cs: Schema.Casing, reg: Types.Registry, handlers: map<nat, WsEndpoint>, s: McpState,
                          roles: seq<nat>, name: string, id: Option<RpcId>, arguments: Value)
    requires reg.Valid() && Built(cs, reg, handlers, s)
    ensures WellIndexed(s)
    ensures var call := Route(s, CallOf(id, name, arguments), roles);
      && (Lists(s, id, roles, name) <==> call.ToolCall?)
      && (call.ToolCall? <==> exists c :: Names(cs, handlers, c, name) && CheckRoles(roles, handlers[c].allowedRoles))
      && (forall c :: Names(cs, handlers, c, name) && CheckRoles(roles, handlers[c].allowedRoles) ==>
            call == ToolCall(id, c, arguments))
  {
    BuiltFinds(cs, reg, handlers, s, name);
    ListedIffIndexed(cs, reg, handlers, s, roles, name, id);
    CallAnswer(s, roles, name, id, arguments);
    hide Built, Lists, RolesAllowed, CheckRoles, Route, CallOf;
    forall c | Names(cs, handlers, c, name)
      ensures RolesAllowed(roles, handlers[c].allowedRoles) <==> CheckRoles(roles, handlers[c].allowedRoles)
    {
      RoleChecksAgree(roles, handlers[c].allowedRoles);
    }
  }

  // Every response is a JSON-RPC 2.0 response to the id of its request, and a request that has an
  // id is answered or dispatched unless its method says it is a notification.
  lemma ResponsesAreAddressed(s: McpState, req: Request, roles: seq<nat>)
    requires WellIndexed(s)
    ensures var a := Route(s, req, roles);
      && (a.Respond? ==> IsResponse(a.frame, IdValue(req.id)))
      && (a.ToolCall? ==> a.id == req.id)
      && (a.Ignore? ==> req.id.None? || NOTIFICATIONS <= req.methodName)
  {
    hide IsResponse;
    var a := Route(s, req, roles);
    if a.Respond? {
      if "result" in a.frame.members {
        ResultFrameIsResponse(req.id, a.frame.members["result"]);
      } else if req.methodName == "tools/call" {
        var name := Member(if req.params.Some? then req.params.value else Null, "name");
        var message := if name.None? || !name.value.Str? then "tools/call requires a string `name` param" else "Unknown tool: " + name.value.s;
        ErrorFrameIsResponse(req.id, RpcError(INVALID_PARAMS, message, None));
      } else {
        ErrorFrameIsResponse(req.id, RpcError(METHOD_NOT_FOUND, "Method not found: " + req.methodName, None));
      }
    }
  }

  // Hiding.

  function VisibleTo(handlers: map<nat, WsEndpoint>, roles: seq<nat>): map<nat, WsEndpoint> {
    map c | c in handlers && RolesAllowed(roles, handlers[c].allowedRoles) :: handlers[c]
  }

  // The listing, read off the handlers: the tools of the admitted ones, in order of code.
  ghost function ListingOf(cs: Schema.Casing, reg: Types.Registry, handlers: map<nat, WsEndpoint>, codes: seq<nat>, roles: seq<nat>): seq<Value>
    requires reg.Valid() && forall c :: c in codes ==> c in handlers
  {
    if codes == [] then []
    else
      var e := handlers[codes[0]];
      (if RolesAllowed(roles, e.allowedRoles) && ToolOf(cs, reg, e).Ok? then [ListEntry(ToolOf(cs, reg, e).value)] else [])
      + ListingOf(cs, reg, handlers, codes[1..], roles)
  }

  lemma {:induction false} ListedIsListing(cs: Schema.Casing, reg: Types.Registry, handlers: map<nat, WsEndpoint>, codes: seq<nat>,
                                           tools: seq<Tool>, roles: seq<nat>)
    requires reg.Valid() && (forall c :: c in codes ==> c in handlers) && |tools| == |codes|
    requires forall i :: 0 <= i < |codes| ==> ToolOf(cs, reg, handlers[codes[i]]) == Ok(tools[i])
    ensures Listed(tools, roles) == ListingOf(cs, reg, handlers, codes, roles)
  {
    if codes != [] {
      ToolKeeps(cs, reg, handlers[codes[0]]);
      ListedIsListing(cs, reg, handlers, codes[1..], tools[1..], roles);
    }
    hide ToolOf, RolesAllowed, ListEntry;
  }

  function Kept(codes: seq<nat>, keep: set<nat>): seq<nat> {
    if codes == [] then [] else (if codes[0] in keep then [codes[0]] else []) + Kept(codes[1..], keep)
  }

  // Sorting what is kept is keeping what is sorted.
  lemma {:induction false} SortedKept(codes: set<nat>, keep: set<nat>)
    ensures Sorted(codes * keep) == Kept(Sorted(codes), keep)
    decreases codes
  {
    if codes == {} {
      assert codes * keep == {};
    } else {
      var m := Least(codes);
      SortedKept(codes - {m}, keep);
      assert Sorted(codes) == [m] + Sorted(codes - {m});
      assert ([m] + Sorted(codes - {m}))[1..] == Sorted(codes - {m});
      if m in keep {
        assert codes * keep - {m} == (codes - {m}) * keep;
        assert m in codes * keep;
        assert Least(codes * keep) == m;
      } else {
        assert codes * keep == (codes - {m}) * keep;
      }
    }
  }

  // Dropping the codes that are not admitted changes nothing.
  lemma {:induction false} ListingHides(cs: Schema.Casing, reg: Types.Registry, handlers: map<nat, WsEndpoint>, codes: seq<nat>, roles: seq<nat>)
    requires reg.Valid() && forall c :: c in codes ==> c in handlers
    ensures forall c :: c in Kept(codes, VisibleTo(handlers, roles).Keys) ==> c in VisibleTo(handlers, roles)
    ensures ListingOf(cs, reg, handlers, codes, roles)
         == ListingOf(cs, reg, VisibleTo(handlers, roles), Kept(codes, VisibleTo(handlers, roles).Keys), roles)
  {
    hide ToolOf, RolesAllowed, ListEntry;
    if codes != [] {
      var visible := VisibleTo(handlers, roles);
      ListingHides(cs, reg, handlers, codes[1..], roles);
      var rest := Kept(codes[1..], visible.Keys);
      if codes[0] in visible {
        assert Kept(codes, visible.Keys) == [codes[0]] + rest;
        assert ([codes[0]] + rest)[1..] == rest;
      } else {
        assert Kept(codes, visible.Keys) == rest;
        assert !RolesAllowed(roles, handlers[codes[0]].allowedRoles);
      }
    }
  }

  lemma BuiltLists(cs: Schema.Casing, reg: Types.Registry, handlers: map<nat, WsEndpoint>, s: McpState, roles: seq<nat>)
    requires reg.Valid() && Built(cs, reg, handlers, s)
    ensures forall c :: c in Sorted(handlers.Keys) ==> c in handlers
    ensures Listed(s.tools, roles) == ListingOf(cs, reg, handlers, Sorted(handlers.Keys), roles)
  {
    SortedCodes(handlers.Keys);
    hide ToolOf, Sorted;
    ListedIsListing(cs, reg, handlers, Sorted(handlers.Keys), s.tools, roles);
  }

  // A caller cannot tell that tools hidden from it exist: a server built from the endpoints it
  // may use, and no others, gives the same answer to every request.
  lemma HiddenToolsLeaveNoTrace(cs: Schema.Casing, reg: Types.Registry, handlers: map<nat, WsEndpoint>, roles: seq<nat>,
                                s: McpState, s': McpState, req: Request)
    requires reg.Valid() && s.info == s'.info
    requires Built(cs, reg, handlers, s) && Built(cs, reg, VisibleTo(handlers, roles), s')
    ensures WellIndexed(s) && WellIndexed(s') && Route(s, req, roles) == Route(s', req, roles)
  {
    BuiltFinds(cs, reg, handlers, s, "");
    BuiltFinds(cs, reg, VisibleTo(handlers, roles), s', "");
    SameListing(cs, reg, handlers, roles, s, s');
    SameToolCall(cs, reg, handlers, roles, s, s', req);
    hide Built, Finds;
    SameAnswers(s, s', req, roles);
  }

  // The answers depend on the server's name, the listing and the calls, and on nothing else.
  lemma SameAnswers(s: McpState, s': McpState, req: Request, roles: seq<nat>)
    requires WellIndexed(s) && WellIndexed(s') && s.info == s'.info
    requires Listed(s.tools, roles) == Listed(s'.tools, roles)
    requires RouteToolCall(s, req, roles) == RouteToolCall(s', req, roles)
    ensures Route(s, req, roles) == Route(s', req, roles)
  {
    hide RouteToolCall, Listed, ResultFrame, ErrorFrame, WellIndexed;
  }

  lemma SameListing(cs: Schema.Casing, reg: Types.Registry, handlers: map<nat, WsEndpoint>, roles: seq<nat>, s: McpState, s': McpState)
    requires reg.Valid() && Built(cs, reg, handlers, s) && Built(cs, reg, VisibleTo(handlers, roles), s')
    ensures Listed(s.tools, roles) == Listed(s'.tools, roles)
  {
    var visible := VisibleTo(handlers, roles);
    BuiltLists(cs, reg, handlers, s, roles);
    BuiltLists(cs, reg, visible, s', roles);
    ListingHides(cs, reg, handlers, Sorted(handlers.Keys), roles);
    SortedKept(handlers.Keys, visible.Keys);
    assert handlers.Keys * visible.Keys == visible.Keys;
    hide Built, Listed, ListingOf, Sorted, Kept;
  }

  lemma SameToolCall(cs: Schema.Casing, reg: Types.Registry, handlers: map<nat, WsEndpoint>, roles: seq<nat>, s: McpState, s': McpState, req: Request)
    requires reg.Valid() && Built(cs, reg, handlers, s) && Built(cs, reg, VisibleTo(handlers, roles), s')
    requires WellIndexed(s) && WellIndexed(s')
    ensures RouteToolCall(s, req, roles) == RouteToolCall(s', req, roles)
  {
    var name := Member(if req.params.Some? then req.params.value else Null, "name");
    if name.Some? && name.value.Str? {
      BuiltFinds(cs, reg, handlers, s, name.value.s);
      BuiltFinds(cs, reg, VisibleTo(handlers, roles), s', name.value.s);
      SameCall(cs, handlers, roles, s, s', name.value.s);
    }
    hide Built, Finds, RolesAllowed, VisibleTo, ErrorFrame;
  }

  lemma SameCall(cs: Schema.Casing, handlers: map<nat, WsEndpoint>, roles: seq<nat>, s: McpState, s': McpState, name: string)
    requires WellIndexed(s) && WellIndexed(s')
    requires Finds(cs, handlers, s, name) && Finds(cs, VisibleTo(handlers, roles), s', name)
    ensures (name in s.byName && RolesAllowed(roles, s.tools[s.byName[name]].allowedRoles))
       <==> (name in s'.byName && RolesAllowed(roles, s'.tools[s'.byName[name]].allowedRoles))
    ensures name in s.byName && RolesAllowed(roles, s.tools[s.byName[name]].allowedRoles) ==>
              name in s'.byName && s.tools[s.byName[name]].methodCode == s'.tools[s'.byName[name]].methodCode
  {
    hide RolesAllowed;
    if name in s.byName && RolesAllowed(roles, s.tools[s.byName[name]].allowedRoles) {
      assert Names(cs, VisibleTo(handlers, roles), s.tools[s.byName[name]].methodCode, name);
    }
    if name in s'.byName {
      assert Names(cs, handlers, s'.tools[s'.byName[name]].methodCode, name);
    }
  }

  // And such a server can be built whenever the full one can.
  lemma VisibleBuildable(cs: Schema.Casing, reg: Types.Registry, handlers: map<nat, WsEndpoint>, roles: seq<nat>)
    requires reg.Valid() && Keyed(handlers)
    ensures var visible := VisibleTo(handlers, roles);
      Buildable(cs, reg, InOrder(handlers)) ==> Keyed(visible) && Buildable(cs, reg, InOrder(visible))
  {
    var visible := VisibleTo(handlers, roles);
    SortedCodes(handlers.Keys);
    SortedCodes(visible.Keys);
    var all, some := Sorted(handlers.Keys), Sorted(visible.Keys);
    hide ToolOf, RolesAllowed, Sorted;
    if Buildable(cs, reg, InOrder(handlers)) {
      forall i | 0 <= i < |some|
        ensures exists k :: 0 <= k < |all| && all[k] == some[i]
      {
        assert some[i] in some;
        assert some[i] in all;
      }
      forall i | 0 <= i < |some|
        ensures ToolOf(cs, reg, visible[some[i]]).Ok?
      {
        var k :| 0 <= k < |all| && all[k] == some[i];
        assert ToolOf(cs, reg, InOrder(handlers)[k]).Ok?;
      }
      forall i, j | 0 <= i < j < |some|
        ensures cs.snake(visible[some[i]].schema.name) != cs.snake(visible[some[j]].schema.name)
      {
        var k :| 0 <= k < |all| && all[k] == some[i];
        var l :| 0 <= l < |all| && all[l] == some[j];
        var endpoints := InOrder(handlers);
        assert endpoints[k] == visible[some[i]] && endpoints[l] == visible[some[j]];
        assert all[k] < all[l];
      }
    }
  }
}
