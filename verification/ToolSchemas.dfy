// What a listed tool's schemas say: the router's list (src/libs/ws/mcp.rs) and the conversion of
// field lists (src/model/json_schema.rs), together.
module ToolSchemas {
  import opened Wrappers
  import opened Json
  import opened Types
  import opened JsonSchema
  import opened SchemaClosure
  import opened SchemaMeaning
  import opened Validation
  import Mcp

  // The hypotheses under which a field list means what its schema says.
  ghost predicate WellNamed(cs: Casing, reg: Registry, fields: seq<Field>)
    requires reg.Valid()
  {
    && InjectiveNames(cs, reg, FieldMentions(cs, reg, fields))
    && DistinctKeys(cs, fields)
    && forall d :: Reachable(cs, reg, FieldMentions(cs, reg, fields), d) ==> WellFormed(cs, d)
  }

  // The arguments a listed tool's input schema admits are those that fit the parameters of the
  // endpoint its calls are dispatched to; likewise its output schema, which is there exactly when
  // the endpoint returns something.
  lemma ListedSchemasMeanTheEndpoint(cs: Casing, st: Strings, reg: Registry, handlers: map<nat, Mcp.WsEndpoint>,
                                     s: Mcp.McpState, name: string, v: Value)
    requires reg.Valid() && Mcp.Built(cs, reg, handlers, s) && name in s.byName
    ensures s.byName[name] < |s.tools| && s.tools[s.byName[name]].methodCode in handlers
    ensures var tool := s.tools[s.byName[name]];
      var endpoint := handlers[tool.methodCode].schema;
      && cs.snake(endpoint.name) == name
      && (WellNamed(cs, reg, endpoint.parameters) ==>
            (Accepts(st, tool.inputSchema, v) <==> FitsFields(cs, st, reg, endpoint.parameters, v)))
      && (tool.outputSchema.Some? <==> endpoint.results != [])
      && (tool.outputSchema.Some? && WellNamed(cs, reg, endpoint.results) ==>
            (Accepts(st, tool.outputSchema.value, v) <==> FitsFields(cs, st, reg, endpoint.results, v)))
  {
    hide Accepts, FitsFields, WellNamed, McpSchema;
    Mcp.BuiltFinds(cs, reg, handlers, s, name);
    var tool := s.tools[s.byName[name]];
    var e := handlers[tool.methodCode];
    FoundTool(cs, reg, handlers, s, name);
    SchemaMeans(cs, st, reg, e.schema.parameters, v);
    SchemaMeans(cs, st, reg, e.schema.results, v);
    hide Mcp.Built;
  }

  lemma SchemaMeans(cs: Casing, st: Strings, reg: Registry, fields: seq<Field>, v: Value)
    requires reg.Valid()
    ensures McpSchema(cs, reg, fields).Ok? && WellNamed(cs, reg, fields) ==>
      (Accepts(st, McpSchema(cs, reg, fields).value, v) <==> FitsFields(cs, st, reg, fields, v))
  {
    if McpSchema(cs, reg, fields).Ok? && WellNamed(cs, reg, fields) {
      McpSchemaMeaning(cs, st, reg, fields, v);
    }
    hide Accepts, FitsFields, McpSchema;
  }

  lemma FoundTool(cs: Casing, reg: Registry, handlers: map<nat, Mcp.WsEndpoint>, s: Mcp.McpState, name: string)
    requires reg.Valid() && Mcp.Built(cs, reg, handlers, s) && name in s.byName && s.byName[name] < |s.tools|
    requires s.tools[s.byName[name]].methodCode in handlers
    ensures Mcp.ToolOf(cs, reg, handlers[s.tools[s.byName[name]].methodCode]) == Ok(s.tools[s.byName[name]])
  {
    Mcp.SortedCodes(handlers.Keys);
    var i := s.byName[name];
    var e := Mcp.InOrder(handlers)[i];
    Mcp.ToolKeeps(cs, reg, e);
    hide Mcp.ToolOf, Mcp.Sorted;
  }
}
