// Definitions hoisted to document scope and references rewritten to match
// (src/model/api_document.rs).
module ApiDocument {
  import opened Wrappers
  import opened Json
  import opened Types
  import opened Endpoints
  import opened JsonSchema
  import opened SchemaClosure

  const COMPONENTS_SCHEMAS_PREFIX := "#/components/schemas/"

  function RelocateTarget(target: string, prefix: string): string {
    if DEFS_PREFIX <= target then prefix + target[|DEFS_PREFIX|..] else target
  }

  // `relocate_refs`, on values.
  function Relocate(v: Value, prefix: string): Value {
    match v
    case Obj(m) =>
      Obj(map k | k in m ::
            if k == "$ref" && m[k].Str? then Str(RelocateTarget(m[k].s, prefix)) else Relocate(m[k], prefix))
    case Arr(items) => Arr(seq(|items|, i requires 0 <= i < |items| => Relocate(items[i], prefix)))
    case _ => v
  }

  // The strings `collect_refs` pushes, without their order.
  ghost function Refs(v: Value): set<string> {
    match v
    case Obj(m) =>
      (if "$ref" in m && m["$ref"].Str? then {m["$ref"].s} else {}) + (set k, r | k in m && r in Refs(m[k]) :: r)
    case Arr(items) => set i, r | 0 <= i < |items| && r in Refs(items[i]) :: r
    case _ => {}
  }

  // Relocation maps exactly the collected references: each one once rewritten, and no others.
  lemma {:induction false} RelocateMapsRefs(v: Value, prefix: string, target: string)
    ensures target in Refs(Relocate(v, prefix)) <==> exists r :: r in Refs(v) && target == RelocateTarget(r, prefix)
  {
    match v
    case Obj(m) =>
      forall k | k in m
        ensures target in Refs(Relocate(m[k], prefix)) <==> exists r :: r in Refs(m[k]) && target == RelocateTarget(r, prefix)
      {
        RelocateMapsRefs(m[k], prefix, target);
      }
      RelocateObjectRefs(m, prefix, target);
    case Arr(items) =>
      forall i | 0 <= i < |items|
        ensures target in Refs(Relocate(items[i], prefix)) <==> exists r :: r in Refs(items[i]) && target == RelocateTarget(r, prefix)
      {
        RelocateMapsRefs(items[i], prefix, target);
      }
      var after := Relocate(v, prefix).items;
      assert forall i :: 0 <= i < |items| ==> after[i] == Relocate(items[i], prefix);
      if r :| r in Refs(v) && target == RelocateTarget(r, prefix) {
        var i :| 0 <= i < |items| && r in Refs(items[i]);
        assert target in Refs(after[i]);
      }
    case _ =>
  }

  lemma RelocateObjectRefs(m: map<string, Value>, prefix: string, target: string)
    requires forall k :: k in m ==>
      (target in Refs(Relocate(m[k], prefix)) <==> exists r :: r in Refs(m[k]) && target == RelocateTarget(r, prefix))
    ensures target in Refs(Relocate(Obj(m), prefix))
       <==> exists r :: r in Refs(Obj(m)) && target == RelocateTarget(r, prefix)
  {
    if target in Refs(Relocate(Obj(m), prefix)) {
      RelocatedCameFrom(m, prefix, target);
    }
    if r :| r in Refs(Obj(m)) && target == RelocateTarget(r, prefix) {
      RelocatedIsThere(m, prefix, r);
    }
    hide Refs, Relocate, RelocateTarget;
  }

  lemma RelocatedCameFrom(m: map<string, Value>, prefix: string, target: string)
    requires forall k :: k in m && target in Refs(Relocate(m[k], prefix)) ==>
      exists r :: r in Refs(m[k]) && target == RelocateTarget(r, prefix)
    requires target in Refs(Relocate(Obj(m), prefix))
    ensures exists r :: r in Refs(Obj(m)) && target == RelocateTarget(r, prefix)
  {
    hide RelocateTarget;
    var m' := Relocate(Obj(m), prefix).members;
    if "$ref" in m' && m'["$ref"].Str? && m'["$ref"].s == target {
      assert m["$ref"].s in Refs(Obj(m)) && target == RelocateTarget(m["$ref"].s, prefix);
    } else {
      var k :| k in m' && target in Refs(m'[k]);
      var r :| r in Refs(m[k]) && target == RelocateTarget(r, prefix);
      assert r in Refs(Obj(m));
    }
  }

  lemma RelocatedIsThere(m: map<string, Value>, prefix: string, r: string)
    requires r in Refs(Obj(m))
    requires forall k :: k in m && r in Refs(m[k]) ==> RelocateTarget(r, prefix) in Refs(Relocate(m[k], prefix))
    ensures RelocateTarget(r, prefix) in Refs(Relocate(Obj(m), prefix))
  {
    hide RelocateTarget;
    var m' := Relocate(Obj(m), prefix).members;
    if "$ref" in m && m["$ref"].Str? && m["$ref"].s == r {
      assert m'["$ref"] == Str(RelocateTarget(r, prefix));
    } else {
      var k :| k in m && r in Refs(m[k]);
      assert m'[k] == Relocate(m[k], prefix);
    }
  }

  // Relocated references are left alone by the same relocation.
  ghost predicate StableTarget(prefix: string, target: string) {
    RelocateTarget(RelocateTarget(target, prefix), prefix) == RelocateTarget(target, prefix)
  }

  lemma {:induction false} RelocateTwice(v: Value, prefix: string)
    requires forall target :: StableTarget(prefix, target)
    ensures Relocate(Relocate(v, prefix), prefix) == Relocate(v, prefix)
  {
    match v
    case Obj(m) =>
      var once := Relocate(v, prefix).members;
      var twice := Relocate(Obj(once), prefix).members;
      forall k | k in m
        ensures twice[k] == once[k]
      {
        if k == "$ref" && m[k].Str? {
          assert StableTarget(prefix, m[k].s);
        } else {
          RelocateTwice(m[k], prefix);
        }
      }
      assert twice == once;
    case Arr(items) =>
      var once := Relocate(v, prefix).items;
      forall i | 0 <= i < |items|
        ensures Relocate(once[i], prefix) == once[i]
      {
        RelocateTwice(items[i], prefix);
      }
      assert Relocate(Arr(once), prefix).items == once;
    case _ =>
  }

  // The documentation promises idempotence without a condition. It holds for every value exactly
  // when the prefix is `#/$defs/` itself, or neither it nor `#/$defs/` begins with the other:
  // "" and "#/$defs/nested/" are prefixes for which a second call moves the references again.
  lemma RelocateIdempotentIff(prefix: string)
    ensures (forall v :: Relocate(Relocate(v, prefix), prefix) == Relocate(v, prefix))
       <==> prefix == DEFS_PREFIX || (!(prefix <= DEFS_PREFIX) && !(DEFS_PREFIX <= prefix))
  {
    if prefix == DEFS_PREFIX || (!(prefix <= DEFS_PREFIX) && !(DEFS_PREFIX <= prefix)) {
      forall target ensures StableTarget(prefix, target) {
        PrefixClash(prefix, target);
      }
      forall v ensures Relocate(Relocate(v, prefix), prefix) == Relocate(v, prefix) {
        RelocateTwice(v, prefix);
      }
    } else {
      var target := if DEFS_PREFIX <= prefix then DEFS_PREFIX else DEFS_PREFIX + DEFS_PREFIX[|prefix|..];
      var v := RefTo(target[|DEFS_PREFIX|..]);
      assert DEFS_PREFIX + target[|DEFS_PREFIX|..] == target;
      RelocateRef(target, prefix);
      RelocateRef(RelocateTarget(target, prefix), prefix);
      UnstableTarget(prefix, target);
      var once := Relocate(v, prefix);
      assert once.members["$ref"] == Str(RelocateTarget(target, prefix));
      assert Relocate(once, prefix).members["$ref"] == Str(RelocateTarget(RelocateTarget(target, prefix), prefix));
      assert Relocate(Relocate(v, prefix), prefix) != Relocate(v, prefix);
    }
  }

  lemma RelocateRef(target: string, prefix: string)
    ensures Relocate(Obj(map["$ref" := Str(target)]), prefix) == Obj(map["$ref" := Str(RelocateTarget(target, prefix))])
  {
  }

  lemma PrefixClash(prefix: string, target: string)
    requires prefix == DEFS_PREFIX || (!(prefix <= DEFS_PREFIX) && !(DEFS_PREFIX <= prefix))
    ensures StableTarget(prefix, target)
  {
    if DEFS_PREFIX <= target {
      var rest := target[|DEFS_PREFIX|..];
      if prefix == DEFS_PREFIX {
        assert prefix + rest == target;
      } else {
        assert !(DEFS_PREFIX <= prefix + rest);
      }
    }
  }

  lemma UnstableTarget(prefix: string, target: string)
    requires prefix != DEFS_PREFIX && (prefix <= DEFS_PREFIX || DEFS_PREFIX <= prefix)
    requires target == if DEFS_PREFIX <= prefix then DEFS_PREFIX else DEFS_PREFIX + DEFS_PREFIX[|prefix|..]
    ensures !StableTarget(prefix, target)
  {
    if DEFS_PREFIX <= prefix {
      assert RelocateTarget(target, prefix) == prefix;
      assert |RelocateTarget(prefix, prefix)| == |prefix| + |prefix| - |DEFS_PREFIX|;
    } else {
      assert RelocateTarget(target, prefix) == prefix + DEFS_PREFIX[|prefix|..] == DEFS_PREFIX;
      assert RelocateTarget(DEFS_PREFIX, prefix) == prefix;
    }
  }

  // In particular it holds for the prefix both document formats use.
  lemma RelocateToComponentsIdempotent(v: Value)
    ensures Relocate(Relocate(v, COMPONENTS_SCHEMAS_PREFIX), COMPONENTS_SCHEMAS_PREFIX)
         == Relocate(v, COMPONENTS_SCHEMAS_PREFIX)
  {
    assert COMPONENTS_SCHEMAS_PREFIX[2] != DEFS_PREFIX[2];
    RelocateIdempotentIff(COMPONENTS_SCHEMAS_PREFIX);
  }

  // The emitters' walk over every endpoint, as one field list: parameters, results, stream
  // response and error fields, in that order.

  function StreamFields(stream: Option<Type>): seq<Field> {
    if stream.Some? then [Field("", "", stream.value)] else []
  }

  function ErrorFields(errors: seq<ErrorSchema>): seq<Field> {
    if errors == [] then [] else errors[0].fields + ErrorFields(errors[1..])
  }

  function EndpointFields(e: EndpointSchema): seq<Field> {
    e.parameters + e.results + StreamFields(e.streamResponse) + ErrorFields(e.errors)
  }

  function AllFields(endpoints: seq<EndpointSchema>): seq<Field> {
    if endpoints == [] then [] else EndpointFields(endpoints[0]) + AllFields(endpoints[1..])
  }

  ghost function RelocateDefs(defs: Defs): Defs {
    map n | n in defs :: Relocate(defs[n], COMPONENTS_SCHEMAS_PREFIX)
  }

  // The document's shared schemas, or the first reference that does not resolve.
  ghost function Components(cs: Casing, reg: Registry, endpoints: seq<EndpointSchema>): Result<Defs, Error>
    requires reg.Valid()
  {
    var w := WalkFields(cs, reg, AllFields(endpoints), map[]);
    if w.result.Err? then Err(w.result.error) else Ok(RelocateDefs(w.defs))
  }

  // `request_schema` over the parameters and `response_schema` over the results, of fields
  // that carry no annotations.
  function FieldsSchema(cs: Casing, reg: Registry, fields: seq<Field>): Result<Value, Error>
    requires reg.Valid()
  {
    match ObjectResult(cs, fields, WalkFields(cs, reg, fields, map[]))
    case Err(e) => Err(e)
    case Ok(root) => Ok(Relocate(root, COMPONENTS_SCHEMAS_PREFIX))
  }

  // Walking two lists in a row is walking their concatenation.
  lemma {:induction false} WalkAppend(cs: Casing, reg: Registry, a: seq<Field>, b: seq<Field>, defs: Defs)
    requires reg.Valid()
    ensures var w := WalkFields(cs, reg, a, defs);
            WalkFields(cs, reg, a + b, defs)
            == if w.result.Err? then w else Resumed(w.result.value, WalkFields(cs, reg, b, w.defs))
    decreases a
  {
    hide Convert;
    var w := WalkFields(cs, reg, a, defs);
    if a == [] {
      assert a + b == b;
      var rest := WalkFields(cs, reg, b, defs);
      assert rest.result.Ok? ==> [] + rest.result.value == rest.result.value;
    } else {
      assert (a + b)[1..] == a[1..] + b;
      var c := Convert(cs, reg, FieldType(a[0]), defs);
      WalkAppend(cs, reg, a[1..], b, c.defs);
      if w.result.Ok? && WalkFields(cs, reg, b, w.defs).result.Ok? {
        var tail := WalkFields(cs, reg, a[1..], c.defs).result.value;
        var rest := WalkFields(cs, reg, b, w.defs).result.value;
        assert [c.result.value] + (tail + rest) == ([c.result.value] + tail) + rest;
      }
    }
  }

  // A stream response adds the same definitions whether or not the type is Optional.
  lemma StreamWalk(cs: Casing, reg: Registry, ty: Type, defs: Defs)
    requires reg.Valid()
    ensures var c := Convert(cs, reg, ty, defs);
            var w := WalkFields(cs, reg, [Field("", "", ty)], defs);
            w.defs == c.defs && (w.result.Ok? <==> c.result.Ok?)
            && (c.result.Err? ==> w.result.error == c.result.error)
  {
    var f := Field("", "", ty);
    assert [f][1..] == [];
    assert WalkFields(cs, reg, [f][1..], Convert(cs, reg, FieldType(f), defs).defs).result == Ok([]);
  }

  datatype CollectError = CollectError(endpoint: string, part: string, cause: Error)

  // The walk so far has ended in `defs`, so a walk of more fields goes on from there.
  ghost predicate WalkedTo(cs: Casing, reg: Registry, fields: seq<Field>, defs: Defs)
    requires reg.Valid()
  {
    var w := WalkFields(cs, reg, fields, map[]);
    w.result.Ok? && w.defs == defs
  }

  lemma WalkOn(cs: Casing, reg: Registry, done: seq<Field>, next: seq<Field>, defs: Defs)
    requires reg.Valid() && WalkedTo(cs, reg, done, defs)
    ensures var w := WalkFields(cs, reg, next, defs);
            && (w.result.Ok? ==> WalkedTo(cs, reg, done + next, w.defs))
            && (w.result.Err? ==> forall rest :: WalkFields(cs, reg, done + next + rest, map[]).result == Err(w.result.error))
  {
    WalkAppend(cs, reg, done, next, map[]);
    var w := WalkFields(cs, reg, next, defs);
    if w.result.Err? {
      forall rest
        ensures WalkFields(cs, reg, done + next + rest, map[]).result == Err(w.result.error)
      {
        WalkAppend(cs, reg, done + next, rest, map[]);
      }
    }
  }

  // One `fields_to_object_schema` of the emitters' walk, with what it means for the whole.
  method CollectFields(cs: Casing, reg: Registry, fields: seq<Field>, defs: DefMap, ghost done: seq<Field>)
    returns (r: Result<Value, Error>)
    requires reg.Valid() && WalkedTo(cs, reg, done, defs.entries)
    modifies defs
    ensures r.Ok? ==> WalkedTo(cs, reg, done + fields, defs.entries)
    ensures r.Err? ==> forall rest :: WalkFields(cs, reg, done + fields + rest, map[]).result == Err(r.error)
  {
    WalkOn(cs, reg, done, fields, defs.entries);
    r := defs.FieldsToObjectSchema(cs, reg, fields);
  }

  method CollectStream(cs: Casing, reg: Registry, stream: Option<Type>, defs: DefMap, ghost done: seq<Field>)
    returns (r: Result<(), Error>)
    requires reg.Valid() && WalkedTo(cs, reg, done, defs.entries)
    modifies defs
    ensures r.Ok? ==> WalkedTo(cs, reg, done + StreamFields(stream), defs.entries)
    ensures r.Err? ==> forall rest :: WalkFields(cs, reg, done + StreamFields(stream) + rest, map[]).result == Err(r.error)
  {
    if stream.Some? {
      StreamWalk(cs, reg, stream.value, defs.entries);
      WalkOn(cs, reg, done, StreamFields(stream), defs.entries);
      var c := defs.ToJsonSchema(cs, reg, stream.value);
      r := if c.Ok? then Ok(()) else Err(c.error);
    } else {
      assert done + StreamFields(stream) == done;
      r := Ok(());
    }
  }

  method CollectErrors(cs: Casing, reg: Registry, errors: seq<ErrorSchema>, defs: DefMap, ghost done: seq<Field>)
    returns (r: Result<(), (string, Error)>)
    requires reg.Valid() && WalkedTo(cs, reg, done, defs.entries)
    modifies defs
    ensures r.Ok? ==> WalkedTo(cs, reg, done + ErrorFields(errors), defs.entries)
    ensures r.Err? ==> forall rest :: WalkFields(cs, reg, done + ErrorFields(errors) + rest, map[]).result == Err(r.error.1)
  {
    ghost var sofar := done;
    for i := 0 to |errors|
      invariant WalkedTo(cs, reg, sofar, defs.entries)
      invariant sofar + ErrorFields(errors[i..]) == done + ErrorFields(errors)
    {
      assert errors[i..][1..] == errors[i + 1..];
      var c := CollectFields(cs, reg, errors[i].fields, defs, sofar);
      ghost var left := ErrorFields(errors[i + 1..]);
      assert sofar + errors[i].fields + left == done + ErrorFields(errors);
      if c.Err? {
        forall rest
          ensures WalkFields(cs, reg, done + ErrorFields(errors) + rest, map[]).result == Err(c.error)
        {
          assert done + ErrorFields(errors) + rest == sofar + errors[i].fields + (left + rest);
        }
        return Err((errors[i].name, c.error));
      }
      sofar := sofar + errors[i].fields;
    }
    assert errors[|errors|..] == [];
    assert sofar == done + ErrorFields(errors);
    r := Ok(());
  }

  method CollectEndpoint(cs: Casing, reg: Registry, e: EndpointSchema, defs: DefMap, ghost done: seq<Field>)
    returns (r: Result<(), CollectError>)
    requires reg.Valid() && WalkedTo(cs, reg, done, defs.entries)
    modifies defs
    ensures r.Ok? ==> WalkedTo(cs, reg, done + EndpointFields(e), defs.entries)
    ensures r.Err? ==> r.error.endpoint == e.name
    ensures r.Err? ==> forall rest :: WalkFields(cs, reg, done + EndpointFields(e) + rest, map[]).result == Err(r.error.cause)
  {
    hide WalkFields;
    var stream, errors := StreamFields(e.streamResponse), ErrorFields(e.errors);
    ghost var d1 := done + e.parameters;
    ghost var d2 := d1 + e.results;
    ghost var d3 := d2 + stream;
    assert d3 + errors == done + EndpointFields(e);
    var c := CollectFields(cs, reg, e.parameters, defs, done);
    if c.Err? {
      FailedWithin(cs, reg, d1, e.results + stream + errors, done + EndpointFields(e), c.error);
      return Err(CollectError(e.name, "parameters", c.error));
    }
    c := CollectFields(cs, reg, e.results, defs, d1);
    if c.Err? {
      FailedWithin(cs, reg, d2, stream + errors, done + EndpointFields(e), c.error);
      return Err(CollectError(e.name, "returns", c.error));
    }
    var s := CollectStream(cs, reg, e.streamResponse, defs, d2);
    if s.Err? {
      FailedWithin(cs, reg, d3, errors, done + EndpointFields(e), s.error);
      return Err(CollectError(e.name, "stream_response", s.error));
    }
    var errs := CollectErrors(cs, reg, e.errors, defs, d3);
    if errs.Err? {
      FailedWithin(cs, reg, d3 + errors, [], done + EndpointFields(e), errs.error.1);
      return Err(CollectError(e.name, "error " + errs.error.0, errs.error.1));
    }
    r := Ok(());
  }

  // A walk that fails within a prefix fails the same way however the list goes on.
  lemma FailedWithin(cs: Casing, reg: Registry, prefix: seq<Field>, more: seq<Field>, whole: seq<Field>, e: Error)
    requires reg.Valid() && whole == prefix + more
    requires forall rest :: WalkFields(cs, reg, prefix + rest, map[]).result == Err(e)
    ensures forall rest :: WalkFields(cs, reg, whole + rest, map[]).result == Err(e)
  {
    forall rest
      ensures WalkFields(cs, reg, whole + rest, map[]).result == Err(e)
    {
      assert whole + rest == prefix + (more + rest);
    }
  }

  // `SchemaComponents::collect`: every endpoint in turn over one shared map, then the relocation
  // of each definition in place.
  method Collect(cs: Casing, reg: Registry, endpoints: seq<EndpointSchema>) returns (r: Result<Defs, CollectError>)
    requires reg.Valid()
    ensures Components(cs, reg, endpoints).Ok? ==> r == Ok(Components(cs, reg, endpoints).value)
    ensures Components(cs, reg, endpoints).Err? ==> r.Err? && r.error.cause == Components(cs, reg, endpoints).error
  {
    var defs := new DefMap();
    ghost var done: seq<Field> := [];
    for i := 0 to |endpoints|
      invariant fresh(defs) && WalkedTo(cs, reg, done, defs.entries)
      invariant done + AllFields(endpoints[i..]) == AllFields(endpoints)
    {
      assert endpoints[i..][1..] == endpoints[i + 1..];
      assert AllFields(endpoints) == done + EndpointFields(endpoints[i]) + AllFields(endpoints[i + 1..]);
      var c := CollectEndpoint(cs, reg, endpoints[i], defs, done);
      if c.Err? {
        return Err(c.error);
      }
      done := done + EndpointFields(endpoints[i]);
    }
    assert endpoints[|endpoints|..] == [];
    assert done == AllFields(endpoints);
    RelocateAll(defs);
    r := Ok(defs.entries);
  }

  method RelocateAll(defs: DefMap)
    modifies defs
    ensures defs.entries == RelocateDefs(old(defs.entries))
  {
    var todo := defs.entries.Keys;
    while todo != {}
      invariant todo <= defs.entries.Keys == old(defs.entries).Keys
      invariant forall n :: n in defs.entries ==>
        defs.entries[n] == if n in todo then old(defs.entries)[n]
                           else Relocate(old(defs.entries)[n], COMPONENTS_SCHEMAS_PREFIX)
      decreases todo
    {
      var n :| n in todo;
      defs.entries := defs.entries[n := Relocate(defs.entries[n], COMPONENTS_SCHEMAS_PREFIX)];
      todo := todo - {n};
    }
    assert defs.entries == RelocateDefs(old(defs.entries));
  }
}
