// What one document's shared schemas are to the endpoints they were collected from.
module SharedComponents {
  import opened Wrappers
  import opened Json
  import opened Types
  import opened Endpoints
  import opened JsonSchema
  import opened SchemaClosure
  import opened ApiDocument

  ghost function Roots(cs: Casing, reg: Registry, endpoints: seq<EndpointSchema>): set<Def>
    requires reg.Valid()
  {
    FieldMentions(cs, reg, AllFields(endpoints))
  }

  // A field of some endpoint is a field of the whole walk.
  lemma {:induction false} InAllFields(endpoints: seq<EndpointSchema>, f: Field)
    ensures f in AllFields(endpoints) <==> exists e :: e in endpoints && f in EndpointFields(e)
  {
    if endpoints != [] {
      InAllFields(endpoints[1..], f);
      assert endpoints == [endpoints[0]] + endpoints[1..];
    }
  }

  // The definitions do not depend on the order of the endpoints, or on repetitions among them.
  lemma ComponentsOrderIndependent(cs: Casing, reg: Registry, endpoints: seq<EndpointSchema>, endpoints': seq<EndpointSchema>)
    requires reg.Valid()
    requires forall e :: e in endpoints <==> e in endpoints'
    requires InjectiveNames(cs, reg, Roots(cs, reg, endpoints))
    ensures Components(cs, reg, endpoints).Ok? <==> Components(cs, reg, endpoints').Ok?
    ensures Components(cs, reg, endpoints).Ok? ==> Components(cs, reg, endpoints) == Components(cs, reg, endpoints')
  {
    var all, all' := AllFields(endpoints), AllFields(endpoints');
    forall f
      ensures f in all <==> f in all'
    {
      InAllFields(endpoints, f);
      InAllFields(endpoints', f);
    }
    assert FieldMentions(cs, reg, all) == FieldMentions(cs, reg, all');
    WalkSucceedsIff(cs, reg, all);
    WalkSucceedsIff(cs, reg, all');
    if Components(cs, reg, endpoints).Ok? {
      WalkCollectsReachable(cs, reg, all);
      WalkCollectsReachable(cs, reg, all');
      CollectedUnique(cs, reg, FieldMentions(cs, reg, all), WalkFields(cs, reg, all, map[]).defs, WalkFields(cs, reg, all', map[]).defs);
    }
  }

  lemma CollectedUnique(cs: Casing, reg: Registry, roots: set<Def>, defs: Defs, defs': Defs)
    requires reg.Valid() && Collected(cs, reg, roots, defs) && Collected(cs, reg, roots, defs')
    ensures defs == defs'
  {
    hide Reachable, DefSchema, DefResolves;
    forall n
      ensures n in defs <==> n in defs'
      ensures n in defs && n in defs' ==> defs[n] == defs'[n]
    {
      if n in defs {
        assert NamesReachable(cs, reg, roots, n);
        var d :| Reachable(cs, reg, roots, d) && d.name == n;
      }
      if n in defs' {
        assert NamesReachable(cs, reg, roots, n);
        var d :| Reachable(cs, reg, roots, d) && d.name == n;
      }
    }
  }

  // What an endpoint's fields mention is among what the document collects.
  lemma CollectedFields(cs: Casing, reg: Registry, endpoints: seq<EndpointSchema>, e: EndpointSchema, fields: seq<Field>)
    requires reg.Valid() && e in endpoints && (fields == e.parameters || fields == e.results)
    ensures forall f :: f in fields ==> f in AllFields(endpoints)
    ensures FieldMentions(cs, reg, fields) <= Roots(cs, reg, endpoints)
  {
    forall f | f in fields
      ensures f in AllFields(endpoints)
    {
      InAllFields(endpoints, f);
      assert f in EndpointFields(e);
    }
  }

  // An endpoint's own walk stays within what the document collects.
  lemma WithinRoots(cs: Casing, reg: Registry, endpoints: seq<EndpointSchema>, e: EndpointSchema, fields: seq<Field>)
    requires reg.Valid() && e in endpoints && (fields == e.parameters || fields == e.results)
    requires InjectiveNames(cs, reg, Roots(cs, reg, endpoints))
    requires Components(cs, reg, endpoints).Ok?
    ensures FieldMentions(cs, reg, fields) <= Roots(cs, reg, endpoints)
    ensures InjectiveNames(cs, reg, FieldMentions(cs, reg, fields))
    ensures WalkFields(cs, reg, fields, map[]).result.Ok?
  {
    CollectedFields(cs, reg, endpoints, e, fields);
    WalkSucceedsIff(cs, reg, AllFields(endpoints));
    var own := FieldMentions(cs, reg, fields);
    forall d | Reachable(cs, reg, own, d)
      ensures Reachable(cs, reg, Roots(cs, reg, endpoints), d)
    {
      ReachableMore(cs, reg, own, Roots(cs, reg, endpoints), d);
    }
    assert EverythingResolves(cs, reg, fields);
    WalkSucceeds(cs, reg, fields, map[]);
  }

  // Every definition of an endpoint's self-contained MCP schema is a shared schema of the
  // document, relocated and otherwise the same.
  lemma SharedEqualsMcp(cs: Casing, reg: Registry, endpoints: seq<EndpointSchema>, e: EndpointSchema, fields: seq<Field>, n: string)
    requires reg.Valid() && e in endpoints && (fields == e.parameters || fields == e.results)
    requires InjectiveNames(cs, reg, Roots(cs, reg, endpoints))
    requires Components(cs, reg, endpoints).Ok?
    requires n in WalkFields(cs, reg, fields, map[]).defs
    ensures n in Components(cs, reg, endpoints).value
    ensures Components(cs, reg, endpoints).value[n]
         == Relocate(WalkFields(cs, reg, fields, map[]).defs[n], COMPONENTS_SCHEMAS_PREFIX)
  {
    hide WalkFields, Relocate, DefSchema;
    WithinRoots(cs, reg, endpoints, e, fields);
    WalkCollectsReachable(cs, reg, fields);
    WalkCollectsReachable(cs, reg, AllFields(endpoints));
    var own := FieldMentions(cs, reg, fields);
    assert NamesReachable(cs, reg, own, n);
    var d :| Reachable(cs, reg, own, d) && d.name == n;
    ReachableMore(cs, reg, own, Roots(cs, reg, endpoints), d);
  }

  ghost function RefNames(ds: set<Def>): set<string> {
    set d | d in ds :: DEFS_PREFIX + d.name
  }

  lemma {:induction false} FragmentRefs(cs: Casing, reg: Registry, ty: Type)
    requires reg.Valid() && Resolves(reg, ty)
    ensures Refs(Fragment(cs, reg, ty)) <= RefNames(Mentions(cs, reg, ty))
    decreases HeadWeight(ty)
  {
    if ty.Vec? {
      FragmentRefs(cs, reg, ty.inner);
      ArrayRefs(Fragment(cs, reg, ty.inner));
    } else if ty.Optional? {
      FragmentRefs(cs, reg, ty.inner);
      NullableRefs(Fragment(cs, reg, ty.inner));
    } else if ty.StructRef? {
      FragmentRefs(cs, reg, reg.structs[ty.name]);
    } else if ty.StructTable? {
      FragmentRefs(cs, reg, reg.structs[ty.structRef]);
      ArrayRefs(Fragment(cs, reg, reg.structs[ty.structRef]));
    } else if ty.Struct? {
      RefRefs(StructDefName(cs, ty.name));
    } else if ty.Enum? {
      RefRefs(EnumDefName(cs, ty.name, false));
    } else if ty.EnumRef? {
      RefRefs(EnumDefName(cs, ty.name, ty.prefixedName));
    } else {
      ScalarRefs(ty);
    }
  }

  lemma RefRefs(name: string)
    ensures Refs(RefTo(name)) == {DEFS_PREFIX + name}
  {
  }

  lemma ArrayRefs(items: Value)
    ensures Refs(ArrayOf(items)) == Refs(items)
  {
    var m := ArrayOf(items).members;
    assert "$ref" !in m;
    forall r | r in Refs(items)
      ensures r in Refs(ArrayOf(items))
    {
      assert "items" in m && r in Refs(m["items"]);
    }
  }

  lemma NullableRefs(inner: Value)
    ensures Refs(Nullable(inner)) <= Refs(inner)
  {
    var m := Nullable(inner).members;
    var nullSchema := Obj(map["type" := Str("null")]);
    assert "$ref" !in m;
    assert Refs(nullSchema) == {};
    assert m["anyOf"].items == [inner, nullSchema];
  }

  lemma ScalarRefs(ty: Type)
    requires IsScalar(ty)
    ensures Refs(ScalarSchema(ty)) == {}
  {
    FlatRefs(ScalarSchema(ty).members);
    hide Refs;
  }

  lemma FlatRefs(m: map<string, Value>)
    requires "$ref" !in m && forall k :: k in m ==> m[k].Str? || m[k].Num?
    ensures Refs(Obj(m)) == {}
  {
  }

  lemma DescribeRefs(description: string, fragment: Value)
    ensures Refs(Describe(description, fragment)) <= Refs(fragment)
  {
    if fragment.Obj? {
      var m := fragment.members;
      var m' := m["description" := Str(description)];
      forall r | r in Refs(Obj(m'))
        ensures r in Refs(Obj(m))
      {
        if !("$ref" in m' && m'["$ref"].Str? && m'["$ref"].s == r) {
          var k :| k in m' && r in Refs(m'[k]);
          assert k != "description";
          assert k in m && r in Refs(m[k]);
        }
      }
    }
  }

  lemma {:induction false} PropertyRefs(cs: Casing, fields: seq<Field>, fragments: seq<Value>, k: string)
    requires |fields| == |fragments| && k in Properties(cs, fields, fragments)
    ensures exists i :: 0 <= i < |fields| && Properties(cs, fields, fragments)[k] == Describe(fields[i].description, fragments[i])
  {
    var n := |fields| - 1;
    if k != cs.camel(fields[n].name) {
      PropertyRefs(cs, fields[..n], fragments[..n], k);
      var i :| 0 <= i < n && Properties(cs, fields[..n], fragments[..n])[k] == Describe(fields[..n][i].description, fragments[..n][i]);
      assert fields[..n][i] == fields[i];
    }
  }

  // An object schema refers to nothing but what its fields mention.
  lemma RootRefs(cs: Casing, reg: Registry, fields: seq<Field>)
    requires reg.Valid() && FieldsResolve(reg, fields)
    ensures Refs(RootSchema(cs, reg, fields)) <= RefNames(FieldMentions(cs, reg, fields))
  {
    var fragments := Fragments(cs, reg, fields);
    var props := Properties(cs, fields, fragments);
    RequiredAreStrings(cs, fields);
    forall k | k in props
      ensures props[k].Obj?
    {
      PropertyRefs(cs, fields, fragments, k);
      var i :| 0 <= i < |fields| && props[k] == Describe(fields[i].description, fragments[i]);
      FragmentIsObject(cs, reg, FieldType(fields[i]));
    }
    ObjectRefs(props, RequiredKeys(cs, fields));
    forall r | r in Refs(RootSchema(cs, reg, fields))
      ensures r in RefNames(FieldMentions(cs, reg, fields))
    {
      var k :| k in props && r in Refs(props[k]);
      PropertyRefs(cs, fields, fragments, k);
      var i :| 0 <= i < |fields| && props[k] == Describe(fields[i].description, fragments[i]);
      DescribeRefs(fields[i].description, fragments[i]);
      FragmentRefs(cs, reg, FieldType(fields[i]));
      var d :| d in Mentions(cs, reg, FieldType(fields[i])) && r == DEFS_PREFIX + d.name;
      assert fields[i] in fields;
      assert d in FieldMentions(cs, reg, fields);
    }
  }

  lemma {:induction false} RequiredAreStrings(cs: Casing, fields: seq<Field>)
    ensures forall v :: v in RequiredKeys(cs, fields) ==> v.Str?
  {
    if fields != [] {
      RequiredAreStrings(cs, fields[..|fields| - 1]);
    }
  }

  lemma FragmentIsObject(cs: Casing, reg: Registry, ty: Type)
    requires reg.Valid() && Resolves(reg, ty)
    ensures Fragment(cs, reg, ty).Obj?
  {
    if ty.StructRef? {
      assert Fragment(cs, reg, ty) == Fragment(cs, reg, reg.structs[ty.name]);
    }
  }

  lemma ObjectRefs(props: map<string, Value>, required: seq<Value>)
    requires forall v :: v in required ==> v.Str?
    requires forall k :: k in props ==> props[k].Obj?
    ensures forall r :: r in Refs(ObjectOf(props, required)) ==> exists k :: k in props && r in Refs(props[k])
  {
    var m := ObjectOf(props, required).members;
    assert "$ref" !in m;
    assert forall i :: 0 <= i < |required| ==> required[i] in required;
    assert Refs(Arr(required)) == {};
    forall r | r in Refs(ObjectOf(props, required))
      ensures exists k :: k in props && r in Refs(props[k])
    {
      var k :| k in m && r in Refs(m[k]);
      assert k != "type" && k != "additionalProperties";
      assert r in Refs(Obj(props));
    }
  }

  // A reference into the document's shared schemas.
  ghost predicate Resolved(schemas: Defs, reference: string) {
    exists n :: n in schemas && reference == COMPONENTS_SCHEMAS_PREFIX + n
  }

  ghost predicate AllResolved(schemas: Defs, v: Value) {
    forall r :: r in Refs(v) ==> Resolved(schemas, r)
  }

  lemma RelocatedRootResolves(cs: Casing, reg: Registry, fields: seq<Field>, schemas: Defs)
    requires reg.Valid() && FieldsResolve(reg, fields)
    requires Names(FieldMentions(cs, reg, fields)) <= schemas.Keys
    ensures AllResolved(schemas, Relocate(RootSchema(cs, reg, fields), COMPONENTS_SCHEMAS_PREFIX))
  {
    var root := RootSchema(cs, reg, fields);
    RootRefs(cs, reg, fields);
    forall target | target in Refs(Relocate(root, COMPONENTS_SCHEMAS_PREFIX))
      ensures Resolved(schemas, target)
    {
      RelocateMapsRefs(root, COMPONENTS_SCHEMAS_PREFIX, target);
      var r :| r in Refs(root) && target == RelocateTarget(r, COMPONENTS_SCHEMAS_PREFIX);
      var d :| d in FieldMentions(cs, reg, fields) && r == DEFS_PREFIX + d.name;
      assert r[|DEFS_PREFIX|..] == d.name;
      assert d.name in Names(FieldMentions(cs, reg, fields));
    }
  }

  // No dangling reference, whatever the names: those of a collected endpoint's request and response
  // schemas, and those inside the shared schemas themselves, all lead to a shared schema.
  lemma DocumentResolves(cs: Casing, reg: Registry, endpoints: seq<EndpointSchema>, e: EndpointSchema, fields: seq<Field>)
    requires reg.Valid() && e in endpoints && (fields == e.parameters || fields == e.results)
    requires Components(cs, reg, endpoints).Ok? && FieldsSchema(cs, reg, fields).Ok?
    ensures AllResolved(Components(cs, reg, endpoints).value, FieldsSchema(cs, reg, fields).value)
  {
    CollectedFields(cs, reg, endpoints, e, fields);
    WalkCloses(cs, reg, fields);
    WalkCloses(cs, reg, AllFields(endpoints));
    RelocatedRootResolves(cs, reg, fields, Components(cs, reg, endpoints).value);
  }

  // What the document's comment promises of the walk it throws away: the schemas of a collected
  // endpoint can be built. It holds when the document's names are distinct. Where the endpoint's
  // own are, it holds exactly when all that the endpoint refers to is in the registry, which
  // `collect` vouches for only if nobody else took one of its names.
  lemma CollectedSchemaIff(cs: Casing, reg: Registry, endpoints: seq<EndpointSchema>, e: EndpointSchema, fields: seq<Field>)
    requires reg.Valid() && e in endpoints && (fields == e.parameters || fields == e.results)
    requires Components(cs, reg, endpoints).Ok?
    ensures InjectiveNames(cs, reg, Roots(cs, reg, endpoints)) ==> FieldsSchema(cs, reg, fields).Ok?
    ensures InjectiveNames(cs, reg, FieldMentions(cs, reg, fields)) ==>
      (FieldsSchema(cs, reg, fields).Ok? <==> EverythingResolves(cs, reg, fields))
  {
    if InjectiveNames(cs, reg, Roots(cs, reg, endpoints)) {
      WithinRoots(cs, reg, endpoints, e, fields);
    }
    if InjectiveNames(cs, reg, FieldMentions(cs, reg, fields)) {
      WalkSucceedsIff(cs, reg, fields);
    }
    hide InjectiveNames, WalkFields, EverythingResolves;
  }

  lemma SharedSchemasResolve(cs: Casing, reg: Registry, endpoints: seq<EndpointSchema>, n: string)
    requires reg.Valid() && Components(cs, reg, endpoints).Ok?
    requires n in Components(cs, reg, endpoints).value
    ensures AllResolved(Components(cs, reg, endpoints).value, Components(cs, reg, endpoints).value[n])
  {
    var all := AllFields(endpoints);
    WalkCloses(cs, reg, all);
    var defs := WalkFields(cs, reg, all, map[]).defs;
    assert Settled(cs, reg, FieldMentions(cs, reg, all), defs, n);
    var d :| SettledAs(cs, reg, FieldMentions(cs, reg, all), defs, n, d);
    hide WalkFields, Reachable;
    if d.StructDef? {
      RelocatedRootResolves(cs, reg, d.fields, Components(cs, reg, endpoints).value);
    } else {
      EnumRefs(d.name, d.variants);
      forall target | target in Refs(Relocate(defs[n], COMPONENTS_SCHEMAS_PREFIX))
        ensures false
      {
        RelocateMapsRefs(defs[n], COMPONENTS_SCHEMAS_PREFIX, target);
      }
    }
  }

  lemma EnumRefs(name: string, variants: seq<EnumVariant>)
    ensures Refs(EnumToSchema(name, variants)) == {}
  {
    var m := EnumToSchema(name, variants).members;
    assert "$ref" !in m;
    forall i | 0 <= i < |variants|
      ensures Refs(VariantEntry(variants[i])) == {}
    {
      var entry := VariantEntry(variants[i]).members;
      assert "$ref" !in entry;
      assert forall k :: k in entry ==> entry[k].Str? || entry[k].Num?;
    }
    assert Refs(m["oneOf"]) == {};
  }
}
