// The request and response schemas of an API document mean the fields they were made of: its
// references lead to the shared schemas, and its values are those that fit the field list
// (src/model/api_document.rs, read by the rules of JSON Schema 2020-12).
module SharedMeaning {
  import opened Wrappers
  import opened Json
  import opened Types
  import opened Endpoints
  import opened JsonSchema
  import opened SchemaClosure
  import opened SchemaMeaning
  import opened Validation
  import opened ApiDocument
  import opened SharedComponents

  // A document that holds these schemas where the references of the others look for them.
  ghost predicate Publishes(document: Value, schemas: Defs) {
    && document.Obj?
    && "$defs" !in document.members
    && "components" in document.members
    && document.members["components"].Obj?
    && "schemas" in document.members["components"].members
    && document.members["components"].members["schemas"] == Obj(schemas)
  }

  // A published schema with a plain name is where its reference points.
  lemma PublishedResolves(document: Value, schemas: Defs, name: string)
    requires Publishes(document, schemas) && name in schemas && Plain(name)
    ensures Resolve(document, COMPONENTS_SCHEMAS_PREFIX + name) == Some(schemas[name])
  {
    ComponentTokens(name);
    hide Tokens, Plain;
    var components := document.members["components"];
    assert Follow(document, ["components", "schemas", name]) == Follow(components, ["schemas", name]) by {
      assert ["components", "schemas", name][1..] == ["schemas", name];
    }
    FollowSchemas(components, schemas, name);
    hide Follow;
  }

  lemma ComponentTokens(name: string)
    requires Plain(name)
    ensures "#/" <= COMPONENTS_SCHEMAS_PREFIX + name
    ensures Tokens((COMPONENTS_SCHEMAS_PREFIX + name)[2..]) == ["components", "schemas", name]
    ensures '~' !in name && '%' !in name
  {
    hide Tokens;
    AfterHash(name);
    assert '/' !in name;
    TokensJoin("components", "schemas" + "/" + name);
    TokensJoin("schemas", name);
    TokensJoin(name, "");
  }

  lemma AfterHash(name: string)
    ensures "#/" <= COMPONENTS_SCHEMAS_PREFIX + name
    ensures (COMPONENTS_SCHEMAS_PREFIX + name)[2..] == "components" + "/" + ("schemas" + "/" + name)
  {
    assert COMPONENTS_SCHEMAS_PREFIX == "#/" + ("components" + "/" + ("schemas" + "/"));
  }

  lemma FollowSchemas(components: Value, schemas: Defs, name: string)
    requires components.Obj? && "schemas" in components.members && components.members["schemas"] == Obj(schemas)
    requires name in schemas && '~' !in name && '%' !in name
    ensures Follow(components, ["schemas", name]) == Some(schemas[name])
  {
    assert ["schemas", name][1..] == [name] && [name][1..] == [];
    assert Follow(Obj(schemas), [name]) == Some(schemas[name]);
  }

  // Every reference below `v` points to a published schema.
  ghost predicate PointsHome(document: Value, schemas: Defs, v: Value) {
    forall r :: r in Refs(v) ==> Resolve(document, r).Some? && Resolve(document, r).value in schemas.Values
  }

  lemma ResolvedPointsHome(document: Value, schemas: Defs, v: Value)
    requires Publishes(document, schemas) && AllResolved(schemas, v) && forall n :: n in schemas ==> Plain(n)
    ensures PointsHome(document, schemas, v)
  {
    forall r | r in Refs(v)
      ensures Resolve(document, r).Some? && Resolve(document, r).value in schemas.Values
    {
      assert Resolved(schemas, r);
      var n :| n in schemas && r == COMPONENTS_SCHEMAS_PREFIX + n;
      PublishedResolves(document, schemas, n);
    }
    hide Resolve, Refs;
  }

  // No dangling reference in the document, read as JSON pointers, when the names are plain: not in
  // the schemas of a collected endpoint, and not in the shared ones.
  lemma DocumentPointsHome(cs: Casing, reg: Registry, endpoints: seq<EndpointSchema>, e: EndpointSchema, fields: seq<Field>, document: Value)
    requires reg.Valid() && e in endpoints && (fields == e.parameters || fields == e.results)
    requires Components(cs, reg, endpoints).Ok? && FieldsSchema(cs, reg, fields).Ok?
    requires Publishes(document, Components(cs, reg, endpoints).value)
    requires forall n :: n in Components(cs, reg, endpoints).value ==> Plain(n)
    ensures PointsHome(document, Components(cs, reg, endpoints).value, FieldsSchema(cs, reg, fields).value)
    ensures forall n :: n in Components(cs, reg, endpoints).value ==>
      PointsHome(document, Components(cs, reg, endpoints).value, Components(cs, reg, endpoints).value[n])
  {
    var schemas := Components(cs, reg, endpoints).value;
    DocumentResolves(cs, reg, endpoints, e, fields);
    hide Components, FieldsSchema, PointsHome, Roots;
    ResolvedPointsHome(document, schemas, FieldsSchema(cs, reg, fields).value);
    forall n | n in schemas
      ensures PointsHome(document, schemas, schemas[n])
    {
      SharedSchemasResolve(cs, reg, endpoints, n);
      ResolvedPointsHome(document, schemas, schemas[n]);
    }
  }

  // Schemas that relocation does not hurt: constants are numbers, and references go to `names`.
  ghost predicate Neat(s: Value, names: set<string>)
    decreases s
  {
    s.Obj? ==>
      var m := s.members;
      && ("const" in m ==> m["const"].Num?)
      && ("$ref" in m && m["$ref"].Str? ==> exists n :: n in names && m["$ref"].s == DEFS_PREFIX + n)
      && ("anyOf" in m && m["anyOf"].Arr? ==> forall i :: 0 <= i < |m["anyOf"].items| ==> Neat(m["anyOf"].items[i], names))
      && ("oneOf" in m && m["oneOf"].Arr? ==> forall i :: 0 <= i < |m["oneOf"].items| ==> Neat(m["oneOf"].items[i], names))
      && ("items" in m ==> Neat(m["items"], names))
      && ("properties" in m && m["properties"].Obj? ==>
            forall k :: k in m["properties"].members ==> Neat(m["properties"].members[k], names))
      && ("additionalProperties" in m ==> Neat(m["additionalProperties"], names))
  }

  // `document` has relocated what `local` has under `$defs`.
  ghost predicate Moved(local: Value, document: Value, defs: Defs) {
    && HopLimit(local) == HopLimit(document)
    && forall n :: n in defs ==>
         && Resolve(local, DEFS_PREFIX + n) == Some(defs[n])
         && Resolve(document, COMPONENTS_SCHEMAS_PREFIX + n) == Some(Relocate(defs[n], COMPONENTS_SCHEMAS_PREFIX))
         && Neat(defs[n], defs.Keys)
  }

  function Move(v: Value): Value {
    Relocate(v, COMPONENTS_SCHEMAS_PREFIX)
  }

  lemma MovedMember(m: map<string, Value>, k: string)
    requires k in m
    ensures k in Move(Obj(m)).members
    ensures !(k == "$ref" && m[k].Str?) ==> Move(Obj(m)).members[k] == Move(m[k])
    ensures k == "$ref" && m[k].Str? ==> Move(Obj(m)).members[k] == Str(RelocateTarget(m[k].s, COMPONENTS_SCHEMAS_PREFIX))
  {
  }

  lemma MovedShape(v: Value)
    ensures v.Obj? <==> Move(v).Obj?
    ensures v.Obj? ==> Move(v).members.Keys == v.members.Keys
    ensures v.Arr? <==> Move(v).Arr?
    ensures v.Arr? ==> |Move(v).items| == |v.items| && forall i :: 0 <= i < |v.items| ==> Move(v).items[i] == Move(v.items[i])
    ensures !v.Obj? && !v.Arr? ==> Move(v) == v
  {
  }

  // The keywords that look at the instance alone say the same.
  lemma AssertionsMoved(st: Strings, m: map<string, Value>, v: Value)
    requires "const" in m ==> m["const"].Num?
    ensures AssertionsHold(st, Move(Obj(m)).members, v) <==> AssertionsHold(st, m, v)
  {
    hide AssertionsHold, Move, HasType, RequiredHolds;
    MovedShape(Obj(m));
    var m' := Move(Obj(m)).members;
    forall k | k in m && k != "$ref"
      ensures m'[k] == Move(m[k]) && Alike(m[k], m'[k])
    {
      MovedMember(m, k);
      MovedShape(m[k]);
    }
    if "type" in m {
      TypeMoved(m["type"], v);
    }
    if "required" in m {
      RequiredMoved(m["required"], v);
    }
    AssertionsAlike(st, m, m', v);
  }

  // The same number or string, or neither of them one.
  predicate Alike(x: Value, y: Value) {
    x == y || (!x.Num? && !x.Str? && !y.Num? && !y.Str?)
  }

  lemma AssertionsAlike(st: Strings, m: map<string, Value>, m': map<string, Value>, v: Value)
    requires m.Keys == m'.Keys && ("const" in m ==> m["const"].Num?)
    requires forall k :: k in m && k != "$ref" ==> Alike(m[k], m'[k])
    requires "type" in m ==> (HasType(m'["type"], v) <==> HasType(m["type"], v))
    requires "required" in m ==> (RequiredHolds(m'["required"], v) <==> RequiredHolds(m["required"], v))
    ensures AssertionsHold(st, m', v) <==> AssertionsHold(st, m, v)
  {
    hide HasType;
    assert forall k :: k in m <==> k in m';
  }

  lemma TypeMoved(t: Value, v: Value)
    ensures HasType(Move(t), v) <==> HasType(t, v)
  {
    MovedShape(t);
    if t.Arr? {
      forall i | 0 <= i < |t.items|
        ensures Move(t.items[i]).Str? <==> t.items[i].Str?
        ensures t.items[i].Str? ==> Move(t.items[i]) == t.items[i]
      {
        MovedShape(t.items[i]);
      }
    }
    hide Move;
  }

  ghost predicate RequiredHolds(required: Value, v: Value) {
    required.Arr? && (v.Obj? ==>
      forall i :: 0 <= i < |required.items| ==> required.items[i].Str? && required.items[i].s in v.members)
  }

  lemma RequiredMoved(required: Value, v: Value)
    ensures RequiredHolds(Move(required), v) <==> RequiredHolds(required, v)
  {
    MovedShape(required);
    if required.Arr? {
      forall i | 0 <= i < |required.items|
        ensures Move(required.items[i]).Str? <==> required.items[i].Str?
        ensures required.items[i].Str? ==> Move(required.items[i]) == required.items[i]
      {
        MovedShape(required.items[i]);
      }
    }
    hide Move;
  }

  // A schema and its relocation validate the same instances, each in its own document.
  lemma {:induction false} MovedValidates(st: Strings, local: Value, document: Value, defs: Defs, s: Value, v: Value, hops: nat)
    requires Moved(local, document, defs) && Neat(s, defs.Keys)
    ensures Validates(st, document, Move(s), v, hops) <==> Validates(st, local, s, v, hops)
    decreases v, 1, hops, s, 2
  {
    hide Validates, Move, HopLimit, Moved, AssertionsHold, RefHolds, AnyHolds, OneHolds, ItemsHold, PropertiesHold, ExtrasHold;
    MovedShape(s);
    if s.Obj? {
      var m, m' := s.members, Move(s).members;
      AssertionsMoved(st, m, v);
      forall k | k in m && k != "$ref"
        ensures m'[k] == Move(m[k])
      {
        MovedMember(m, k);
      }
      if "$ref" in m {
        RefMoved(st, local, document, defs, m, v, hops);
      }
      if "anyOf" in m {
        AnyMoved(st, local, document, defs, m["anyOf"], v, hops);
      }
      if "oneOf" in m {
        OneMoved(st, local, document, defs, m["oneOf"], v, hops);
      }
      if "items" in m {
        ItemsMoved(st, local, document, defs, m["items"], v);
      }
      if "properties" in m {
        PropertiesMoved(st, local, document, defs, m["properties"], v);
      }
      if "additionalProperties" in m {
        ExtrasMoved(st, local, document, defs, if "properties" in m then m["properties"] else Null, m["additionalProperties"], v);
      }
      MovedShape(Null);
      Keywordwise(st, local, document, m, m', v, hops);
    } else {
      assert Validates(st, document, Move(s), v, hops) <==> Validates(st, local, s, v, hops) by {
        ShapesValidate(st, local, document, s, v, hops);
      }
    }
  }

  lemma ShapesValidate(st: Strings, local: Value, document: Value, s: Value, v: Value, hops: nat)
    requires !s.Obj?
    ensures Validates(st, document, Move(s), v, hops) <==> Validates(st, local, s, v, hops)
  {
    MovedShape(s);
    hide Move;
  }

  // Keyword by keyword the same is the same.
  lemma Keywordwise(st: Strings, local: Value, document: Value, m: map<string, Value>, m': map<string, Value>, v: Value, hops: nat)
    requires m.Keys == m'.Keys
    requires AssertionsHold(st, m', v) <==> AssertionsHold(st, m, v)
    requires "$ref" in m ==> (RefHolds(st, document, m'["$ref"], v, hops) <==> RefHolds(st, local, m["$ref"], v, hops))
    requires "anyOf" in m ==> (AnyHolds(st, document, m'["anyOf"], v, hops) <==> AnyHolds(st, local, m["anyOf"], v, hops))
    requires "oneOf" in m ==> (OneHolds(st, document, m'["oneOf"], v, hops) <==> OneHolds(st, local, m["oneOf"], v, hops))
    requires "items" in m ==> (ItemsHold(st, document, m'["items"], v) <==> ItemsHold(st, local, m["items"], v))
    requires "properties" in m ==> (PropertiesHold(st, document, m'["properties"], v) <==> PropertiesHold(st, local, m["properties"], v))
    requires "additionalProperties" in m ==>
      (ExtrasHold(st, document, if "properties" in m' then m'["properties"] else Null, m'["additionalProperties"], v)
       <==> ExtrasHold(st, local, if "properties" in m then m["properties"] else Null, m["additionalProperties"], v))
    ensures Validates(st, document, Obj(m'), v, hops) <==> Validates(st, local, Obj(m), v, hops)
  {
    hide AssertionsHold, RefHolds, AnyHolds, OneHolds, ItemsHold, PropertiesHold, ExtrasHold, HopLimit;
    assert forall k :: k in m <==> k in m';
  }

  lemma {:induction false} RefMoved(st: Strings, local: Value, document: Value, defs: Defs, m: map<string, Value>, v: Value, hops: nat)
    requires Moved(local, document, defs) && "$ref" in m && Neat(Obj(m), defs.Keys)
    ensures "$ref" in Move(Obj(m)).members
    ensures RefHolds(st, document, Move(Obj(m)).members["$ref"], v, hops) <==> RefHolds(st, local, m["$ref"], v, hops)
    decreases v, 1, hops, m["$ref"], 1
  {
    hide Validates, Resolve, HopLimit, Move, Moved, Neat;
    MovedMember(m, "$ref");
    MovedShape(m["$ref"]);
    if m["$ref"].Str? {
      var n := NeatTarget(m, defs.Keys);
      MovedAt(local, document, defs, n);
      if hops > 0 {
        MovedValidates(st, local, document, defs, defs[n], v, hops - 1);
      }
    }
  }

  lemma NeatTarget(m: map<string, Value>, names: set<string>) returns (n: string)
    requires "$ref" in m && m["$ref"].Str? && Neat(Obj(m), names)
    ensures n in names && m["$ref"].s == DEFS_PREFIX + n
    ensures RelocateTarget(m["$ref"].s, COMPONENTS_SCHEMAS_PREFIX) == COMPONENTS_SCHEMAS_PREFIX + n
  {
    n :| n in names && m["$ref"].s == DEFS_PREFIX + n;
    assert (DEFS_PREFIX + n)[|DEFS_PREFIX|..] == n;
  }

  lemma MovedAt(local: Value, document: Value, defs: Defs, n: string)
    requires Moved(local, document, defs) && n in defs
    ensures Resolve(local, DEFS_PREFIX + n) == Some(defs[n])
    ensures Resolve(document, COMPONENTS_SCHEMAS_PREFIX + n) == Some(Move(defs[n]))
    ensures Neat(defs[n], defs.Keys)
  {
    hide Neat, Resolve, HopLimit, Relocate;
  }

  lemma {:induction false} AnyMoved(st: Strings, local: Value, document: Value, defs: Defs, branches: Value, v: Value, hops: nat)
    requires Moved(local, document, defs)
    requires branches.Arr? ==> forall i :: 0 <= i < |branches.items| ==> Neat(branches.items[i], defs.Keys)
    ensures AnyHolds(st, document, Move(branches), v, hops) <==> AnyHolds(st, local, branches, v, hops)
    decreases v, 1, hops, branches, 1
  {
    hide Validates, HopLimit, Neat, Moved;
    MovedShape(branches);
    if branches.Arr? {
      forall i | 0 <= i < |branches.items|
        ensures Validates(st, document, Move(branches).items[i], v, hops) <==> Validates(st, local, branches.items[i], v, hops)
      {
        MovedValidates(st, local, document, defs, branches.items[i], v, hops);
      }
    }
    hide Move;
  }

  lemma {:induction false} OneMoved(st: Strings, local: Value, document: Value, defs: Defs, branches: Value, v: Value, hops: nat)
    requires Moved(local, document, defs)
    requires branches.Arr? ==> forall i :: 0 <= i < |branches.items| ==> Neat(branches.items[i], defs.Keys)
    ensures OneHolds(st, document, Move(branches), v, hops) <==> OneHolds(st, local, branches, v, hops)
    decreases v, 1, hops, branches, 1
  {
    hide Validates, HopLimit, Neat, Moved;
    MovedShape(branches);
    if branches.Arr? {
      forall i | 0 <= i < |branches.items|
        ensures Validates(st, document, Move(branches).items[i], v, hops) <==> Validates(st, local, branches.items[i], v, hops)
      {
        MovedValidates(st, local, document, defs, branches.items[i], v, hops);
      }
      hide Move;
      forall i: nat
        ensures HoldsOnlyAt(st, document, Move(branches), v, hops, i) <==> HoldsOnlyAt(st, local, branches, v, hops, i)
      {
        OnlyAtSame(st, local, document, branches, Move(branches), v, hops, i);
      }
    }
    hide Move, HoldsOnlyAt;
  }

  lemma OnlyAtSame(st: Strings, local: Value, document: Value, branches: Value, branches': Value, v: Value, hops: nat, i: nat)
    requires branches.Arr? && branches'.Arr? && |branches.items| == |branches'.items|
    requires forall j :: 0 <= j < |branches.items| ==>
      (Validates(st, document, branches'.items[j], v, hops) <==> Validates(st, local, branches.items[j], v, hops))
    ensures HoldsOnlyAt(st, document, branches', v, hops, i) <==> HoldsOnlyAt(st, local, branches, v, hops, i)
  {
    hide Validates;
  }

  lemma {:induction false} ItemsMoved(st: Strings, local: Value, document: Value, defs: Defs, items: Value, v: Value)
    requires Moved(local, document, defs) && Neat(items, defs.Keys)
    ensures ItemsHold(st, document, Move(items), v) <==> ItemsHold(st, local, items, v)
    decreases v, 0
  {
    hide Validates, HopLimit, Neat, Move;
    if v.Arr? {
      forall i | 0 <= i < |v.items|
        ensures Validates(st, document, Move(items), v.items[i], HopLimit(document)) <==> Validates(st, local, items, v.items[i], HopLimit(local))
      {
        MovedValidates(st, local, document, defs, items, v.items[i], HopLimit(local));
      }
    }
  }

  lemma {:induction false} PropertiesMoved(st: Strings, local: Value, document: Value, defs: Defs, props: Value, v: Value)
    requires Moved(local, document, defs)
    requires props.Obj? ==> forall k :: k in props.members ==> Neat(props.members[k], defs.Keys)
    ensures PropertiesHold(st, document, Move(props), v) <==> PropertiesHold(st, local, props, v)
    decreases v, 0
  {
    hide Validates, HopLimit, Neat;
    MovedShape(props);
    if props.Obj? && v.Obj? {
      forall k | k in props.members && k in v.members
        ensures k in Move(props).members
        ensures Validates(st, document, Move(props).members[k], v.members[k], HopLimit(document))
           <==> Validates(st, local, props.members[k], v.members[k], HopLimit(local))
      {
        MovedMember(props.members, k);
        if k == "$ref" && props.members[k].Str? {
          StringsValidateNothing(st, local, document, props.members[k], Move(props).members[k], v.members[k], HopLimit(local));
        } else {
          MovedValidates(st, local, document, defs, props.members[k], v.members[k], HopLimit(local));
        }
      }
    }
    hide Move;
  }

  lemma StringsValidateNothing(st: Strings, local: Value, document: Value, s: Value, s': Value, v: Value, hops: nat)
    requires s.Str? && s'.Str?
    ensures !Validates(st, local, s, v, hops) && !Validates(st, document, s', v, hops)
  {
  }

  lemma {:induction false} ExtrasMoved(st: Strings, local: Value, document: Value, defs: Defs, props: Value, extras: Value, v: Value)
    requires Moved(local, document, defs) && Neat(extras, defs.Keys)
    ensures ExtrasHold(st, document, Move(props), Move(extras), v) <==> ExtrasHold(st, local, props, extras, v)
    decreases v, 0
  {
    hide Validates, HopLimit, Neat;
    MovedShape(props);
    if v.Obj? {
      forall k | k in v.members
        ensures Validates(st, document, Move(extras), v.members[k], HopLimit(document))
           <==> Validates(st, local, extras, v.members[k], HopLimit(local))
      {
        MovedValidates(st, local, document, defs, extras, v.members[k], HopLimit(local));
      }
    }
    hide Move;
  }

  // What the conversion makes is neat.

  lemma ScalarNeat(ty: Type, names: set<string>)
    requires IsScalar(ty)
    ensures Neat(ScalarSchema(ty), names)
  {
    ScalarKeywords(ty);
    var m := ScalarSchema(ty).members;
    assert "const" !in m && "properties" !in m && "additionalProperties" !in m;
  }

  lemma {:induction false} FragmentNeat(cs: Casing, reg: Registry, ty: Type, names: set<string>)
    requires reg.Valid() && Resolves(reg, ty) && Names(Mentions(cs, reg, ty)) <= names
    ensures Neat(Fragment(cs, reg, ty), names)
    decreases HeadWeight(ty)
  {
    hide Neat, ScalarSchema;
    if ty.Vec? {
      FragmentNeat(cs, reg, ty.inner, names);
      ArrayNeat(Fragment(cs, reg, ty.inner), names);
    } else if ty.Optional? {
      FragmentNeat(cs, reg, ty.inner, names);
      NullableNeat(Fragment(cs, reg, ty.inner), names);
    } else if ty.StructRef? {
      FragmentNeat(cs, reg, reg.structs[ty.name], names);
    } else if ty.StructTable? {
      FragmentNeat(cs, reg, reg.structs[ty.structRef], names);
      ArrayNeat(Fragment(cs, reg, reg.structs[ty.structRef]), names);
    } else if ty.Struct? {
      MentionNeat(Mentions(cs, reg, ty), StructDef(StructDefName(cs, ty.name), ty.fields), names);
    } else if ty.Enum? {
      MentionNeat(Mentions(cs, reg, ty), EnumDef(EnumDefName(cs, ty.name, false), ty.variants), names);
    } else if ty.EnumRef? {
      MentionNeat(Mentions(cs, reg, ty), EnumDef(EnumDefName(cs, ty.name, ty.prefixedName), reg.enums[ty.name].variants), names);
    } else {
      ScalarNeat(ty, names);
    }
  }

  lemma MentionNeat(mentions: set<Def>, d: Def, names: set<string>)
    requires d in mentions && Names(mentions) <= names
    ensures Neat(RefTo(d.name), names)
  {
    assert d.name in Names(mentions);
  }

  lemma ArrayNeat(items: Value, names: set<string>)
    requires Neat(items, names)
    ensures Neat(ArrayOf(items), names)
  {
    var m := ArrayOf(items).members;
    assert m["items"] == items;
  }

  lemma NullableNeat(inner: Value, names: set<string>)
    requires Neat(inner, names)
    ensures Neat(Nullable(inner), names)
  {
    var nullSchema := Obj(map["type" := Str("null")]);
    var m := Nullable(inner).members;
    assert m["anyOf"].items == [inner, nullSchema];
    assert Neat(nullSchema, names);
  }

  lemma DescribeNeat(description: string, fragment: Value, names: set<string>)
    requires Neat(fragment, names)
    ensures Neat(Describe(description, fragment), names)
  {
  }

  lemma ObjectNeat(props: map<string, Value>, required: seq<Value>, names: set<string>)
    requires forall k :: k in props ==> Neat(props[k], names)
    ensures Neat(ObjectOf(props, required), names)
  {
    var m := ObjectOf(props, required).members;
    assert m["properties"] == Obj(props) && m["additionalProperties"] == Bool(false);
  }

  lemma RootNeat(cs: Casing, reg: Registry, fields: seq<Field>, names: set<string>)
    requires reg.Valid() && FieldsResolve(reg, fields) && Names(FieldMentions(cs, reg, fields)) <= names
    ensures Neat(RootSchema(cs, reg, fields), names)
  {
    var fragments := Fragments(cs, reg, fields);
    var props := Properties(cs, fields, fragments);
    hide Neat;
    forall k | k in props
      ensures Neat(props[k], names)
    {
      PropertyRefs(cs, fields, fragments, k);
      var i :| 0 <= i < |fields| && props[k] == Describe(fields[i].description, fragments[i]);
      forall n | n in Names(Mentions(cs, reg, FieldType(fields[i])))
        ensures n in names
      {
        var d :| d in Mentions(cs, reg, FieldType(fields[i])) && d.name == n;
        assert fields[i] in fields && d in FieldMentions(cs, reg, fields);
        assert d.name in Names(FieldMentions(cs, reg, fields));
      }
      FragmentNeat(cs, reg, FieldType(fields[i]), names);
      DescribeNeat(fields[i].description, fragments[i], names);
    }
    ObjectNeat(props, RequiredKeys(cs, fields), names);
  }

  lemma EnumNeat(name: string, variants: seq<EnumVariant>, names: set<string>)
    ensures Neat(EnumToSchema(name, variants), names)
  {
    var m := EnumToSchema(name, variants).members;
    forall i | 0 <= i < |variants|
      ensures Neat(m["oneOf"].items[i], names)
    {
      var entry := VariantEntry(variants[i]).members;
      assert entry["const"] == Int(variants[i].value);
      assert "$ref" !in entry && "anyOf" !in entry && "oneOf" !in entry && "items" !in entry;
    }
  }

  // The definitions of a whole document, as if they were the `$defs` of one schema.
  ghost function Local(defs: Defs): Value {
    AttachDefs(Obj(map[]), defs)
  }

  lemma DocumentMoved(cs: Casing, reg: Registry, endpoints: seq<EndpointSchema>, document: Value)
    requires reg.Valid() && Components(cs, reg, endpoints).Ok?
    requires InjectiveNames(cs, reg, Roots(cs, reg, endpoints))
    requires forall d :: Reachable(cs, reg, Roots(cs, reg, endpoints), d) ==> WellFormed(cs, d)
    requires Publishes(document, Components(cs, reg, endpoints).value)
    ensures var defs := WalkFields(cs, reg, AllFields(endpoints), map[]).defs;
      && Moved(Local(defs), document, defs)
      && Supplies(cs, reg, Roots(cs, reg, endpoints), Local(defs))
      && Names(Roots(cs, reg, endpoints)) <= defs.Keys
  {
    var roots := Roots(cs, reg, endpoints);
    var all := AllFields(endpoints);
    var defs := WalkFields(cs, reg, all, map[]).defs;
    WalkCloses(cs, reg, all);
    WalkCollectsReachable(cs, reg, all);
    LocalLimit(defs, document);
    hide WalkFields, Reachable, HopLimit, AllFields, Publishes, Local, Resolve;
    forall n | n in defs
      ensures Resolve(Local(defs), DEFS_PREFIX + n) == Some(defs[n])
      ensures Resolve(document, COMPONENTS_SCHEMAS_PREFIX + n) == Some(Relocate(defs[n], COMPONENTS_SCHEMAS_PREFIX))
      ensures Neat(defs[n], defs.Keys)
    {
      EntryMoved(cs, reg, roots, defs, document, n);
    }
    forall d | Reachable(cs, reg, roots, d)
      ensures WellFormed(cs, d) && DefResolves(reg, d) && Resolve(Local(defs), DEFS_PREFIX + d.name) == Some(DefSchema(cs, reg, d))
    {
      assert d.name in defs;
    }
  }

  lemma LocalLimit(defs: Defs, document: Value)
    requires Publishes(document, RelocateDefs(defs))
    ensures HopLimit(Local(defs)) == HopLimit(document)
  {
    assert RelocateDefs(defs).Keys == defs.Keys;
    assert |RelocateDefs(defs).Keys| == |RelocateDefs(defs)| && |defs.Keys| == |defs|;
  }

  lemma EntryMoved(cs: Casing, reg: Registry, roots: set<Def>, defs: Defs, document: Value, n: string)
    requires reg.Valid() && n in defs && Settled(cs, reg, roots, defs, n)
    requires forall d :: Reachable(cs, reg, roots, d) ==> WellFormed(cs, d)
    requires Publishes(document, RelocateDefs(defs))
    ensures Resolve(Local(defs), DEFS_PREFIX + n) == Some(defs[n])
    ensures Resolve(document, COMPONENTS_SCHEMAS_PREFIX + n) == Some(Relocate(defs[n], COMPONENTS_SCHEMAS_PREFIX))
    ensures Neat(defs[n], defs.Keys)
  {
    hide Reachable, Resolve, Neat, Relocate, DefSchema;
    var d :| SettledAs(cs, reg, roots, defs, n, d);
    assert Plain(n);
    AttachedResolves(Obj(map[]), defs, n);
    PublishedResolves(document, RelocateDefs(defs), n);
    DefNeat(cs, reg, d, defs.Keys);
  }

  lemma DefNeat(cs: Casing, reg: Registry, d: Def, names: set<string>)
    requires reg.Valid() && DefResolves(reg, d) && Names(Children(cs, reg, d)) <= names
    ensures Neat(DefSchema(cs, reg, d), names)
  {
    hide Neat;
    if d.StructDef? {
      RootNeat(cs, reg, d.fields, names);
    } else {
      EnumNeat(d.name, d.variants, names);
    }
  }

  // A request or response schema, in the document that publishes the shared schemas, accepts a
  // value if and only if the value fits the fields of the endpoint.
  lemma SharedSchemaMeaning(cs: Casing, st: Strings, reg: Registry, endpoints: seq<EndpointSchema>, e: EndpointSchema,
                            fields: seq<Field>, document: Value, v: Value)
    requires reg.Valid() && e in endpoints && (fields == e.parameters || fields == e.results)
    requires InjectiveNames(cs, reg, Roots(cs, reg, endpoints)) && Components(cs, reg, endpoints).Ok?
    requires forall d :: Reachable(cs, reg, Roots(cs, reg, endpoints), d) ==> WellFormed(cs, d)
    requires DistinctKeys(cs, fields)
    requires Publishes(document, Components(cs, reg, endpoints).value)
    ensures FieldsSchema(cs, reg, fields).Ok?
    ensures Validates(st, document, FieldsSchema(cs, reg, fields).value, v, HopLimit(document)) <==> FitsFields(cs, st, reg, fields, v)
  {
    var roots := Roots(cs, reg, endpoints);
    var defs := WalkFields(cs, reg, AllFields(endpoints), map[]).defs;
    WithinRoots(cs, reg, endpoints, e, fields);
    WalkCloses(cs, reg, fields);
    DocumentMoved(cs, reg, endpoints, document);
    hide Validates, FitsFields, Reachable, WalkFields, Moved, Supplies, Publishes, HopLimit, Neat, Local;
    var root := RootSchema(cs, reg, fields);
    assert FieldsSchema(cs, reg, fields) == Ok(Move(root));
    assert Names(FieldMentions(cs, reg, fields)) <= defs.Keys;
    RootNeat(cs, reg, fields, defs.Keys);
    MovedValidates(st, Local(defs), document, defs, root, v, HopLimit(document));
    forall d | d in FieldMentions(cs, reg, fields)
      ensures Reachable(cs, reg, roots, d)
    {
      RootReachable(cs, reg, roots, d);
    }
    RootMeaning(cs, st, reg, roots, Local(defs), fields, v, HopLimit(document));
  }
}
