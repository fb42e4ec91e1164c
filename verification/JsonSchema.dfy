// Conversion of the type model to JSON Schema (src/model/json_schema.rs).
module JsonSchema {
  import opened Wrappers
  import opened Json
  import opened Types

  // The `to_case` conversions of the convert_case crate, as arbitrary functions.
  datatype Casing = Casing(pascal: string -> string, camel: string -> string, snake: string -> string)

  datatype Error =
    | UnresolvedStructRef(name: string)
    | UnresolvedStructTable(name: string)
    | UnresolvedEnumRef(name: string)

  type Defs = map<string, Value>

  // What one call leaves behind: its result, and the definitions as it left them.
  datatype Conversion = Conversion(result: Result<Value, Error>, defs: Defs)

  datatype Walk = Walk(result: Result<seq<Value>, Error>, defs: Defs)

  const DEFS_PREFIX := "#/$defs/"

  function StructDefName(cs: Casing, name: string): string {
    cs.pascal(name)
  }

  function EnumDefName(cs: Casing, name: string, prefixed: bool): string {
    if prefixed then "Enum" + cs.pascal(name) else cs.pascal(name)
  }

  function RefTo(defName: string): Value {
    Obj(map["$ref" := Str(DEFS_PREFIX + defName)])
  }

  function ArrayOf(items: Value): Value {
    Obj(map["type" := Str("array"), "items" := items])
  }

  function Nullable(inner: Value): Value {
    Obj(map["anyOf" := Arr([inner, Obj(map["type" := Str("null")])])])
  }

  function VariantEntry(v: EnumVariant): Value {
    var entry := map["const" := Int(v.value), "title" := Str(v.name)];
    Obj(if v.description != "" then entry["description" := Str(v.description)] else entry)
  }

  function EnumToSchema(defName: string, variants: seq<EnumVariant>): Value {
    Obj(map["type" := Str("integer"), "title" := Str(defName),
            "oneOf" := Arr(seq(|variants|, i requires 0 <= i < |variants| => VariantEntry(variants[i])))])
  }

  // Types whose schema mentions no definition.
  predicate IsScalar(ty: Type) {
    !ty.Vec? && !ty.Optional? && !ty.Struct? && !ty.StructRef? && !ty.StructTable? && !ty.Enum? && !ty.EnumRef?
  }

  function ScalarSchema(ty: Type): Value
    requires IsScalar(ty)
  {
    match ty
    case UInt32 => Obj(map["type" := Str("integer"), "minimum" := Int(0), "maximum" := Int(0xFFFF_FFFF)])
    case Int32 => Obj(map["type" := Str("integer"), "minimum" := Int(-0x8000_0000), "maximum" := Int(0x7FFF_FFFF)])
    case Int64 => Obj(map["type" := Str("integer")])
    case TimeStampMs => Obj(map["type" := Str("integer"), "description" := Str("Unix timestamp in milliseconds")])
    case Float64 => Obj(map["type" := Str("number")])
    case Boolean => Obj(map["type" := Str("boolean")])
    case String => Obj(map["type" := Str("string")])
    case Bytea => Obj(map["type" := Str("string"), "contentEncoding" := Str("base64")])
    case UUID => Obj(map["type" := Str("string"), "format" := Str("uuid")])
    case NanoId(len) => Obj(map["type" := Str("string"), "minLength" := Int(len), "maxLength" := Int(len),
                                "pattern" := Str("^[0-9A-Za-z]+$")])
    case IpAddr => Obj(map["type" := Str("string"), "description" := Str("IPv4 or IPv6 address")])
    case Object => Obj(map["type" := Str("object")])
    case Unit => Obj(map["type" := Str("null")])
    case BlockchainDecimal => Obj(map["type" := Str("string"), "description" := Str("Decimal number as string")])
    case BlockchainAddress => Obj(map["type" := Str("string"), "pattern" := Str("^0x[0-9a-fA-F]{40}$")])
    case BlockchainTransactionHash => Obj(map["type" := Str("string"), "pattern" := Str("^0x[0-9a-fA-F]{64}$")])
  }

  // A field of an Optional type has the schema of what is inside; that it may be missing is said by
  // leaving it out of `required`.
  function FieldType(f: Field): Type {
    if f.ty.Optional? then f.ty.inner else f.ty
  }

  // The field's description, unless the fragment already has one.
  function Describe(description: string, fragment: Value): Value {
    if description != "" && fragment.Obj? && "description" !in fragment.members
    then Obj(fragment.members["description" := Str(description)])
    else fragment
  }

  function Properties(cs: Casing, fields: seq<Field>, fragments: seq<Value>): map<string, Value>
    requires |fields| == |fragments|
  {
    if fields == [] then map[]
    else
      var n := |fields| - 1;
      Properties(cs, fields[..n], fragments[..n])[cs.camel(fields[n].name) := Describe(fields[n].description, fragments[n])]
  }

  function RequiredKeys(cs: Casing, fields: seq<Field>): seq<Value> {
    if fields == [] then []
    else
      var n := |fields| - 1;
      RequiredKeys(cs, fields[..n]) + if fields[n].ty.Optional? then [] else [Str(cs.camel(fields[n].name))]
  }

  function ObjectOf(properties: map<string, Value>, required: seq<Value>): Value {
    Obj(map["type" := Str("object"), "properties" := Obj(properties),
            "required" := Arr(required), "additionalProperties" := Bool(false)])
  }

  function ObjectSchema(cs: Casing, fields: seq<Field>, fragments: seq<Value>): Value
    requires |fields| == |fragments|
  {
    ObjectOf(Properties(cs, fields, fragments), RequiredKeys(cs, fields))
  }

  // The termination measure: struct definition names that are not yet in `defs`, then
  // the weight of the head of the type.

  ghost function StructNames(cs: Casing, ty: Type): set<string>
    decreases ty
  {
    match ty
    case Struct(name, fields) => {StructDefName(cs, name)} + FieldStructNames(cs, fields)
    case Vec(inner) => StructNames(cs, inner)
    case Optional(inner) => StructNames(cs, inner)
    case _ => {}
  }

  ghost function FieldStructNames(cs: Casing, fields: seq<Field>): set<string>
    decreases fields
  {
    if fields == [] then {} else StructNames(cs, fields[0].ty) + FieldStructNames(cs, fields[1..])
  }

  ghost function RegistryStructNames(cs: Casing, reg: Registry): set<string> {
    set n, d | n in reg.structs && d in StructNames(cs, reg.structs[n]) :: d
  }

  ghost function HeadWeight(ty: Type): nat {
    match ty
    case Struct(_, _) => 1
    case StructRef(_) => 2
    case StructTable(_) => 2
    case Vec(inner) => 1 + HeadWeight(inner)
    case Optional(inner) => 1 + HeadWeight(inner)
    case _ => 0
  }

  ghost function FieldsWeight(fields: seq<Field>): nat {
    if fields == [] then 0 else 1 + HeadWeight(fields[0].ty) + FieldsWeight(fields[1..])
  }

  // `to_json_schema` and the field walk of `fields_to_object_schema`, as functions of the
  // definitions they are given.
  function Convert(cs: Casing, reg: Registry, ty: Type, defs: Defs): (c: Conversion)
    requires reg.Valid()
    ensures defs.Keys <= c.defs.Keys
    decreases RegistryStructNames(cs, reg) + StructNames(cs, ty) - defs.Keys, HeadWeight(ty)
  {
    match ty
    case Vec(inner) =>
      var c := Convert(cs, reg, inner, defs);
      if c.result.Err? then c else Conversion(Ok(ArrayOf(c.result.value)), c.defs)
    case Optional(inner) =>
      var c := Convert(cs, reg, inner, defs);
      if c.result.Err? then c else Conversion(Ok(Nullable(c.result.value)), c.defs)
    case Struct(name, fields) =>
      var defName := StructDefName(cs, name);
      if defName in defs then Conversion(Ok(RefTo(defName)), defs)
      else
        SlotTaken(cs, reg, ty, defs);
        var w := WalkFields(cs, reg, fields, defs[defName := Null]);
        if w.result.Err? then Conversion(Err(w.result.error), w.defs)
        else Conversion(Ok(RefTo(defName)), w.defs[defName := ObjectSchema(cs, fields, w.result.value)])
    case StructRef(name) =>
      if name !in reg.structs then Conversion(Err(UnresolvedStructRef(name)), defs)
      else Convert(cs, reg, reg.structs[name], defs)
    case StructTable(name) =>
      if name !in reg.structs then Conversion(Err(UnresolvedStructTable(name)), defs)
      else
        var c := Convert(cs, reg, reg.structs[name], defs);
        if c.result.Err? then c else Conversion(Ok(ArrayOf(c.result.value)), c.defs)
    case Enum(name, variants) =>
      var defName := EnumDefName(cs, name, false);
      Conversion(Ok(RefTo(defName)),
                 if defName in defs then defs else defs[defName := EnumToSchema(defName, variants)])
    case EnumRef(name, prefixed) =>
      if name !in reg.enums then Conversion(Err(UnresolvedEnumRef(name)), defs)
      else
        var defName := EnumDefName(cs, name, prefixed);
        Conversion(Ok(RefTo(defName)),
                   if defName in defs then defs else defs[defName := EnumToSchema(defName, reg.enums[name].variants)])
    case _ => Conversion(Ok(ScalarSchema(ty)), defs)
  }

  function WalkFields(cs: Casing, reg: Registry, fields: seq<Field>, defs: Defs): (w: Walk)
    requires reg.Valid()
    ensures defs.Keys <= w.defs.Keys
    ensures w.result.Ok? ==> |w.result.value| == |fields|
    decreases RegistryStructNames(cs, reg) + FieldStructNames(cs, fields) - defs.Keys, FieldsWeight(fields)
  {
    if fields == [] then Walk(Ok([]), defs)
    else
      FieldNamesAt(cs, fields, 0);
      var c := Convert(cs, reg, FieldType(fields[0]), defs);
      if c.result.Err? then Walk(Err(c.result.error), c.defs)
      else
        var w := WalkFields(cs, reg, fields[1..], c.defs);
        if w.result.Err? then w else Walk(Ok([c.result.value] + w.result.value), w.defs)
  }

  function ObjectResult(cs: Casing, fields: seq<Field>, w: Walk): Result<Value, Error>
    requires w.result.Ok? ==> |w.result.value| == |fields|
  {
    if w.result.Err? then Err(w.result.error) else Ok(ObjectSchema(cs, fields, w.result.value))
  }

  function AttachDefs(root: Value, defs: Defs): Value {
    if defs != map[] && root.Obj? then Obj(root.members["$defs" := Obj(defs)]) else root
  }

  // `to_mcp_input_schema` over the parameters, `to_mcp_output_schema` over the returns.
  function McpSchema(cs: Casing, reg: Registry, fields: seq<Field>): Result<Value, Error>
    requires reg.Valid()
  {
    var w := WalkFields(cs, reg, fields, map[]);
    match ObjectResult(cs, fields, w)
    case Err(e) => Err(e)
    case Ok(root) => Ok(AttachDefs(root, w.defs))
  }

  // The `&mut BTreeMap<String, Value>` the conversions share.
  class DefMap {
    var entries: Defs

    constructor ()
      ensures entries == map[]
    {
      entries := map[];
    }

    method ToJsonSchema(cs: Casing, reg: Registry, ty: Type) returns (r: Result<Value, Error>)
      requires reg.Valid()
      modifies this
      ensures Conversion(r, entries) == Convert(cs, reg, ty, old(entries))
      decreases RegistryStructNames(cs, reg) + StructNames(cs, ty) - entries.Keys, HeadWeight(ty)
    {
      hide WalkFields, ScalarSchema, EnumToSchema, ArrayOf, Nullable, RefTo, ObjectOf;
      match ty
      case Vec(inner) =>
        r := ToJsonSchema(cs, reg, inner);
        if r.Ok? {
          r := Ok(ArrayOf(r.value));
        }
      case Optional(inner) =>
        r := ToJsonSchema(cs, reg, inner);
        if r.Ok? {
          r := Ok(Nullable(r.value));
        }
      case Struct(name, fields) =>
        var defName := StructDefName(cs, name);
        if defName !in entries {
          // From here on a mention of this struct finds its name taken and does not descend again.
          SlotTaken(cs, reg, ty, entries);
          entries := entries[defName := Null];
          var schema := FieldsToObjectSchema(cs, reg, fields);
          if schema.Err? {
            return Err(schema.error);
          }
          entries := entries[defName := schema.value];
        }
        r := Ok(RefTo(defName));
      case StructRef(name) =>
        if name !in reg.structs {
          return Err(UnresolvedStructRef(name));
        }
        r := ToJsonSchema(cs, reg, reg.structs[name]);
      case StructTable(name) =>
        if name !in reg.structs {
          return Err(UnresolvedStructTable(name));
        }
        r := ToJsonSchema(cs, reg, reg.structs[name]);
        if r.Ok? {
          r := Ok(ArrayOf(r.value));
        }
      case Enum(name, variants) =>
        var defName := EnumDefName(cs, name, false);
        if defName !in entries {
          entries := entries[defName := EnumToSchema(defName, variants)];
        }
        r := Ok(RefTo(defName));
      case EnumRef(name, prefixed) =>
        if name !in reg.enums {
          return Err(UnresolvedEnumRef(name));
        }
        var defName := EnumDefName(cs, name, prefixed);
        if defName !in entries {
          entries := entries[defName := EnumToSchema(defName, reg.enums[name].variants)];
        }
        r := Ok(RefTo(defName));
      case _ => r := Ok(ScalarSchema(ty));
    }

    method FieldsToObjectSchema(cs: Casing, reg: Registry, fields: seq<Field>) returns (r: Result<Value, Error>)
      requires reg.Valid()
      modifies this
      ensures var w := WalkFields(cs, reg, fields, old(entries));
              r == ObjectResult(cs, fields, w) && entries == w.defs
      decreases RegistryStructNames(cs, reg) + FieldStructNames(cs, fields) - entries.Keys, FieldsWeight(fields)
    {
      hide Convert, Describe, ObjectOf;
      var properties: map<string, Value>, required: seq<Value> := map[], [];
      ghost var fragments: seq<Value> := [];
      ghost var start := entries;
      assert fields[0..] == fields;
      assert forall v: seq<Value> :: [] + v == v;
      for i := 0 to |fields|
        invariant |fragments| == i
        invariant start.Keys <= entries.Keys
        invariant properties == Properties(cs, fields[..i], fragments)
        invariant required == RequiredKeys(cs, fields[..i])
        invariant WalkFields(cs, reg, fields, start)
               == Resumed(fragments, WalkFields(cs, reg, fields[i..], entries))
      {
        var field := fields[i];
        var key := cs.camel(field.name);
        FieldNamesAt(cs, fields, i);
        ResumedStep(cs, reg, fragments, fields[i..], entries);
        assert fields[i..][1..] == fields[i + 1..];
        assert fields[..i + 1][..i] == fields[..i];
        if !field.ty.Optional? {
          required := required + [Str(key)];
        }
        var schema := ToJsonSchema(cs, reg, FieldType(field));
        if schema.Err? {
          return Err(schema.error);
        }
        ghost var before := fragments;
        fragments := fragments + [schema.value];
        assert fragments[..i] == before;
        properties := properties[key := Describe(field.description, schema.value)];
      }
      assert fields[..|fields|] == fields;
      assert fields[|fields|..] == [];
      assert fragments + [] == fragments;
      r := Ok(ObjectOf(properties, required));
    }
  }

  // A walk that had produced `done` before it went on as `rest`.
  ghost function Resumed(done: seq<Value>, rest: Walk): Walk {
    if rest.result.Err? then rest else Walk(Ok(done + rest.result.value), rest.defs)
  }

  lemma ResumedStep(cs: Casing, reg: Registry, done: seq<Value>, fields: seq<Field>, defs: Defs)
    requires reg.Valid() && fields != []
    ensures var c := Convert(cs, reg, FieldType(fields[0]), defs);
            Resumed(done, WalkFields(cs, reg, fields, defs))
            == if c.result.Err? then Walk(Err(c.result.error), c.defs)
               else Resumed(done + [c.result.value], WalkFields(cs, reg, fields[1..], c.defs))
  {
    var c := Convert(cs, reg, FieldType(fields[0]), defs);
    if c.result.Ok? {
      var rest := WalkFields(cs, reg, fields[1..], c.defs).result;
      if rest.Ok? {
        assert done + ([c.result.value] + rest.value) == (done + [c.result.value]) + rest.value;
      }
    }
  }

  // Reserving a struct's slot uses up one of the names the measure counts.
  lemma SlotTaken(cs: Casing, reg: Registry, ty: Type, defs: Defs)
    requires ty.Struct? && StructDefName(cs, ty.name) !in defs
    ensures RegistryStructNames(cs, reg) + FieldStructNames(cs, ty.fields) - defs[StructDefName(cs, ty.name) := Null].Keys
         <  RegistryStructNames(cs, reg) + StructNames(cs, ty) - defs.Keys
  {
    var left := RegistryStructNames(cs, reg) + FieldStructNames(cs, ty.fields) - defs[StructDefName(cs, ty.name) := Null].Keys;
    var right := RegistryStructNames(cs, reg) + StructNames(cs, ty) - defs.Keys;
    assert left <= right;
    assert StructDefName(cs, ty.name) in right && StructDefName(cs, ty.name) !in left;
  }

  lemma {:induction false} FieldNamesAt(cs: Casing, fields: seq<Field>, i: nat)
    requires i < |fields|
    ensures StructNames(cs, FieldType(fields[i])) <= FieldStructNames(cs, fields)
    ensures HeadWeight(FieldType(fields[i])) < FieldsWeight(fields)
  {
    if i > 0 {
      FieldNamesAt(cs, fields[1..], i - 1);
    }
  }
}
