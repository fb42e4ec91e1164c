// The endpoint type model and the registry that named references are resolved through
// (src/model/types.rs, src/model/json_schema.rs).
module Types {
  import opened Wrappers

  type i64 = x: int | -0x8000_0000_0000_0000 <= x < 0x8000_0000_0000_0000

  datatype EnumVariant = EnumVariant(name: string, description: string, value: i64)

  datatype Field = Field(name: string, description: string, ty: Type)

  datatype Type =
    | UInt32
    | Int32
    | Int64
    | Float64
    | Boolean
    | String
    | Bytea
    | UUID
    | NanoId(len: nat)
    | IpAddr
    | Struct(name: string, fields: seq<Field>)
    | StructRef(name: string)
    | Object
    | StructTable(structRef: string)
    | Vec(inner: Type)
    | Unit
    | Optional(inner: Type)
    | Enum(name: string, variants: seq<EnumVariant>)
    | EnumRef(name: string, prefixedName: bool)
    | TimeStampMs
    | BlockchainDecimal
    | BlockchainAddress
    | BlockchainTransactionHash

  // What a registry holds, as a value.
  datatype Registry = Registry(structs: map<string, Type>, enums: map<string, Type>) {

    // Every entry is a definition filed under its own name. The maps are private in the
    // source, so this holds of every registry a caller can build (TypeRegistry.Add).
    ghost predicate Valid() {
      && (forall n :: n in structs ==> structs[n].Struct? && structs[n].name == n)
      && (forall n :: n in enums ==> enums[n].Enum? && enums[n].name == n)
    }
  }

  const NoTypes := Registry(map[], map[])

  // The registry after indexing `ty`: definitions found later replace earlier ones.
  function Indexed(reg: Registry, ty: Type): Registry
    decreases ty
  {
    match ty
    case Struct(name, fields) => IndexedFields(reg.(structs := reg.structs[name := ty]), fields)
    case Enum(name, _) => reg.(enums := reg.enums[name := ty])
    case Vec(inner) => Indexed(reg, inner)
    case Optional(inner) => Indexed(reg, inner)
    case _ => reg
  }

  function IndexedFields(reg: Registry, fields: seq<Field>): Registry
    decreases fields
  {
    if fields == [] then reg else IndexedFields(Indexed(reg, fields[0].ty), fields[1..])
  }

  // `def` occurs in `ty` as an inline definition, under any number of fields, arrays and options.
  ghost predicate Inlines(ty: Type, def: Type)
    decreases ty
  {
    || (ty == def && (ty.Struct? || ty.Enum?))
    || match ty
       case Struct(_, fields) => exists f :: f in fields && Inlines(f.ty, def)
       case Vec(inner) => Inlines(inner, def)
       case Optional(inner) => Inlines(inner, def)
       case _ => false
  }

  // Indexing keeps the registry well formed and never forgets a name.
  lemma {:induction false} IndexedKeeps(reg: Registry, ty: Type)
    requires reg.Valid()
    ensures Indexed(reg, ty).Valid()
    ensures reg.structs.Keys <= Indexed(reg, ty).structs.Keys
    ensures reg.enums.Keys <= Indexed(reg, ty).enums.Keys
    decreases ty
  {
    match ty
    case Struct(name, fields) => IndexedFieldsKeeps(reg.(structs := reg.structs[name := ty]), fields);
    case Vec(inner) => IndexedKeeps(reg, inner);
    case Optional(inner) => IndexedKeeps(reg, inner);
    case _ =>
  }

  lemma {:induction false} IndexedFieldsKeeps(reg: Registry, fields: seq<Field>)
    requires reg.Valid()
    ensures IndexedFields(reg, fields).Valid()
    ensures reg.structs.Keys <= IndexedFields(reg, fields).structs.Keys
    ensures reg.enums.Keys <= IndexedFields(reg, fields).enums.Keys
    decreases fields
  {
    if fields != [] {
      IndexedKeeps(reg, fields[0].ty);
      IndexedFieldsKeeps(Indexed(reg, fields[0].ty), fields[1..]);
    }
  }

  // Nested definitions are captured: whatever `ty` defines inline resolves by name afterwards.
  lemma {:induction false} IndexedCaptures(reg: Registry, ty: Type, def: Type)
    requires reg.Valid() && Inlines(ty, def)
    ensures def.Struct? ==> def.name in Indexed(reg, ty).structs
    ensures def.Enum? ==> def.name in Indexed(reg, ty).enums
    decreases ty
  {
    match ty
    case Struct(name, fields) =>
      var reg' := reg.(structs := reg.structs[name := ty]);
      IndexedFieldsKeeps(reg', fields);
      if ty != def {
        var f :| f in fields && Inlines(f.ty, def);
        IndexedFieldsCaptures(reg', fields, f, def);
      }
    case Vec(inner) => IndexedCaptures(reg, inner, def);
    case Optional(inner) => IndexedCaptures(reg, inner, def);
    case _ =>
  }

  lemma {:induction false} IndexedFieldsCaptures(reg: Registry, fields: seq<Field>, f: Field, def: Type)
    requires reg.Valid() && f in fields && Inlines(f.ty, def)
    ensures def.Struct? ==> def.name in IndexedFields(reg, fields).structs
    ensures def.Enum? ==> def.name in IndexedFields(reg, fields).enums
    decreases fields
  {
    var next := Indexed(reg, fields[0].ty);
    IndexedKeeps(reg, fields[0].ty);
    if fields[0] == f {
      IndexedCaptures(reg, f.ty, def);
      IndexedFieldsKeeps(next, fields[1..]);
    } else {
      IndexedFieldsCaptures(next, fields[1..], f, def);
    }
  }

  // The registry as the source keeps it: two maps updated in place.
  class TypeRegistry {
    var structs: map<string, Type>
    var enums: map<string, Type>

    function Contents(): Registry
      reads this
    {
      Registry(structs, enums)
    }

    constructor ()
      ensures Contents() == NoTypes && Contents().Valid()
    {
      structs, enums := map[], map[];
    }

    method Add(ty: Type)
      requires Contents().Valid()
      modifies this
      ensures Contents() == Indexed(old(Contents()), ty)
      ensures Contents().Valid()
      decreases ty
    {
      IndexedKeeps(Contents(), ty);
      match ty
      case Struct(name, fields) =>
        structs := structs[name := ty];
        ghost var start := Contents();
        for i := 0 to |fields|
          invariant Contents().Valid()
          invariant IndexedFields(start, fields) == IndexedFields(Contents(), fields[i..])
        {
          Add(fields[i].ty);
          assert fields[i..][1..] == fields[i + 1..];
        }
      case Enum(name, _) => enums := enums[name := ty];
      case Vec(inner) => Add(inner);
      case Optional(inner) => Add(inner);
      case _ =>
    }
  }
}

// An endpoint as the emitters and the router see it (src/model/endpoint.rs).
module Endpoints {
  import opened Wrappers
  import opened Types

  datatype ErrorSchema = ErrorSchema(name: string, fields: seq<Field>)

  datatype EndpointSchema = EndpointSchema(
    name: string,
    code: nat,
    parameters: seq<Field>,
    results: seq<Field>,
    streamResponse: Option<Type>,
    description: string,
    errors: seq<ErrorSchema>)
}
