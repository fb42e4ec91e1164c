// The generated schema of an endpoint accepts exactly the JSON that fits its field list.
module SchemaMeaning {
  import opened Wrappers
  import opened Json
  import opened Types
  import opened JsonSchema
  import opened SchemaClosure
  import opened Validation

  // What a value of a type may look like on the wire, read directly over the type model.

  ghost predicate FitsScalar(st: Strings, ty: Type, v: Value)
    requires IsScalar(ty)
  {
    match ty
    case UInt32 => IsInteger(v) && 0.0 <= v.n <= 4294967295.0
    case Int32 => IsInteger(v) && -2147483648.0 <= v.n <= 2147483647.0
    case Int64 => IsInteger(v)
    case TimeStampMs => IsInteger(v)
    case Float64 => v.Num?
    case Boolean => v.Bool?
    case Object => v.Obj?
    case Unit => v.Null?
    case UUID => v.Str? && st.format("uuid", v.s)
    case NanoId(len) => v.Str? && |v.s| == len && st.pattern("^[0-9A-Za-z]+$", v.s)
    case BlockchainAddress => v.Str? && st.pattern("^0x[0-9a-fA-F]{40}$", v.s)
    case BlockchainTransactionHash => v.Str? && st.pattern("^0x[0-9a-fA-F]{64}$", v.s)
    case _ => v.Str?
  }

  ghost predicate IsValueOf(variant: EnumVariant, v: Value) {
    v == Int(variant.value)
  }

  ghost predicate FitsEnum(variants: seq<EnumVariant>, v: Value) {
    exists i :: 0 <= i < |variants| && IsValueOf(variants[i], v)
  }

  ghost predicate Fits(cs: Casing, st: Strings, reg: Registry, ty: Type, v: Value)
    requires reg.Valid()
    decreases v, HeadWeight(ty)
  {
    match ty
    case Vec(inner) => v.Arr? && forall i :: 0 <= i < |v.items| ==> Fits(cs, st, reg, inner, v.items[i])
    case Optional(inner) => v.Null? || Fits(cs, st, reg, inner, v)
    case Struct(_, fields) => FitsFields(cs, st, reg, fields, v)
    case StructRef(name) => name in reg.structs && Fits(cs, st, reg, reg.structs[name], v)
    case StructTable(name) =>
      v.Arr? && name in reg.structs
      && forall i :: 0 <= i < |v.items| ==> Fits(cs, st, reg, reg.structs[name], v.items[i])
    case Enum(_, variants) => FitsEnum(variants, v)
    case EnumRef(name, _) => name in reg.enums && FitsEnum(reg.enums[name].variants, v)
    case _ => FitsScalar(st, ty, v)
  }

  // An object with no keys but the fields', the Optional ones omissible and never null.
  ghost predicate FitsFields(cs: Casing, st: Strings, reg: Registry, fields: seq<Field>, v: Value)
    requires reg.Valid()
    decreases v, 0
  {
    && v.Obj?
    && (forall k :: k in v.members ==> k in Keys(cs, fields))
    && (forall i :: 0 <= i < |fields| ==>
          if cs.camel(fields[i].name) in v.members
          then Fits(cs, st, reg, FieldType(fields[i]), v.members[cs.camel(fields[i].name)])
          else fields[i].ty.Optional?)
  }

  ghost function Keys(cs: Casing, fields: seq<Field>): set<string> {
    set i | 0 <= i < |fields| :: cs.camel(fields[i].name)
  }

  ghost predicate DistinctKeys(cs: Casing, fields: seq<Field>) {
    forall i, j :: 0 <= i < j < |fields| ==> cs.camel(fields[i].name) != cs.camel(fields[j].name)
  }

  ghost predicate DistinctValues(variants: seq<EnumVariant>) {
    forall i, j :: 0 <= i < j < |variants| ==> variants[i].value != variants[j].value
  }

  ghost predicate WellFormed(cs: Casing, d: Def) {
    && Plain(d.name)
    && match d
       case StructDef(_, fields) => DistinctKeys(cs, fields)
       case EnumDef(_, variants) => DistinctValues(variants)
  }

  // The document has every definition reachable from `roots` where references look for it.
  ghost predicate Supplies(cs: Casing, reg: Registry, roots: set<Def>, document: Value)
    requires reg.Valid()
  {
    forall d :: Reachable(cs, reg, roots, d) ==>
      && WellFormed(cs, d)
      && DefResolves(reg, d)
      && Resolve(document, DEFS_PREFIX + d.name) == Some(DefSchema(cs, reg, d))
  }

  lemma {:induction false} PropertiesAt(cs: Casing, fields: seq<Field>, fragments: seq<Value>, i: nat)
    requires i < |fields| == |fragments| && DistinctKeys(cs, fields)
    ensures cs.camel(fields[i].name) in Properties(cs, fields, fragments)
    ensures Properties(cs, fields, fragments)[cs.camel(fields[i].name)] == Describe(fields[i].description, fragments[i])
  {
    var n := |fields| - 1;
    if i < n {
      PropertiesAt(cs, fields[..n], fragments[..n], i);
    }
  }

  lemma {:induction false} PropertyKeys(cs: Casing, fields: seq<Field>, fragments: seq<Value>)
    requires |fields| == |fragments|
    ensures Properties(cs, fields, fragments).Keys == Keys(cs, fields)
  {
    if fields != [] {
      var n := |fields| - 1;
      PropertyKeys(cs, fields[..n], fragments[..n]);
      assert Keys(cs, fields) == Keys(cs, fields[..n]) + {cs.camel(fields[n].name)} by {
        forall k | k in Keys(cs, fields[..n]) + {cs.camel(fields[n].name)}
          ensures k in Keys(cs, fields)
        {
          if k != cs.camel(fields[n].name) {
            var i :| 0 <= i < n && cs.camel(fields[..n][i].name) == k;
            assert cs.camel(fields[i].name) == k;
          }
        }
        forall k | k in Keys(cs, fields) && k != cs.camel(fields[n].name)
          ensures k in Keys(cs, fields[..n])
        {
          var i :| 0 <= i < |fields| && cs.camel(fields[i].name) == k;
          assert fields[..n][i] == fields[i];
        }
      }
    }
  }

  // The required keys are those of the fields that are not Optional.
  lemma {:induction false} RequiredMeans(cs: Casing, fields: seq<Field>, m: map<string, Value>)
    ensures (forall i :: 0 <= i < |RequiredKeys(cs, fields)| ==>
              RequiredKeys(cs, fields)[i].Str? && RequiredKeys(cs, fields)[i].s in m)
       <==> (forall i :: 0 <= i < |fields| && !fields[i].ty.Optional? ==> cs.camel(fields[i].name) in m)
  {
    if fields != [] {
      var n := |fields| - 1;
      RequiredMeans(cs, fields[..n], m);
      var before := RequiredKeys(cs, fields[..n]);
      var all := RequiredKeys(cs, fields);
      assert forall i :: 0 <= i < |before| ==> all[i] == before[i];
      assert forall i :: 0 <= i < n ==> fields[..n][i] == fields[i];
      if !fields[n].ty.Optional? {
        assert all[|before|] == Str(cs.camel(fields[n].name));
        assert |all| == |before| + 1;
      } else {
        assert all == before;
      }
    }
  }

  lemma DescribeIgnored(st: Strings, root: Value, description: string, fragment: Value, v: Value, hops: nat)
    ensures Validates(st, root, Describe(description, fragment), v, hops) <==> Validates(st, root, fragment, v, hops)
  {
    if fragment.Obj? {
      AnnotationIgnored(st, root, fragment.members, "description", Str(description), v, hops);
    }
  }

  lemma ScalarMeaning(st: Strings, root: Value, ty: Type, v: Value, hops: nat)
    requires IsScalar(ty)
    ensures Validates(st, root, ScalarSchema(ty), v, hops) <==> FitsScalar(st, ty, v)
  {
    hide HopLimit;
    ScalarKeywords(ty);
    hide ScalarSchema, AssertionsHold, FitsScalar;
    assert Validates(st, root, ScalarSchema(ty), v, hops) <==> AssertionsHold(st, ScalarSchema(ty).members, v);
    ScalarAssertions(st, ty, v);
  }

  lemma ScalarKeywords(ty: Type)
    requires IsScalar(ty)
    ensures ScalarSchema(ty).Obj?
    ensures ScalarSchema(ty).members.Keys !! {"$ref", "anyOf", "oneOf", "items", "properties", "additionalProperties"}
  {
  }

  lemma ScalarAssertions(st: Strings, ty: Type, v: Value)
    requires IsScalar(ty)
    ensures AssertionsHold(st, ScalarSchema(ty).members, v) <==> FitsScalar(st, ty, v)
  {
    hide AssertionsHold;
    var m := ScalarSchema(ty).members;
    match ty
    case UInt32 => RangeAssertions(st, m, 0, 0xFFFF_FFFF, v);
    case Int32 => RangeAssertions(st, m, -0x8000_0000, 0x7FFF_FFFF, v);
    case UUID => FormatAssertions(st, m, "uuid", v);
    case NanoId(len) => NanoIdAssertions(st, len, v);
    case BlockchainAddress => PatternAssertions(st, m, "^0x[0-9a-fA-F]{40}$", v);
    case BlockchainTransactionHash => PatternAssertions(st, m, "^0x[0-9a-fA-F]{64}$", v);
    case _ => TypeAssertions(st, ty, v);
  }

  // The scalars whose schema says no more than a type.
  lemma TypeAssertions(st: Strings, ty: Type, v: Value)
    requires IsScalar(ty) && !ty.UInt32? && !ty.Int32? && !ty.UUID? && !ty.NanoId? && !ty.BlockchainAddress?
    requires !ty.BlockchainTransactionHash?
    ensures AssertionsHold(st, ScalarSchema(ty).members, v) <==> FitsScalar(st, ty, v)
  {
    hide AssertionsHold;
    var m := ScalarSchema(ty).members;
    match ty
    case Int64 | TimeStampMs => JustType(st, m, "integer", v);
    case Float64 => JustType(st, m, "number", v);
    case Boolean => JustType(st, m, "boolean", v);
    case Object => JustType(st, m, "object", v);
    case Unit => JustType(st, m, "null", v);
    case String | Bytea | IpAddr | BlockchainDecimal => JustType(st, m, "string", v);
    case _ =>
  }

  lemma JustType(st: Strings, m: map<string, Value>, t: string, v: Value)
    requires m.Keys <= {"type", "description", "contentEncoding"} && "type" in m && m["type"] == Str(t)
    ensures AssertionsHold(st, m, v) <==> HasTypeName(t, v)
  {
    TypeOnly(st, m, t, v);
    hide AssertionsHold, HasTypeName;
  }

  lemma RangeAssertions(st: Strings, m: map<string, Value>, lo: int, hi: int, v: Value)
    requires m == map["type" := Str("integer"), "minimum" := Int(lo), "maximum" := Int(hi)]
    ensures AssertionsHold(st, m, v) <==> IsInteger(v) && lo as real <= v.n <= hi as real
  {
  }

  lemma FormatAssertions(st: Strings, m: map<string, Value>, format: string, v: Value)
    requires m == map["type" := Str("string"), "format" := Str(format)]
    ensures AssertionsHold(st, m, v) <==> v.Str? && st.format(format, v.s)
  {
  }

  lemma PatternAssertions(st: Strings, m: map<string, Value>, pattern: string, v: Value)
    requires m == map["type" := Str("string"), "pattern" := Str(pattern)]
    ensures AssertionsHold(st, m, v) <==> v.Str? && st.pattern(pattern, v.s)
  {
  }

  lemma NanoIdAssertions(st: Strings, len: nat, v: Value)
    ensures AssertionsHold(st, ScalarSchema(NanoId(len)).members, v) <==> FitsScalar(st, NanoId(len), v)
  {
    var m := ScalarSchema(NanoId(len)).members;
    assert "const" !in m && "minimum" !in m && "maximum" !in m && "format" !in m && "required" !in m;
  }

  // `v` is the value of the variant at `i` and of no other.
  ghost predicate MatchesOnlyAt(variants: seq<EnumVariant>, v: Value, i: nat) {
    i < |variants| && forall j :: 0 <= j < |variants| ==> (IsValueOf(variants[j], v) <==> j == i)
  }

  ghost predicate MatchesOnce(variants: seq<EnumVariant>, v: Value) {
    exists i: nat :: MatchesOnlyAt(variants, v, i)
  }

  // The schema of an enum accepts a value that is the value of exactly one variant.
  lemma EnumMeaning(st: Strings, root: Value, name: string, variants: seq<EnumVariant>, v: Value, hops: nat)
    ensures Validates(st, root, EnumToSchema(name, variants), v, hops) <==> MatchesOnce(variants, v)
  {
    hide HopLimit, AssertionsHold, Validates;
    var m := EnumToSchema(name, variants).members;
    EnumKeywords(st, root, name, variants, v, hops);
    var entries := m["oneOf"].items;
    forall i | 0 <= i < |entries|
      ensures Validates(st, root, entries[i], v, hops) <==> IsValueOf(variants[i], v)
    {
      VariantMeaning(st, root, variants[i], v, hops);
    }
    hide IsValueOf, VariantEntry, IsInteger;
    OneMatches(st, root, entries, variants, v, hops);
    TypeOnly(st, m, "integer", v);
    if MatchesOnce(variants, v) {
      MatchesInteger(variants, v);
    }
  }

  lemma EnumKeywords(st: Strings, root: Value, name: string, variants: seq<EnumVariant>, v: Value, hops: nat)
    ensures var m := EnumToSchema(name, variants).members;
      && "oneOf" in m
      && (Validates(st, root, EnumToSchema(name, variants), v, hops) <==> AssertionsHold(st, m, v) && OneHolds(st, root, m["oneOf"], v, hops))
  {
    hide HopLimit, AssertionsHold, OneHolds;
    var m := EnumToSchema(name, variants).members;
    assert "$ref" !in m && "anyOf" !in m && "items" !in m && "properties" !in m && "additionalProperties" !in m;
  }

  lemma MatchesInteger(variants: seq<EnumVariant>, v: Value)
    requires MatchesOnce(variants, v)
    ensures IsInteger(v)
  {
    var i: nat :| MatchesOnlyAt(variants, v, i);
    assert IsValueOf(variants[i], v);
    var n: int := variants[i].value;
    assert (n as real).Floor == n;
  }

  lemma OneMatches(st: Strings, root: Value, entries: seq<Value>, variants: seq<EnumVariant>, v: Value, hops: nat)
    requires |entries| == |variants|
    requires forall i :: 0 <= i < |entries| ==> (Validates(st, root, entries[i], v, hops) <==> IsValueOf(variants[i], v))
    ensures OneHolds(st, root, Arr(entries), v, hops) <==> MatchesOnce(variants, v)
  {
    hide HopLimit;
    hide IsValueOf, Validates;
    forall i: nat
      ensures HoldsOnlyAt(st, root, Arr(entries), v, hops, i) <==> MatchesOnlyAt(variants, v, i)
    {
    }
  }

  lemma VariantMeaning(st: Strings, root: Value, variant: EnumVariant, v: Value, hops: nat)
    ensures Validates(st, root, VariantEntry(variant), v, hops) <==> IsValueOf(variant, v)
  {
    hide HopLimit;
    var m := map["const" := Int(variant.value), "title" := Str(variant.name)];
    assert Validates(st, root, Obj(m), v, hops) <==> v == Int(variant.value);
    AnnotationIgnored(st, root, m, "description", Str(variant.description), v, hops);
  }

  // ... so it accepts every variant exactly when the values are distinct.
  lemma EnumAcceptsItsVariantsIff(st: Strings, root: Value, name: string, variants: seq<EnumVariant>, hops: nat)
    ensures (forall i :: 0 <= i < |variants| ==>
              Validates(st, root, EnumToSchema(name, variants), Int(variants[i].value), hops))
       <==> DistinctValues(variants)
  {
    hide Validates, EnumToSchema;
    forall i | 0 <= i < |variants|
      ensures Validates(st, root, EnumToSchema(name, variants), Int(variants[i].value), hops)
         <==> MatchesOnce(variants, Int(variants[i].value))
    {
      EnumMeaning(st, root, name, variants, Int(variants[i].value), hops);
    }
    MatchesOnceIff(variants);
  }

  lemma MatchesOnceIff(variants: seq<EnumVariant>)
    ensures (forall i :: 0 <= i < |variants| ==> MatchesOnce(variants, Int(variants[i].value))) <==> DistinctValues(variants)
  {
    if DistinctValues(variants) {
      forall i | 0 <= i < |variants|
        ensures MatchesOnce(variants, Int(variants[i].value))
      {
        assert MatchesOnlyAt(variants, Int(variants[i].value), i);
      }
    } else {
      var i, j :| 0 <= i < j < |variants| && variants[i].value == variants[j].value;
      var v := Int(variants[i].value);
      assert IsValueOf(variants[i], v) && IsValueOf(variants[j], v);
      assert !MatchesOnce(variants, v);
    }
  }

  lemma {:induction false} FragmentMeaning(cs: Casing, st: Strings, reg: Registry, roots: set<Def>, document: Value, ty: Type, v: Value, hops: nat)
    requires reg.Valid() && Resolves(reg, ty) && Supplies(cs, reg, roots, document)
    requires forall d :: d in Mentions(cs, reg, ty) ==> Reachable(cs, reg, roots, d)
    requires hops > 0
    ensures Validates(st, document, Fragment(cs, reg, ty), v, hops) <==> Fits(cs, st, reg, ty, v)
    decreases v, HeadWeight(ty), 2
  {
    hide Validates, Resolve, Supplies, Reachable, FitsFields, FitsScalar, ScalarSchema, FitsEnum, FieldMentions;
    if ty.Vec? {
      ArrayMeaning(cs, st, reg, roots, document, ty.inner, v, hops);
    } else if ty.Optional? {
      FragmentMeaning(cs, st, reg, roots, document, ty.inner, v, hops);
      NullableMeaning(st, document, Fragment(cs, reg, ty.inner), v, hops);
    } else if ty.Struct? {
      StructMeaning(cs, st, reg, roots, document, StructDef(StructDefName(cs, ty.name), ty.fields), v, hops);
    } else if ty.StructRef? {
      FragmentMeaning(cs, st, reg, roots, document, reg.structs[ty.name], v, hops);
    } else if ty.StructTable? {
      ArrayMeaning(cs, st, reg, roots, document, reg.structs[ty.structRef], v, hops);
    } else if ty.Enum? {
      EnumRefMeaning(cs, st, reg, roots, document, EnumDef(EnumDefName(cs, ty.name, false), ty.variants), v, hops);
    } else if ty.EnumRef? {
      var d := EnumDef(EnumDefName(cs, ty.name, ty.prefixedName), reg.enums[ty.name].variants);
      EnumRefMeaning(cs, st, reg, roots, document, d, v, hops);
    } else {
      ScalarMeaning(st, document, ty, v, hops);
    }
  }

  lemma {:induction false} StructMeaning(cs: Casing, st: Strings, reg: Registry, roots: set<Def>, document: Value, d: Def, v: Value, hops: nat)
    requires reg.Valid() && Supplies(cs, reg, roots, document) && hops > 0
    requires d.StructDef? && Reachable(cs, reg, roots, d)
    ensures Validates(st, document, RefTo(d.name), v, hops) <==> FitsFields(cs, st, reg, d.fields, v)
    decreases v, 0, 1
  {
    hide Validates, Resolve, FitsFields;
    RefMeaning(st, document, d.name, v, hops);
    forall e | e in FieldMentions(cs, reg, d.fields)
      ensures Reachable(cs, reg, roots, e)
    {
      RootReachable(cs, reg, Children(cs, reg, d), e);
      ReachableThrough(cs, reg, roots, d, e);
    }
    RootMeaning(cs, st, reg, roots, document, d.fields, v, hops - 1);
  }

  lemma NullableMeaning(st: Strings, document: Value, inner: Value, v: Value, hops: nat)
    ensures Validates(st, document, Nullable(inner), v, hops)
       <==> Validates(st, document, inner, v, hops) || v.Null?
  {
    hide Validates, HopLimit;
    NullSchemaMeaning(st, document, v, hops);
    NullableIsAny(st, document, inner, v, hops);
    var branches := [inner, Obj(map["type" := Str("null")])];
    assert branches[0] == inner && branches[1] == Obj(map["type" := Str("null")]);
  }

  lemma NullableIsAny(st: Strings, document: Value, inner: Value, v: Value, hops: nat)
    ensures Validates(st, document, Nullable(inner), v, hops)
       <==> AnyHolds(st, document, Arr([inner, Obj(map["type" := Str("null")])]), v, hops)
  {
    hide HopLimit, AssertionsHold, AnyHolds;
    var m := Nullable(inner).members;
    NoAssertions(st, m, v);
    assert "$ref" !in m && "oneOf" !in m && "items" !in m && "properties" !in m && "additionalProperties" !in m;
  }

  lemma NullSchemaMeaning(st: Strings, document: Value, v: Value, hops: nat)
    ensures Validates(st, document, Obj(map["type" := Str("null")]), v, hops) <==> v.Null?
  {
    hide HopLimit;
    assert ScalarSchema(Unit) == Obj(map["type" := Str("null")]);
    ScalarMeaning(st, document, Unit, v, hops);
  }

  lemma RefMeaning(st: Strings, document: Value, name: string, v: Value, hops: nat)
    requires hops > 0 && Resolve(document, DEFS_PREFIX + name).Some?
    ensures Validates(st, document, RefTo(name), v, hops)
       <==> Validates(st, document, Resolve(document, DEFS_PREFIX + name).value, v, hops - 1)
  {
    hide HopLimit;
  }

  lemma EnumRefMeaning(cs: Casing, st: Strings, reg: Registry, roots: set<Def>, document: Value, d: Def, v: Value, hops: nat)
    requires reg.Valid() && Supplies(cs, reg, roots, document) && hops > 0
    requires d.EnumDef? && Reachable(cs, reg, roots, d)
    ensures Validates(st, document, RefTo(d.name), v, hops) <==> FitsEnum(d.variants, v)
  {
    hide Validates, Resolve, EnumToSchema;
    RefMeaning(st, document, d.name, v, hops);
    assert Resolve(document, DEFS_PREFIX + d.name).value == EnumToSchema(d.name, d.variants);
    EnumMeaning(st, document, d.name, d.variants, v, hops - 1);
    assert WellFormed(cs, d);
    DistinctMatchesOnce(d.variants, v);
  }

  lemma DistinctMatchesOnce(variants: seq<EnumVariant>, v: Value)
    requires DistinctValues(variants)
    ensures MatchesOnce(variants, v) <==> FitsEnum(variants, v)
  {
    if FitsEnum(variants, v) {
      var i :| 0 <= i < |variants| && IsValueOf(variants[i], v);
      forall j | 0 <= j < |variants| && IsValueOf(variants[j], v)
        ensures j == i
      {
        assert variants[j].value == variants[i].value;
      }
      assert MatchesOnlyAt(variants, v, i);
    }
    if MatchesOnce(variants, v) {
      var i: nat :| MatchesOnlyAt(variants, v, i);
      assert IsValueOf(variants[i], v);
    }
  }

  lemma ItemsMeaning(st: Strings, document: Value, items: Value, v: Value, hops: nat)
    ensures Validates(st, document, ArrayOf(items), v, hops)
       <==> v.Arr? && forall i :: 0 <= i < |v.items| ==> Validates(st, document, items, v.items[i], HopLimit(document))
  {
    hide HopLimit;
    hide AssertionsHold;
    var m := ArrayOf(items).members;
    TypeOnly(st, m, "array", v);
    assert "$ref" !in m && "anyOf" !in m && "oneOf" !in m && "properties" !in m && "additionalProperties" !in m;
    assert m["items"] == items;
  }

  lemma NoAssertions(st: Strings, m: map<string, Value>, v: Value)
    requires m.Keys !! KEYWORDS - {"$ref", "anyOf", "oneOf", "items", "properties", "additionalProperties"}
    ensures AssertionsHold(st, m, v)
  {
  }

  // An object whose only assertion keyword is `type`.
  lemma TypeOnly(st: Strings, m: map<string, Value>, t: string, v: Value)
    requires "type" in m && m["type"] == Str(t)
    requires forall k :: k in m && k in KEYWORDS ==> k in {"type", "$ref", "anyOf", "oneOf", "items", "properties", "additionalProperties"}
    ensures AssertionsHold(st, m, v) <==> HasTypeName(t, v)
  {
  }

  lemma {:induction false} ArrayMeaning(cs: Casing, st: Strings, reg: Registry, roots: set<Def>, document: Value, inner: Type, v: Value, hops: nat)
    requires reg.Valid() && Resolves(reg, inner) && Supplies(cs, reg, roots, document)
    requires forall d :: d in Mentions(cs, reg, inner) ==> Reachable(cs, reg, roots, d)
    ensures Validates(st, document, ArrayOf(Fragment(cs, reg, inner)), v, hops)
       <==> v.Arr? && forall i :: 0 <= i < |v.items| ==> Fits(cs, st, reg, inner, v.items[i])
    decreases v, 0, 0
  {
    hide Validates, Fragment;
    ItemsMeaning(st, document, Fragment(cs, reg, inner), v, hops);
    if v.Arr? {
      forall i | 0 <= i < |v.items| {
        FragmentMeaning(cs, st, reg, roots, document, inner, v.items[i], HopLimit(document));
      }
    }
  }

  // An object schema over `fields`, with or without annotations of its own.
  lemma {:induction false} RootMeaning(cs: Casing, st: Strings, reg: Registry, roots: set<Def>, document: Value, fields: seq<Field>, v: Value, hops: nat)
    requires reg.Valid() && FieldsResolve(reg, fields) && DistinctKeys(cs, fields) && Supplies(cs, reg, roots, document)
    requires forall d :: d in FieldMentions(cs, reg, fields) ==> Reachable(cs, reg, roots, d)
    ensures Validates(st, document, RootSchema(cs, reg, fields), v, hops) <==> FitsFields(cs, st, reg, fields, v)
    decreases v, 0, 0
  {
    hide Validates;
    var fragments := Fragments(cs, reg, fields);
    var props := Properties(cs, fields, fragments);
    PropertyKeys(cs, fields, fragments);
    ObjectMeaning(st, document, props, RequiredKeys(cs, fields), v, hops);
    if v.Obj? {
      RequiredMeans(cs, fields, v.members);
      forall i | 0 <= i < |fields| && cs.camel(fields[i].name) in v.members
        ensures Validates(st, document, props[cs.camel(fields[i].name)], v.members[cs.camel(fields[i].name)], HopLimit(document))
           <==> Fits(cs, st, reg, FieldType(fields[i]), v.members[cs.camel(fields[i].name)])
      {
        var member := v.members[cs.camel(fields[i].name)];
        PropertiesAt(cs, fields, fragments, i);
        DescribeIgnored(st, document, fields[i].description, fragments[i], member, HopLimit(document));
        FragmentMeaning(cs, st, reg, roots, document, FieldType(fields[i]), member, HopLimit(document));
      }
    }
  }

  lemma ObjectMeaning(st: Strings, document: Value, props: map<string, Value>, required: seq<Value>, v: Value, hops: nat)
    ensures Validates(st, document, ObjectOf(props, required), v, hops)
       <==> && v.Obj?
            && (forall i :: 0 <= i < |required| ==> required[i].Str? && required[i].s in v.members)
            && (forall k :: k in v.members ==> k in props)
            && (forall k :: k in props && k in v.members ==>
                  Validates(st, document, props[k], v.members[k], HopLimit(document)))
  {
    hide HopLimit, AssertionsHold, ExtrasHold;
    var m := ObjectOf(props, required).members;
    assert "$ref" !in m && "anyOf" !in m && "oneOf" !in m && "items" !in m;
    assert m["properties"] == Obj(props) && m["additionalProperties"] == Bool(false);
    ObjectAssertions(st, props, required, v);
    NoExtras(st, document, props, v);
  }

  lemma ObjectAssertions(st: Strings, props: map<string, Value>, required: seq<Value>, v: Value)
    ensures AssertionsHold(st, ObjectOf(props, required).members, v)
       <==> v.Obj? && forall i :: 0 <= i < |required| ==> required[i].Str? && required[i].s in v.members
  {
    var m := ObjectOf(props, required).members;
    assert "const" !in m && "minimum" !in m && "maximum" !in m && "minLength" !in m && "maxLength" !in m;
    assert "pattern" !in m && "format" !in m;
    assert m["required"] == Arr(required) && m["type"] == Str("object");
  }

  lemma NoExtras(st: Strings, document: Value, props: map<string, Value>, v: Value)
    ensures ExtrasHold(st, document, Obj(props), Bool(false), v) <==> (v.Obj? ==> forall k :: k in v.members ==> k in props)
  {
    hide HopLimit;
  }

  // A plain name attached under `$defs` is where its reference looks for it.
  lemma DefsTokens(name: string)
    requires Plain(name)
    ensures "#/" <= DEFS_PREFIX + name && '~' !in name && '%' !in name
    ensures Tokens((DEFS_PREFIX + name)[2..]) == ["$defs", name]
  {
    hide Tokens;
    assert (DEFS_PREFIX + name)[2..] == "$defs" + "/" + name;
    TokensJoin("$defs", name);
    TokensJoin(name, "");
  }

  lemma AttachedResolves(root: Value, defs: Defs, name: string)
    requires root.Obj? && name in defs && Plain(name)
    ensures Resolve(AttachDefs(root, defs), DEFS_PREFIX + name) == Some(defs[name])
  {
    hide Tokens, Plain;
    DefsTokens(name);
    var tokens := ["$defs", name];
    var doc := AttachDefs(root, defs);
    assert doc.members["$defs"] == Obj(defs);
    FollowName(defs, name);
    assert Follow(doc, tokens) == Follow(Obj(defs), [name]) by {
      assert tokens[1..] == [name];
    }
  }

  lemma FollowName(defs: Defs, name: string)
    requires name in defs && '~' !in name && '%' !in name
    ensures Follow(Obj(defs), [name]) == Some(defs[name])
  {
    assert [name][1..] == [];
  }

  // Every endpoint schema means its field list: for every value, validation against the
  // generated document agrees with reading the fields directly.
  lemma McpSchemaMeaning(cs: Casing, st: Strings, reg: Registry, fields: seq<Field>, v: Value)
    requires reg.Valid()
    requires McpSchema(cs, reg, fields).Ok?
    requires InjectiveNames(cs, reg, FieldMentions(cs, reg, fields))
    requires DistinctKeys(cs, fields)
    requires forall d :: Reachable(cs, reg, FieldMentions(cs, reg, fields), d) ==> WellFormed(cs, d)
    ensures Accepts(st, McpSchema(cs, reg, fields).value, v) <==> FitsFields(cs, st, reg, fields, v)
  {
    hide Validates, HopLimit, FitsFields, InjectiveNames, Reachable, FieldMentions, WalkFields, DefSchema;
    var roots := FieldMentions(cs, reg, fields);
    var w := WalkFields(cs, reg, fields, map[]);
    WalkCloses(cs, reg, fields);
    WalkCollectsReachable(cs, reg, fields);
    var root := RootSchema(cs, reg, fields);
    var document := AttachDefs(root, w.defs);
    assert McpSchema(cs, reg, fields) == Ok(document);
    forall d | Reachable(cs, reg, roots, d)
      ensures Resolve(document, DEFS_PREFIX + d.name) == Some(DefSchema(cs, reg, d)) && DefResolves(reg, d)
    {
      AttachedResolves(root, w.defs, d.name);
    }
    forall d | d in roots
      ensures Reachable(cs, reg, roots, d)
    {
      RootReachable(cs, reg, roots, d);
    }
    RootMeaning(cs, st, reg, roots, document, fields, v, HopLimit(document));
    AnnotationIgnored(st, document, root.members, "$defs", Obj(w.defs), v, HopLimit(document));
  }
}
