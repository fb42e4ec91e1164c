// JSON Schema 2020-12 validation, for the keywords the conversion emits, read off the JSON.
// Section numbers are those of JSON Schema Core and JSON Schema Validation 2020-12.
module Validation {
  import opened Wrappers
  import opened Json

  // `pattern` and `format` as arbitrary predicates of keyword value and string.
  datatype Strings = Strings(pattern: (string, string) -> bool, format: (string, string) -> bool)

  // Reference tokens of a JSON pointer. Tokens carrying an escape ('~' of RFC 6901, '%' of
  // RFC 3986) would have to be decoded; references that need it are left unresolved.
  function Tokens(s: string): (ts: seq<string>)
    ensures |ts| >= 1
  {
    if s == "" then [""]
    else
      var rest := Tokens(s[1..]);
      if s[0] == '/' then [""] + rest else [[s[0]] + rest[0]] + rest[1..]
  }

  function Follow(v: Value, tokens: seq<string>): Option<Value> {
    if tokens == [] then Some(v)
    else if '~' in tokens[0] || '%' in tokens[0] then None
    else if v.Obj? && tokens[0] in v.members then Follow(v.members[tokens[0]], tokens[1..])
    else None
  }

  // Core 8.2.3.1, for references into the same document.
  function Resolve(root: Value, reference: string): Option<Value> {
    if "#/" <= reference then Follow(root, Tokens(reference[2..])) else None
  }

  // A definition name that is its own JSON pointer token.
  predicate Plain(name: string) {
    '/' !in name && '~' !in name && '%' !in name
  }

  lemma {:induction false} TokensJoin(a: string, b: string)
    requires '/' !in a
    ensures Tokens(a + "/" + b) == [a] + Tokens(b)
    ensures Tokens(a) == [a]
  {
    if a == "" {
      assert (a + "/" + b)[1..] == b;
    } else {
      assert (a + "/" + b)[1..] == a[1..] + "/" + b;
      assert a == [a[0]] + a[1..];
      TokensJoin(a[1..], b);
    }
  }

  predicate HasTypeName(t: string, v: Value) {
    match t
    case "null" => v.Null?
    case "boolean" => v.Bool?
    case "object" => v.Obj?
    case "array" => v.Arr?
    case "number" => v.Num?
    case "string" => v.Str?
    case "integer" => IsInteger(v)
    case _ => false
  }

  // Validation 6.1.1: one type name, or an array of them.
  predicate HasType(t: Value, v: Value) {
    match t
    case Str(s) => HasTypeName(s, v)
    case Arr(ts) => exists i :: 0 <= i < |ts| && ts[i].Str? && HasTypeName(ts[i].s, v)
    case _ => false
  }

  // The keywords that look at the instance alone (Validation 6.1-6.3, 6.5.3).
  predicate AssertionsHold(st: Strings, m: map<string, Value>, v: Value) {
    && ("type" in m ==> HasType(m["type"], v))
    && ("const" in m ==> v == m["const"])
    && ("minimum" in m ==> m["minimum"].Num? && (v.Num? ==> m["minimum"].n <= v.n))
    && ("maximum" in m ==> m["maximum"].Num? && (v.Num? ==> v.n <= m["maximum"].n))
    && ("minLength" in m ==> m["minLength"].Num? && (v.Str? ==> m["minLength"].n <= |v.s| as real))
    && ("maxLength" in m ==> m["maxLength"].Num? && (v.Str? ==> |v.s| as real <= m["maxLength"].n))
    && ("pattern" in m ==> m["pattern"].Str? && (v.Str? ==> st.pattern(m["pattern"].s, v.s)))
    && ("format" in m ==> m["format"].Str? && (v.Str? ==> st.format(m["format"].s, v.s)))
    && ("required" in m ==> m["required"].Arr? && (v.Obj? ==>
          forall i :: 0 <= i < |m["required"].items| ==>
            m["required"].items[i].Str? && m["required"].items[i].s in v.members))
  }

  // The number of entries of an object that holds definitions.
  function Entries(v: Option<Value>): nat {
    if v.Some? && v.value.Obj? then |v.value.members| else 0
  }

  function At(v: Option<Value>, key: string): Option<Value> {
    if v.Some? && v.value.Obj? && key in v.value.members then Some(v.value.members[key]) else None
  }

  // A chain of references applied to one instance location that is longer than this visits a
  // definition twice, and would go on forever (Core 9.4.1); such a chain validates nothing. The
  // definitions are those of a schema of its own, or the shared ones of an API document.
  function HopLimit(root: Value): (n: nat)
    ensures n > 0
  {
    1 + Entries(At(Some(root), "$defs")) + Entries(At(At(Some(root), "components"), "schemas"))
  }

  // Instance `v` is valid under `schema`, a subschema of the document `root`.
  ghost predicate Validates(st: Strings, root: Value, schema: Value, v: Value, hops: nat)
    decreases v, 1, hops, schema, 2
  {
    match schema
    case Bool(b) => b
    case Obj(m) =>
      && AssertionsHold(st, m, v)
      && ("$ref" in m ==> RefHolds(st, root, m["$ref"], v, hops))
      && ("anyOf" in m ==> AnyHolds(st, root, m["anyOf"], v, hops))
      && ("oneOf" in m ==> OneHolds(st, root, m["oneOf"], v, hops))
      && ("items" in m ==> ItemsHold(st, root, m["items"], v))
      && ("properties" in m ==> PropertiesHold(st, root, m["properties"], v))
      && ("additionalProperties" in m ==>
            ExtrasHold(st, root, if "properties" in m then m["properties"] else Null, m["additionalProperties"], v))
    case _ => false
  }

  // Core 8.2.3.1
  ghost predicate RefHolds(st: Strings, root: Value, reference: Value, v: Value, hops: nat)
    decreases v, 1, hops, reference, 0
  {
    && reference.Str? && hops > 0
    && Resolve(root, reference.s).Some?
    && Validates(st, root, Resolve(root, reference.s).value, v, hops - 1)
  }

  // Core 10.2.1.2
  ghost predicate AnyHolds(st: Strings, root: Value, branches: Value, v: Value, hops: nat)
    decreases v, 1, hops, branches, 1
  {
    branches.Arr? && exists i :: 0 <= i < |branches.items| && Validates(st, root, branches.items[i], v, hops)
  }

  // Core 10.2.1.3
  ghost predicate OneHolds(st: Strings, root: Value, branches: Value, v: Value, hops: nat)
    decreases v, 1, hops, branches, 1
  {
    branches.Arr? && exists i: nat :: HoldsOnlyAt(st, root, branches, v, hops, i)
  }

  ghost predicate HoldsOnlyAt(st: Strings, root: Value, branches: Value, v: Value, hops: nat, i: nat)
    requires branches.Arr?
    decreases v, 1, hops, branches, 0
  {
    && i < |branches.items|
    && forall j :: 0 <= j < |branches.items| ==> (Validates(st, root, branches.items[j], v, hops) <==> j == i)
  }

  // Core 10.3.1.2
  ghost predicate ItemsHold(st: Strings, root: Value, items: Value, v: Value)
    decreases v, 0
  {
    v.Arr? ==> forall i :: 0 <= i < |v.items| ==> Validates(st, root, items, v.items[i], HopLimit(root))
  }

  // Core 10.3.2.1
  ghost predicate PropertiesHold(st: Strings, root: Value, props: Value, v: Value)
    decreases v, 0
  {
    props.Obj?
    && (v.Obj? ==> forall k :: k in props.members && k in v.members ==>
          Validates(st, root, props.members[k], v.members[k], HopLimit(root)))
  }

  // Core 10.3.2.3
  ghost predicate ExtrasHold(st: Strings, root: Value, props: Value, extras: Value, v: Value)
    decreases v, 0
  {
    v.Obj? ==> forall k :: k in v.members && !(props.Obj? && k in props.members) ==>
                 Validates(st, root, extras, v.members[k], HopLimit(root))
  }

  // A whole document applied to an instance.
  ghost predicate Accepts(st: Strings, document: Value, v: Value) {
    Validates(st, document, document, v, HopLimit(document))
  }

  const KEYWORDS := {"type", "const", "minimum", "maximum", "minLength", "maxLength", "pattern", "format", "required",
                     "$ref", "anyOf", "oneOf", "items", "properties", "additionalProperties"}

  ghost predicate SameKeywords(m: map<string, Value>, m': map<string, Value>) {
    forall k :: k in KEYWORDS ==> (k in m <==> k in m') && (k in m ==> m[k] == m'[k])
  }

  lemma SameKeywordsAssert(st: Strings, m: map<string, Value>, m': map<string, Value>, v: Value)
    requires SameKeywords(m, m')
    ensures AssertionsHold(st, m, v) <==> AssertionsHold(st, m', v)
  {
  }

  // Only the keywords matter: two objects that agree on them validate the same instances.
  lemma {:induction false} SameKeywordsValidate(st: Strings, root: Value, m: map<string, Value>, m': map<string, Value>, v: Value, hops: nat)
    requires SameKeywords(m, m')
    requires Validates(st, root, Obj(m), v, hops)
    ensures Validates(st, root, Obj(m'), v, hops)
  {
    SameKeywordsAssert(st, m, m', v);
    assert forall k :: k in {"$ref", "anyOf", "oneOf", "items", "properties", "additionalProperties"} ==> k in KEYWORDS;
  }

  // `description` and `$defs` assert nothing.
  lemma AnnotationIgnored(st: Strings, root: Value, m: map<string, Value>, key: string, note: Value, v: Value, hops: nat)
    requires key !in KEYWORDS
    ensures Validates(st, root, Obj(m[key := note]), v, hops) <==> Validates(st, root, Obj(m), v, hops)
  {
    if Validates(st, root, Obj(m), v, hops) {
      SameKeywordsValidate(st, root, m, m[key := note], v, hops);
    }
    if Validates(st, root, Obj(m[key := note]), v, hops) {
      SameKeywordsValidate(st, root, m[key := note], m, v, hops);
    }
  }
}
