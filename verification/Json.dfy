// JSON values as serde_json holds them. Object members are unordered: nothing in the
// repository's logic depends on the order in which a `serde_json::Map` lists its keys.
module Json {

  datatype Value =
    | Null
    | Bool(b: bool)
    | Num(n: real)
    | Str(s: string)
    | Arr(items: seq<Value>)
    | Obj(members: map<string, Value>)

  // An integer literal as a JSON number.
  function Int(n: int): Value {
    Num(n as real)
  }

  // JSON Schema counts 1.0 as an integer (section 6.1.1 of JSON Schema Validation 2020-12).
  predicate IsInteger(v: Value) {
    v.Num? && v.n == v.n.Floor as real
  }
}
