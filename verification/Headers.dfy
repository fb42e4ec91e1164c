// The connect header: printed by the client (src/model/endpoint.rs), parsed by the server
// (src/libs/ws/headers.rs). A list of pieces, each led by one character that says what it is: `0`
// the endpoint, `1` to `9` its parameters.
module Headers {
  import opened Wrappers
  import opened Json
  import opened Types
  import opened Decimals
  import Percent

  // Text.

  function LowerChar(c: char): char {
    if 'A' <= c <= 'Z' then (c as int + 32) as char else c
  }

  function Lower(s: string): string {
    seq(|s|, i requires 0 <= i < |s| => LowerChar(s[i]))
  }

  // The White_Space property of Unicode, which `trim` goes by.
  predicate IsSpace(c: char) {
    var n := c as int;
    || 0x09 <= n <= 0x0D || n == 0x20 || n == 0x85 || n == 0xA0 || n == 0x1680 || 0x2000 <= n <= 0x200A
    || n == 0x2028 || n == 0x2029 || n == 0x202F || n == 0x205F || n == 0x3000
  }

  function TrimStart(s: string): string {
    if s != "" && IsSpace(s[0]) then TrimStart(s[1..]) else s
  }

  function TrimEnd(s: string): string {
    if s != "" && IsSpace(s[|s| - 1]) then TrimEnd(s[..|s| - 1]) else s
  }

  function Trim(s: string): string {
    TrimEnd(TrimStart(s))
  }

  predicate EndsInSpace(s: string) {
    s != "" && IsSpace(s[|s| - 1])
  }

  function Split(s: string): (pieces: seq<string>)
    ensures pieces != []
  {
    if s == "" then [""]
    else if s[0] == ',' then [""] + Split(s[1..])
    else
      var rest := Split(s[1..]);
      [[s[0]] + rest[0]] + rest[1..]
  }

  function Join(pieces: seq<string>): string
    requires pieces != []
  {
    if |pieces| == 1 then pieces[0] else pieces[0] + "," + Join(pieces[1..])
  }

  // The text of a value, as serde_json prints it.

  function Escaped(c: char): string {
    var n := c as int;
    if c == '\"' then "\\\""
    else if c == '\\' then "\\\\"
    else if n == 0x08 then "\\b"
    else if n == 0x0C then "\\f"
    else if c == '\n' then "\\n"
    else if c == '\r' then "\\r"
    else if c == '\t' then "\\t"
    else if n < 0x20 then "\\u00" + ["01"[n / 16], "0123456789abcdef"[n % 16]]
    else [c]
  }

  function Escape(s: string): string {
    if s == "" then "" else Escaped(s[0]) + Escape(s[1..])
  }

  // What the value alone does not settle: whether a number is held as an integer or as a float,
  // and how a float, an array or an object is printed. A float never looks like an integer.
  type FloatText = s: string | '.' in s || 'e' in s witness "0.0"
  datatype Printing = Printing(integer: bool, float: FloatText, composite: string)

  function JsonText(v: Value, how: Printing): string {
    match v
    case Null => "null"
    case Bool(b) => if b then "true" else "false"
    case Str(s) => "\"" + Escape(s) + "\""
    case Num(x) => if how.integer && x == x.Floor as real then Decimal(x.Floor) else how.float
    case _ => how.composite
  }

  function Unquoted(s: string): string {
    if s == "" then "" else if s[0] == '\"' then Unquoted(s[1..]) else [s[0]] + Unquoted(s[1..])
  }

  function ParamText(v: Value, how: Printing): string {
    Percent.Encode(Unquoted(JsonText(v, how)))
  }

  // Printing.

  predicate HasKeys(camel: string -> string, fields: seq<Field>, v: Value) {
    forall i :: 0 <= i < |fields| ==> v.Obj? && camel(fields[i].name) in v.members
  }

  function ParamOf(camel: string -> string, fields: seq<Field>, v: Value, i: nat): Value
    requires i < |fields| && HasKeys(camel, fields, v)
  {
    v.members[camel(fields[i].name)]
  }

  function TextOf(camel: string -> string, fields: seq<Field>, v: Value, printing: string -> Printing, i: nat): string
    requires i < |fields| && HasKeys(camel, fields, v)
  {
    ParamText(ParamOf(camel, fields, v, i), printing(camel(fields[i].name)))
  }

  function Pieces(camel: string -> string, name: string, fields: seq<Field>, v: Value, printing: string -> Printing, n: nat): (ps: seq<string>)
    requires n <= |fields| && HasKeys(camel, fields, v)
    ensures ps != [] && ps[0] == "0" + Lower(name)
  {
    if n == 0 then ["0" + Lower(name)]
    else
      var before := Pieces(camel, name, fields, v, printing, n - 1);
      var p := ParamOf(camel, fields, v, n - 1);
      if p.Null? then before else before + [" " + Decimal(n) + TextOf(camel, fields, v, printing, n - 1)]
  }

  // One turn of the printing loop.
  lemma PieceMore(camel: string -> string, name: string, fields: seq<Field>, v: Value, printing: string -> Printing, i: nat)
    requires i < |fields| && HasKeys(camel, fields[..i], v) && v.Obj? && camel(fields[i].name) in v.members
    ensures HasKeys(camel, fields[..i + 1], v)
    ensures var p := v.members[camel(fields[i].name)];
      Join(Pieces(camel, name, fields[..i + 1], v, printing, i + 1)) ==
        Join(Pieces(camel, name, fields[..i], v, printing, i)) + (if p.Null? then "" else ", " + Decimal(i + 1) + ParamText(p, printing(camel(fields[i].name))))
  {
    hide Join, ParamText, Decimal, Lower;
    var fields' := fields[..i + 1];
    assert fields'[i] == fields[i] && HasKeys(camel, fields', v);
    PiecesPrefix(camel, name, fields[..i], fields', v, printing, i);
    var before := Pieces(camel, name, fields[..i], v, printing, i);
    var p := v.members[camel(fields[i].name)];
    assert ParamOf(camel, fields', v, i) == p;
    hide HasKeys;
    if !p.Null? {
      var piece := " " + Decimal(i + 1) + ParamText(p, printing(camel(fields[i].name)));
      assert Pieces(camel, name, fields', v, printing, i + 1) == before + [piece];
      JoinMore(before, piece);
      assert "," + piece == ", " + Decimal(i + 1) + ParamText(p, printing(camel(fields[i].name)));
      assert Join(before) + "," + piece == Join(before) + ("," + piece);
    } else {
      assert Pieces(camel, name, fields', v, printing, i + 1) == before;
      assert Join(before) + "" == Join(before);
    }
  }

  method EncodeHeader(camel: string -> string, name: string, fields: seq<Field>, v: Value, printing: string -> Printing)
    returns (r: Result<string, string>)
    ensures r.Ok? <==> HasKeys(camel, fields, v)
    ensures r.Ok? ==> r.value == Join(Pieces(camel, name, fields, v, printing, |fields|))
    ensures r.Err? ==> exists i :: 0 <= i < |fields| && r.error == "key: " + camel(fields[i].name)
  {
    var s := "0" + Lower(name);
    assert s == Join(Pieces(camel, name, fields[..0], v, printing, 0));
    hide Pieces, Join, ParamText, Decimal, Lower;
    for i := 0 to |fields|
      invariant HasKeys(camel, fields[..i], v)
      invariant s == Join(Pieces(camel, name, fields[..i], v, printing, i))
    {
      var key := camel(fields[i].name);
      if !v.Obj? || key !in v.members {
        return Err("key: " + key);
      }
      PieceMore(camel, name, fields, v, printing, i);
      var value := v.members[key];
      if !value.Null? {
        var piece := ", " + Decimal(i + 1) + ParamText(value, printing(key));
        s := s + piece;
      } else {
        assert s == s + "";
      }
    }
    assert fields[..|fields|] == fields;
    r := Ok(s);
  }

  lemma {:induction false} PiecesPrefix(camel: string -> string, name: string, fields: seq<Field>, fields': seq<Field>, v: Value,
                                        printing: string -> Printing, n: nat)
    requires n <= |fields| && fields <= fields' && HasKeys(camel, fields, v) && HasKeys(camel, fields', v)
    ensures Pieces(camel, name, fields, v, printing, n) == Pieces(camel, name, fields', v, printing, n)
  {
    if n > 0 {
      PiecesPrefix(camel, name, fields, fields', v, printing, n - 1);
    }
  }

  lemma {:induction false} JoinMore(pieces: seq<string>, p: string)
    requires pieces != []
    ensures Join(pieces + [p]) == Join(pieces) + "," + p
  {
    if |pieces| > 1 {
      JoinMore(pieces[1..], p);
      assert (pieces + [p])[1..] == pieces[1..] + [p];
      assert pieces[0] + "," + (Join(pieces[1..]) + "," + p) == pieces[0] + "," + Join(pieces[1..]) + "," + p;
    } else {
      assert (pieces + [p])[1..] == [p];
    }
  }

  // Parsing.

  function Collect(pieces: seq<string>): map<string, string> {
    if pieces == [] then map[]
    else
      var before := Collect(pieces[..|pieces| - 1]);
      var x := Trim(pieces[|pieces| - 1]);
      if x != "" && IsDigit(x[0]) then before[x[..1] := x[1..]] else before
  }

  function ParseProtocolHeader(header: string): map<string, string> {
    Collect(Split(header))
  }

  function ParseTy(ty: Type, value: string): Result<Value, string> {
    match ty
    case String =>
      var decoded := Percent.Decode(value);
      if decoded.Some? then Ok(Str(decoded.value)) else Err("invalid utf-8 sequence")
    case Int64 =>
      var n := ParseI64(value);
      if n.Some? then Ok(Int(n.value)) else Err("Failed to parse integer: " + value)
    case Boolean =>
      if value == "true" then Ok(Bool(true)) else if value == "false" then Ok(Bool(false))
      else Err("Failed to parse boolean: " + value)
    case Enum(_, _) => Ok(Str(value))
    case EnumRef(_, _) => Ok(Str(value))
    case UUID => Ok(Str(value))
    case NanoId(_) => Ok(Str(value))
    case BlockchainAddress => Ok(Str(value))
    case Optional(inner) => ParseTy(inner, value)
    case _ => Err("Not implemented")
  }

  function Params(camel: string -> string, fields: seq<Field>, splits: map<string, string>, n: nat): Result<map<string, Value>, string>
    requires n <= |fields|
  {
    if n == 0 then Ok(map[])
    else
      var before := Params(camel, fields, splits, n - 1);
      var f := fields[n - 1];
      if before.Err? then before
      else if Decimal(n) in splits then
        match ParseTy(f.ty, splits[Decimal(n)])
        case Err(e) => Err(e)
        case Ok(v) => Ok(before.value[camel(f.name) := v])
      else if !f.ty.Optional? then Err("Could not find param " + f.name)
      else before
  }

  method ParseParams(camel: string -> string, fields: seq<Field>, splits: map<string, string>)
    returns (r: Result<map<string, Value>, string>)
    ensures r == Params(camel, fields, splits, |fields|)
  {
    var params: map<string, Value> := map[];
    for i := 0 to |fields|
      invariant Params(camel, fields, splits, i) == Ok(params)
    {
      var index := Decimal(i + 1);
      if index in splits {
        var value := ParseTy(fields[i].ty, splits[index]);
        if value.Err? {
          FirstErrorStays(camel, fields, splits, i + 1, |fields|);
          return Err(value.error);
        }
        params := params[camel(fields[i].name) := value.value];
      } else if !fields[i].ty.Optional? {
        FirstErrorStays(camel, fields, splits, i + 1, |fields|);
        return Err("Could not find param " + fields[i].name);
      }
    }
    r := Ok(params);
  }

  lemma {:induction false} FirstErrorStays(camel: string -> string, fields: seq<Field>, splits: map<string, string>, i: nat, n: nat)
    requires i <= n <= |fields| && Params(camel, fields, splits, i).Err?
    ensures Params(camel, fields, splits, n) == Params(camel, fields, splits, i)
    decreases n
  {
    if i < n {
      FirstErrorStays(camel, fields, splits, i, n - 1);
    }
  }

  // Splitting undoes joining.

  predicate NoComma(s: string) {
    ',' !in s
  }

  lemma {:induction false} SplitPiece(a: string, rest: string)
    requires NoComma(a)
    ensures Split(a) == [a]
    ensures Split(a + "," + rest) == [a] + Split(rest)
  {
    if a == "" {
      assert a + "," + rest == "," + rest && ("," + rest)[1..] == rest;
    } else {
      assert ',' !in a[1..];
      SplitPiece(a[1..], rest);
      assert (a + "," + rest)[1..] == a[1..] + "," + rest;
      assert [a[0]] + a[1..] == a;
    }
  }

  lemma {:induction false} SplitJoin(pieces: seq<string>)
    requires pieces != [] && forall i :: 0 <= i < |pieces| ==> NoComma(pieces[i])
    ensures Split(Join(pieces)) == pieces
  {
    if |pieces| == 1 {
      SplitPiece(pieces[0], "");
    } else {
      SplitJoin(pieces[1..]);
      SplitPiece(pieces[0], Join(pieces[1..]));
    }
  }

  lemma {:induction false} SplitHasNoCommas(s: string)
    ensures forall i :: 0 <= i < |Split(s)| ==> NoComma(Split(s)[i])
  {
    if s != "" {
      SplitHasNoCommas(s[1..]);
      var rest := Split(s[1..]);
      assert NoComma(rest[0]);
      forall i | 0 <= i < |Split(s)|
        ensures NoComma(Split(s)[i])
      {
        if s[0] == ',' {
          assert i > 0 ==> Split(s)[i] == rest[i - 1];
        } else if i == 0 {
          assert Split(s)[0] == [s[0]] + rest[0];
        } else {
          assert Split(s)[i] == rest[i];
        }
      }
    }
  }

  // Trimming.

  lemma {:induction false} TrimEndEnds(s: string)
    ensures !EndsInSpace(TrimEnd(s)) && TrimEnd(s) <= s
    ensures !EndsInSpace(s) ==> TrimEnd(s) == s
  {
    if EndsInSpace(s) {
      TrimEndEnds(s[..|s| - 1]);
    }
  }

  lemma {:induction false} TrimStartKeeps(s: string)
    ensures forall c :: c in TrimStart(s) ==> c in s
  {
    if s != "" && IsSpace(s[0]) {
      TrimStartKeeps(s[1..]);
    }
  }

  // A tight string, alone or after one blank, is what trimming leaves.
  lemma TrimTight(s: string)
    requires s != "" && !IsSpace(s[0]) && !EndsInSpace(s)
    ensures Trim(s) == s && Trim(" " + s) == s
  {
    assert (" " + s)[1..] == s;
    TrimEndEnds(s);
  }

  // Whatever was parsed from a header holds no comma and does not end in a blank.
  lemma {:induction false} CollectedIsTight(pieces: seq<string>, k: string)
    requires forall i :: 0 <= i < |pieces| ==> NoComma(pieces[i])
    requires k in Collect(pieces)
    ensures NoComma(Collect(pieces)[k]) && !EndsInSpace(Collect(pieces)[k])
  {
    var last := pieces[|pieces| - 1];
    var x := Trim(last);
    if x != "" && IsDigit(x[0]) && x[..1] == k {
      TrimStartKeeps(last);
      TrimEndEnds(TrimStart(last));
      assert NoComma(last);
    } else {
      CollectedIsTight(pieces[..|pieces| - 1], k);
    }
  }

  // The parameters' pieces.

  lemma TokenIsTight(n: nat, token: string)
    requires n > 0 && Percent.IsToken(token)
    ensures var s := Decimal(n) + token;
      && s != "" && !IsSpace(s[0]) && !EndsInSpace(s) && NoComma(" " + s)
      && IsDigit(s[0]) && s[0] != '0'
  {
    DigitsValue(n);
    LeadingDigit(n);
    var s := Decimal(n) + token;
    hide Digits;
    forall i | 0 <= i < |s|
      ensures !IsSpace(s[i]) && s[i] != ','
    {
      if i < |Digits(n)| {
        assert IsDigit(Digits(n)[i]);
      } else {
        assert s[i] == token[i - |Digits(n)|];
      }
    }
  }

  lemma {:induction false} LeadingDigit(n: nat)
    requires n > 0
    ensures Digits(n) != "" && Digits(n)[0] != '0'
  {
    if n >= 10 {
      LeadingDigit(n / 10);
    }
  }

  // The piece of parameter `n` files its text under the first digit of `n`, with the other digits
  // in front of it.
  lemma ParamPiece(pieces: seq<string>, n: nat, token: string)
    requires n > 0 && Percent.IsToken(token)
    ensures var s := Decimal(n) + token;
      && s != "" && s[0] != '0' && NoComma(" " + Decimal(n) + token)
      && Collect(pieces + [" " + Decimal(n) + token]) == Collect(pieces)[s[..1] := s[1..]]
  {
    var s := Decimal(n) + token;
    TokenIsTight(n, token);
    TrimTight(s);
    assert " " + Decimal(n) + token == " " + s;
    assert (pieces + [" " + s])[..|pieces|] == pieces;
    hide Trim, Digits, Decimal;
  }

  // The method. It comes back, however many parameters follow, exactly when the endpoint's name
  // holds no comma and does not end in a blank.
  lemma MethodComesBackIff(camel: string -> string, name: string, fields: seq<Field>, v: Value, printing: string -> Printing)
    requires HasKeys(camel, fields, v)
    ensures var splits := ParseProtocolHeader(Join(Pieces(camel, name, fields, v, printing, |fields|)));
      "0" in splits && splits["0"] == Lower(name) <==> NoComma(name) && !EndsInSpace(name)
  {
    var header := Join(Pieces(camel, name, fields, v, printing, |fields|));
    var splits := ParseProtocolHeader(header);
    LowerKeeps(name);
    if "0" in splits && splits["0"] == Lower(name) {
      SplitHasNoCommas(header);
      CollectedIsTight(Split(header), "0");
    }
    if NoComma(name) && !EndsInSpace(name) {
      PiecesParse(camel, name, fields, v, printing, |fields|);
      SplitJoin(Pieces(camel, name, fields, v, printing, |fields|));
    }
    hide Lower, IsSpace;
  }

  lemma LowerKeeps(name: string)
    ensures NoComma(Lower(name)) <==> NoComma(name)
    ensures EndsInSpace(Lower(name)) <==> EndsInSpace(name)
  {
    assert forall i :: 0 <= i < |name| ==> (Lower(name)[i] == ',' <==> name[i] == ',');
  }

  lemma FirstPiece(name: string)
    requires NoComma(name) && !EndsInSpace(name)
    ensures NoComma("0" + Lower(name)) && Collect(["0" + Lower(name)]) == map["0" := Lower(name)]
  {
    LowerKeeps(name);
    hide Lower;
    var first := "0" + Lower(name);
    assert first[|first| - 1] == if Lower(name) == "" then '0' else Lower(name)[|Lower(name)| - 1];
    TrimTight(first);
    assert [first][..0] == [];
    assert first[..1] == "0" && first[1..] == Lower(name);
    hide Trim;
  }

  // What the last of `n` pieces adds, if its parameter is not null.
  lemma LastPiece(camel: string -> string, name: string, fields: seq<Field>, v: Value, printing: string -> Printing, n: nat)
    requires 0 < n <= |fields| && HasKeys(camel, fields, v) && !ParamOf(camel, fields, v, n - 1).Null?
    ensures var text := TextOf(camel, fields, v, printing, n - 1);
      var s := Decimal(n) + text;
      var before := Pieces(camel, name, fields, v, printing, n - 1);
      && Pieces(camel, name, fields, v, printing, n) == before + [" " + Decimal(n) + text]
      && s != "" && s[0] != '0' && NoComma(" " + Decimal(n) + text)
      && Collect(Pieces(camel, name, fields, v, printing, n)) == Collect(before)[s[..1] := s[1..]]
  {
    var p := ParamOf(camel, fields, v, n - 1);
    Percent.TextIsToken(Unquoted(JsonText(p, printing(camel(fields[n - 1].name)))));
    ParamPiece(Pieces(camel, name, fields, v, printing, n - 1), n, TextOf(camel, fields, v, printing, n - 1));
    hide Collect, Decimal, ParamText;
  }

  lemma {:induction false} PiecesParse(camel: string -> string, name: string, fields: seq<Field>, v: Value, printing: string -> Printing, n: nat)
    requires n <= |fields| && HasKeys(camel, fields, v) && NoComma(name) && !EndsInSpace(name)
    ensures var ps := Pieces(camel, name, fields, v, printing, n);
      && (forall i :: 0 <= i < |ps| ==> NoComma(ps[i]))
      && "0" in Collect(ps) && Collect(ps)["0"] == Lower(name)
  {
    hide Collect, Decimal, ParamText, Lower, HasKeys, NoComma, EndsInSpace;
    if n == 0 {
      FirstPiece(name);
    } else {
      PiecesParse(camel, name, fields, v, printing, n - 1);
      if !ParamOf(camel, fields, v, n - 1).Null? {
        LastPiece(camel, name, fields, v, printing, n);
      }
    }
  }

  // The parameters. Each is filed under the first digit of its number, so those past the ninth
  // share an entry with an earlier one. This is the number of the last of the first `n` that has a
  // text and is filed under `d`, or zero.
  function LastUnder(camel: string -> string, fields: seq<Field>, v: Value, n: nat, d: char): (k: nat)
    requires n <= |fields| && HasKeys(camel, fields, v)
    ensures k <= n
  {
    if n == 0 then 0
    else if !ParamOf(camel, fields, v, n - 1).Null? && Digits(n) != "" && Digits(n)[0] == d then n
    else LastUnder(camel, fields, v, n - 1, d)
  }

  // Entry `d` is the text of that parameter, led by the other digits of its number.
  ghost predicate FiledUnder(camel: string -> string, fields: seq<Field>, v: Value, printing: string -> Printing, n: nat,
                             splits: map<string, string>, d: char)
    requires n <= |fields| && HasKeys(camel, fields, v)
  {
    var k := LastUnder(camel, fields, v, n, d);
    && ([d] in splits <==> k != 0)
    && (k != 0 ==> Digits(k) != "" && splits[[d]] == Digits(k)[1..] + TextOf(camel, fields, v, printing, k - 1))
  }

  lemma {:induction false} CollectedUnder(camel: string -> string, name: string, fields: seq<Field>, v: Value, printing: string -> Printing,
                                          n: nat, d: char)
    requires n <= |fields| && HasKeys(camel, fields, v) && NoComma(name) && !EndsInSpace(name) && d != '0'
    ensures FiledUnder(camel, fields, v, printing, n, Collect(Pieces(camel, name, fields, v, printing, n)), d)
  {
    hide Collect, ParamText, NoComma, EndsInSpace, HasKeys;
    if n == 0 {
      FirstPiece(name);
    } else {
      CollectedUnder(camel, name, fields, v, printing, n - 1, d);
      if !ParamOf(camel, fields, v, n - 1).Null? {
        LastPiece(camel, name, fields, v, printing, n);
        LeadingDigit(n);
        hide Digits;
        var text := TextOf(camel, fields, v, printing, n - 1);
        var s := Decimal(n) + text;
        assert s[..1] == [Digits(n)[0]] && s[1..] == Digits(n)[1..] + text;
      }
    }
  }

  // What comes back of a header, with any number of parameters: the method, an entry for each
  // digit that some parameter with a text is filed under, and nothing else.
  lemma HeaderComesBack(camel: string -> string, name: string, fields: seq<Field>, v: Value, printing: string -> Printing)
    requires HasKeys(camel, fields, v) && NoComma(name) && !EndsInSpace(name)
    ensures var splits := ParseProtocolHeader(Join(Pieces(camel, name, fields, v, printing, |fields|)));
      && "0" in splits && splits["0"] == Lower(name)
      && (forall k :: k in splits ==> |k| == 1)
      && (forall d :: d != '0' ==> FiledUnder(camel, fields, v, printing, |fields|, splits, d))
  {
    PiecesParse(camel, name, fields, v, printing, |fields|);
    var pieces := Pieces(camel, name, fields, v, printing, |fields|);
    SplitJoin(pieces);
    KeysAreShort(pieces);
    forall d | d != '0'
      ensures FiledUnder(camel, fields, v, printing, |fields|, Collect(pieces), d)
    {
      CollectedUnder(camel, name, fields, v, printing, |fields|, d);
    }
    hide FiledUnder, Collect, Pieces, Join, Split;
  }

  // While the parameters past the ninth are null, nobody shares.
  lemma {:induction false} FirstNineAlone(camel: string -> string, fields: seq<Field>, v: Value, n: nat, i: nat)
    requires n <= |fields| && HasKeys(camel, fields, v) && i < 9
    requires forall j :: 9 <= j < n ==> ParamOf(camel, fields, v, j).Null?
    ensures LastUnder(camel, fields, v, n, DigitOf(i + 1)) == if i < n && !ParamOf(camel, fields, v, i).Null? then i + 1 else 0
  {
    if n > 0 {
      FirstNineAlone(camel, fields, v, n - 1, i);
      if n <= 9 {
        assert Digits(n) == [DigitOf(n)];
      }
    }
  }

  // The server never finds a parameter past the ninth: if one is required, no header will do.
  lemma RequiredPastNinthNeverParses(camel: string -> string, fields: seq<Field>, header: string, i: nat)
    requires 9 <= i < |fields| && !fields[i].ty.Optional?
    ensures Params(camel, fields, ParseProtocolHeader(header), |fields|).Err?
  {
    hide *;
    HeaderKeysAreShort(header);
    LongNumber(i + 1);
    MissingIsError(camel, fields, ParseProtocolHeader(header), i);
  }

  lemma HeaderKeysAreShort(header: string)
    ensures forall k :: k in ParseProtocolHeader(header) ==> |k| == 1
  {
    KeysAreShort(Split(header));
    hide Split, Collect;
  }

  lemma MissingIsError(camel: string -> string, fields: seq<Field>, splits: map<string, string>, i: nat)
    requires i < |fields| && !fields[i].ty.Optional? && Decimal(i + 1) !in splits
    ensures Params(camel, fields, splits, |fields|).Err?
  {
    hide Decimal, ParseTy;
    assert Params(camel, fields, splits, i + 1).Err?;
    FirstErrorStays(camel, fields, splits, i + 1, |fields|);
  }

  lemma LongNumber(n: nat)
    requires n >= 10
    ensures |Decimal(n)| >= 2
  {
    DigitsValue(n / 10);
  }

  lemma {:induction false} KeysAreShort(pieces: seq<string>)
    ensures forall k :: k in Collect(pieces) ==> |k| == 1
  {
    if pieces != [] {
      KeysAreShort(pieces[..|pieces| - 1]);
    }
    hide Trim;
  }

  // Values.

  predicate IsPlainChar(c: char) {
    c != '\"' && c != '\\' && c as int >= 0x20
  }

  lemma EscapedLength(c: char)
    ensures IsPlainChar(c) ==> Unquoted(Escaped(c)) == [c]
    ensures !IsPlainChar(c) ==> Unquoted(Escaped(c)) != "" && Unquoted(Escaped(c))[0] == '\\'
    ensures c == '\\' ==> |Unquoted(Escaped(c))| == 2
  {
    var e := Escaped(c);
    if |e| > 1 {
      assert Unquoted(e[1..]) == if e[1] == '\"' then Unquoted(e[2..]) else [e[1]] + Unquoted(e[2..]);
    }
  }

  lemma {:induction false} UnquotedJoins(a: string, b: string)
    ensures Unquoted(a + b) == Unquoted(a) + Unquoted(b)
  {
    if a == "" {
      assert a + b == b;
    } else {
      UnquotedJoins(a[1..], b);
      assert (a + b)[0] == a[0] && (a + b)[1..] == a[1..] + b;
    }
  }

  // Dropping the quotes of a printed string gives the string back exactly when it holds no
  // quote, no backslash and no control character.
  lemma {:induction false} UnquotedIsSameIff(s: string)
    ensures |Unquoted(Escape(s))| >= |s|
    ensures Unquoted(Escape(s)) == s <==> forall i :: 0 <= i < |s| ==> IsPlainChar(s[i])
  {
    if s != "" {
      UnquotedIsSameIff(s[1..]);
      UnquotedJoins(Escaped(s[0]), Escape(s[1..]));
      EscapedLength(s[0]);
      var head, tail := Unquoted(Escaped(s[0])), Unquoted(Escape(s[1..]));
      assert Unquoted(Escape(s)) == head + tail;
      hide Escaped, Unquoted, Escape;
      if IsPlainChar(s[0]) {
        SameHead(s, tail);
        assert forall i :: 0 < i < |s| ==> s[i] == s[1..][i - 1];
      } else {
        assert (head + tail)[0] == head[0] && |head + tail| == |head| + |tail|;
        assert head + tail != s;
      }
    }
  }

  lemma SameHead(s: string, tail: string)
    requires s != ""
    ensures [s[0]] + tail == s <==> tail == s[1..]
  {
    assert ([s[0]] + tail)[1..] == tail;
    assert s == [s[0]] + s[1..];
  }

  lemma StringText(s: string, how: Printing)
    ensures Unquoted(JsonText(Str(s), how)) == Unquoted(Escape(s))
  {
    UnquotedJoins("\"" + Escape(s), "\"");
    UnquotedJoins("\"", Escape(s));
    assert Unquoted("\"") == "";
    hide Escape;
  }

  lemma StringComesBackIff(s: string, how: Printing)
    ensures ParseTy(String, ParamText(Str(s), how)) == Ok(Str(s)) <==> forall i :: 0 <= i < |s| ==> IsPlainChar(s[i])
  {
    StringText(s, how);
    UnquotedIsSameIff(s);
    Percent.DecodeEncode(Unquoted(Escape(s)));
    hide Escape, Unquoted, Percent.Encode, Percent.Decode;
  }

  // Types whose text is taken as it stands come back exactly when no character of it is escaped.
  predicate IsRaw(ty: Type) {
    ty.UUID? || ty.NanoId? || ty.BlockchainAddress? || ty.Enum? || ty.EnumRef?
  }

  lemma RawComesBackIff(ty: Type, s: string, how: Printing)
    requires IsRaw(ty)
    ensures ParseTy(ty, ParamText(Str(s), how)) == Ok(Str(s)) <==> forall i :: 0 <= i < |s| ==> Percent.IsUnreserved(s[i])
  {
    TextIsSameIff(s, how);
    hide ParamText, Percent.IsUnreserved, Percent.Decode;
  }

  lemma TextIsSameIff(s: string, how: Printing)
    ensures ParamText(Str(s), how) == s <==> forall i :: 0 <= i < |s| ==> Percent.IsUnreserved(s[i])
  {
    StringText(s, how);
    UnquotedIsSameIff(s);
    var text := Unquoted(Escape(s));
    Percent.EncodedIsSameIff(text);
    assert ParamText(Str(s), how) == Percent.Encode(text);
    hide Escape, Unquoted, Percent.Encode, Percent.IsUnreserved, IsPlainChar, JsonText, ParamText;
    if forall i :: 0 <= i < |s| ==> Percent.IsUnreserved(s[i]) {
      forall i | 0 <= i < |s|
        ensures IsPlainChar(s[i])
      {
        UnreservedIsPlain(s[i]);
      }
    }
  }

  lemma UnreservedIsPlain(c: char)
    requires Percent.IsUnreserved(c)
    ensures IsPlainChar(c)
  {
  }

  lemma {:induction false} UnquotedToken(s: string)
    requires forall i :: 0 <= i < |s| ==> Percent.IsUnreserved(s[i])
    ensures Percent.Encode(Unquoted(s)) == s
  {
    assert Unquoted(s) == s by {
      NothingToUnquote(s);
    }
    Percent.EncodedIsSameIff(s);
  }

  lemma {:induction false} NothingToUnquote(s: string)
    requires '\"' !in s
    ensures Unquoted(s) == s
  {
    if s != "" {
      NothingToUnquote(s[1..]);
    }
  }

  // A 64-bit integer comes back if and only if it is held as an integer: the text of a float is
  // not one that `i64` reads.
  lemma IntegerComesBackIff(n: i64, how: Printing)
    ensures ParseTy(Int64, ParamText(Int(n), how)) == Ok(Int(n)) <==> how.integer
  {
    var m: int := n;
    assert (m as real).Floor == m;
    hide ParseI64, Digits;
    if how.integer {
      DecimalIsToken(n);
      UnquotedToken(Decimal(n));
      ParseDecimal(n);
    } else {
      FloatIsNoInteger(how.float);
    }
  }

  lemma DecimalIsToken(n: int)
    ensures forall i :: 0 <= i < |Decimal(n)| ==> Percent.IsUnreserved(Decimal(n)[i])
  {
    DigitsValue(if n < 0 then -n else n);
    hide Digits;
    assert forall c :: IsDigit(c) ==> Percent.IsUnreserved(c);
  }

  lemma FloatIsNoInteger(text: FloatText)
    ensures ParseI64(Percent.Encode(Unquoted(text))).None?
  {
    var c := if '.' in text then '.' else 'e';
    UnquotedKeeps(text, c);
    Percent.EncodeKeeps(Unquoted(text), c);
    NotAnInteger(Percent.Encode(Unquoted(text)), c);
    hide *;
  }

  lemma {:induction false} UnquotedKeeps(s: string, c: char)
    requires c in s && c != '\"'
    ensures c in Unquoted(s)
  {
    if s[0] != c {
      assert c in s[1..];
      UnquotedKeeps(s[1..], c);
    }
  }

  lemma BooleanComesBack(b: bool, how: Printing)
    ensures ParseTy(Boolean, ParamText(Bool(b), how)) == Ok(Bool(b))
  {
    UnquotedToken(if b then "true" else "false");
  }

  // A value that its type gives back.
  predicate Carries(ty: Type, v: Value, how: Printing) {
    match ty
    case String => v.Str? && forall i :: 0 <= i < |v.s| ==> IsPlainChar(v.s[i])
    case Int64 => how.integer && IsInteger(v) && -0x8000_0000_0000_0000 <= v.n.Floor < 0x8000_0000_0000_0000
    case Boolean => v.Bool?
    case Optional(inner) => Carries(inner, v, how)
    case _ => IsRaw(ty) && v.Str? && forall i :: 0 <= i < |v.s| ==> Percent.IsUnreserved(v.s[i])
  }

  lemma {:induction false} ValueComesBackIff(ty: Type, v: Value, how: Printing)
    requires !v.Null?
    ensures ParseTy(ty, ParamText(v, how)) == Ok(v) <==> Carries(ty, v, how)
    decreases ty
  {
    hide ParamText, ParseI64, IsPlainChar, Percent.IsUnreserved, Percent.Decode;
    if ty.Optional? {
      ValueComesBackIff(ty.inner, v, how);
    } else if ty.String? && v.Str? {
      StringComesBackIff(v.s, how);
    } else if ty.Boolean? && v.Bool? {
      BooleanComesBack(v.b, how);
    } else if ty.Int64? {
      IntegerValueComesBackIff(v, how);
    } else if IsRaw(ty) && v.Str? {
      RawComesBackIff(ty, v.s, how);
    }
  }

  lemma IntegerValueComesBackIff(v: Value, how: Printing)
    ensures ParseTy(Int64, ParamText(v, how)) == Ok(v) <==> Carries(Int64, v, how)
  {
    hide ParamText, ParseI64;
    if IsInteger(v) && -0x8000_0000_0000_0000 <= v.n.Floor < 0x8000_0000_0000_0000 {
      IntegerComesBackIff(v.n.Floor, how);
    } else {
      var n := ParseI64(ParamText(v, how));
      assert n.Some? ==> (n.value as int as real).Floor == n.value as int;
    }
  }

  // The parameters the server should arrive at.
  function Given(camel: string -> string, fields: seq<Field>, v: Value, n: nat): map<string, Value>
    requires n <= |fields| && HasKeys(camel, fields, v)
  {
    if n == 0 then map[]
    else
      var p := ParamOf(camel, fields, v, n - 1);
      var before := Given(camel, fields, v, n - 1);
      if p.Null? then before else before[camel(fields[n - 1].name) := p]
  }

  // The client's null goes for an optional parameter, any other value is one its type carries.
  predicate Carried(camel: string -> string, fields: seq<Field>, v: Value, printing: string -> Printing, i: nat)
    requires i < |fields| && HasKeys(camel, fields, v)
  {
    var p := ParamOf(camel, fields, v, i);
    if p.Null? then fields[i].ty.Optional? else Carries(fields[i].ty, p, printing(camel(fields[i].name)))
  }

  predicate Absent(camel: string -> string, fields: seq<Field>, v: Value, i: nat)
    requires i < |fields| && HasKeys(camel, fields, v)
  {
    fields[i].ty.Optional? && ParamOf(camel, fields, v, i).Null?
  }

  predicate DistinctKeys(camel: string -> string, fields: seq<Field>) {
    forall i, j :: 0 <= i < j < |fields| ==> camel(fields[i].name) != camel(fields[j].name)
  }

  // The header has room for nine parameters, of the types it carries.
  predicate Fits(camel: string -> string, fields: seq<Field>, v: Value, printing: string -> Printing, i: nat)
    requires i < |fields| && HasKeys(camel, fields, v)
  {
    if i < 9 then Carried(camel, fields, v, printing, i) else Absent(camel, fields, v, i)
  }

  // The whole way, for any endpoint and any value: the server reads what the client printed if and
  // only if each of the first nine parameters is carried and every later one is optional and absent.
  lemma HeaderRoundTrip(camel: string -> string, name: string, fields: seq<Field>, v: Value, printing: string -> Printing)
    requires HasKeys(camel, fields, v) && NoComma(name) && !EndsInSpace(name) && DistinctKeys(camel, fields)
    ensures var splits := ParseProtocolHeader(Join(Pieces(camel, name, fields, v, printing, |fields|)));
      && "0" in splits && splits["0"] == Lower(name)
      && (Params(camel, fields, splits, |fields|) == Ok(Given(camel, fields, v, |fields|)) <==>
            forall i :: 0 <= i < |fields| ==> Fits(camel, fields, v, printing, i))
  {
    HeaderComesBack(camel, name, fields, v, printing);
    var splits := ParseProtocolHeader(Join(Pieces(camel, name, fields, v, printing, |fields|)));
    hide ParseProtocolHeader, Pieces, Join, Params, Given, Lower, NoComma, EndsInSpace, FiledUnder, DistinctKeys, Carried, Absent;
    if i :| 9 <= i < |fields| && !Absent(camel, fields, v, i) {
      assert !Fits(camel, fields, v, printing, i);
      LaterIsLost(camel, fields, v, splits, i);
    } else {
      forall i | 0 <= i < |fields|
        ensures Found(camel, fields, v, printing, splits, i)
      {
        ParamIsFound(camel, fields, v, printing, splits, i);
      }
      if i :| 0 <= i < |fields| && !Fits(camel, fields, v, printing, i) {
        EarlyIsSpoilt(camel, fields, v, printing, splits, i);
      } else {
        ParamsComeBack(camel, fields, v, printing, splits, |fields|);
      }
    }
  }

  // A parameter is found under its number with its own text, if it has one, or not at all.
  ghost predicate Found(camel: string -> string, fields: seq<Field>, v: Value, printing: string -> Printing, splits: map<string, string>, i: nat)
    requires i < |fields| && HasKeys(camel, fields, v)
  {
    && (Decimal(i + 1) in splits <==> !ParamOf(camel, fields, v, i).Null?)
    && (Decimal(i + 1) in splits ==> splits[Decimal(i + 1)] == TextOf(camel, fields, v, printing, i))
  }

  lemma ParamIsFound(camel: string -> string, fields: seq<Field>, v: Value, printing: string -> Printing, splits: map<string, string>, i: nat)
    requires i < |fields| && HasKeys(camel, fields, v)
    requires forall k :: k in splits ==> |k| == 1
    requires forall d :: d != '0' ==> FiledUnder(camel, fields, v, printing, |fields|, splits, d)
    requires forall j :: 9 <= j < |fields| ==> Absent(camel, fields, v, j)
    ensures Found(camel, fields, v, printing, splits, i)
  {
    hide TextOf, HasKeys;
    if i < 9 {
      forall j | 9 <= j < |fields|
        ensures ParamOf(camel, fields, v, j).Null?
      {
        assert Absent(camel, fields, v, j);
      }
      FirstNineAlone(camel, fields, v, |fields|, i);
      assert FiledUnder(camel, fields, v, printing, |fields|, splits, DigitOf(i + 1));
      assert Digits(i + 1) == [DigitOf(i + 1)];
      var text := TextOf(camel, fields, v, printing, i);
      assert [DigitOf(i + 1)][1..] + text == text;
    } else {
      assert Absent(camel, fields, v, i);
      LongNumber(i + 1);
    }
  }

  lemma {:induction false} ParamsComeBack(camel: string -> string, fields: seq<Field>, v: Value, printing: string -> Printing,
                                          splits: map<string, string>, n: nat)
    requires n <= |fields| && HasKeys(camel, fields, v)
    requires forall i :: 0 <= i < n ==> Found(camel, fields, v, printing, splits, i) && Fits(camel, fields, v, printing, i)
    ensures Params(camel, fields, splits, n) == Ok(Given(camel, fields, v, n))
  {
    if n > 0 {
      ParamsComeBack(camel, fields, v, printing, splits, n - 1);
      var p := ParamOf(camel, fields, v, n - 1);
      assert Found(camel, fields, v, printing, splits, n - 1) && Fits(camel, fields, v, printing, n - 1);
      if !p.Null? {
        ValueComesBackIff(fields[n - 1].ty, p, printing(camel(fields[n - 1].name)));
      }
      hide HasKeys, Carries, Decimal, ParamText, ParseTy;
    }
  }

  // A parameter that its type does not carry back spoils the outcome.
  lemma EarlyIsSpoilt(camel: string -> string, fields: seq<Field>, v: Value, printing: string -> Printing, splits: map<string, string>, i: nat)
    requires i < |fields| && HasKeys(camel, fields, v) && DistinctKeys(camel, fields)
    requires Found(camel, fields, v, printing, splits, i) && i < 9 && !Fits(camel, fields, v, printing, i)
    ensures Params(camel, fields, splits, |fields|) != Ok(Given(camel, fields, v, |fields|))
  {
    var p := ParamOf(camel, fields, v, i);
    if Params(camel, fields, splits, |fields|).Ok? {
      if p.Null? {
        MissingIsError(camel, fields, splits, i);
      } else {
        ParamsHave(camel, fields, splits, |fields|, i);
        GivenHas(camel, fields, v, |fields|, i);
        ValueComesBackIff(fields[i].ty, p, printing(camel(fields[i].name)));
      }
    }
    hide Params, Given, Decimal, HasKeys, DistinctKeys, Carries, ParamText, ParseTy;
  }

  lemma {:induction false} ParamsHave(camel: string -> string, fields: seq<Field>, splits: map<string, string>, n: nat, i: nat)
    requires i < n <= |fields| && DistinctKeys(camel, fields)
    requires Params(camel, fields, splits, n).Ok? && Decimal(i + 1) in splits
    ensures camel(fields[i].name) in Params(camel, fields, splits, n).value
    ensures ParseTy(fields[i].ty, splits[Decimal(i + 1)]) == Ok(Params(camel, fields, splits, n).value[camel(fields[i].name)])
  {
    if i < n - 1 {
      ParamsHave(camel, fields, splits, n - 1, i);
    }
    hide ParseTy, Decimal;
  }

  // A parameter past the ninth that is required or not null does not arrive.
  lemma LaterIsLost(camel: string -> string, fields: seq<Field>, v: Value, splits: map<string, string>, i: nat)
    requires 9 <= i < |fields| && HasKeys(camel, fields, v) && DistinctKeys(camel, fields) && !Absent(camel, fields, v, i)
    requires forall k :: k in splits ==> |k| == 1
    ensures Params(camel, fields, splits, |fields|) != Ok(Given(camel, fields, v, |fields|))
  {
    hide Params, Given, Decimal, HasKeys;
    var params := Params(camel, fields, splits, |fields|);
    if params.Ok? {
      if !fields[i].ty.Optional? {
        LongNumber(i + 1);
        MissingIsError(camel, fields, splits, i);
      } else {
        GivenHas(camel, fields, v, |fields|, i);
        if camel(fields[i].name) in params.value {
          ParamsAreEarly(camel, fields, splits, |fields|, camel(fields[i].name));
        }
      }
    }
  }

  lemma {:induction false} GivenHas(camel: string -> string, fields: seq<Field>, v: Value, n: nat, i: nat)
    requires i < n <= |fields| && HasKeys(camel, fields, v) && DistinctKeys(camel, fields) && !ParamOf(camel, fields, v, i).Null?
    ensures camel(fields[i].name) in Given(camel, fields, v, n)
    ensures Given(camel, fields, v, n)[camel(fields[i].name)] == ParamOf(camel, fields, v, i)
  {
    if i < n - 1 {
      GivenHas(camel, fields, v, n - 1, i);
    }
  }

  lemma {:induction false} ParamsAreEarly(camel: string -> string, fields: seq<Field>, splits: map<string, string>, n: nat, key: string)
    requires n <= |fields| && Params(camel, fields, splits, n).Ok? && key in Params(camel, fields, splits, n).value
    requires forall k :: k in splits ==> |k| == 1
    ensures exists j :: 0 <= j < n && j < 9 && key == camel(fields[j].name)
  {
    if n >= 10 {
      LongNumber(n);
    }
    if key != camel(fields[n - 1].name) || n >= 10 {
      ParamsAreEarly(camel, fields, splits, n - 1, key);
    }
    hide ParseTy, Decimal;
  }
}
