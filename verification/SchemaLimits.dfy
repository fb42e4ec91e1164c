// Why the meaning of the generated schemas is stated for definition names that are distinct and
// plain: what the conversion does with the others.
module SchemaLimits {
  import opened Wrappers
  import opened Json
  import opened Types
  import opened JsonSchema
  import opened SchemaClosure
  import opened Validation
  import opened SchemaMeaning
  import opened Endpoints
  import opened ApiDocument

  const Hidden := [Field("x", "", StructRef("Missing"))]
  const Clash := [Field("a", "", Struct("A", [])), Field("b", "", Struct("A", Hidden))]

  // Two structs of one name: the second is taken for the first and never looked at, so the
  // conversion succeeds although a reference in it resolves nowhere.
  lemma NameClashHidesUnresolved(cs: Casing)
    ensures McpSchema(cs, NoTypes, Clash).Ok?
    ensures !EverythingResolves(cs, NoTypes, Clash)
  {
    var first, second := Clash[0], Clash[1];
    var name := StructDefName(cs, "A");
    var c1 := Convert(cs, NoTypes, first.ty, map[]);
    assert WalkFields(cs, NoTypes, [], map[name := Null]) == Walk(Ok([]), map[name := Null]);
    assert c1.result == Ok(RefTo(name)) && name in c1.defs;
    assert Clash[1..] == [second] && [second][1..] == [];
    assert Convert(cs, NoTypes, second.ty, c1.defs) == Conversion(Ok(RefTo(name)), c1.defs);
    assert WalkFields(cs, NoTypes, [], c1.defs).result.Ok?;
    assert WalkFields(cs, NoTypes, [second], c1.defs).result.Ok?;
    HiddenIsReachable(cs);
  }

  lemma HiddenIsReachable(cs: Casing)
    ensures !EverythingResolves(cs, NoTypes, Clash)
  {
    var d := StructDef(StructDefName(cs, "A"), Hidden);
    assert Clash[1] in Clash && d in Mentions(cs, NoTypes, FieldType(Clash[1]));
    RootReachable(cs, NoTypes, FieldMentions(cs, NoTypes, Clash), d);
    assert Hidden[0] in Hidden && !Resolves(NoTypes, FieldType(Hidden[0]));
  }

  const First := EndpointSchema("First", 1, [Clash[0]], [], None, "", [])
  const Second := EndpointSchema("Second", 2, [Clash[1]], [], None, "", [])

  // The same two structs, each in an endpoint of its own: the document collects both endpoints, and
  // then the schema of the second cannot be built.
  lemma ClashBreaksCollected(cs: Casing)
    ensures Components(cs, NoTypes, [First, Second]).Ok?
    ensures FieldsSchema(cs, NoTypes, Second.parameters).Err?
  {
    assert AllFields([First, Second]) == Clash by {
      assert [First, Second][1..] == [Second] && [Second][1..] == [];
      assert EndpointFields(First) == [Clash[0]] && EndpointFields(Second) == [Clash[1]];
      assert AllFields([Second]) == [Clash[1]] + AllFields([]);
    }
    NameClashHidesUnresolved(cs);
    SecondFails(cs);
    hide WalkFields, NoTypes;
  }

  lemma SecondFails(cs: Casing)
    ensures WalkFields(cs, NoTypes, Second.parameters, map[]).result.Err?
  {
    var name := StructDefName(cs, "A");
    assert Convert(cs, NoTypes, StructRef("Missing"), map[name := Null]).result.Err?;
    assert WalkFields(cs, NoTypes, Hidden, map[name := Null]).result.Err?;
    assert Convert(cs, NoTypes, Clash[1].ty, map[]).result.Err?;
  }

  // A name with a slash in it: the reference is read as a path, which starts at another definition
  // or nowhere and goes into it. What is filed under the name itself is not looked at.
  lemma SlashMisleads(root: map<string, Value>, defs: Defs, name: string, filed: Value)
    requires '/' in name && defs != map[]
    ensures var reference := RefTo(name).members["$ref"].s;
      && Resolve(AttachDefs(Obj(root), defs), reference) == Follow(Obj(defs), Tokens(name))
      && |Tokens(name)| >= 2 && Tokens(name)[0] != name
      && Resolve(AttachDefs(Obj(root), defs[name := filed]), reference) == Resolve(AttachDefs(Obj(root), defs), reference)
  {
    TokensHaveNoSlash(name);
    DefsReference(root, defs, name);
    DefsReference(root, defs[name := filed], name);
    var tokens := Tokens(name);
    hide Resolve, AttachDefs, Tokens;
  }

  // Hence, among names that need no decoding, those without a slash are the ones whose reference
  // always finds what is filed under them.
  lemma FoundIffNoSlash(name: string)
    requires '~' !in name && '%' !in name
    ensures (forall root: map<string, Value>, defs: Defs :: name in defs ==>
               Resolve(AttachDefs(Obj(root), defs), RefTo(name).members["$ref"].s) == Some(defs[name]))
       <==> '/' !in name
  {
    if '/' in name {
      var defs: Defs := map[name := Null];
      assert name in defs;
      DefsReference(map[], defs, name);
      TokensHaveNoSlash(name);
      assert Resolve(AttachDefs(Obj(map[]), defs), RefTo(name).members["$ref"].s) != Some(defs[name]);
    } else {
      forall root: map<string, Value>, defs: Defs | name in defs
        ensures Resolve(AttachDefs(Obj(root), defs), RefTo(name).members["$ref"].s) == Some(defs[name])
      {
        AttachedResolves(Obj(root), defs, name);
      }
    }
    hide Resolve, AttachDefs, Tokens;
  }

  lemma {:induction false} TokensHaveNoSlash(s: string)
    ensures forall i :: 0 <= i < |Tokens(s)| ==> '/' !in Tokens(s)[i]
    ensures |Tokens(s)| == 1 <==> '/' !in s
  {
    if s != "" {
      TokensHaveNoSlash(s[1..]);
      var rest := Tokens(s[1..]);
      forall i | 0 <= i < |Tokens(s)|
        ensures '/' !in Tokens(s)[i]
      {
        if s[0] == '/' {
          assert i > 0 ==> Tokens(s)[i] == rest[i - 1];
        } else {
          assert Tokens(s)[i] == if i == 0 then [s[0]] + rest[0] else rest[i];
        }
      }
    }
  }

  lemma DefsReference(root: map<string, Value>, defs: Defs, name: string)
    requires defs != map[]
    ensures Resolve(AttachDefs(Obj(root), defs), RefTo(name).members["$ref"].s) == Follow(Obj(defs), Tokens(name))
  {
    hide Tokens, Follow;
    var reference := DEFS_PREFIX + name;
    assert "#/" <= reference && reference[2..] == "$defs" + "/" + name;
    TokensJoin("$defs", name);
    assert Resolve(AttachDefs(Obj(root), defs), reference) == Follow(AttachDefs(Obj(root), defs), ["$defs"] + Tokens(name));
    FollowDefs(root["$defs" := Obj(defs)], defs, Tokens(name));
  }

  lemma FollowDefs(m: map<string, Value>, defs: Defs, tokens: seq<string>)
    requires "$defs" in m && m["$defs"] == Obj(defs)
    ensures Follow(Obj(m), ["$defs"] + tokens) == Follow(Obj(defs), tokens)
  {
    assert (["$defs"] + tokens)[1..] == tokens;
  }
}
