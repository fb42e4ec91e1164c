// What a conversion collects: the definitions reachable from a list of fields, each with a
// schema that depends on nothing but the definition and the registry.
module SchemaClosure {
  import opened Wrappers
  import opened Json
  import opened Types
  import opened JsonSchema

  // A definition under its `$defs` name.
  datatype Def =
    | StructDef(name: string, fields: seq<Field>)
    | EnumDef(name: string, variants: seq<EnumVariant>)

  // The definitions a type names directly, through arrays, options and registry references.
  ghost function Mentions(cs: Casing, reg: Registry, ty: Type): set<Def>
    requires reg.Valid()
    decreases HeadWeight(ty)
  {
    match ty
    case Vec(inner) => Mentions(cs, reg, inner)
    case Optional(inner) => Mentions(cs, reg, inner)
    case Struct(name, fields) => {StructDef(StructDefName(cs, name), fields)}
    case StructRef(name) => if name in reg.structs then Mentions(cs, reg, reg.structs[name]) else {}
    case StructTable(name) => if name in reg.structs then Mentions(cs, reg, reg.structs[name]) else {}
    case Enum(name, variants) => {EnumDef(EnumDefName(cs, name, false), variants)}
    case EnumRef(name, prefixed) =>
      if name in reg.enums then {EnumDef(EnumDefName(cs, name, prefixed), reg.enums[name].variants)} else {}
    case _ => {}
  }

  ghost function FieldMentions(cs: Casing, reg: Registry, fields: seq<Field>): set<Def>
    requires reg.Valid()
  {
    set f, d | f in fields && d in Mentions(cs, reg, FieldType(f)) :: d
  }

  ghost function Children(cs: Casing, reg: Registry, d: Def): set<Def>
    requires reg.Valid()
  {
    match d
    case StructDef(_, fields) => FieldMentions(cs, reg, fields)
    case EnumDef(_, _) => {}
  }

  ghost predicate IsPath(cs: Casing, reg: Registry, roots: set<Def>, path: seq<Def>)
    requires reg.Valid()
  {
    && path != []
    && path[0] in roots
    && forall i :: 0 < i < |path| ==> path[i] in Children(cs, reg, path[i - 1])
  }

  ghost predicate Reachable(cs: Casing, reg: Registry, roots: set<Def>, d: Def)
    requires reg.Valid()
  {
    exists path :: IsPath(cs, reg, roots, path) && path[|path| - 1] == d
  }

  lemma RootReachable(cs: Casing, reg: Registry, roots: set<Def>, d: Def)
    requires reg.Valid() && d in roots
    ensures Reachable(cs, reg, roots, d)
  {
    assert IsPath(cs, reg, roots, [d]);
  }

  // Whatever the children of a reachable definition reach is reachable.
  lemma ReachableThrough(cs: Casing, reg: Registry, roots: set<Def>, via: Def, d: Def)
    requires reg.Valid() && Reachable(cs, reg, roots, via)
    requires Reachable(cs, reg, Children(cs, reg, via), d)
    ensures Reachable(cs, reg, roots, d)
  {
    var p :| IsPath(cs, reg, roots, p) && p[|p| - 1] == via;
    var q :| IsPath(cs, reg, Children(cs, reg, via), q) && q[|q| - 1] == d;
    assert IsPath(cs, reg, roots, p + q);
    assert (p + q)[|p + q| - 1] == d;
  }

  lemma ReachableMore(cs: Casing, reg: Registry, roots: set<Def>, more: set<Def>, d: Def)
    requires reg.Valid() && Reachable(cs, reg, roots, d) && roots <= more
    ensures Reachable(cs, reg, more, d)
  {
    var p :| IsPath(cs, reg, roots, p) && p[|p| - 1] == d;
    assert IsPath(cs, reg, more, p);
  }

  // The references in the head of a type are in the registry.
  ghost predicate Resolves(reg: Registry, ty: Type) {
    match ty
    case Vec(inner) => Resolves(reg, inner)
    case Optional(inner) => Resolves(reg, inner)
    case StructRef(name) => name in reg.structs
    case StructTable(name) => name in reg.structs
    case EnumRef(name, _) => name in reg.enums
    case _ => true
  }

  ghost predicate FieldsResolve(reg: Registry, fields: seq<Field>) {
    forall f :: f in fields ==> Resolves(reg, FieldType(f))
  }

  ghost predicate DefResolves(reg: Registry, d: Def) {
    d.StructDef? ==> FieldsResolve(reg, d.fields)
  }

  // Every reference reachable from `fields` is in the registry.
  ghost predicate EverythingResolves(cs: Casing, reg: Registry, fields: seq<Field>)
    requires reg.Valid()
  {
    && FieldsResolve(reg, fields)
    && forall d :: Reachable(cs, reg, FieldMentions(cs, reg, fields), d) ==> DefResolves(reg, d)
  }

  // No two reachable definitions share a name.
  ghost predicate InjectiveNames(cs: Casing, reg: Registry, roots: set<Def>)
    requires reg.Valid()
  {
    forall d, d' :: Reachable(cs, reg, roots, d) && Reachable(cs, reg, roots, d') && d.name == d'.name ==> d == d'
  }

  // The schema of a type that resolves: no definitions to consult, none to update.
  ghost function Fragment(cs: Casing, reg: Registry, ty: Type): Value
    requires reg.Valid() && Resolves(reg, ty)
    decreases HeadWeight(ty)
  {
    match ty
    case Vec(inner) => ArrayOf(Fragment(cs, reg, inner))
    case Optional(inner) => Nullable(Fragment(cs, reg, inner))
    case Struct(name, _) => RefTo(StructDefName(cs, name))
    case StructRef(name) => Fragment(cs, reg, reg.structs[name])
    case StructTable(name) => ArrayOf(Fragment(cs, reg, reg.structs[name]))
    case Enum(name, _) => RefTo(EnumDefName(cs, name, false))
    case EnumRef(name, prefixed) => RefTo(EnumDefName(cs, name, prefixed))
    case _ => ScalarSchema(ty)
  }

  ghost function Fragments(cs: Casing, reg: Registry, fields: seq<Field>): seq<Value>
    requires reg.Valid() && FieldsResolve(reg, fields)
  {
    seq(|fields|, i requires 0 <= i < |fields| => Fragment(cs, reg, FieldType(fields[i])))
  }

  ghost function RootSchema(cs: Casing, reg: Registry, fields: seq<Field>): Value
    requires reg.Valid() && FieldsResolve(reg, fields)
  {
    ObjectSchema(cs, fields, Fragments(cs, reg, fields))
  }

  ghost function DefSchema(cs: Casing, reg: Registry, d: Def): Value
    requires reg.Valid() && DefResolves(reg, d)
  {
    match d
    case StructDef(_, fields) => RootSchema(cs, reg, fields)
    case EnumDef(name, variants) => EnumToSchema(name, variants)
  }

  ghost function Names(ds: set<Def>): set<string> {
    set d | d in ds :: d.name
  }

  // Entry `n` is the finished schema of a definition reachable from `roots`, and what that
  // definition names is in `defs` too.
  ghost predicate Settled(cs: Casing, reg: Registry, roots: set<Def>, defs: Defs, n: string)
    requires reg.Valid() && n in defs
  {
    exists d :: SettledAs(cs, reg, roots, defs, n, d)
  }

  ghost predicate SettledAs(cs: Casing, reg: Registry, roots: set<Def>, defs: Defs, n: string, d: Def)
    requires reg.Valid() && n in defs
  {
    && d.name == n
    && Reachable(cs, reg, roots, d)
    && DefResolves(reg, d)
    && defs[n] == DefSchema(cs, reg, d)
    && Names(Children(cs, reg, d)) <= defs.Keys
  }

  ghost predicate Extends(defs: Defs, defs': Defs) {
    defs.Keys <= defs'.Keys && forall n :: n in defs ==> defs'[n] == defs[n]
  }

  // What a conversion adds to `defs` on its way to `defs'` is settled.
  ghost predicate Adds(cs: Casing, reg: Registry, roots: set<Def>, defs: Defs, defs': Defs)
    requires reg.Valid()
  {
    && Extends(defs, defs')
    && Names(roots) <= defs'.Keys
    && forall n :: n in defs' && n !in defs ==> Settled(cs, reg, roots, defs', n)
  }

  // Two conversions in a row, each adding its own part.
  lemma AddsBoth(cs: Casing, reg: Registry, r1: set<Def>, r2: set<Def>, d0: Defs, d1: Defs, d2: Defs)
    requires reg.Valid()
    requires Adds(cs, reg, r1, d0, d1) && Adds(cs, reg, r2, d1, d2)
    ensures Adds(cs, reg, r1 + r2, d0, d2)
  {
    forall n | n in d2 && n !in d0
      ensures Settled(cs, reg, r1 + r2, d2, n)
    {
      if n in d1 {
        var d :| SettledAs(cs, reg, r1, d1, n, d);
        ReachableMore(cs, reg, r1, r1 + r2, d);
        assert SettledAs(cs, reg, r1 + r2, d2, n, d);
      } else {
        var d :| SettledAs(cs, reg, r2, d2, n, d);
        ReachableMore(cs, reg, r2, r1 + r2, d);
        assert SettledAs(cs, reg, r1 + r2, d2, n, d);
      }
    }
    assert Names(r1 + r2) == Names(r1) + Names(r2);
  }

  // A successful conversion yields the fragment of the type, whatever `defs` already held,
  // keeps what was there, and adds finished definitions only.
  lemma {:induction false} ConvertAdds(cs: Casing, reg: Registry, ty: Type, defs: Defs)
    requires reg.Valid()
    requires Convert(cs, reg, ty, defs).result.Ok?
    ensures Resolves(reg, ty)
    ensures Convert(cs, reg, ty, defs).result.value == Fragment(cs, reg, ty)
    ensures Adds(cs, reg, Mentions(cs, reg, ty), defs, Convert(cs, reg, ty, defs).defs)
    decreases RegistryStructNames(cs, reg) + StructNames(cs, ty) - defs.Keys, HeadWeight(ty)
  {
    hide Adds, RootSchema, Fragments, FieldMentions, ScalarSchema, EnumToSchema, WalkFields, DefSchema, Describe, ObjectOf, ArrayOf, Nullable;
    if ty.Vec? || ty.Optional? {
      ConvertAdds(cs, reg, ty.inner, defs);
    } else if ty.Struct? {
      var d := StructDef(StructDefName(cs, ty.name), ty.fields);
      if d.name in defs {
        PresentAdds(cs, reg, d, defs);
      } else {
        SlotTaken(cs, reg, ty, defs);
        WalkAdds(cs, reg, ty.fields, defs[d.name := Null]);
        FinishStruct(cs, reg, ty, defs);
      }
    } else if ty.StructRef? {
      ConvertAdds(cs, reg, reg.structs[ty.name], defs);
    } else if ty.StructTable? {
      ConvertAdds(cs, reg, reg.structs[ty.structRef], defs);
    } else {
      LeafAdds(cs, reg, ty, defs);
    }
  }

  // The types whose conversion goes no further.
  lemma LeafAdds(cs: Casing, reg: Registry, ty: Type, defs: Defs)
    requires reg.Valid() && Convert(cs, reg, ty, defs).result.Ok?
    requires !ty.Vec? && !ty.Optional? && !ty.Struct? && !ty.StructRef? && !ty.StructTable?
    ensures Resolves(reg, ty)
    ensures Convert(cs, reg, ty, defs).result.value == Fragment(cs, reg, ty)
    ensures Adds(cs, reg, Mentions(cs, reg, ty), defs, Convert(cs, reg, ty, defs).defs)
  {
    hide Adds, ScalarSchema, EnumToSchema;
    if ty.Enum? {
      EnumAdds(cs, reg, EnumDef(EnumDefName(cs, ty.name, false), ty.variants), defs);
    } else if ty.EnumRef? {
      EnumAdds(cs, reg, EnumDef(EnumDefName(cs, ty.name, ty.prefixedName), reg.enums[ty.name].variants), defs);
    } else {
      NothingAdds(cs, reg, defs);
    }
  }

  lemma NothingAdds(cs: Casing, reg: Registry, defs: Defs)
    requires reg.Valid()
    ensures Adds(cs, reg, {}, defs, defs)
  {
  }

  lemma PresentAdds(cs: Casing, reg: Registry, d: Def, defs: Defs)
    requires reg.Valid() && d.name in defs
    ensures Adds(cs, reg, {d}, defs, defs)
  {
  }

  lemma FinishStruct(cs: Casing, reg: Registry, ty: Type, defs: Defs)
    requires reg.Valid() && ty.Struct? && StructDefName(cs, ty.name) !in defs
    requires var w := WalkFields(cs, reg, ty.fields, defs[StructDefName(cs, ty.name) := Null]);
             w.result.Ok? && FieldsResolve(reg, ty.fields)
             && w.result.value == Fragments(cs, reg, ty.fields)
             && Adds(cs, reg, FieldMentions(cs, reg, ty.fields), defs[StructDefName(cs, ty.name) := Null], w.defs)
    ensures Adds(cs, reg, Mentions(cs, reg, ty), defs, Convert(cs, reg, ty, defs).defs)
  {
    hide Adds, WalkFields, FieldMentions;
    var d := StructDef(StructDefName(cs, ty.name), ty.fields);
    StructAdds(cs, reg, d, defs, WalkFields(cs, reg, ty.fields, defs[d.name := Null]).defs);
  }

  lemma EnumAdds(cs: Casing, reg: Registry, d: Def, defs: Defs)
    requires reg.Valid() && d.EnumDef?
    ensures Adds(cs, reg, {d}, defs, if d.name in defs then defs else defs[d.name := EnumToSchema(d.name, d.variants)])
  {
    if d.name !in defs {
      RootReachable(cs, reg, {d}, d);
      assert SettledAs(cs, reg, {d}, defs[d.name := EnumToSchema(d.name, d.variants)], d.name, d);
    }
  }

  // Filling a struct's reserved slot once its fields have been walked.
  lemma StructAdds(cs: Casing, reg: Registry, d: Def, defs: Defs, walked: Defs)
    requires reg.Valid() && d.StructDef? && d.name !in defs && DefResolves(reg, d)
    requires Adds(cs, reg, Children(cs, reg, d), defs[d.name := Null], walked)
    ensures Adds(cs, reg, {d}, defs, walked[d.name := DefSchema(cs, reg, d)])
  {
    hide Reachable, RootSchema, FieldsResolve, FieldMentions;
    var defs' := walked[d.name := DefSchema(cs, reg, d)];
    RootReachable(cs, reg, {d}, d);
    assert SettledAs(cs, reg, {d}, defs', d.name, d);
    forall n | n in defs' && n !in defs && n != d.name
      ensures Settled(cs, reg, {d}, defs', n)
    {
      assert Settled(cs, reg, Children(cs, reg, d), walked, n);
      var e :| SettledAs(cs, reg, Children(cs, reg, d), walked, n, e);
      ReachableThrough(cs, reg, {d}, d, e);
      assert SettledAs(cs, reg, {d}, defs', n, e);
    }
  }

  lemma {:induction false} WalkAdds(cs: Casing, reg: Registry, fields: seq<Field>, defs: Defs)
    requires reg.Valid()
    requires WalkFields(cs, reg, fields, defs).result.Ok?
    ensures FieldsResolve(reg, fields)
    ensures WalkFields(cs, reg, fields, defs).result.value == Fragments(cs, reg, fields)
    ensures Adds(cs, reg, FieldMentions(cs, reg, fields), defs, WalkFields(cs, reg, fields, defs).defs)
    decreases RegistryStructNames(cs, reg) + FieldStructNames(cs, fields) - defs.Keys, FieldsWeight(fields)
  {
    hide Adds, Convert, Mentions, Fragment, Resolves;
    if fields == [] {
      assert FieldMentions(cs, reg, fields) == {};
      NothingAdds(cs, reg, defs);
    } else {
      FieldNamesAt(cs, fields, 0);
      var c := Convert(cs, reg, FieldType(fields[0]), defs);
      ConvertAdds(cs, reg, FieldType(fields[0]), defs);
      WalkAdds(cs, reg, fields[1..], c.defs);
      var head := Mentions(cs, reg, FieldType(fields[0]));
      AddsBoth(cs, reg, head, FieldMentions(cs, reg, fields[1..]), defs, c.defs, WalkFields(cs, reg, fields, defs).defs);
      assert fields == [fields[0]] + fields[1..];
      assert head + FieldMentions(cs, reg, fields[1..]) == FieldMentions(cs, reg, fields);
    }
  }

  // If everything reachable resolves, the conversion succeeds from any definitions.
  lemma {:induction false} ConvertSucceeds(cs: Casing, reg: Registry, ty: Type, defs: Defs)
    requires reg.Valid() && Resolves(reg, ty)
    requires forall d :: Reachable(cs, reg, Mentions(cs, reg, ty), d) ==> DefResolves(reg, d)
    ensures Convert(cs, reg, ty, defs).result.Ok?
    decreases RegistryStructNames(cs, reg) + StructNames(cs, ty) - defs.Keys, HeadWeight(ty)
  {
    hide Reachable, ScalarSchema, FieldMentions, EverythingResolves, DefResolves;
    if ty.Vec? || ty.Optional? {
      ConvertSucceeds(cs, reg, ty.inner, defs);
    } else if ty.Struct? {
      if StructDefName(cs, ty.name) !in defs {
        SlotTaken(cs, reg, ty, defs);
        ChildrenResolve(cs, reg, StructDef(StructDefName(cs, ty.name), ty.fields));
        WalkSucceeds(cs, reg, ty.fields, defs[StructDefName(cs, ty.name) := Null]);
      }
    } else if ty.StructRef? {
      ConvertSucceeds(cs, reg, reg.structs[ty.name], defs);
    } else if ty.StructTable? {
      ConvertSucceeds(cs, reg, reg.structs[ty.structRef], defs);
    }
  }

  lemma ChildrenResolve(cs: Casing, reg: Registry, d: Def)
    requires reg.Valid() && d.StructDef?
    requires forall e :: Reachable(cs, reg, {d}, e) ==> DefResolves(reg, e)
    ensures EverythingResolves(cs, reg, d.fields)
  {
    RootReachable(cs, reg, {d}, d);
    assert DefResolves(reg, d);
    forall e | Reachable(cs, reg, Children(cs, reg, d), e)
      ensures DefResolves(reg, e)
    {
      ReachableThrough(cs, reg, {d}, d, e);
    }
  }

  lemma {:induction false} WalkSucceeds(cs: Casing, reg: Registry, fields: seq<Field>, defs: Defs)
    requires reg.Valid() && EverythingResolves(cs, reg, fields)
    ensures WalkFields(cs, reg, fields, defs).result.Ok?
    decreases RegistryStructNames(cs, reg) + FieldStructNames(cs, fields) - defs.Keys, FieldsWeight(fields)
  {
    if fields != [] {
      FieldNamesAt(cs, fields, 0);
      var c := Convert(cs, reg, FieldType(fields[0]), defs);
      forall d | Reachable(cs, reg, Mentions(cs, reg, FieldType(fields[0])), d)
        ensures DefResolves(reg, d)
      {
        ReachableMore(cs, reg, Mentions(cs, reg, FieldType(fields[0])), FieldMentions(cs, reg, fields), d);
      }
      ConvertSucceeds(cs, reg, FieldType(fields[0]), defs);
      forall d | Reachable(cs, reg, FieldMentions(cs, reg, fields[1..]), d)
        ensures DefResolves(reg, d)
      {
        ReachableMore(cs, reg, FieldMentions(cs, reg, fields[1..]), FieldMentions(cs, reg, fields), d);
      }
      WalkSucceeds(cs, reg, fields[1..], c.defs);
    }
  }

  // With distinct names, a walk from empty definitions ends with every reachable definition in place.
  lemma {:induction false} ReachableCollected(cs: Casing, reg: Registry, roots: set<Def>, defs: Defs, path: seq<Def>)
    requires reg.Valid() && InjectiveNames(cs, reg, roots)
    requires Adds(cs, reg, roots, map[], defs)
    requires IsPath(cs, reg, roots, path)
    ensures path[|path| - 1].name in defs
    ensures SettledAs(cs, reg, roots, defs, path[|path| - 1].name, path[|path| - 1])
  {
    var d := path[|path| - 1];
    assert Reachable(cs, reg, roots, d);
    if |path| == 1 {
      assert d.name in Names(roots);
    } else {
      var prefix := path[..|path| - 1];
      assert IsPath(cs, reg, roots, prefix);
      ReachableCollected(cs, reg, roots, defs, prefix);
      assert d.name in Names(Children(cs, reg, prefix[|prefix| - 1]));
    }
    assert Settled(cs, reg, roots, defs, d.name);
    var e :| SettledAs(cs, reg, roots, defs, d.name, e);
    assert e == d;
  }

  // From empty definitions: no reserved slot is left, the entries are closed under mention,
  // and each of them is the schema of a definition reachable from the fields.
  lemma WalkCloses(cs: Casing, reg: Registry, fields: seq<Field>)
    requires reg.Valid()
    requires WalkFields(cs, reg, fields, map[]).result.Ok?
    ensures var w := WalkFields(cs, reg, fields, map[]);
            && FieldsResolve(reg, fields)
            && w.result.value == Fragments(cs, reg, fields)
            && Names(FieldMentions(cs, reg, fields)) <= w.defs.Keys
            && (forall n :: n in w.defs ==> Settled(cs, reg, FieldMentions(cs, reg, fields), w.defs, n))
            && (forall n :: n in w.defs ==> w.defs[n].Obj?)
  {
    WalkAdds(cs, reg, fields, map[]);
    var w := WalkFields(cs, reg, fields, map[]);
    forall n | n in w.defs
      ensures w.defs[n].Obj?
    {
      var d :| SettledAs(cs, reg, FieldMentions(cs, reg, fields), w.defs, n, d);
    }
  }

  // `defs` is what the definitions reachable from `roots` come to, and nothing else.
  ghost predicate Collected(cs: Casing, reg: Registry, roots: set<Def>, defs: Defs)
    requires reg.Valid()
  {
    && (forall d :: Reachable(cs, reg, roots, d) ==>
          d.name in defs && DefResolves(reg, d) && defs[d.name] == DefSchema(cs, reg, d))
    && (forall n :: n in defs ==> NamesReachable(cs, reg, roots, n))
  }

  ghost predicate NamesReachable(cs: Casing, reg: Registry, roots: set<Def>, n: string)
    requires reg.Valid()
  {
    exists d :: Reachable(cs, reg, roots, d) && d.name == n
  }

  lemma AddsCollects(cs: Casing, reg: Registry, roots: set<Def>, defs: Defs)
    requires reg.Valid() && InjectiveNames(cs, reg, roots)
    requires Adds(cs, reg, roots, map[], defs)
    ensures Collected(cs, reg, roots, defs)
  {
    forall d | Reachable(cs, reg, roots, d)
      ensures d.name in defs && DefResolves(reg, d) && defs[d.name] == DefSchema(cs, reg, d)
    {
      var path :| IsPath(cs, reg, roots, path) && path[|path| - 1] == d;
      ReachableCollected(cs, reg, roots, defs, path);
    }
    forall n | n in defs
      ensures NamesReachable(cs, reg, roots, n)
    {
      assert Settled(cs, reg, roots, defs, n);
      var d :| SettledAs(cs, reg, roots, defs, n, d);
    }
  }

  // With distinct names: the keys are exactly the reachable names, and each entry is the
  // schema of the one definition of that name.
  lemma WalkCollectsReachable(cs: Casing, reg: Registry, fields: seq<Field>)
    requires reg.Valid()
    requires InjectiveNames(cs, reg, FieldMentions(cs, reg, fields))
    requires WalkFields(cs, reg, fields, map[]).result.Ok?
    ensures Collected(cs, reg, FieldMentions(cs, reg, fields), WalkFields(cs, reg, fields, map[]).defs)
  {
    WalkAdds(cs, reg, fields, map[]);
    AddsCollects(cs, reg, FieldMentions(cs, reg, fields), WalkFields(cs, reg, fields, map[]).defs);
  }

  // With distinct names, conversion succeeds exactly when every reachable reference resolves.
  lemma WalkSucceedsIff(cs: Casing, reg: Registry, fields: seq<Field>)
    requires reg.Valid()
    requires InjectiveNames(cs, reg, FieldMentions(cs, reg, fields))
    ensures WalkFields(cs, reg, fields, map[]).result.Ok? <==> EverythingResolves(cs, reg, fields)
  {
    if EverythingResolves(cs, reg, fields) {
      WalkSucceeds(cs, reg, fields, map[]);
    }
    if WalkFields(cs, reg, fields, map[]).result.Ok? {
      WalkCloses(cs, reg, fields);
      WalkCollectsReachable(cs, reg, fields);
    }
  }
}
