/** What a collapsed schema is made of (scripts/generate-ios-openapi.ts, `collapseNullableUnions`):
    keywords of the schema itself, of its union branches, of its constraint fragments, and of the
    components it is replaced by. A test that all of these pass is passed by the result. */
module Pieces {
  import opened JsonSchema
  import opened UnionCollapse
  import opened Wrappers

  /** A test on a keyword and its argument. */
  type Test = (string, Json) -> bool

  /** Every keyword passes, also in the branches that unwrapping a union could expose. */
  ghost predicate Passes(test: Test, o: Fields)
    decreases Obj(o)
  {
    && (forall k :: k in o ==> test(k, o[k]))
    && ("anyOf" in o && o["anyOf"].Arr? ==>
          forall i :: 0 <= i < |o["anyOf"].items| && o["anyOf"].items[i].Obj? ==> Passes(test, o["anyOf"].items[i].fields))
  }

  /** The test does not fail because a rule takes a list apart or writes a `type` or an `enum`. */
  ghost predicate Stable(test: Test) {
    && test("type", Str("string"))
    && (forall values :: test("enum", StrArr(values)))
    && (forall branches, rest: seq<Fields> :: FewerOf(branches, rest) && test("anyOf", ToArr(branches)) ==> test("anyOf", ToArr(rest)))
    && (forall fragments: seq<Fields>, f :: f in fragments && test("allOf", ToArr(fragments)) ==> PassesOutside(test, f))
  }

  ghost predicate FewerOf(branches: seq<Fields>, rest: seq<Fields>) { rest != [] && forall b :: b in rest ==> b in branches }

  /** A fragment passes, as far as it has no nested schemas. */
  ghost predicate PassesOutside(test: Test, f: Fields) {
    forall k :: k in f && k !in STRUCTURAL ==> test(k, f[k])
  }

  /** Numeric components, which the rule for numbers puts in the place of their references. */
  predicate Numeric(table: Table, name: string) {
    name in table && table[name].Obj? && Get(table[name].fields, "type") in {Some(Str("number")), Some(Str("integer"))}
  }

  ghost predicate NumbersPass(table: Table, test: Test) {
    forall ref: string ::
      test("$ref", Str(ref)) && ComponentNameFromRef(ref).Some? && Numeric(table, ComponentNameFromRef(ref).value) ==>
        Passes(test, table[ComponentNameFromRef(ref).value].fields)
  }

  ghost predicate AliasesPass(table: Table, test: Test) {
    forall ref: string ::
      test("$ref", Str(ref)) && ComponentNameFromRef(ref).Some? && ComponentNameFromRef(ref).value in Aliases(table) ==>
        Passes(test, Aliases(table)[ComponentNameFromRef(ref).value].schema)
  }

  // ------------------------------------------------------------ the rules

  lemma BranchesAre(schema: Fields)
    requires Branches(schema).Some?
    ensures "anyOf" in schema && schema["anyOf"] == ToArr(Branches(schema).value)
  {
    var branches := Branches(schema).value;
    assert schema["anyOf"].items == ToArr(branches).items;
  }

  lemma BranchPasses(test: Test, schema: Fields, b: Fields)
    requires Passes(test, schema) && Branches(schema).Some? && b in Branches(schema).value
    ensures Passes(test, b)
  {
    var branches := Branches(schema).value;
    var i :| 0 <= i < |branches| && branches[i] == b;
    assert schema["anyOf"].items[i] == Obj(b);
  }

  lemma MergePasses(test: Test, wrapper: Fields, inner: Fields)
    requires Passes(test, wrapper) && Passes(test, inner)
    ensures Passes(test, MergeAnnotations(wrapper, inner))
  {}

  lemma FewerPasses(test: Test, schema: Fields, rest: seq<Fields>)
    requires Stable(test) && Passes(test, schema) && Branches(schema).Some? && FewerOf(Branches(schema).value, rest)
    ensures Passes(test, schema["anyOf" := ToArr(rest)])
  {
    hide Passes;
    BranchesAre(schema);
    forall b | b in rest ensures Passes(test, b) { BranchPasses(test, schema, b); }
    WithBranches(test, schema, rest);
  }

  lemma WithBranches(test: Test, schema: Fields, rest: seq<Fields>)
    requires Stable(test) && Passes(test, schema) && Branches(schema).Some? && FewerOf(Branches(schema).value, rest)
    requires forall b :: b in rest ==> Passes(test, b)
    ensures Passes(test, schema["anyOf" := ToArr(rest)])
  {
    BranchesAre(schema);
    var after := schema["anyOf" := ToArr(rest)];
    assert test("anyOf", schema["anyOf"]);
    forall i | 0 <= i < |after["anyOf"].items| ensures Passes(test, after["anyOf"].items[i].fields) {
      assert after["anyOf"].items[i] == Obj(rest[i]) && rest[i] in rest;
    }
  }

  lemma NullableInnerPasses(test: Test, schema: Fields)
    requires Stable(test) && Passes(test, schema) && NullableInner(schema).Some?
    ensures Passes(test, NullableInner(schema).value)
  {
    hide Passes, Stable;
    var rest := Filter(Branches(schema).value, NotNull);
    if |rest| == 1 {
      BranchPasses(test, schema, rest[0]);
      MergePasses(test, schema, rest[0]);
    } else {
      FewerPasses(test, schema, rest);
    }
  }

  lemma FiniteNumberPasses(table: Table, test: Test, schema: Fields)
    requires Stable(test) && NumbersPass(table, test) && Passes(test, schema) && FiniteNumber(table, schema).Some?
    ensures Passes(test, FiniteNumber(table, schema).value)
  {
    hide Passes, Stable, NumbersPass;
    var rest := Filter(Branches(schema).value, b => !IsNonFiniteEnum(table, b));
    if |rest| == 1 {
      assert IsNumeric(table, rest[0]);
      BranchPasses(test, schema, rest[0]);
      NumberPasses(table, test, rest[0]);
      MergePasses(test, schema, Deref(table, rest[0]));
    } else {
      FewerPasses(test, schema, rest);
    }
  }

  lemma NumberPasses(table: Table, test: Test, b: Fields)
    requires NumbersPass(table, test) && Passes(test, b) && IsNumeric(table, b)
    ensures Passes(test, Deref(table, b))
  {
    if Deref(table, b) != b {
      assert test("$ref", b["$ref"]);
      assert Numeric(table, RefName(b).value);
    }
  }

  lemma StringPasses(test: Test, schema: Fields, inner: Fields)
    requires Stable(test) && Passes(test, schema)
    requires inner == map["type" := Str("string")] || exists values :: inner == map["type" := Str("string"), "enum" := StrArr(values)]
    ensures Passes(test, MergeAnnotations(schema, inner))
  {
    assert Passes(test, inner);
    MergePasses(test, schema, inner);
  }

  lemma {:induction false} AssignedPasses(test: Test, fragments: seq<Fields>)
    requires forall f :: f in fragments ==> PassesOutside(test, f)
    ensures PassesOutside(test, Assign(fragments))
  {
    if fragments != [] {
      var front, last := fragments[..|fragments| - 1], fragments[|fragments| - 1];
      AssignedPasses(test, front);
      assert PassesOutside(test, last);
      assert Assign(fragments) == Assign(front) + last;
    }
  }

  lemma FlattenedPasses(test: Test, schema: Fields)
    requires Stable(test) && Passes(test, schema) && FlattenedAllOf(schema).Some?
    ensures Passes(test, FlattenedAllOf(schema).value)
  {
    var fragments := AsObjectArray(Get(schema, "allOf")).value;
    assert schema["allOf"].items == ToArr(fragments).items;
    assert test("allOf", ToArr(fragments));
    AssignedPasses(test, fragments);
    forall k | k in Assign(fragments) ensures k !in STRUCTURAL {
      var f := AssignedFrom(fragments, k);
      assert ConstraintOnly(schema, f);
    }
    assert "anyOf" !in Assign(fragments);
  }

  lemma SingleBranchPasses(test: Test, schema: Fields)
    requires Passes(test, schema) && SingleBranch(schema).Some?
    ensures Passes(test, SingleBranch(schema).value)
  {
    hide Passes;
    var b := Branches(schema).value[0];
    BranchPasses(test, schema, b);
    MergePasses(test, schema, b);
  }

  lemma RewritePasses(table: Table, test: Test, schema: Fields)
    requires Stable(test) && NumbersPass(table, test) && Passes(test, schema) && Rewrite(table, schema).Some?
    ensures Passes(test, Rewrite(table, schema).value)
  {
    hide Passes, Stable, NumbersPass, FiniteNumber, FlattenedAllOf, SingleBranch, MergeAnnotations;
    if FiniteNumber(table, schema).Some? { FiniteNumberPasses(table, test, schema); }
    else if MergedStringEnum(table, schema).Some? {
      var values := EnumValues(table, Branches(schema).value, []).value;
      StringPasses(test, schema, map["type" := Str("string"), "enum" := StrArr(values)]);
    }
    else if WidenedString(table, schema).Some? { StringPasses(test, schema, map["type" := Str("string")]); }
    else if FlattenedAllOf(schema).Some? { FlattenedPasses(test, schema); }
    else { SingleBranchPasses(test, schema); }
  }

  // ------------------------------------------------------------ the loops

  lemma {:induction false} PeelPasses(table: Table, test: Test, schema: Fields, nullable: bool, passes: nat)
    requires Stable(test) && NumbersPass(table, test) && Passes(test, schema)
    ensures Passes(test, Peel(table, schema, nullable, passes).schema)
    decreases passes
  {
    hide Passes, Stable, NumbersPass, NullableInner, Rewrite;
    if passes == 0 || !Peelable(table, schema) {
    } else if NullableInner(schema).Some? {
      NullableInnerPasses(test, schema);
      PeelPasses(table, test, NullableInner(schema).value, true, passes - 1);
    } else {
      RewritePasses(table, test, schema);
      PeelPasses(table, test, Rewrite(table, schema).value, nullable, passes - 1);
    }
  }

  lemma CollapsePasses(table: Table, test: Test, schema: Fields)
    requires Stable(test) && NumbersPass(table, test) && Passes(test, schema) && Collapse(table, schema).Some?
    ensures Passes(test, Collapse(table, schema).value.schema)
  {
    hide Passes, Stable, NumbersPass, Peel, Peelable;
    PeelPasses(table, test, schema, false, COLLAPSE_PASSES);
  }

  lemma {:induction false} ResolveFromPasses(table: Table, test: Test, schema: Fields, nullable: bool, seen: set<string>, passes: nat)
    requires Stable(test) && NumbersPass(table, test) && AliasesPass(table, test) && Passes(test, schema)
    ensures Passes(test, ResolveFrom(table, schema, nullable, seen, passes).schema)
    decreases passes
  {
    hide Stable, NumbersPass, AliasesPass, Collapse, Aliases;
    if passes == 0 {
    } else if AsString(Get(schema, "$ref")).Some? {
      if RefName(schema).Some? && RefName(schema).value in Aliases(table) && RefName(schema).value !in seen {
        var name := RefName(schema).value;
        AliasPasses(table, test, schema);
        hide Passes;
        var alias := Aliases(table)[name];
        ResolveFromPasses(table, test, alias.schema, nullable || alias.nullable, seen + {name}, passes - 1);
      }
    } else {
      hide Passes;
      if Collapse(table, schema).Some? {
        CollapsePasses(table, test, schema);
        var c := Collapse(table, schema).value;
        ResolveFromPasses(table, test, c.schema, nullable || c.nullable, seen, passes - 1);
      }
    }
  }

  lemma AliasPasses(table: Table, test: Test, schema: Fields)
    requires AliasesPass(table, test) && Passes(test, schema) && RefName(schema).Some? && RefName(schema).value in Aliases(table)
    ensures Passes(test, Aliases(table)[RefName(schema).value].schema)
  {
    hide Aliases;
    assert test("$ref", schema["$ref"]);
  }

  /** Whatever a schema is resolved to passes what its pieces pass. */
  lemma ResolvePasses(table: Table, test: Test, schema: Fields)
    requires Stable(test) && NumbersPass(table, test) && AliasesPass(table, test) && Passes(test, schema)
    ensures Passes(test, Resolve(table, schema).schema)
  {
    hide Passes, Stable, NumbersPass, AliasesPass, ResolveFrom;
    ResolveFromPasses(table, test, schema, false, {}, RESOLVE_PASSES);
  }
}
