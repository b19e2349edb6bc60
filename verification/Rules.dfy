/** The collapsing rules one by one (scripts/generate-ios-openapi.ts, `nullableInnerSchema` to
    `singleBranchUnion`): the schemas each of them is for, and what it may let in that was refused. */
module Rules {
  import opened JsonSchema
  import opened Pieces
  import opened UnionCollapse
  import opened Wrappers

  // ------------------------------------------------------------ the schemas the rules are for

  /** An `anyOf` over at least `least` objects. */
  predicate Union(schema: Fields, least: nat) {
    && "anyOf" in schema && schema["anyOf"].Arr? && |schema["anyOf"].items| >= least
    && forall j :: j in schema["anyOf"].items ==> j.Obj?
  }

  predicate TypeIs(o: Fields, t: string) { "type" in o && o["type"] == Str(t) }

  predicate Strings(j: Json) { j.Arr? && forall x :: x in j.items ==> x.Str? }

  predicate StringEnum(o: Fields) { "enum" in o && Strings(o["enum"]) }

  /** One branch is the null type, the others are not. */
  ghost predicate NullUnion(schema: Fields) {
    Union(schema, 2) && exists k :: 0 <= k < |schema["anyOf"].items| && OnlyNullAt(schema["anyOf"].items, k)
  }

  predicate OnlyNullAt(items: seq<Json>, k: nat)
    requires k < |items|
  {
    forall i :: 0 <= i < |items| ==> (items[i].Obj? && TypeIs(items[i].fields, "null") <==> i == k)
  }

  /** Three strings, among them the three for non-finite numbers. */
  predicate NonFiniteEnum(o: Fields) {
    && StringEnum(o) && |o["enum"].items| == 3
    && Str("Infinity") in o["enum"].items && Str("-Infinity") in o["enum"].items && Str("NaN") in o["enum"].items
  }

  /** A number beside the three strings. */
  predicate NumberUnion(table: Table, schema: Fields) {
    && Union(schema, 2)
    && (exists j :: j in schema["anyOf"].items && NonFiniteEnum(Deref(table, j.fields)))
    && (exists j :: j in schema["anyOf"].items && !NonFiniteEnum(Deref(table, j.fields)) && NumberType(Deref(table, j.fields)))
  }

  predicate NumberType(o: Fields) { TypeIs(o, "number") || TypeIs(o, "integer") }

  predicate StringEnumUnion(table: Table, schema: Fields) {
    Union(schema, 2) && forall j :: j in schema["anyOf"].items ==> TypeIs(Deref(table, j.fields), "string") && StringEnum(Deref(table, j.fields))
  }

  /** Strings without nested schemas, of which at least one is no enumeration. */
  predicate StringUnion(table: Table, schema: Fields) {
    && Union(schema, 2)
    && (forall j :: j in schema["anyOf"].items ==> TypeIs(Deref(table, j.fields), "string") && Deref(table, j.fields).Keys !! NESTING)
    && (exists j :: j in schema["anyOf"].items && !StringEnum(Deref(table, j.fields)))
  }

  const NESTING := {"$ref", "properties", "items", "allOf", "anyOf", "oneOf", "additionalProperties"}

  /** An `allOf` of constraints that at most restate the schema's own type. */
  predicate ConstraintList(schema: Fields) {
    && "allOf" in schema && schema["allOf"].Arr? && schema["allOf"].items != []
    && forall j :: j in schema["allOf"].items ==>
         && j.Obj? && j.fields.Keys !! NESTING
         && ("type" in j.fields ==> "type" in schema && schema["type"] == j.fields["type"] && Scalar(j.fields["type"]))
  }

  predicate OneBranchUnion(schema: Fields) { Union(schema, 1) && |schema["anyOf"].items| == 1 }

  /** Some rule is for the schema. */
  ghost predicate Synthetic(table: Table, schema: Fields) {
    || NullUnion(schema) || NumberUnion(table, schema) || StringEnumUnion(table, schema) || StringUnion(table, schema)
    || ConstraintList(schema) || OneBranchUnion(schema)
  }

  // ------------------------------------------------------------ they apply to those and no others

  lemma BranchesOf(schema: Fields)
    ensures Branches(schema).Some? <==> Union(schema, 0)
    ensures Branches(schema).Some? ==> |Branches(schema).value| == |schema["anyOf"].items|
    ensures Branches(schema).Some? ==> forall i :: 0 <= i < |Branches(schema).value| ==> schema["anyOf"].items[i] == Obj(Branches(schema).value[i])
    ensures Branches(schema).Some? ==> forall j :: j in schema["anyOf"].items <==> j.Obj? && j.fields in Branches(schema).value
  {
    if Branches(schema).Some? {
      var items, branches := schema["anyOf"].items, Branches(schema).value;
      forall j ensures j in items <==> j.Obj? && j.fields in branches {
        if j in items {
          var i :| 0 <= i < |items| && items[i] == j;
          assert branches[i] == j.fields;
        }
        if j.Obj? && j.fields in branches {
          var i :| 0 <= i < |branches| && branches[i] == j.fields;
          assert items[i] == j;
        }
      }
    }
  }

  lemma {:induction false} AllButOne(branches: seq<Fields>, keep: Fields -> bool)
    ensures |Filter(branches, keep)| == |branches| <==> forall i :: 0 <= i < |branches| ==> keep(branches[i])
    ensures |Filter(branches, keep)| == |branches| - 1 <==> exists k :: 0 <= k < |branches| && OnlyFails(branches, keep, k)
  {
    if branches != [] {
      var rest := branches[1..];
      AllButOne(rest, keep);
      if keep(branches[0]) {
        if k :| 0 <= k < |rest| && OnlyFails(rest, keep, k) { assert OnlyFails(branches, keep, k + 1); }
        if k :| 0 <= k < |branches| && OnlyFails(branches, keep, k) {
          assert k > 0 && forall i :: 0 <= i < |rest| ==> rest[i] == branches[i + 1];
          assert OnlyFails(rest, keep, k - 1);
        }
      } else {
        if forall i :: 0 <= i < |rest| ==> keep(rest[i]) {
          assert forall i :: 0 < i < |branches| ==> branches[i] == rest[i - 1];
          assert OnlyFails(branches, keep, 0);
        }
        if k :| 0 <= k < |branches| && OnlyFails(branches, keep, k) {
          assert k == 0;
          assert forall i :: 0 <= i < |rest| ==> rest[i] == branches[i + 1];
        }
      }
    }
  }

  predicate OnlyFails(branches: seq<Fields>, keep: Fields -> bool, k: nat)
    requires k < |branches|
  {
    forall i :: 0 <= i < |branches| ==> (!keep(branches[i]) <==> i == k)
  }

  lemma NullableApplies(schema: Fields)
    ensures NullableInner(schema).Some? <==> NullUnion(schema)
  {
    BranchesOf(schema);
    if Branches(schema).Some? {
      var branches, items := Branches(schema).value, schema["anyOf"].items;
      AllButOne(branches, NotNull);
      forall k | 0 <= k < |branches| ensures OnlyFails(branches, NotNull, k) <==> OnlyNullAt(items, k) {
        assert forall i :: 0 <= i < |items| ==> items[i] == Obj(branches[i]);
      }
    }
  }

  lemma StringsOf(o: Fields, key: string)
    ensures AsStringArray(Get(o, key)).Some? <==> key in o && Strings(o[key])
    ensures AsStringArray(Get(o, key)).Some? ==> |AsStringArray(Get(o, key)).value| == |o[key].items|
    ensures AsStringArray(Get(o, key)).Some? ==> forall s :: s in AsStringArray(Get(o, key)).value <==> Str(s) in o[key].items
  {
    if AsStringArray(Get(o, key)).Some? {
      var values, items := AsStringArray(Get(o, key)).value, o[key].items;
      forall s ensures s in values <==> Str(s) in items {
        if s in values {
          var i :| 0 <= i < |values| && values[i] == s;
          assert items[i] == Str(s);
        }
        if Str(s) in items {
          var i :| 0 <= i < |items| && items[i] == Str(s);
          assert values[i] == s;
        }
      }
    }
  }

  lemma NonFiniteIs(table: Table, b: Fields)
    ensures IsNonFiniteEnum(table, b) <==> NonFiniteEnum(Deref(table, b))
  {
    hide Deref;
    StringsOf(Deref(table, b), "enum");
    assert NON_FINITE[0] == "Infinity" && NON_FINITE[1] == "-Infinity" && NON_FINITE[2] == "NaN";
    assert forall s :: s in NON_FINITE <==> s == "Infinity" || s == "-Infinity" || s == "NaN";
  }

  lemma SomeNonFinite(table: Table, branches: seq<Fields>)
    ensures |Filter(branches, b => !IsNonFiniteEnum(table, b))| == |branches| <==> forall b :: b in branches ==> !NonFiniteEnum(Deref(table, b))
    ensures (exists b :: b in Filter(branches, b => !IsNonFiniteEnum(table, b)) && IsNumeric(table, b)) <==>
      exists b :: b in branches && !NonFiniteEnum(Deref(table, b)) && IsNumeric(table, b)
  {
    hide Deref, NonFiniteEnum, IsNonFiniteEnum, IsNumeric;
    AllButOne(branches, b => !IsNonFiniteEnum(table, b));
    forall b ensures IsNonFiniteEnum(table, b) <==> NonFiniteEnum(Deref(table, b)) { NonFiniteIs(table, b); }
    assert (forall i :: 0 <= i < |branches| ==> !IsNonFiniteEnum(table, branches[i])) <==> forall b :: b in branches ==> !IsNonFiniteEnum(table, b);
  }

  lemma NumericIs(table: Table, b: Fields)
    ensures IsNumeric(table, b) <==> NumberType(Deref(table, b))
  {
    hide Deref;
  }

  lemma FiniteApplies(table: Table, schema: Fields)
    ensures FiniteNumber(table, schema).Some? <==> NumberUnion(table, schema)
  {
    hide Deref, IsNonFiniteEnum, NonFiniteEnum, IsNumeric, NumberType;
    BranchesOf(schema);
    if Branches(schema).Some? {
      var branches, items := Branches(schema).value, schema["anyOf"].items;
      SomeNonFinite(table, branches);
      hide Filter;
      assert forall b :: b in branches <==> Obj(b) in items;
      forall b ensures IsNumeric(table, b) <==> NumberType(Deref(table, b)) { NumericIs(table, b); }
      assert (exists j :: j in items && NonFiniteEnum(Deref(table, j.fields))) <==> exists b :: b in branches && NonFiniteEnum(Deref(table, b));
    }
  }

  lemma {:induction false} EnumValuesApply(table: Table, branches: seq<Fields>, values: seq<string>)
    ensures EnumValues(table, branches, values).Some? <==>
      forall b :: b in branches ==> TypeIs(Deref(table, b), "string") && StringEnum(Deref(table, b))
  {
    hide Deref;
    if branches != [] {
      StringsOf(Deref(table, branches[0]), "enum");
      var more := AsStringArray(Get(Deref(table, branches[0]), "enum"));
      if more.Some? { EnumValuesApply(table, branches[1..], AddNew(values, more.value)); }
      assert branches == [branches[0]] + branches[1..];
    }
  }

  lemma StringRulesApply(table: Table, schema: Fields)
    ensures MergedStringEnum(table, schema).Some? <==> StringEnumUnion(table, schema)
    ensures WidenedString(table, schema).Some? <==> StringUnion(table, schema)
  {
    hide Deref, EnumValues;
    BranchesOf(schema);
    if Branches(schema).Some? {
      var branches, items := Branches(schema).value, schema["anyOf"].items;
      EnumValuesApply(table, branches, []);
      forall b ensures AsStringArray(Get(Deref(table, b), "enum")).Some? <==> StringEnum(Deref(table, b)) {
        StringsOf(Deref(table, b), "enum");
      }
      assert forall b :: b in branches <==> Obj(b) in items;
    }
  }

  lemma FlatteningApplies(schema: Fields)
    ensures FlattenedAllOf(schema).Some? <==> ConstraintList(schema)
  {
    if AsObjectArray(Get(schema, "allOf")).Some? {
      var fragments, items := AsObjectArray(Get(schema, "allOf")).value, schema["allOf"].items;
      assert |fragments| == |items|;
      forall j | j in items ensures j.Obj? && j.fields in fragments {
        var i :| 0 <= i < |items| && items[i] == j;
        assert fragments[i] == j.fields;
      }
      forall f | f in fragments ensures Obj(f) in items {
        var i :| 0 <= i < |fragments| && fragments[i] == f;
        assert items[i] == Obj(f);
      }
    }
  }

  lemma SingleApplies(schema: Fields)
    ensures SingleBranch(schema).Some? <==> OneBranchUnion(schema)
  {
    BranchesOf(schema);
  }

  /** A schema is collapsed if and only if it is a synthetic union or a list of constraints. */
  lemma CollapsesExactly(table: Table, schema: Fields)
    ensures Collapse(table, schema).Some? <==> Synthetic(table, schema)
  {
    NullableApplies(schema);
    FiniteApplies(table, schema);
    StringRulesApply(table, schema);
    FlatteningApplies(schema);
    SingleApplies(schema);
    hide NullableInner, FiniteNumber, MergedStringEnum, WidenedString, FlattenedAllOf, SingleBranch, Peel;
    hide NullUnion, NumberUnion, StringEnumUnion, StringUnion, ConstraintList, OneBranchUnion;
  }

  /** Peeling stops before its passes are used up only at a schema that no rule is for. */
  lemma {:induction false} StopsWhenSettled(table: Table, schema: Fields, nullable: bool, passes: nat, fewer: nat)
    requires fewer <= passes && Synthetic(table, Peel(table, schema, nullable, passes).schema)
    ensures Synthetic(table, Peel(table, schema, nullable, fewer).schema)
    decreases passes
  {
    hide NullableInner, Rewrite, Synthetic;
    CollapsesExactly(table, schema);
    if fewer > 0 && Peelable(table, schema) {
      var next := if NullableInner(schema).Some? then NullableInner(schema).value else Rewrite(table, schema).value;
      StopsWhenSettled(table, next, nullable || NullableInner(schema).Some?, passes - 1, fewer - 1);
    }
  }

  // ------------------------------------------------------------ what they let in

  /** What stands beside a union, other than its documentation. */
  function Beside(schema: Fields): set<string> { schema.Keys - {"anyOf"} - ANNOTATIONS }

  /** No branch, looked up where it is a reference, repeats a constraint that stands beside the union. */
  predicate NoOverlap(table: Table, schema: Fields) {
    Union(schema, 0) && forall j :: j in schema["anyOf"].items ==> Deref(table, j.fields).Keys !! Beside(schema)
  }

  /** A branch is written out, or is a reference to an object and nothing else. */
  predicate WrittenOrReferred(table: Table, b: Fields) {
    Deref(table, b) == b || b.Keys <= {"$ref"} + ANNOTATIONS
  }

  lemma MergedTight(table: Table, leaf: Leaf, schema: Fields, inner: Fields, v: Json, n: nat)
    requires Accepts(table, leaf, Obj(MergeAnnotations(schema, inner)), v, n)
    ensures n > 0 && Accepts(table, leaf, Obj(inner), v, n)
    ensures forall k :: k in schema && k != "anyOf" && k !in inner ==> Keyword(table, leaf, k, schema[k], v, n - 1)
  {
    var merged := MergeAnnotations(schema, inner);
    forall k | k in inner ensures Keyword(table, leaf, k, inner[k], v, n - 1) { KeywordOf(table, leaf, merged, k, v, n); }
    forall k | k in schema && k != "anyOf" && k !in inner ensures Keyword(table, leaf, k, schema[k], v, n - 1) {
      KeywordOf(table, leaf, merged, k, v, n);
    }
  }

  lemma ReferredAccepts(table: Table, leaf: Leaf, b: Fields, v: Json, n: nat)
    requires WrittenOrReferred(table, b) && Accepts(table, leaf, Obj(Deref(table, b)), v, n)
    ensures Accepts(table, leaf, Obj(b), v, n + 1)
  {
    if Deref(table, b) == b {
      AcceptsMore(table, leaf, Obj(b), v, n, n + 1);
    } else {
      var name := RefName(b).value;
      assert table[name] == Obj(Deref(table, b));
      forall k | k in b ensures Keyword(table, leaf, k, b[k], v, n) { hide Accepts; }
    }
  }

  lemma UnionAccepts(table: Table, leaf: Leaf, schema: Fields, j: Json, v: Json, n: nat)
    requires Union(schema, 0) && j in schema["anyOf"].items && Accepts(table, leaf, j, v, n)
    requires forall k :: k in schema && k != "anyOf" ==> Keyword(table, leaf, k, schema[k], v, n)
    ensures Accepts(table, leaf, Obj(schema), v, n + 1)
  {
    hide Accepts;
    assert Keyword(table, leaf, "anyOf", schema["anyOf"], v, n);
    AllKeywordsAccept(table, leaf, schema, v, n + 1);
  }

  lemma AllKeywordsAccept(table: Table, leaf: Leaf, o: Fields, v: Json, n: nat)
    requires n > 0 && forall k :: k in o ==> Keyword(table, leaf, k, o[k], v, n - 1)
    ensures Accepts(table, leaf, Obj(o), v, n)
  {}

  /** The branch that takes the place of the union accepts no more than the union did. */
  lemma UnwrappedAddsNothing(table: Table, leaf: Leaf, schema: Fields, b: Fields, inner: Fields, v: Json, n: nat)
    requires Union(schema, 0) && Obj(b) in schema["anyOf"].items && inner.Keys !! Beside(schema)
    requires Accepts(table, leaf, Obj(MergeAnnotations(schema, inner)), v, n) && Accepts(table, leaf, Obj(b), v, n + 1)
    ensures Accepts(table, leaf, Obj(schema), v, n + 2)
  {
    hide Accepts, MergeAnnotations;
    MergedTight(table, leaf, schema, inner, v, n);
    forall k | k in schema && k != "anyOf" ensures Keyword(table, leaf, k, schema[k], v, n + 1) {
      hide Keyword;
      if k in ANNOTATIONS {
        DocsAccept(table, leaf, k, schema[k], v, n + 1);
      } else {
        assert k in Beside(schema) && k !in inner;
        KeywordMore(table, leaf, k, schema[k], v, n - 1, n + 1);
      }
    }
    hide Keyword;
    UnionAccepts(table, leaf, schema, Obj(b), v, n + 1);
  }

  lemma DocsAccept(table: Table, leaf: Leaf, k: string, arg: Json, v: Json, n: nat)
    requires k in ANNOTATIONS
    ensures Keyword(table, leaf, k, arg, v, n)
  {}

  /** Leaving branches out accepts no more either. */
  lemma FewerAddNothing(table: Table, leaf: Leaf, schema: Fields, rest: seq<Fields>, v: Json, n: nat)
    requires Union(schema, 0) && forall b :: b in rest ==> Obj(b) in schema["anyOf"].items
    requires Accepts(table, leaf, Obj(schema["anyOf" := ToArr(rest)]), v, n)
    ensures Accepts(table, leaf, Obj(schema), v, n)
  {
    hide Accepts;
    var after := schema["anyOf" := ToArr(rest)];
    KeywordOf(table, leaf, after, "anyOf", v, n);
    var j :| j in ToArr(rest).items && Accepts(table, leaf, j, v, n - 1);
    var i :| 0 <= i < |rest| && Obj(rest[i]) == j;
    assert rest[i] in rest;
    forall k | k in schema && k != "anyOf" ensures Keyword(table, leaf, k, schema[k], v, n - 1) { KeywordOf(table, leaf, after, k, v, n); }
    UnionAccepts(table, leaf, schema, j, v, n - 1);
  }

  /** Peeling `null` off a union lets no value in, if its branches do not repeat what stands beside it. */
  lemma NullableAddsNothing(table: Table, leaf: Leaf, schema: Fields, v: Json, n: nat)
    requires NullUnion(schema) && NoOverlap(map[], schema) && NullableInner(schema).Some?
    requires Accepts(table, leaf, Obj(NullableInner(schema).value), v, n)
    ensures Accepts(table, leaf, Obj(schema), v, n + 2)
  {
    hide Accepts, NullUnion;
    BranchesOf(schema);
    var rest := Filter(Branches(schema).value, NotNull);
    if |rest| == 1 {
      assert rest[0] in rest;
      WrittenBranch(table, leaf, schema, rest[0], v, n);
    } else {
      FewerAddNothing(table, leaf, schema, rest, v, n);
      AcceptsMore(table, leaf, Obj(schema), v, n, n + 2);
    }
  }

  lemma WrittenBranch(table: Table, leaf: Leaf, schema: Fields, b: Fields, v: Json, n: nat)
    requires NoOverlap(map[], schema) && Obj(b) in schema["anyOf"].items
    requires Accepts(table, leaf, Obj(MergeAnnotations(schema, b)), v, n)
    ensures Accepts(table, leaf, Obj(schema), v, n + 2)
  {
    hide Accepts, Keyword, MergeAnnotations;
    assert Deref(map[], b) == b;
    MergedTight(table, leaf, schema, b, v, n);
    AcceptsMore(table, leaf, Obj(b), v, n, n + 1);
    UnwrappedAddsNothing(table, leaf, schema, b, b, v, n);
  }

  /** Nor does unwrapping a union of one. */
  lemma SingleAddsNothing(table: Table, leaf: Leaf, schema: Fields, v: Json, n: nat)
    requires OneBranchUnion(schema) && NoOverlap(map[], schema) && SingleBranch(schema).Some?
    requires Accepts(table, leaf, Obj(SingleBranch(schema).value), v, n)
    ensures Accepts(table, leaf, Obj(schema), v, n + 2)
  {
    hide Accepts;
    BranchesOf(schema);
    assert Branches(schema).value[0] in Branches(schema).value;
    WrittenBranch(table, leaf, schema, Branches(schema).value[0], v, n);
  }

  /** Nor does dropping the three strings beside a number. */
  lemma FiniteAddsNothing(table: Table, leaf: Leaf, schema: Fields, v: Json, n: nat)
    requires FiniteNumber(table, schema).Some? && NoOverlap(table, schema)
    requires forall j :: j in schema["anyOf"].items ==> WrittenOrReferred(table, j.fields)
    requires Accepts(table, leaf, Obj(FiniteNumber(table, schema).value), v, n)
    ensures Accepts(table, leaf, Obj(schema), v, n + 2)
  {
    hide Accepts, WrittenOrReferred, IsNonFiniteEnum, Deref, IsNumeric;
    BranchesOf(schema);
    var rest := Filter(Branches(schema).value, b => !IsNonFiniteEnum(table, b));
    if |rest| == 1 {
      assert rest[0] in rest && Obj(rest[0]) in schema["anyOf"].items;
      var inner := Deref(table, rest[0]);
      MergedTight(table, leaf, schema, inner, v, n);
      ReferredAccepts(table, leaf, rest[0], v, n);
      UnwrappedAddsNothing(table, leaf, schema, rest[0], inner, v, n);
    } else {
      FewerAddNothing(table, leaf, schema, rest, v, n);
      AcceptsMore(table, leaf, Obj(schema), v, n, n + 2);
    }
  }

  /** A merged enumeration accepts only strings that some branch lists; a widened one only strings. */
  lemma StringsStayStrings(table: Table, leaf: Leaf, schema: Fields, v: Json, n: nat)
    ensures MergedStringEnum(table, schema).Some? && Accepts(table, leaf, Obj(MergedStringEnum(table, schema).value), v, n) ==>
      v.Str? && exists j :: j in schema["anyOf"].items && StringEnum(Deref(table, j.fields)) && v in Deref(table, j.fields)["enum"].items
    ensures WidenedString(table, schema).Some? && Accepts(table, leaf, Obj(WidenedString(table, schema).value), v, n) ==> v.Str?
  {
    hide Deref, PlainString;
    BranchesOf(schema);
    if MergedStringEnum(table, schema).Some? && Accepts(table, leaf, Obj(MergedStringEnum(table, schema).value), v, n) {
      var merged := MergedStringEnum(table, schema).value;
      var values := EnumValues(table, Branches(schema).value, []).value;
      KeywordOf(table, leaf, merged, "enum", v, n);
      KeywordOf(table, leaf, merged, "type", v, n);
      assert v in StrArr(values).items;
      var i :| 0 <= i < |values| && v == Str(values[i]);
      assert values[i] in values;
      var b := ListedBy(table, Branches(schema).value, [], values[i]);
      assert Obj(b) in schema["anyOf"].items;
    }
    if WidenedString(table, schema).Some? && Accepts(table, leaf, Obj(WidenedString(table, schema).value), v, n) {
      KeywordOf(table, leaf, WidenedString(table, schema).value, "type", v, n);
    }
  }

  lemma {:induction false} ListedBy(table: Table, branches: seq<Fields>, values: seq<string>, s: string) returns (b: Fields)
    requires EnumValues(table, branches, values).Some? && s in EnumValues(table, branches, values).value && s !in values
    ensures b in branches && StringEnum(Deref(table, b)) && Str(s) in Deref(table, b)["enum"].items
  {
    hide Deref;
    StringsOf(Deref(table, branches[0]), "enum");
    var more := AsStringArray(Get(Deref(table, branches[0]), "enum")).value;
    b := branches[0];
    if s !in more { b := ListedBy(table, branches[1..], AddNew(values, more), s); }
  }

  /** A flattened schema keeps everything beside its `allOf`, and of the fragments what the last one
      with a keyword says. */
  lemma FlatteningKeeps(schema: Fields, k: string)
    requires FlattenedAllOf(schema).Some?
    ensures
      var after, fragments := FlattenedAllOf(schema).value, AsObjectArray(Get(schema, "allOf")).value;
      if k in schema && k != "allOf" then k in after && after[k] == schema[k]
      else if forall f :: f in fragments ==> k !in f then k !in after
      else exists i :: 0 <= i < |fragments| && LastWith(fragments, i, k) && k in after && after[k] == fragments[i][k]
  {
    LastAssigned(AsObjectArray(Get(schema, "allOf")).value, k);
  }

  predicate LastWith(fragments: seq<Fields>, i: nat, k: string)
    requires i < |fragments|
  {
    k in fragments[i] && forall m :: i < m < |fragments| ==> k !in fragments[m]
  }

  lemma {:induction false} LastAssigned(fragments: seq<Fields>, k: string)
    ensures
      if forall f :: f in fragments ==> k !in f then k !in Assign(fragments)
      else exists i :: 0 <= i < |fragments| && LastWith(fragments, i, k) && k in Assign(fragments) && Assign(fragments)[k] == fragments[i][k]
  {
    if fragments != [] {
      var front, last := fragments[..|fragments| - 1], fragments[|fragments| - 1];
      assert fragments == front + [last];
      LastAssigned(front, k);
      if k in last {
        assert LastWith(fragments, |fragments| - 1, k);
      } else if exists f :: f in front && k in f {
        var i :| 0 <= i < |front| && LastWith(front, i, k) && k in Assign(front) && Assign(front)[k] == front[i][k];
        assert LastWith(fragments, i, k);
      }
    }
  }

  // ------------------------------------------------------------ the flag

  /** No branch of a union is the null type. */
  predicate NoNullBranch(k: string, arg: Json) {
    k == "anyOf" && arg.Arr? ==> forall j :: j in arg.items && j.Obj? ==> !TypeIs(j.fields, "null")
  }

  lemma NoNullIsStable()
    ensures Stable(NoNullBranch)
  {
    forall branches, rest: seq<Fields> | FewerOf(branches, rest) && NoNullBranch("anyOf", ToArr(branches))
      ensures NoNullBranch("anyOf", ToArr(rest))
    {
      forall j | j in ToArr(rest).items ensures !TypeIs(j.fields, "null") {
        var i :| 0 <= i < |rest| && ToArr(rest).items[i] == j;
        assert rest[i] in rest;
        var m :| 0 <= m < |branches| && branches[m] == rest[i];
        assert ToArr(branches).items[m] == j;
      }
    }
  }

  lemma NothingToPeel(schema: Fields)
    requires Passes(NoNullBranch, schema)
    ensures NullableInner(schema).None?
  {
    NullableApplies(schema);
    if NullUnion(schema) { NullBranchIn(schema); }
  }

  lemma NullBranchIn(schema: Fields)
    requires NullUnion(schema)
    ensures "anyOf" in schema && !NoNullBranch("anyOf", schema["anyOf"])
  {
    var k :| 0 <= k < |schema["anyOf"].items| && OnlyNullAt(schema["anyOf"].items, k);
    assert schema["anyOf"].items[k] in schema["anyOf"].items;
  }

  lemma {:induction false} PeelNotNullable(table: Table, schema: Fields, passes: nat)
    requires NumbersPass(table, NoNullBranch) && Passes(NoNullBranch, schema)
    ensures !Peel(table, schema, false, passes).nullable
    decreases passes
  {
    hide Passes, NumbersPass, NullableInner, Rewrite, Stable;
    NothingToPeel(schema);
    NoNullIsStable();
    if passes > 0 && Peelable(table, schema) {
      RewritePasses(table, NoNullBranch, schema);
      PeelNotNullable(table, Rewrite(table, schema).value, passes - 1);
    }
  }

  lemma {:induction false} ResolveNotNullable(table: Table, schema: Fields, seen: set<string>, passes: nat)
    requires NumbersPass(table, NoNullBranch) && AliasesPass(table, NoNullBranch) && Passes(NoNullBranch, schema)
    requires forall x :: x in Aliases(table) ==> !Aliases(table)[x].nullable
    ensures !ResolveFrom(table, schema, false, seen, passes).nullable
    decreases passes
  {
    hide Passes, NumbersPass, AliasesPass, Stable, Collapse, Aliases;
    NoNullIsStable();
    if passes == 0 {
    } else if AsString(Get(schema, "$ref")).Some? {
      if RefName(schema).Some? && RefName(schema).value in Aliases(table) && RefName(schema).value !in seen {
        var name := RefName(schema).value;
        AliasPasses(table, NoNullBranch, schema);
        ResolveNotNullable(table, Aliases(table)[name].schema, seen + {name}, passes - 1);
      }
    } else if Collapse(table, schema).Some? {
      CollapsePasses(table, NoNullBranch, schema);
      CollapseNotNullable(table, schema);
      ResolveNotNullable(table, Collapse(table, schema).value.schema, seen, passes - 1);
    }
  }

  lemma CollapseNotNullable(table: Table, schema: Fields)
    requires NumbersPass(table, NoNullBranch) && Passes(NoNullBranch, schema) && Collapse(table, schema).Some?
    ensures !Collapse(table, schema).value.nullable
  {
    hide Passes, NumbersPass, Peel, Peelable;
    PeelNotNullable(table, schema, COLLAPSE_PASSES);
  }

  /** Where no union has a null branch, neither in the schema nor in the components, nothing is found
      nullable: a required key stays required. */
  lemma OnlyNullMakesOptional(table: Table, schema: Fields)
    requires Passes(NoNullBranch, schema) && forall x :: x in table && table[x].Obj? ==> Passes(NoNullBranch, table[x].fields)
    ensures !Resolve(table, schema).nullable
  {
    hide Passes, Stable, Collapse, ResolveFrom;
    NoNullIsStable();
    assert NumbersPass(table, NoNullBranch);
    forall x | x in Aliases(table) ensures Passes(NoNullBranch, Aliases(table)[x].schema) && !Aliases(table)[x].nullable {
      CollapsePasses(table, NoNullBranch, table[x].fields);
      CollapseNotNullable(table, table[x].fields);
    }
    ResolveNotNullable(table, schema, {}, RESOLVE_PASSES);
  }
}
