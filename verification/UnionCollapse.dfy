/** The synthetic unions the generator peels off (scripts/generate-ios-openapi.ts,
    `collapseNullableUnions`), and the proof that peeling only ever relaxes a schema: what was
    accepted stays accepted, apart from `null`, which moves to the owning key, and the three
    strings that stand for non-finite numbers. */
module UnionCollapse {
  import opened JsonSchema
  import opened Wrappers

  const NON_FINITE := ["Infinity", "-Infinity", "NaN"]
  const STRUCTURAL := {"$ref", "properties", "items", "allOf", "anyOf", "oneOf", "additionalProperties"}
  const COLLAPSE_PASSES := 8
  const RESOLVE_PASSES := 16

  datatype Collapsed = Collapsed(schema: Fields, nullable: bool)

  function Branches(schema: Fields): Option<seq<Fields>> { AsObjectArray(Get(schema, "anyOf")) }

  function ToArr(branches: seq<Fields>): Json {
    Arr(seq(|branches|, k requires 0 <= k < |branches| => Obj(branches[k])))
  }

  function Filter(branches: seq<Fields>, keep: Fields -> bool): (r: seq<Fields>)
    ensures |r| <= |branches|
    ensures |r| == |branches| ==> r == branches
    ensures forall b :: b in r <==> b in branches && keep(b)
  {
    if branches == [] then []
    else if keep(branches[0]) then [branches[0]] + Filter(branches[1..], keep)
    else Filter(branches[1..], keep)
  }

  /** A wrapper's sibling annotations folded onto its inner schema. */
  function MergeAnnotations(wrapper: Fields, inner: Fields): Fields { (wrapper - {"anyOf"}) + inner }

  /** A schema looked up through its `$ref`, in the component table as it was read. */
  function Deref(table: Table, schema: Fields): Fields {
    match RefName(schema)
    case None => schema
    case Some(name) =>
      match AsObject(Get(table, name))
      case None => schema
      case Some(target) => target
  }

  // ------------------------------------------------------------ the six rewrite rules

  predicate NotNull(branch: Fields) { Get(branch, "type") != Some(Str("null")) }

  function NullableInner(schema: Fields): Option<Fields> {
    match Branches(schema)
    case None => None
    case Some(branches) =>
      if |branches| < 2 then None else
      var rest := Filter(branches, NotNull);
      if |rest| != |branches| - 1 then None
      else if |rest| == 1 then Some(MergeAnnotations(schema, rest[0]))
      else Some(schema["anyOf" := ToArr(rest)])
  }

  predicate IsNonFiniteEnum(table: Table, branch: Fields) {
    match AsStringArray(Get(Deref(table, branch), "enum"))
    case None => false
    case Some(values) => |values| == |NON_FINITE| && forall s :: s in NON_FINITE ==> s in values
  }

  predicate IsNumeric(table: Table, branch: Fields) {
    Get(Deref(table, branch), "type") in {Some(Str("number")), Some(Str("integer"))}
  }

  function FiniteNumber(table: Table, schema: Fields): Option<Fields> {
    match Branches(schema)
    case None => None
    case Some(branches) =>
      if |branches| < 2 then None else
      var rest := Filter(branches, b => !IsNonFiniteEnum(table, b));
      if |rest| == |branches| || !(exists b :: b in rest && IsNumeric(table, b)) then None
      else if |rest| == 1 then Some(MergeAnnotations(schema, Deref(table, rest[0])))
      else Some(schema["anyOf" := ToArr(rest)])
  }

  /** The values of string-enum branches in order of first appearance; none if some branch is no string enum. */
  function EnumValues(table: Table, branches: seq<Fields>, values: seq<string>): Option<seq<string>> {
    if branches == [] then Some(values) else
    var branch := Deref(table, branches[0]);
    var more := AsStringArray(Get(branch, "enum"));
    if Get(branch, "type") != Some(Str("string")) || more.None? then None
    else EnumValues(table, branches[1..], AddNew(values, more.value))
  }

  function AddNew(values: seq<string>, more: seq<string>): (r: seq<string>)
    ensures forall s :: s in r <==> s in values || s in more
    decreases |more|
  {
    if more == [] then values
    else AddNew(if more[0] in values then values else values + [more[0]], more[1..])
  }

  function MergedStringEnum(table: Table, schema: Fields): Option<Fields> {
    match Branches(schema)
    case None => None
    case Some(branches) =>
      if |branches| < 2 then None else
      match EnumValues(table, branches, [])
      case None => None
      case Some(values) => Some(MergeAnnotations(schema, map["type" := Str("string"), "enum" := StrArr(values)]))
  }

  function StrArr(values: seq<string>): Json {
    Arr(seq(|values|, k requires 0 <= k < |values| => Str(values[k])))
  }

  predicate PlainString(table: Table, branch: Fields) {
    var target := Deref(table, branch);
    Get(target, "type") == Some(Str("string")) && forall k :: k in STRUCTURAL ==> k !in target
  }

  function WidenedString(table: Table, schema: Fields): Option<Fields> {
    match Branches(schema)
    case None => None
    case Some(branches) =>
      if |branches| < 2 then None
      else if exists b :: b in branches && !PlainString(table, b) then None
      else if forall b :: b in branches ==> AsStringArray(Get(Deref(table, b), "enum")).Some? then None
      else Some(MergeAnnotations(schema, map["type" := Str("string")]))
  }

  /** JavaScript's `===` on two JSON members of one document: scalars by value, the rest never equal. */
  predicate SameScalar(a: Option<Json>, b: Option<Json>) {
    a == b && (a.Some? ==> Scalar(a.value))
  }

  predicate ConstraintOnly(schema: Fields, fragment: Fields) {
    && (forall k :: k in STRUCTURAL ==> k !in fragment)
    && ("type" in fragment ==> SameScalar(Get(fragment, "type"), Get(schema, "type")))
  }

  /** `Object.assign` over the fragments: later ones win. */
  function Assign(fragments: seq<Fields>): Fields {
    if fragments == [] then map[] else Assign(fragments[..|fragments| - 1]) + fragments[|fragments| - 1]
  }

  function FlattenedAllOf(schema: Fields): Option<Fields> {
    match AsObjectArray(Get(schema, "allOf"))
    case None => None
    case Some(fragments) =>
      if fragments == [] || exists f :: f in fragments && !ConstraintOnly(schema, f) then None
      else Some(Assign(fragments) + (schema - {"allOf"}))
  }

  function SingleBranch(schema: Fields): Option<Fields> {
    match Branches(schema)
    case None => None
    case Some(branches) =>
      if |branches| != 1 then None else Some(MergeAnnotations(schema, branches[0]))
  }

  /** The rules other than peeling `null`, first match wins. */
  function Rewrite(table: Table, schema: Fields): Option<Fields> {
    OrElse(FiniteNumber(table, schema),
    OrElse(MergedStringEnum(table, schema),
    OrElse(WidenedString(table, schema),
    OrElse(FlattenedAllOf(schema), SingleBranch(schema)))))
  }

  // ------------------------------------------------------------ relaxation

  ghost predicate Plain(v: Json) { v != Null && !(v.Str? && v.s in NON_FINITE) }

  /** `after` accepts every plain value `before` accepts, and `null` too unless `nullable`. */
  ghost predicate Relaxes(table: Table, leaf: Leaf, before: Fields, after: Fields, nullable: bool) {
    forall v, n: nat | Accepts(table, leaf, Obj(before), v, n) && (Plain(v) || (v == Null && !nullable)) ::
      Accepts(table, leaf, Obj(after), v, n)
  }

  /** An object schema accepts a value at a step when each keyword does. */
  lemma KeywordOf(table: Table, leaf: Leaf, o: Fields, k: string, v: Json, n: nat)
    requires Accepts(table, leaf, Obj(o), v, n) && k in o
    ensures n > 0 && Keyword(table, leaf, k, o[k], v, n - 1)
  {}

  /** The branch of a union that accepted a value. */
  lemma UnionBranch(table: Table, leaf: Leaf, schema: Fields, v: Json, n: nat) returns (b: Fields)
    requires Accepts(table, leaf, Obj(schema), v, n) && Branches(schema).Some?
    ensures n > 0 && b in Branches(schema).value && Accepts(table, leaf, Obj(b), v, n - 1)
  {
    KeywordOf(table, leaf, schema, "anyOf", v, n);
    var items, branches := schema["anyOf"].items, Branches(schema).value;
    var j :| j in items && Accepts(table, leaf, j, v, n - 1);
    var i :| 0 <= i < |items| && items[i] == j;
    b := branches[i];
  }

  /** Folding an inner schema that accepts `v` onto a wrapper that accepts `v`. */
  lemma MergeAccepts(table: Table, leaf: Leaf, wrapper: Fields, inner: Fields, v: Json, n: nat, m: nat)
    requires Accepts(table, leaf, Obj(wrapper), v, n) && Accepts(table, leaf, Obj(inner), v, m) && m <= n
    ensures Accepts(table, leaf, Obj(MergeAnnotations(wrapper, inner)), v, n)
  {
    var merged := MergeAnnotations(wrapper, inner);
    AcceptsMore(table, leaf, Obj(inner), v, m, n);
    forall k | k in merged ensures Keyword(table, leaf, k, merged[k], v, n - 1) {
      if k in inner { KeywordOf(table, leaf, inner, k, v, n); } else { KeywordOf(table, leaf, wrapper, k, v, n); }
    }
  }

  /** Replacing a union's branches by some that still accept `v`. */
  lemma FewerBranches(table: Table, leaf: Leaf, schema: Fields, rest: seq<Fields>, b: Fields, v: Json, n: nat)
    requires Accepts(table, leaf, Obj(schema), v, n) && n > 0
    requires b in rest && Accepts(table, leaf, Obj(b), v, n - 1)
    ensures Accepts(table, leaf, Obj(schema["anyOf" := ToArr(rest)]), v, n)
  {
    var after := schema["anyOf" := ToArr(rest)];
    var i :| 0 <= i < |rest| && rest[i] == b;
    assert ToArr(rest).items[i] == Obj(b);
    forall k | k in after ensures Keyword(table, leaf, k, after[k], v, n - 1) {
      if k != "anyOf" { KeywordOf(table, leaf, schema, k, v, n); }
    }
  }

  /** Following a branch's `$ref` keeps what the branch accepts. */
  lemma DerefAccepts(table: Table, leaf: Leaf, b: Fields, v: Json, n: nat)
    requires Accepts(table, leaf, Obj(b), v, n)
    ensures Accepts(table, leaf, Obj(Deref(table, b)), v, n)
  {
    if Deref(table, b) != b {
      KeywordOf(table, leaf, b, "$ref", v, n);
      var name := RefName(b).value;
      AcceptsMore(table, leaf, table[name], v, n - 1, n);
    }
  }

  lemma NullableInnerRelaxes(table: Table, leaf: Leaf, schema: Fields)
    requires NullableInner(schema).Some?
    ensures Relaxes(table, leaf, schema, NullableInner(schema).value, true)
  {
    var rest := Filter(Branches(schema).value, NotNull);
    forall v, n: nat | Accepts(table, leaf, Obj(schema), v, n) && Plain(v)
      ensures Accepts(table, leaf, Obj(NullableInner(schema).value), v, n)
    {
      var b := UnionBranch(table, leaf, schema, v, n);
      if "type" in b { KeywordOf(table, leaf, b, "type", v, n - 1); }
      assert b in rest;
      if |rest| == 1 {
        MergeAccepts(table, leaf, schema, b, v, n, n - 1);
      } else {
        FewerBranches(table, leaf, schema, rest, b, v, n);
      }
    }
  }

  /** Three given strings, none of them twice: a list of length three that has them has nothing else. */
  lemma OnlyNonFinite(values: seq<string>, s: string)
    requires |values| == 3 && s in values && forall t :: t in NON_FINITE ==> t in values
    ensures s in NON_FINITE
  {
    assert NON_FINITE[0] in NON_FINITE && NON_FINITE[1] in NON_FINITE && NON_FINITE[2] in NON_FINITE;
    assert NON_FINITE[0][0] == 'I' && NON_FINITE[1][0] == '-' && NON_FINITE[2][0] == 'N';
  }

  lemma NonFiniteBranch(table: Table, leaf: Leaf, b: Fields, v: Json, n: nat)
    requires Accepts(table, leaf, Obj(b), v, n) && IsNonFiniteEnum(table, b)
    ensures v.Str? && v.s in NON_FINITE
  {
    DerefAccepts(table, leaf, b, v, n);
    var target := Deref(table, b);
    KeywordOf(table, leaf, target, "enum", v, n);
    var values := AsStringArray(Get(target, "enum")).value;
    var i :| 0 <= i < |values| && target["enum"].items[i] == v;
    OnlyNonFinite(values, values[i]);
  }

  lemma FiniteNumberRelaxes(table: Table, leaf: Leaf, schema: Fields)
    requires FiniteNumber(table, schema).Some?
    ensures Relaxes(table, leaf, schema, FiniteNumber(table, schema).value, false)
  {
    hide Accepts, Keyword, Deref, IsNonFiniteEnum, IsNumeric, MergeAnnotations, ToArr;
    var rest := Filter(Branches(schema).value, b => !IsNonFiniteEnum(table, b));
    forall v, n: nat | Accepts(table, leaf, Obj(schema), v, n) && (Plain(v) || v == Null)
      ensures Accepts(table, leaf, Obj(FiniteNumber(table, schema).value), v, n)
    {
      var b := UnionBranch(table, leaf, schema, v, n);
      if IsNonFiniteEnum(table, b) { NonFiniteBranch(table, leaf, b, v, n - 1); }
      assert b in rest;
      if |rest| == 1 {
        DerefAccepts(table, leaf, b, v, n - 1);
        MergeAccepts(table, leaf, schema, Deref(table, b), v, n, n - 1);
      } else {
        FewerBranches(table, leaf, schema, rest, b, v, n);
      }
    }
  }

  lemma {:induction false} EnumValuesHold(table: Table, branches: seq<Fields>, values: seq<string>, b: Fields)
    requires EnumValues(table, branches, values).Some? && b in branches
    ensures Get(Deref(table, b), "type") == Some(Str("string"))
    ensures AsStringArray(Get(Deref(table, b), "enum")).Some?
    ensures forall s :: s in AsStringArray(Get(Deref(table, b), "enum")).value ==> s in EnumValues(table, branches, values).value
  {
    var more := AddNew(values, AsStringArray(Get(Deref(table, branches[0]), "enum")).value);
    if b == branches[0] {
      EnumValuesGrow(table, branches[1..], more);
    } else {
      EnumValuesHold(table, branches[1..], more, b);
    }
  }

  lemma {:induction false} EnumValuesGrow(table: Table, branches: seq<Fields>, values: seq<string>)
    requires EnumValues(table, branches, values).Some?
    ensures forall s :: s in values ==> s in EnumValues(table, branches, values).value
  {
    if branches != [] {
      EnumValuesGrow(table, branches[1..], AddNew(values, AsStringArray(Get(Deref(table, branches[0]), "enum")).value));
    }
  }

  /** A branch that is a string enum accepts only its strings. */
  lemma StringBranch(table: Table, leaf: Leaf, b: Fields, v: Json, n: nat)
    requires Accepts(table, leaf, Obj(b), v, n) && Get(Deref(table, b), "type") == Some(Str("string"))
    ensures v.Str?
    ensures AsStringArray(Get(Deref(table, b), "enum")).Some? ==> v.s in AsStringArray(Get(Deref(table, b), "enum")).value
  {
    DerefAccepts(table, leaf, b, v, n);
    var target := Deref(table, b);
    KeywordOf(table, leaf, target, "type", v, n);
    if AsStringArray(Get(target, "enum")).Some? {
      KeywordOf(table, leaf, target, "enum", v, n);
      var values := AsStringArray(Get(target, "enum")).value;
      var i :| 0 <= i < |values| && target["enum"].items[i] == v;
      assert values[i] == v.s;
    }
  }

  lemma StringEnumAccepts(table: Table, leaf: Leaf, values: seq<string>, v: Json, n: nat)
    requires n > 0 && v.Str? && v.s in values
    ensures Accepts(table, leaf, Obj(map["type" := Str("string"), "enum" := StrArr(values)]), v, n)
  {
    var i :| 0 <= i < |values| && values[i] == v.s;
    assert StrArr(values).items[i] == v;
  }

  lemma MergedStringEnumRelaxes(table: Table, leaf: Leaf, schema: Fields)
    requires MergedStringEnum(table, schema).Some?
    ensures Relaxes(table, leaf, schema, MergedStringEnum(table, schema).value, false)
  {
    hide Accepts, Keyword, StrArr, Deref, MergeAnnotations;
    var branches := Branches(schema).value;
    var values := EnumValues(table, branches, []).value;
    var inner := map["type" := Str("string"), "enum" := StrArr(values)];
    forall v, n: nat | Accepts(table, leaf, Obj(schema), v, n)
      ensures Accepts(table, leaf, Obj(MergedStringEnum(table, schema).value), v, n)
    {
      var b := UnionBranch(table, leaf, schema, v, n);
      EnumValuesHold(table, branches, [], b);
      StringBranch(table, leaf, b, v, n - 1);
      StringEnumAccepts(table, leaf, values, v, n);
      MergeAccepts(table, leaf, schema, inner, v, n, n);
    }
  }

  lemma WidenedStringRelaxes(table: Table, leaf: Leaf, schema: Fields)
    requires WidenedString(table, schema).Some?
    ensures Relaxes(table, leaf, schema, WidenedString(table, schema).value, false)
  {
    var inner := map["type" := Str("string")];
    forall v, n: nat | Accepts(table, leaf, Obj(schema), v, n)
      ensures Accepts(table, leaf, Obj(WidenedString(table, schema).value), v, n)
    {
      var b := UnionBranch(table, leaf, schema, v, n);
      assert PlainString(table, b);
      StringBranch(table, leaf, b, v, n - 1);
      assert Accepts(table, leaf, Obj(inner), v, n);
      MergeAccepts(table, leaf, schema, inner, v, n, n);
    }
  }

  lemma {:induction false} AssignedFrom(fragments: seq<Fields>, k: string) returns (f: Fields)
    requires k in Assign(fragments)
    ensures f in fragments && k in f && Assign(fragments)[k] == f[k]
  {
    f := fragments[|fragments| - 1];
    if k !in f { f := AssignedFrom(fragments[..|fragments| - 1], k); }
  }

  lemma FragmentAccepts(table: Table, leaf: Leaf, schema: Fields, f: Fields, v: Json, n: nat)
    requires Accepts(table, leaf, Obj(schema), v, n)
    requires AsObjectArray(Get(schema, "allOf")).Some? && f in AsObjectArray(Get(schema, "allOf")).value
    ensures n > 0 && Accepts(table, leaf, Obj(f), v, n - 1)
  {
    KeywordOf(table, leaf, schema, "allOf", v, n);
    var fragments := AsObjectArray(Get(schema, "allOf")).value;
    var i :| 0 <= i < |fragments| && fragments[i] == f;
    assert schema["allOf"].items[i] == Obj(f);
  }

  lemma FlattenedAllOfRelaxes(table: Table, leaf: Leaf, schema: Fields)
    requires FlattenedAllOf(schema).Some?
    ensures Relaxes(table, leaf, schema, FlattenedAllOf(schema).value, false)
  {
    var fragments := AsObjectArray(Get(schema, "allOf")).value;
    var after := FlattenedAllOf(schema).value;
    forall v, n: nat | Accepts(table, leaf, Obj(schema), v, n)
      ensures Accepts(table, leaf, Obj(after), v, n)
    {
      forall k | k in after ensures n > 0 && Keyword(table, leaf, k, after[k], v, n - 1) {
        if k in schema && k != "allOf" {
          KeywordOf(table, leaf, schema, k, v, n);
        } else {
          var f := AssignedFrom(fragments, k);
          FragmentAccepts(table, leaf, schema, f, v, n);
          AcceptsMore(table, leaf, Obj(f), v, n - 1, n);
          KeywordOf(table, leaf, f, k, v, n);
        }
      }
    }
  }

  /** Every constraint of every fragment survives with its own argument. */
  predicate Agreeing(schema: Fields, fragments: seq<Fields>) {
    var after := Assign(fragments) + (schema - {"allOf"});
    forall f :: f in fragments ==> forall k :: k in f && k !in ANNOTATIONS ==> k in after && after[k] == f[k]
  }

  /** A fragment without nested schemas accepts what the flattened schema accepts. */
  lemma FragmentHolds(table: Table, leaf: Leaf, f: Fields, after: Fields, v: Json, n: nat)
    requires forall k :: k in f && k !in ANNOTATIONS ==> k in after && after[k] == f[k]
    requires Accepts(table, leaf, Obj(after), v, n)
    ensures Accepts(table, leaf, Obj(f), v, n)
  {
    forall k | k in f ensures Keyword(table, leaf, k, f[k], v, n - 1) {
      if k !in ANNOTATIONS { KeywordOf(table, leaf, after, k, v, n); }
    }
  }

  /** Flattening is exact when no keyword is given two arguments. */
  lemma FlattenedAllOfIsExact(table: Table, leaf: Leaf, schema: Fields, v: Json, n: nat)
    requires FlattenedAllOf(schema).Some? && Agreeing(schema, AsObjectArray(Get(schema, "allOf")).value)
    requires Accepts(table, leaf, Obj(FlattenedAllOf(schema).value), v, n)
    ensures Accepts(table, leaf, Obj(schema), v, n + 1)
  {
    hide Keyword;
    var fragments := AsObjectArray(Get(schema, "allOf")).value;
    var after := FlattenedAllOf(schema).value;
    forall k | k in schema ensures Keyword(table, leaf, k, schema[k], v, n) {
      if k != "allOf" {
        KeywordOf(table, leaf, after, k, v, n);
        KeywordMore(table, leaf, k, schema[k], v, n - 1, n);
      } else {
        forall b | b in schema["allOf"].items ensures Accepts(table, leaf, b, v, n) {
          var i :| 0 <= i < |fragments| && schema["allOf"].items[i] == b;
          assert fragments[i] in fragments;
          FragmentHolds(table, leaf, fragments[i], after, v, n);
        }
        AllHold(table, leaf, schema["allOf"], v, n);
      }
    }
  }

  lemma AllHold(table: Table, leaf: Leaf, arg: Json, v: Json, n: nat)
    requires arg.Arr? && forall b :: b in arg.items ==> Accepts(table, leaf, b, v, n)
    ensures Keyword(table, leaf, "allOf", arg, v, n)
  {
    hide Accepts;
  }

  const TYPE_NAMES := {"null", "boolean", "number", "integer", "string", "array", "object"}
  const NESTING := {"type", "enum", "anyOf", "allOf", "properties", "required", "items", "$ref"}

  /** Keywords that judge a value by a scalar argument, like the checks of a branded string. */
  predicate Checks(fields: Fields) {
    forall k :: k in fields && k !in ANNOTATIONS ==> k !in NESTING && Scalar(fields[k])
  }

  /** One type beside checks and fragments of checks, which may restate the type. */
  predicate Branded(schema: Fields, fragments: seq<Fields>) {
    && ("type" in schema ==> schema["type"].Str? && schema["type"].s in TYPE_NAMES)
    && Checks(schema - {"type", "allOf"})
    && forall f :: f in fragments ==> Checks(f - {"type"})
  }

  function SomeValue(typeName: string): Json {
    match typeName
    case "null" => Null
    case "boolean" => Bool(true)
    case "string" => Str("")
    case "array" => Arr([])
    case "object" => Obj(map[])
    case _ => Num(0.0)
  }

  lemma SomeValueHasType(typeName: string)
    requires typeName in TYPE_NAMES
    ensures HasType(typeName, SomeValue(typeName))
  {}

  /** Accepts everything but what one keyword checks against one argument. */
  function Refusing(keyword: string, arg: Json): Leaf {
    (k: string, a: Json, v: Json) => !(k == keyword && a == arg)
  }

  /** The flattened schema accepts some value when the only check that refuses is one it lost. */
  lemma FlattenedAccepts(table: Table, schema: Fields, k: string, arg: Json)
    requires FlattenedAllOf(schema).Some? && Branded(schema, AsObjectArray(Get(schema, "allOf")).value)
    requires k !in NESTING && !(k in FlattenedAllOf(schema).value && FlattenedAllOf(schema).value[k] == arg)
    ensures Accepts(table, Refusing(k, arg), Obj(FlattenedAllOf(schema).value), BrandValue(schema), 1)
  {
    var fragments := AsObjectArray(Get(schema, "allOf")).value;
    hide FlattenedAllOf;
    var after := FlattenedAllOf(schema).value;
    var v := BrandValue(schema);
    forall j | j in after ensures Keyword(table, Refusing(k, arg), j, after[j], v, 0) {
      BrandedKeyword(schema, fragments, j);
      if j == "type" { SomeValueHasType(schema["type"].s); }
    }
  }

  function BrandValue(schema: Fields): Json {
    SomeValue(if "type" in schema && schema["type"].Str? then schema["type"].s else "null")
  }

  /** The schema itself refuses every value that a check of one of its fragments refuses. */
  lemma FragmentRefuses(table: Table, schema: Fields, f: Fields, k: string, v: Json, n: nat)
    requires FlattenedAllOf(schema).Some? && f in AsObjectArray(Get(schema, "allOf")).value
    requires k in f && k !in ANNOTATIONS && k !in NESTING && Scalar(f[k])
    ensures !Accepts(table, Refusing(k, f[k]), Obj(schema), v, n)
  {
    var leaf := Refusing(k, f[k]);
    if Accepts(table, leaf, Obj(schema), v, n) {
      FragmentAccepts(table, leaf, schema, f, v, n);
      KeywordOf(table, leaf, f, k, v, n - 1);
      assert false;
    }
  }

  /** What the flattened schema of a branded value is made of. */
  lemma BrandedKeyword(schema: Fields, fragments: seq<Fields>, k: string)
    requires FlattenedAllOf(schema).Some? && AsObjectArray(Get(schema, "allOf")) == Some(fragments)
    requires Branded(schema, fragments) && k in FlattenedAllOf(schema).value
    ensures k == "type" ==> "type" in schema && FlattenedAllOf(schema).value[k] == schema["type"]
    ensures k != "type" && k !in ANNOTATIONS ==> k !in NESTING && Scalar(FlattenedAllOf(schema).value[k])
  {
    var after := FlattenedAllOf(schema).value;
    if k in schema && k != "allOf" {
      if k != "type" { assert k in schema - {"type", "allOf"}; }
    } else {
      var f := AssignedFrom(fragments, k);
      assert ConstraintOnly(schema, f);
      if k != "type" { assert k in f - {"type"}; }
    }
  }

  /** For one type with checks, as branded scalars have, flattening adds no value, whatever the
      checks mean, if and only if no check is given two arguments. */
  lemma FlatteningIsExactForBrands(table: Table, schema: Fields)
    requires FlattenedAllOf(schema).Some?
    requires Branded(schema, AsObjectArray(Get(schema, "allOf")).value)
    ensures Agreeing(schema, AsObjectArray(Get(schema, "allOf")).value) <==> AddsNothing(table, schema)
  {
    hide Accepts, Keyword;
    var fragments := AsObjectArray(Get(schema, "allOf")).value;
    if Agreeing(schema, fragments) {
      forall leaf: Leaf, v, n: nat | Accepts(table, leaf, Obj(FlattenedAllOf(schema).value), v, n)
        ensures Accepts(table, leaf, Obj(schema), v, n + 1)
      {
        FlattenedAllOfIsExact(table, leaf, schema, v, n);
      }
    } else {
      var f, k :| f in fragments && k in f && k !in ANNOTATIONS &&
        !(k in FlattenedAllOf(schema).value && FlattenedAllOf(schema).value[k] == f[k]);
      assert ConstraintOnly(schema, f);
      assert k != "type" && k in f - {"type"};
      FlattenedAccepts(table, schema, k, f[k]);
      FragmentRefuses(table, schema, f, k, BrandValue(schema), 2);
    }
  }

  /** However the checks are judged, the flattened schema accepts only what the original accepts. */
  ghost predicate AddsNothing(table: Table, schema: Fields)
    requires FlattenedAllOf(schema).Some?
  {
    forall leaf: Leaf, v, n: nat | Accepts(table, leaf, Obj(FlattenedAllOf(schema).value), v, n) ::
      Accepts(table, leaf, Obj(schema), v, n + 1)
  }

  predicate MinLength(k: string, arg: Json, v: Json) {
    k == "minLength" && arg.Num? && v.Str? ==> |v.s| as real >= arg.n
  }

  /** A string branded with two minimum lengths. */
  function TwoMinima(): Fields {
    map["type" := Str("string"), "allOf" := Arr([Obj(AtLeast(5.0)), Obj(AtLeast(1.0))])]
  }

  function AtLeast(n: real): Fields { map["minLength" := Num(n)] }

  lemma TwoMinimaFlattened()
    ensures FlattenedAllOf(TwoMinima()) == Some(map["minLength" := Num(1.0), "type" := Str("string")])
  {
    var schema := TwoMinima();
    assert schema["allOf"].items == [Obj(AtLeast(5.0)), Obj(AtLeast(1.0))];
    var fragments := AsObjectArray(Get(schema, "allOf")).value;
    assert fragments == [AtLeast(5.0), AtLeast(1.0)];
    assert fragments[..1] == [AtLeast(5.0)] && [AtLeast(5.0)][..0] == [];
    assert Assign([AtLeast(5.0)]) == AtLeast(5.0);
    assert Assign(fragments) == AtLeast(1.0);
    assert ConstraintOnly(schema, AtLeast(5.0)) && ConstraintOnly(schema, AtLeast(1.0)) by {
      forall k | k in STRUCTURAL ensures |k| != |"minLength"| { }
    }
    assert schema - {"allOf"} == map["type" := Str("string")];
    assert AtLeast(1.0) + map["type" := Str("string")] == map["minLength" := Num(1.0), "type" := Str("string")];
    assert forall f :: f in fragments ==> f == AtLeast(5.0) || f == AtLeast(1.0);
  }

  /** With two arguments the last fragment's wins, and a value only the other one refuses gets in. */
  lemma FlatteningLosesConflicts(table: Table, n: nat)
    ensures FlattenedAllOf(TwoMinima()).Some?
    ensures Accepts(table, MinLength, Obj(FlattenedAllOf(TwoMinima()).value), Str("abc"), 1)
    ensures !Accepts(table, MinLength, Obj(TwoMinima()), Str("abc"), n)
  {
    hide FlattenedAllOf;
    TwoMinimaFlattened();
    if Accepts(table, MinLength, Obj(TwoMinima()), Str("abc"), n) {
      KeywordOf(table, MinLength, TwoMinima(), "allOf", Str("abc"), n);
      assert TwoMinima()["allOf"].items[0] == Obj(AtLeast(5.0));
      KeywordOf(table, MinLength, AtLeast(5.0), "minLength", Str("abc"), n - 1);
      assert false;
    }
  }

  lemma SingleBranchRelaxes(table: Table, leaf: Leaf, schema: Fields)
    requires SingleBranch(schema).Some?
    ensures Relaxes(table, leaf, schema, SingleBranch(schema).value, false)
  {
    forall v, n: nat | Accepts(table, leaf, Obj(schema), v, n)
      ensures Accepts(table, leaf, Obj(SingleBranch(schema).value), v, n)
    {
      var b := UnionBranch(table, leaf, schema, v, n);
      MergeAccepts(table, leaf, schema, b, v, n, n - 1);
    }
  }

  lemma RewriteRelaxes(table: Table, leaf: Leaf, schema: Fields)
    requires Rewrite(table, schema).Some?
    ensures Relaxes(table, leaf, schema, Rewrite(table, schema).value, false)
  {
    if FiniteNumber(table, schema).Some? { FiniteNumberRelaxes(table, leaf, schema); }
    else if MergedStringEnum(table, schema).Some? { MergedStringEnumRelaxes(table, leaf, schema); }
    else if WidenedString(table, schema).Some? { WidenedStringRelaxes(table, leaf, schema); }
    else if FlattenedAllOf(schema).Some? { FlattenedAllOfRelaxes(table, leaf, schema); }
    else { SingleBranchRelaxes(table, leaf, schema); }
  }

  // ------------------------------------------------------------ the loops

  predicate Peelable(table: Table, schema: Fields) {
    NullableInner(schema).Some? || Rewrite(table, schema).Some?
  }

  /** Peeling a schema for at most `passes` steps. */
  function Peel(table: Table, schema: Fields, nullable: bool, passes: nat): Collapsed
    decreases passes
  {
    if passes == 0 || !Peelable(table, schema) then Collapsed(schema, nullable)
    else if NullableInner(schema).Some? then Peel(table, NullableInner(schema).value, true, passes - 1)
    else Peel(table, Rewrite(table, schema).value, nullable, passes - 1)
  }

  function PeelAll(table: Table, schema: Fields): Collapsed { Peel(table, schema, false, COLLAPSE_PASSES) }

  lemma PeelFromTheStart(table: Table, schema: Fields, passes: nat)
    requires passes == COLLAPSE_PASSES
    ensures Peel(table, schema, false, passes) == PeelAll(table, schema)
  {
    hide Peel;
  }

  lemma PeelOneStep(table: Table, schema: Fields, nullable: bool, passes: nat)
    requires passes > 0
    ensures Peel(table, schema, nullable, passes) ==
      if NullableInner(schema).Some? then Peel(table, NullableInner(schema).value, true, passes - 1)
      else if Rewrite(table, schema).Some? then Peel(table, Rewrite(table, schema).value, nullable, passes - 1)
      else Collapsed(schema, nullable)
  {
    hide NullableInner, Rewrite;
  }

  lemma PeelNoMore(table: Table, schema: Fields, nullable: bool)
    ensures Peel(table, schema, nullable, 0) == Collapsed(schema, nullable)
  {
    hide NullableInner, Rewrite;
  }

  function Collapse(table: Table, schema: Fields): Option<Collapsed> {
    if Peelable(table, schema) then Some(PeelAll(table, schema)) else None
  }

  method CollapseUnion(table: Table, schema: Fields) returns (r: Option<Collapsed>)
    ensures r == Collapse(table, schema)
  {
    hide NullableInner, Rewrite, PeelAll, Peel;
    var current, nullable, collapsed, pass := schema, false, false, 0;
    PeelFromTheStart(table, schema, COLLAPSE_PASSES - pass);
    while pass < COLLAPSE_PASSES
      invariant 0 <= pass <= COLLAPSE_PASSES
      invariant Peel(table, current, nullable, COLLAPSE_PASSES - pass) == PeelAll(table, schema)
      invariant collapsed <==> pass > 0
      invariant pass > 0 ==> Peelable(table, schema)
      invariant pass == 0 ==> current == schema
    {
      PeelOneStep(table, current, nullable, COLLAPSE_PASSES - pass);
      var withoutNull := NullableInner(current);
      if withoutNull.Some? {
        current, nullable, collapsed := withoutNull.value, true, true;
      } else {
        var next := Rewrite(table, current);
        if next.None? { break; }
        current, collapsed := next.value, true;
      }
      pass := pass + 1;
    }
    PeelNoMore(table, current, nullable);
    r := if collapsed then Some(Collapsed(current, nullable)) else None;
  }

  lemma {:induction false} PeelRelaxes(table: Table, leaf: Leaf, schema: Fields, nullable: bool, passes: nat)
    ensures Relaxes(table, leaf, schema, Peel(table, schema, nullable, passes).schema, Peel(table, schema, nullable, passes).nullable)
    ensures nullable ==> Peel(table, schema, nullable, passes).nullable
    decreases passes
  {
    hide NullableInner, Rewrite;
    if passes == 0 || !Peelable(table, schema) {
    } else if NullableInner(schema).Some? {
      var next := NullableInner(schema).value;
      NullableInnerRelaxes(table, leaf, schema);
      PeelRelaxes(table, leaf, next, true, passes - 1);
    } else {
      var next := Rewrite(table, schema).value;
      RewriteRelaxes(table, leaf, schema);
      PeelRelaxes(table, leaf, next, nullable, passes - 1);
    }
  }

  /** Collapsing a synthetic union is a sound relaxation. */
  lemma CollapseRelaxes(table: Table, leaf: Leaf, schema: Fields)
    requires Collapse(table, schema).Some?
    ensures Relaxes(table, leaf, schema, Collapse(table, schema).value.schema, Collapse(table, schema).value.nullable)
  {
    PeelRelaxes(table, leaf, schema, false, COLLAPSE_PASSES);
  }

  /** The components that collapse, each with the schema that takes its place. */
  function Aliases(table: Table): map<string, Collapsed> {
    map name | name in table && table[name].Obj? && Collapse(table, table[name].fields).Some? ::
      Collapse(table, table[name].fields).value
  }

  /** Collects the aliases and takes them out of the table; `names` is the table's key order. */
  method CollapseComponents(table: Table, names: seq<string>)
    returns (aliases: map<string, Collapsed>, schemas: Table)
    requires forall name :: name in names <==> name in table
    ensures aliases == Aliases(table) && schemas == table - Aliases(table).Keys
  {
    hide Collapse;
    aliases := map[];
    var pass, changed := 0, true;
    while pass < COLLAPSE_PASSES && changed
      invariant 0 <= pass <= COLLAPSE_PASSES
      invariant forall name :: name in aliases ==> name in Aliases(table) && aliases[name] == Aliases(table)[name]
      invariant if pass == 0 then changed else aliases == Aliases(table)
      decreases COLLAPSE_PASSES - pass
    {
      changed := false;
      for i := 0 to |names|
        invariant forall name :: name in aliases ==> name in Aliases(table) && aliases[name] == Aliases(table)[name]
        invariant forall k :: 0 <= k < i && names[k] in Aliases(table) ==> names[k] in aliases
      {
        var name := names[i];
        if name !in aliases && table[name].Obj? {
          var collapsed := CollapseUnion(table, table[name].fields);
          if collapsed.Some? {
            aliases, changed := aliases[name := collapsed.value], true;
          }
        }
      }
      assert aliases.Keys == Aliases(table).Keys by {
        forall name | name in Aliases(table) ensures name in aliases { assert name in names; }
      }
      assert aliases == Aliases(table);
      pass := pass + 1;
    }
    schemas := table - aliases.Keys;
  }

  /** Following `$ref`s through aliases and peeling unions, alternately, for at most `passes` steps. */
  function ResolveFrom(table: Table, schema: Fields, nullable: bool, seen: set<string>, passes: nat): Collapsed
    decreases passes
  {
    if passes == 0 then Collapsed(schema, nullable)
    else if AsString(Get(schema, "$ref")).Some? then
      match RefName(schema)
      case None => Collapsed(schema, nullable)
      case Some(name) =>
        if name !in Aliases(table) || name in seen then Collapsed(schema, nullable)
        else
          var alias := Aliases(table)[name];
          ResolveFrom(table, alias.schema, nullable || alias.nullable, seen + {name}, passes - 1)
    else
      match Collapse(table, schema)
      case None => Collapsed(schema, nullable)
      case Some(c) => ResolveFrom(table, c.schema, nullable || c.nullable, seen, passes - 1)
  }

  function Resolve(table: Table, schema: Fields): Collapsed {
    ResolveFrom(table, schema, false, {}, RESOLVE_PASSES)
  }

  method ResolveSchema(table: Table, aliases: map<string, Collapsed>, schema: Fields) returns (r: Collapsed)
    requires aliases == Aliases(table)
    ensures r == Resolve(table, schema)
  {
    var current, nullable, pass := schema, false, 0;
    var seen: set<string> := {};
    while pass < RESOLVE_PASSES
      invariant 0 <= pass <= RESOLVE_PASSES
      invariant ResolveFrom(table, current, nullable, seen, RESOLVE_PASSES - pass) == Resolve(table, schema)
    {
      if AsString(Get(current, "$ref")).Some? {
        var name := RefName(current);
        if name.None? || name.value !in aliases || name.value in seen { break; }
        var alias := aliases[name.value];
        current, nullable, seen := alias.schema, nullable || alias.nullable, seen + {name.value};
      } else {
        var collapsed := CollapseUnion(table, current);
        if collapsed.None? { break; }
        current, nullable := collapsed.value.schema, nullable || collapsed.value.nullable;
      }
      pass := pass + 1;
    }
    r := Collapsed(current, nullable);
  }

  /** A reference to an alias accepts no more than what the alias collapsed into. */
  lemma AliasRelaxes(table: Table, leaf: Leaf, schema: Fields)
    requires RefName(schema).Some? && RefName(schema).value in Aliases(table)
    ensures
      var alias := Aliases(table)[RefName(schema).value];
      Relaxes(table, leaf, schema, alias.schema, alias.nullable)
  {
    hide Collapse;
    var name := RefName(schema).value;
    var alias := Aliases(table)[name];
    CollapseRelaxes(table, leaf, table[name].fields);
    forall v, n: nat | Accepts(table, leaf, Obj(schema), v, n) && (Plain(v) || (v == Null && !alias.nullable))
      ensures Accepts(table, leaf, Obj(alias.schema), v, n)
    {
      KeywordOf(table, leaf, schema, "$ref", v, n);
      AcceptsMore(table, leaf, table[name], v, n - 1, n);
    }
  }

  lemma {:induction false} ResolveFromRelaxes(table: Table, leaf: Leaf, schema: Fields, nullable: bool, seen: set<string>, passes: nat)
    ensures
      var r := ResolveFrom(table, schema, nullable, seen, passes);
      Relaxes(table, leaf, schema, r.schema, r.nullable) && (nullable ==> r.nullable)
    decreases passes
  {
    hide Collapse;
    if passes == 0 {
    } else if AsString(Get(schema, "$ref")).Some? {
      if RefName(schema).Some? && RefName(schema).value in Aliases(table) && RefName(schema).value !in seen {
        var alias := Aliases(table)[RefName(schema).value];
        AliasRelaxes(table, leaf, schema);
        ResolveFromRelaxes(table, leaf, alias.schema, nullable || alias.nullable, seen + {RefName(schema).value}, passes - 1);
      }
    } else if Collapse(table, schema).Some? {
      var c := Collapse(table, schema).value;
      CollapseRelaxes(table, leaf, schema);
      ResolveFromRelaxes(table, leaf, c.schema, nullable || c.nullable, seen, passes - 1);
    }
  }

  /** Resolving a schema keeps every plain value it accepted, and `null` unless it says nullable. */
  lemma ResolveRelaxes(table: Table, leaf: Leaf, schema: Fields, v: Json, n: nat)
    requires Accepts(table, leaf, Obj(schema), v, n)
    ensures Plain(v) ==> Accepts(table, leaf, Obj(Resolve(table, schema).schema), v, n)
    ensures v == Null ==> Resolve(table, schema).nullable || Accepts(table, leaf, Obj(Resolve(table, schema).schema), v, n)
  {
    ResolveFromRelaxes(table, leaf, schema, false, {}, RESOLVE_PASSES);
  }

  /** Nothing to collapse or to follow at the top. */
  predicate Steady(table: Table, o: Fields) {
    "anyOf" !in o && "allOf" !in o && (RefName(o).Some? ==> RefName(o).value !in Aliases(table))
  }

  lemma SteadyResolves(table: Table, o: Fields)
    requires Steady(table, o)
    ensures Resolve(table, o).schema == o
  {
    hide Aliases, PeelAll;
    assert !Peelable(table, o);
  }

  // ------------------------------------------------------------ object properties

  /** Whether the collapsed property may be left out. */
  predicate NullableProperty(table: Table, properties: Fields, key: string) {
    key in properties && properties[key].Obj? && Resolve(table, properties[key].fields).nullable
  }

  function ResolveProperties(table: Table, properties: Fields): Fields {
    map key | key in properties ::
      if properties[key].Obj? then Obj(Resolve(table, properties[key].fields).schema) else properties[key]
  }

  function Without(names: seq<string>, drop: set<string>): (r: seq<string>)
    ensures forall s :: s in r <==> s in names && s !in drop
  {
    if names == [] then []
    else (if names[0] in drop then [] else [names[0]]) + Without(names[1..], drop)
  }

  /** The `required` list once the nullable properties left it; a malformed list counts as empty. */
  function StillRequired(table: Table, schema: Fields, properties: Fields): seq<string> {
    var listed := AsStringArray(Get(schema, "required"));
    Without(if listed.None? then [] else AddNew([], listed.value),
      set key | key in properties && NullableProperty(table, properties, key))
  }

  function VisitedProperties(table: Table, schema: Fields): Fields
    requires "properties" in schema && schema["properties"].Obj?
  {
    var properties := schema["properties"].fields;
    var required := StillRequired(table, schema, properties);
    var r := schema["properties" := Obj(ResolveProperties(table, properties))];
    if required != [] then r["required" := StrArr(required)] else r - {"required"}
  }

  /** An object without the members that are `null` where the collapsed schema allows leaving them out. */
  function DropNulls(table: Table, properties: Fields, members: map<string, Json>): map<string, Json> {
    map key | key in members && !(members[key] == Null && NullableProperty(table, properties, key)) :: members[key]
  }

  /** An accepted object stays accepted once its nullable `null` members are left out, as long as
      the keywords beside `properties` and `required` do not mind. */
  lemma VisitedPropertiesAccept(table: Table, leaf: Leaf, schema: Fields, members: map<string, Json>, n: nat)
    requires "properties" in schema && schema["properties"].Obj?
    requires Accepts(table, leaf, Obj(schema), Obj(members), n)
    requires forall key :: key in members && key in schema["properties"].fields ==> Plain(members[key]) || members[key] == Null
    requires
      var kept := Obj(DropNulls(table, schema["properties"].fields, members));
      forall k :: k in schema && k !in {"properties", "required"} ==> Keyword(table, leaf, k, schema[k], kept, n - 1)
    ensures
      var kept := Obj(DropNulls(table, schema["properties"].fields, members));
      Accepts(table, leaf, Obj(VisitedProperties(table, schema)), kept, n)
  {
    hide Resolve, ResolveProperties, StillRequired, DropNulls, AsStringArray, Keyword;
    var properties := schema["properties"].fields;
    var kept := DropNulls(table, properties, members);
    var after := VisitedProperties(table, schema);
    forall k | k in after ensures Keyword(table, leaf, k, after[k], Obj(kept), n - 1) {
      if k == "properties" {
        PropertiesStillAccept(table, leaf, schema, members, n);
      } else if k == "required" {
        RequiredStillPresent(table, leaf, schema, members, n);
      }
    }
  }

  lemma PropertiesStillAccept(table: Table, leaf: Leaf, schema: Fields, members: map<string, Json>, n: nat)
    requires "properties" in schema && schema["properties"].Obj?
    requires Accepts(table, leaf, Obj(schema), Obj(members), n)
    requires forall key :: key in members && key in schema["properties"].fields ==> Plain(members[key]) || members[key] == Null
    ensures
      var properties := schema["properties"].fields;
      Keyword(table, leaf, "properties", Obj(ResolveProperties(table, properties)), Obj(DropNulls(table, properties, members)), n - 1)
  {
    hide Resolve;
    var properties := schema["properties"].fields;
    var kept := DropNulls(table, properties, members);
    KeywordOf(table, leaf, schema, "properties", Obj(members), n);
    forall p | p in properties && p in kept
      ensures Accepts(table, leaf, ResolveProperties(table, properties)[p], kept[p], n - 1)
    {
      if properties[p].Obj? { ResolveRelaxes(table, leaf, properties[p].fields, members[p], n - 1); }
    }
  }

  lemma RequiredStillPresent(table: Table, leaf: Leaf, schema: Fields, members: map<string, Json>, n: nat)
    requires "properties" in schema && schema["properties"].Obj?
    requires Accepts(table, leaf, Obj(schema), Obj(members), n)
    ensures
      var properties := schema["properties"].fields;
      Keyword(table, leaf, "required", StrArr(StillRequired(table, schema, properties)), Obj(DropNulls(table, properties, members)), n - 1)
  {
    hide Resolve, Accepts;
    var properties := schema["properties"].fields;
    var required := StillRequired(table, schema, properties);
    forall j | j in StrArr(required).items && j.Str? ensures j.s in DropNulls(table, properties, members) {
      var i :| 0 <= i < |required| && StrArr(required).items[i] == j;
      assert required[i] in required;
      RequiredMember(table, leaf, schema, members, j.s, n);
    }
  }

  lemma RequiredMember(table: Table, leaf: Leaf, schema: Fields, members: map<string, Json>, key: string, n: nat)
    requires Accepts(table, leaf, Obj(schema), Obj(members), n)
    requires AsStringArray(Get(schema, "required")).Some? && key in AsStringArray(Get(schema, "required")).value
    ensures key in members
  {
    KeywordOf(table, leaf, schema, "required", Obj(members), n);
    var listed := AsStringArray(Get(schema, "required")).value;
    var i :| 0 <= i < |listed| && listed[i] == key;
    assert schema["required"].items[i] == Str(key);
  }

  // ------------------------------------------------------------ array items

  /** Below `items` the collapsed schema stands alone: an accepted array stays accepted when its
      elements are plain, or `null` where the element schema was not nullable. */
  lemma ItemsStillAccept(table: Table, leaf: Leaf, schema: Fields, elements: seq<Json>, n: nat)
    requires Keyword(table, leaf, "items", Obj(schema), Arr(elements), n)
    requires forall e :: e in elements ==> Plain(e) || (e == Null && !Resolve(table, schema).nullable)
    ensures Keyword(table, leaf, "items", Obj(Resolve(table, schema).schema), Arr(elements), n)
  {
    hide Resolve;
    forall e | e in elements ensures Accepts(table, leaf, Obj(Resolve(table, schema).schema), e, n) {
      ResolveRelaxes(table, leaf, schema, e, n);
    }
  }

  /** Within some number of steps. */
  ghost predicate EverAccepts(table: Table, leaf: Leaf, schema: Json, v: Json) {
    exists n: nat :: Accepts(table, leaf, schema, v, n)
  }

  ghost predicate ItemsEverAccept(table: Table, leaf: Leaf, schema: Json, elements: seq<Json>) {
    exists n: nat :: Keyword(table, leaf, "items", schema, Arr(elements), n)
  }

  /** An accepted array of plain elements and nulls stays accepted if and only if it has no null or
      the collapsed element schema still accepts one. */
  lemma ItemsAcceptExactly(table: Table, leaf: Leaf, schema: Fields, elements: seq<Json>, n: nat)
    requires Keyword(table, leaf, "items", Obj(schema), Arr(elements), n)
    requires forall e :: e in elements ==> Plain(e) || e == Null
    ensures ItemsEverAccept(table, leaf, Obj(Resolve(table, schema).schema), elements) <==>
      (Null in elements ==> EverAccepts(table, leaf, Obj(Resolve(table, schema).schema), Null))
  {
    hide Resolve, Accepts;
    var after := Obj(Resolve(table, schema).schema);
    if Null in elements ==> EverAccepts(table, leaf, after, Null) {
      var m: nat := n;
      if Null in elements { m :| Accepts(table, leaf, after, Null, m); }
      var most := if m > n then m else n;
      forall e | e in elements ensures Accepts(table, leaf, after, e, most) {
        if e == Null {
          AcceptsMore(table, leaf, after, e, m, most);
        } else {
          ResolveRelaxes(table, leaf, schema, e, n);
          AcceptsMore(table, leaf, after, e, n, most);
        }
      }
      assert Keyword(table, leaf, "items", after, Arr(elements), most);
    }
    if ItemsEverAccept(table, leaf, after, elements) && Null in elements {
      var m: nat :| Keyword(table, leaf, "items", after, Arr(elements), m);
      assert Accepts(table, leaf, after, Null, m);
    }
  }

  /** A `type` that names types other than `null`. */
  predicate NeverNull(schema: Fields) {
    "type" in schema && match schema["type"]
      case Str(t) => t != "null"
      case Arr(ts) => Str("null") !in ts
      case _ => false
  }

  /** With such an element type an array stays accepted if and only if it has no null. */
  lemma TypedItemsAcceptExactly(table: Table, leaf: Leaf, schema: Fields, elements: seq<Json>, n: nat)
    requires NeverNull(Resolve(table, schema).schema)
    requires Keyword(table, leaf, "items", Obj(schema), Arr(elements), n)
    requires forall e :: e in elements ==> Plain(e) || e == Null
    ensures ItemsEverAccept(table, leaf, Obj(Resolve(table, schema).schema), elements) <==> Null !in elements
  {
    hide Resolve;
    ItemsAcceptExactly(table, leaf, schema, elements, n);
    var after := Resolve(table, schema).schema;
    forall m: nat ensures !Accepts(table, leaf, Obj(after), Null, m) { TypeRefusesNull(table, leaf, after, m); }
  }

  lemma TypeRefusesNull(table: Table, leaf: Leaf, schema: Fields, n: nat)
    requires NeverNull(schema)
    ensures !Accepts(table, leaf, Obj(schema), Null, n)
  {
    if n > 0 { assert !Keyword(table, leaf, "type", schema["type"], Null, n - 1); }
  }

  /** The union of a schema with `null`. */
  function OrNull(plain: Fields): Fields {
    map["anyOf" := Arr([Obj(plain), Obj(map["type" := Str("null")])])]
  }

  lemma OrNullCollapses(table: Table, plain: Fields)
    requires NotNull(plain) && !Peelable(table, plain)
    ensures Collapse(table, OrNull(plain)) == Some(Collapsed(plain, true)) && Collapse(table, plain) == None
  {
    OrNullPeels(plain);
    hide NullableInner, Rewrite, Peel;
    PeelOneStep(table, OrNull(plain), false, COLLAPSE_PASSES);
    PeelOneStep(table, plain, true, COLLAPSE_PASSES - 1);
  }

  lemma OrNullPeels(plain: Fields)
    requires NotNull(plain)
    ensures NullableInner(OrNull(plain)) == Some(plain)
  {
    var absent: Fields := map["type" := Str("null")];
    var schema := OrNull(plain);
    assert schema["anyOf"].items == [Obj(plain), Obj(absent)];
    assert Branches(schema).value == [plain, absent];
    assert [plain, absent][..1] == [plain] && [plain][..0] == [];
    assert Filter([plain], NotNull) == [plain] && Filter([plain, absent], NotNull) == [plain];
    assert schema - {"anyOf"} == map[];
    assert MergeAnnotations(schema, plain) == plain;
  }

  /** A list element that is a string or `null`. */
  function MaybeString(): Fields { OrNull(map["type" := Str("string")]) }

  lemma MaybeStringCollapses(table: Table)
    ensures Resolve(table, MaybeString()) == Collapsed(map["type" := Str("string")], true)
  {
    var plain: Fields := map["type" := Str("string")];
    assert !Peelable(table, plain);
    OrNullCollapses(table, plain);
    hide Collapse;
  }

  lemma NullMayBe(table: Table, leaf: Leaf)
    ensures Accepts(table, leaf, Obj(MaybeString()), Null, 2)
  {
    var absent: Fields := map["type" := Str("null")];
    var branches := MaybeString()["anyOf"].items;
    assert branches[1] == Obj(absent) && Accepts(table, leaf, branches[1], Null, 1);
    assert Keyword(table, leaf, "anyOf", MaybeString()["anyOf"], Null, 1);
  }

  lemma StringIsNotNull(table: Table, leaf: Leaf, n: nat)
    ensures !Accepts(table, leaf, Obj(map["type" := Str("string")]), Null, n)
  {
    var o: Fields := map["type" := Str("string")];
    if n > 0 { assert "type" in o && !Keyword(table, leaf, "type", o["type"], Null, n - 1); }
  }

  /** An array with a `null` in it is accepted before and refused after; no key could be left out
      instead, so nullability below arrays is lost. */
  lemma NullItemIsLost(table: Table, leaf: Leaf, n: nat)
    ensures Keyword(table, leaf, "items", Obj(MaybeString()), Arr([Null]), 2)
    ensures !Keyword(table, leaf, "items", Obj(Resolve(table, MaybeString()).schema), Arr([Null]), n)
  {
    hide Resolve, Accepts, MaybeString;
    MaybeStringCollapses(table);
    NullMayBe(table, leaf);
    StringIsNotNull(table, leaf, n);
    assert Null in [Null];
  }
}
