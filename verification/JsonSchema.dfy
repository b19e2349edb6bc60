/** JSON values, the schema documents scripts/generate-ios-openapi.ts rewrites, and what a
    schema accepts. A schema is a JSON object whose keywords constrain a value independently;
    the fragment is `type`, `enum`, `anyOf`, `allOf`, `properties`, `required`, `items`, `$ref`
    and every keyword with a scalar argument, as in JSON Schema 2020-12. */
module JsonSchema {
  import opened Wrappers

  datatype Json =
    | Null
    | Bool(b: bool)
    | Num(n: real)
    | Str(s: string)
    | Arr(items: seq<Json>)
    | Obj(fields: map<string, Json>)

  type Fields = map<string, Json>

  /** The component table, `doc.components.schemas`. */
  type Table = map<string, Json>

  /** How keywords outside the fragment judge a value: by their name and scalar argument. */
  type Leaf = (string, Json, Json) -> bool

  // ------------------------------------------------------------ the source's narrowing helpers

  function Get(o: Fields, key: string): Option<Json> { if key in o then Some(o[key]) else None }

  function AsObject(j: Option<Json>): Option<Fields> {
    if j.Some? && j.value.Obj? then Some(j.value.fields) else None
  }

  function AsString(j: Option<Json>): Option<string> {
    if j.Some? && j.value.Str? then Some(j.value.s) else None
  }

  /** The member maps of a list, if every one of its items is an object. */
  function AsObjectArray(j: Option<Json>): (r: Option<seq<Fields>>)
    ensures r.Some? ==> j.Some? && j.value.Arr? && |r.value| == |j.value.items|
    ensures r.Some? ==> forall k :: 0 <= k < |r.value| ==> j.value.items[k] == Obj(r.value[k])
  {
    if j.Some? && j.value.Arr? && forall x :: x in j.value.items ==> x.Obj? then
      var items := j.value.items;
      Some(seq(|items|, k requires 0 <= k < |items| => items[k].fields))
    else None
  }

  function AsStringArray(j: Option<Json>): (r: Option<seq<string>>)
    ensures r.Some? ==> j.Some? && j.value.Arr? && |r.value| == |j.value.items|
    ensures r.Some? ==> forall k :: 0 <= k < |r.value| ==> j.value.items[k] == Str(r.value[k])
  {
    if j.Some? && j.value.Arr? && forall x :: x in j.value.items ==> x.Str? then
      var items := j.value.items;
      assert forall k :: 0 <= k < |items| ==> items[k] in items && items[k] == Str(items[k].s);
      Some(seq(|items|, k requires 0 <= k < |items| => items[k].s))
    else None
  }

  const REF_PREFIX := "#/components/schemas/"

  function ComponentNameFromRef(ref: string): Option<string> {
    if REF_PREFIX <= ref then Some(ref[|REF_PREFIX|..]) else None
  }

  /** The component a schema object's `$ref` names. */
  function RefName(o: Fields): Option<string> {
    var ref := AsString(Get(o, "$ref"));
    if ref.None? then None else ComponentNameFromRef(ref.value)
  }

  // ------------------------------------------------------------ what a schema accepts

  predicate Scalar(j: Json) { !j.Arr? && !j.Obj? }

  predicate HasType(name: string, v: Json) {
    match v
    case Null => name == "null"
    case Bool(_) => name == "boolean"
    case Num(n) => name == "number" || (name == "integer" && n == n.Floor as real)
    case Str(_) => name == "string"
    case Arr(_) => name == "array"
    case Obj(_) => name == "object"
  }

  /** Keywords that document a schema without constraining values. */
  const ANNOTATIONS := {"title", "description", "examples"}

  /** `v` is accepted within `n` steps; a reference that never meets a value is not accepted. */
  ghost predicate Accepts(table: Table, leaf: Leaf, schema: Json, v: Json, n: nat)
    decreases n, 1
  {
    n > 0 &&
    match schema
    case Bool(b) => b
    case Obj(o) => forall k :: k in o ==> Keyword(table, leaf, k, o[k], v, n - 1)
    case _ => false
  }

  /** One keyword of a schema, with its argument. */
  ghost predicate Keyword(table: Table, leaf: Leaf, k: string, arg: Json, v: Json, n: nat)
    decreases n, 2
  {
    if k == "type" then
      if arg.Arr? then exists t :: t in arg.items && t.Str? && HasType(t.s, v)
      else arg.Str? ==> HasType(arg.s, v)
    else if k == "enum" then
      arg.Arr? ==> v in arg.items
    else if k == "anyOf" then
      arg.Arr? ==> exists b :: b in arg.items && Accepts(table, leaf, b, v, n)
    else if k == "allOf" then
      arg.Arr? ==> forall b :: b in arg.items ==> Accepts(table, leaf, b, v, n)
    else if k == "properties" then
      arg.Obj? && v.Obj? ==>
        forall p :: p in arg.fields && p in v.fields ==> Accepts(table, leaf, arg.fields[p], v.fields[p], n)
    else if k == "required" then
      arg.Arr? && v.Obj? ==> forall p :: p in arg.items && p.Str? ==> p.s in v.fields
    else if k == "items" then
      v.Arr? ==> forall e :: e in v.items ==> Accepts(table, leaf, arg, e, n)
    else if k == "$ref" && arg.Str? && ComponentNameFromRef(arg.s).Some? then
      var name := ComponentNameFromRef(arg.s).value;
      name in table && Accepts(table, leaf, table[name], v, n)
    else
      k !in ANNOTATIONS && Scalar(arg) ==> leaf(k, arg, v)
  }

  /** Accepting is stable: more steps never reject what fewer steps accepted. */
  lemma {:induction false} AcceptsMore(table: Table, leaf: Leaf, schema: Json, v: Json, n: nat, m: nat)
    requires Accepts(table, leaf, schema, v, n) && n <= m
    ensures Accepts(table, leaf, schema, v, m)
    decreases n, 1
  {
    if schema.Obj? {
      forall k | k in schema.fields ensures Keyword(table, leaf, k, schema.fields[k], v, m - 1) {
        KeywordMore(table, leaf, k, schema.fields[k], v, n - 1, m - 1);
      }
    }
  }

  lemma {:induction false} KeywordMore(table: Table, leaf: Leaf, k: string, arg: Json, v: Json, n: nat, m: nat)
    requires Keyword(table, leaf, k, arg, v, n) && n <= m
    ensures Keyword(table, leaf, k, arg, v, m)
    decreases n, 2
  {
    if k == "anyOf" && arg.Arr? {
      var b :| b in arg.items && Accepts(table, leaf, b, v, n);
      AcceptsMore(table, leaf, b, v, n, m);
    } else if k == "allOf" && arg.Arr? {
      forall b | b in arg.items ensures Accepts(table, leaf, b, v, m) {
        AcceptsMore(table, leaf, b, v, n, m);
      }
    } else if k == "properties" && arg.Obj? && v.Obj? {
      forall p | p in arg.fields && p in v.fields
        ensures Accepts(table, leaf, arg.fields[p], v.fields[p], m)
      {
        AcceptsMore(table, leaf, arg.fields[p], v.fields[p], n, m);
      }
    } else if k == "items" && v.Arr? {
      forall e | e in v.items ensures Accepts(table, leaf, arg, e, m) {
        AcceptsMore(table, leaf, arg, e, n, m);
      }
    } else if k == "$ref" && arg.Str? && ComponentNameFromRef(arg.s).Some? {
      AcceptsMore(table, leaf, table[ComponentNameFromRef(arg.s).value], v, n, m);
    }
  }
}
