/** The walk that collapses unions everywhere in the document (scripts/generate-ios-openapi.ts,
    `visit`), as a function of the document: it relaxes every schema at every depth, and it still
    does once the collapsed components are gone and references are read in the visited ones. */
module Visiting {
  import opened JsonSchema
  import opened References
  import opened UnionCollapse
  import opened Wrappers

  // ------------------------------------------------------------ the walk

  /** A parameter with its schema collapsed, and optional when that was nullable. */
  function VisitParameter(table: Table, parameter: Fields): Fields {
    match AsObject(Get(parameter, "schema"))
    case None => parameter
    case Some(schema) =>
      var r := Resolve(table, schema);
      var visited := parameter["schema" := Obj(r.schema)];
      if r.nullable then visited["required" := Bool(false)] else visited
  }

  function VisitParameters(table: Table, arg: Json): Json {
    match AsObjectArray(Some(arg))
    case None => arg
    case Some(parameters) =>
      Arr(seq(|parameters|, i requires 0 <= i < |parameters| => Obj(VisitParameter(table, parameters[i]))))
  }

  /** The visited document, unless the walk goes deeper than `depth` or meets an `enum` that lists
      lists or objects. */
  function Visit(table: Table, j: Json, depth: nat): Option<Json>
    decreases depth, 2
  {
    if depth == 0 then None else
    match j
    case Arr(items) =>
      if exists i :: 0 <= i < |items| && Visit(table, items[i], depth - 1).None? then None
      else Some(Arr(seq(|items|, i requires 0 <= i < |items| => Visit(table, items[i], depth - 1).value)))
    case Obj(o) =>
      if exists k :: k in o && VisitMember(table, o, k, depth - 1).None? then None
      else Some(Obj(Resolve(table, VisitFields(table, o, depth - 1)).schema))
    case _ => Some(j)
  }

  function VisitMember(table: Table, o: Fields, k: string, depth: nat): Option<Json>
    requires k in o
    decreases depth, 5
  {
    if k == "properties" then (if o[k].Obj? then VisitProperties(table, o[k].fields, depth) else Some(o[k]))
    else if k == "parameters" then Some(VisitParameters(table, o[k]))
    else if k == "required" then Some(o[k])
    else if k == "enum" && o[k].Arr? then (if forall x :: x in o[k].items ==> Scalar(x) then Some(o[k]) else None)
    else Visit(table, o[k], depth)
  }

  /** Each property is collapsed first and walked then. */
  function VisitProperty(table: Table, value: Json, depth: nat): Option<Json>
    decreases depth, 3
  {
    if value.Obj? then Visit(table, Obj(Resolve(table, value.fields).schema), depth) else Some(value)
  }

  function VisitProperties(table: Table, properties: Fields, depth: nat): Option<Json>
    decreases depth, 4
  {
    if exists p :: p in properties && VisitProperty(table, properties[p], depth).None? then None
    else Some(Obj(map p | p in properties :: VisitProperty(table, properties[p], depth).value))
  }

  function VisitFields(table: Table, o: Fields, depth: nat): Fields
    requires forall k :: k in o ==> VisitMember(table, o, k, depth).Some?
    decreases depth, 6
  {
    var visited := map k | k in o :: VisitMember(table, o, k, depth).value;
    if !("properties" in o && o["properties"].Obj?) then visited else
    var required := StillRequired(table, o, o["properties"].fields);
    if required != [] then visited["required" := StrArr(required)] else visited - {"required"}
  }

  lemma VisitKeepsShape(table: Table, j: Json, depth: nat)
    requires Visit(table, j, depth).Some?
    ensures j.Arr? <==> Visit(table, j, depth).value.Arr?
    ensures j.Obj? <==> Visit(table, j, depth).value.Obj?
    ensures Scalar(j) ==> Visit(table, j, depth).value == j
  {
    hide Resolve;
  }

  // ------------------------------------------------------------ the walk, step by step

  /** Walks a document node by node; no answer where `Visit` has none. */
  method VisitNode(table: Table, aliases: map<string, Collapsed>, node: Json, depth: nat) returns (r: Option<Json>)
    requires aliases == Aliases(table)
    ensures r == Visit(table, node, depth)
    decreases depth, 2
  {
    hide Resolve, Aliases, StillRequired, StrArr, VisitParameters;
    if depth == 0 { return None; }
    match node
    case Arr(items) =>
      var visited: seq<Json> := [];
      for i := 0 to |items|
        invariant |visited| == i
        invariant forall m :: 0 <= m < i ==> Visit(table, items[m], depth - 1) == Some(visited[m])
      {
        var entry := VisitNode(table, aliases, items[i], depth - 1);
        if entry.None? { return None; }
        visited := visited + [entry.value];
      }
      r := Some(Arr(visited));
      assert Visit(table, node, depth).value.items == visited;
    case Obj(o) =>
      var fields := VisitNodeFields(table, aliases, o, depth - 1);
      if fields.None? { return None; }
      var resolved := ResolveSchema(table, aliases, fields.value);
      r := Some(Obj(resolved.schema));
    case _ => r := Some(node);
  }

  /** The members of one object: properties and parameters in their own way, the rest as nodes. */
  method VisitNodeFields(table: Table, aliases: map<string, Collapsed>, o: Fields, depth: nat) returns (r: Option<Fields>)
    requires aliases == Aliases(table)
    ensures r.Some? <==> forall k :: k in o ==> VisitMember(table, o, k, depth).Some?
    ensures r.Some? ==> r.value == VisitFields(table, o, depth)
    decreases depth, 6
  {
    hide Resolve, Aliases, VisitMember, VisitParameters, AddNew;
    var todo, visited := o.Keys, o;
    var optional: set<string> := {};
    while todo != {}
      invariant todo <= o.Keys == visited.Keys
      invariant forall k :: k in o && k !in todo ==> VisitMember(table, o, k, depth) == Some(visited[k])
      invariant "properties" in o && o["properties"].Obj? && "properties" !in todo ==>
        optional == set key | key in o["properties"].fields && NullableProperty(table, o["properties"].fields, key)
      decreases todo
    {
      var k :| k in todo;
      todo := todo - {k};
      var member, nullable := VisitNodeMember(table, aliases, o, k, depth);
      if member.None? { return None; }
      visited := visited[k := member.value];
      if k == "properties" { optional := nullable; }
    }
    if "properties" in o && o["properties"].Obj? {
      var listed := AsStringArray(Get(o, "required"));
      var required := Without(if listed.None? then [] else AddNew([], listed.value), optional);
      assert required == StillRequired(table, o, o["properties"].fields);
      assert visited == map k | k in o :: VisitMember(table, o, k, depth).value;
      visited := if required != [] then visited["required" := StrArr(required)] else visited - {"required"};
    } else {
      assert visited == map k | k in o :: VisitMember(table, o, k, depth).value;
    }
    r := Some(visited);
  }

  method VisitNodeMember(table: Table, aliases: map<string, Collapsed>, o: Fields, k: string, depth: nat)
    returns (r: Option<Json>, optional: set<string>)
    requires aliases == Aliases(table) && k in o
    ensures r == VisitMember(table, o, k, depth)
    ensures r.Some? && k == "properties" && o[k].Obj? ==>
      optional == set key | key in o[k].fields && NullableProperty(table, o[k].fields, key)
    decreases depth, 5
  {
    hide Resolve, Aliases, NullableProperty;
    optional := {};
    if k == "properties" {
      if o[k].Obj? {
        r, optional := VisitNodeProperties(table, aliases, o[k].fields, depth);
      } else {
        r := Some(o[k]);
      }
    } else if k == "parameters" {
      r := Some(VisitParameters(table, o[k]));
    } else if k == "required" {
      r := Some(o[k]);
    } else if k == "enum" && o[k].Arr? {
      r := if forall x :: x in o[k].items ==> Scalar(x) then Some(o[k]) else None;
    } else {
      r := VisitNode(table, aliases, o[k], depth);
    }
  }

  /** Every property that is an object is resolved, walked, and optional if it was nullable. */
  method VisitNodeProperties(table: Table, aliases: map<string, Collapsed>, properties: Fields, depth: nat)
    returns (r: Option<Json>, optional: set<string>)
    requires aliases == Aliases(table)
    ensures r == VisitProperties(table, properties, depth)
    ensures r.Some? ==> optional == set key | key in properties && NullableProperty(table, properties, key)
    decreases depth, 4
  {
    hide Resolve, Aliases;
    var todo, visited := properties.Keys, properties;
    optional := {};
    while todo != {}
      invariant todo <= properties.Keys == visited.Keys
      invariant forall p :: p in properties && p !in todo ==> VisitProperty(table, properties[p], depth) == Some(visited[p])
      invariant forall p :: p in todo ==> visited[p] == properties[p]
      invariant optional == set p | p in properties && p !in todo && NullableProperty(table, properties, p)
      decreases todo
    {
      var p :| p in todo;
      todo := todo - {p};
      if properties[p].Obj? {
        var resolved := ResolveSchema(table, aliases, properties[p].fields);
        var value := VisitNode(table, aliases, Obj(resolved.schema), depth);
        if value.None? {
          assert VisitProperty(table, properties[p], depth).None?;
          return None, {};
        }
        visited := visited[p := value.value];
        if resolved.nullable { optional := optional + {p}; }
      }
    }
    assert visited == map p | p in properties :: VisitProperty(table, properties[p], depth).value;
    r := Some(Obj(visited));
  }

  // ------------------------------------------------------------ what is left of an object

  lemma SteadyVisit(table: Table, o: Fields, d: nat)
    requires Visit(table, Obj(o), d).Some? && Steady(table, o)
    ensures d > 0 && (forall k :: k in o ==> VisitMember(table, o, k, d - 1).Some?)
    ensures Visit(table, Obj(o), d).value == Obj(VisitFields(table, o, d - 1))
  {
    hide Resolve, Aliases, VisitMember, StillRequired, StrArr;
    var visited := VisitFields(table, o, d - 1);
    RefStays(table, o, d - 1);
    SteadyResolves(table, visited);
  }

  lemma RefStays(table: Table, o: Fields, d: nat)
    requires forall k :: k in o ==> VisitMember(table, o, k, d).Some?
    ensures RefName(VisitFields(table, o, d)) == RefName(o)
  {
    hide Resolve, Aliases, StillRequired, StrArr, ComponentNameFromRef;
    if "$ref" in o {
      VisitKeepsShape(table, o["$ref"], d);
      assert VisitFields(table, o, d)["$ref"] == VisitMember(table, o, "$ref", d).value;
    } else {
      assert "$ref" !in VisitFields(table, o, d);
    }
  }

  /** The schema lists the name as required, in a well-formed list. */
  predicate Demands(o: Fields, name: string) {
    "required" in o && o["required"].Arr? && (forall j :: j in o["required"].items ==> j.Str?) && Str(name) in o["required"].items
  }

  /** A parameter afterwards: its schema is what it resolves to, it is optional where that was found
      nullable, and nothing else has changed. */
  predicate ParameterBecomes(table: Table, a: Fields, b: Fields) {
    if "schema" in a && a["schema"].Obj? then
      var r := Resolve(table, a["schema"].fields);
      && b - {"schema", "required"} == a - {"schema", "required"} && Get(b, "schema") == Some(Obj(r.schema))
      && Get(b, "required") == if r.nullable then Some(Bool(false)) else Get(a, "required")
    else b == a
  }

  predicate ParametersBecome(table: Table, a: Json, b: Json) {
    if a.Arr? && forall j :: j in a.items ==> j.Obj? then
      && b.Arr? && |b.items| == |a.items|
      && forall i :: 0 <= i < |a.items| ==> b.items[i].Obj? && ParameterBecomes(table, a.items[i].fields, b.items[i].fields)
    else b == a
  }

  lemma ParametersVisited(table: Table, arg: Json)
    ensures ParametersBecome(table, arg, VisitParameters(table, arg))
  {
    hide Resolve;
    if arg.Arr? && forall j :: j in arg.items ==> j.Obj? {
      var parameters, after := AsObjectArray(Some(arg)).value, VisitParameters(table, arg).items;
      forall i | 0 <= i < |arg.items| ensures after[i].Obj? && ParameterBecomes(table, arg.items[i].fields, after[i].fields) {
        assert after[i] == Obj(VisitParameter(table, parameters[i])) && parameters[i] == arg.items[i].fields;
      }
    }
  }

  /** The properties afterwards: each is the walk of what it resolves to. */
  predicate PropertiesBecome(table: Table, a: Fields, b: Json, d: nat) {
    && b.Obj? && b.fields.Keys == a.Keys
    && forall p :: p in a ==>
         if a[p].Obj? then Visit(table, Obj(Resolve(table, a[p].fields).schema), d) == Some(b.fields[p]) else b.fields[p] == a[p]
  }

  /** An object after its members were walked: keywords stay, properties are resolved and walked, a
      name stays required unless its property was found nullable, and everything else is walked. */
  ghost predicate Becomes(table: Table, o: Fields, f: Fields, d: nat) {
    && f.Keys - {"required"} == o.Keys - {"required"}
    && (forall k :: k in o && k !in {"properties", "parameters", "required"} ==>
          Get(f, k) == if k == "enum" && o[k].Arr? then Some(o[k]) else Visit(table, o[k], d))
    && ("parameters" in o ==> "parameters" in f && ParametersBecome(table, o["parameters"], f["parameters"]))
    && (if "properties" in o && o["properties"].Obj? then
          && "properties" in f && PropertiesBecome(table, o["properties"].fields, f["properties"], d)
          && forall name :: Demands(f, name) <==> Demands(o, name) && !NullableProperty(table, o["properties"].fields, name)
        else Get(f, "properties") == Get(o, "properties") && Get(f, "required") == Get(o, "required"))
  }

  /** What the walk makes of an object: its members are walked, and the outcome is resolved; a steady
      object stays as it then is. */
  lemma ObjectVisited(table: Table, o: Fields, depth: nat) returns (f: Fields)
    requires Visit(table, Obj(o), depth).Some?
    ensures depth > 0 && Becomes(table, o, f, depth - 1) && Visit(table, Obj(o), depth).value == Obj(Resolve(table, f).schema)
    ensures Steady(table, o) ==> Visit(table, Obj(o), depth).value == Obj(f)
  {
    hide Resolve, VisitMember, Steady, Becomes;
    assert forall k :: k in o ==> VisitMember(table, o, k, depth - 1).Some?;
    f := VisitFields(table, o, depth - 1);
    if Steady(table, o) { SteadyVisit(table, o, depth); }
    FieldsBecome(table, o, depth - 1);
  }

  lemma FieldsBecome(table: Table, o: Fields, d: nat)
    requires forall k :: k in o ==> VisitMember(table, o, k, d).Some?
    ensures Becomes(table, o, VisitFields(table, o, d), d)
  {
    hide Resolve, Visit, VisitMember, VisitParameters, StrArr, ParametersBecome, PropertiesBecome, NullableProperty, Demands;
    var f := VisitFields(table, o, d);
    forall k | k in o && !(k == "required" && "properties" in o && o["properties"].Obj?)
      ensures Get(f, k) == VisitMember(table, o, k, d) { }
    MembersBecome(table, o, d);
    if "properties" in o && o["properties"].Obj? {
      forall name ensures Demands(f, name) <==> Demands(o, name) && !NullableProperty(table, o["properties"].fields, name) {
        RequiredVisited(table, o, f, name);
      }
    }
  }

  lemma MembersBecome(table: Table, o: Fields, d: nat)
    requires forall k :: k in o ==> VisitMember(table, o, k, d).Some?
    ensures forall k :: k in o && k !in {"properties", "parameters", "required"} ==>
      VisitMember(table, o, k, d) == if k == "enum" && o[k].Arr? then Some(o[k]) else Visit(table, o[k], d)
    ensures "parameters" in o ==> ParametersBecome(table, o["parameters"], VisitMember(table, o, "parameters", d).value)
    ensures "required" in o ==> VisitMember(table, o, "required", d) == Some(o["required"])
    ensures "properties" in o ==>
      if o["properties"].Obj? then PropertiesBecome(table, o["properties"].fields, VisitMember(table, o, "properties", d).value, d)
      else VisitMember(table, o, "properties", d) == Some(o["properties"])
  {
    hide Resolve, Visit, VisitProperties, VisitParameters, ParametersBecome, PropertiesBecome;
    if "parameters" in o { ParametersVisited(table, o["parameters"]); }
    if "properties" in o && o["properties"].Obj? { PropertiesVisited(table, o["properties"].fields, d); }
  }

  lemma PropertiesVisited(table: Table, properties: Fields, d: nat)
    requires VisitProperties(table, properties, d).Some?
    ensures PropertiesBecome(table, properties, VisitProperties(table, properties, d).value, d)
  {
    hide Resolve, Visit;
  }

  lemma RequiredVisited(table: Table, o: Fields, f: Fields, name: string)
    requires "properties" in o && o["properties"].Obj?
    requires Get(f, "required") ==
      if StillRequired(table, o, o["properties"].fields) != [] then Some(StrArr(StillRequired(table, o, o["properties"].fields))) else None
    ensures Demands(f, name) <==> Demands(o, name) && !NullableProperty(table, o["properties"].fields, name)
  {
    hide Resolve;
    var required := StillRequired(table, o, o["properties"].fields);
    RequiredListed(o, name);
    if required != [] {
      assert Demands(f, name) <==> name in required by { ListsStrings(required, name); }
    }
    assert name in required <==> Demands(o, name) && !NullableProperty(table, o["properties"].fields, name);
  }

  lemma RequiredListed(o: Fields, name: string)
    ensures Demands(o, name) <==> AsStringArray(Get(o, "required")).Some? && name in AsStringArray(Get(o, "required")).value
  {
    if AsStringArray(Get(o, "required")).Some? {
      var listed, items := AsStringArray(Get(o, "required")).value, o["required"].items;
      if name in listed {
        var i :| 0 <= i < |listed| && listed[i] == name;
        assert items[i] == Str(name);
      }
      if Str(name) in items {
        var i :| 0 <= i < |items| && items[i] == Str(name);
        assert listed[i] == name;
      }
    }
  }

  lemma ListsStrings(names: seq<string>, name: string)
    ensures (forall j :: j in StrArr(names).items ==> j.Str?) && (Str(name) in StrArr(names).items <==> name in names)
  {
    if name in names {
      var i :| 0 <= i < |names| && names[i] == name;
      assert StrArr(names).items[i] == Str(name);
    }
  }

  /** The visited schema of an object requires a property if and only if that was required before and
      its schema was not found nullable. */
  lemma RequiredExactly(table: Table, o: Fields, depth: nat, name: string)
    requires Visit(table, Obj(o), depth).Some? && Steady(table, o) && "properties" in o && o["properties"].Obj?
    ensures
      var properties, visited := o["properties"].fields, Visit(table, Obj(o), depth).value;
      visited.Obj? &&
      (Demands(visited.fields, name) <==>
       Demands(o, name) && !(name in properties && properties[name].Obj? && Resolve(table, properties[name].fields).nullable))
  {
    hide Visit, Resolve, Steady, Demands;
    var f := ObjectVisited(table, o, depth);
  }

  // ------------------------------------------------------------ every depth is relaxed

  /** A value without `null` and the three strings for non-finite numbers, at any depth. */
  predicate DeepPlain(v: Json)
    decreases v
  {
    match v
    case Null => false
    case Str(s) => s !in NON_FINITE
    case Arr(items) => forall i :: 0 <= i < |items| ==> DeepPlain(items[i])
    case Obj(o) => forall k :: k in o ==> DeepPlain(o[k])
    case _ => true
  }

  /** The visited schema accepts every such value the schema accepted. */
  lemma {:induction false} VisitRelaxes(table: Table, leaf: Leaf, j: Json, depth: nat, v: Json, n: nat)
    requires Visit(table, j, depth).Some? && DeepPlain(v) && Accepts(table, leaf, j, v, n)
    ensures Accepts(table, leaf, Visit(table, j, depth).value, v, n)
    decreases depth, 2
  {
    hide Resolve, Keyword;
    if j.Obj? {
      var o := j.fields;
      var visited := VisitFields(table, o, depth - 1);
      forall k | k in visited ensures n > 0 && Keyword(table, leaf, k, visited[k], v, n - 1) {
        FieldRelaxes(table, leaf, o, k, depth - 1, v, n);
      }
      ResolveRelaxes(table, leaf, visited, v, n);
    }
  }

  lemma {:induction false} FieldRelaxes(table: Table, leaf: Leaf, o: Fields, k: string, depth: nat, v: Json, n: nat)
    requires forall x :: x in o ==> VisitMember(table, o, x, depth).Some?
    requires k in VisitFields(table, o, depth) && DeepPlain(v) && Accepts(table, leaf, Obj(o), v, n)
    ensures n > 0 && Keyword(table, leaf, k, VisitFields(table, o, depth)[k], v, n - 1)
    decreases depth, 6
  {
    hide Keyword, Accepts, VisitMember, StillRequired, StrArr;
    if k == "required" && "properties" in o && o["properties"].Obj? {
      RequiredFewer(table, leaf, o, v, n);
    } else {
      KeywordOf(table, leaf, o, k, v, n);
      MemberRelaxes(table, leaf, o, k, depth, v, n - 1);
    }
  }

  lemma RequiredFewer(table: Table, leaf: Leaf, o: Fields, v: Json, n: nat)
    requires "properties" in o && o["properties"].Obj? && Accepts(table, leaf, Obj(o), v, n)
    requires StillRequired(table, o, o["properties"].fields) != []
    ensures n > 0 && Keyword(table, leaf, "required", StrArr(StillRequired(table, o, o["properties"].fields)), v, n - 1)
  {
    hide Resolve, Accepts;
    var required := StillRequired(table, o, o["properties"].fields);
    assert required[0] in required;
    KeywordOf(table, leaf, o, "required", v, n);
    if v.Obj? {
      var items, listed := o["required"].items, AsStringArray(Get(o, "required")).value;
      forall j | j in StrArr(required).items && j.Str? ensures j.s in v.fields {
        var i :| 0 <= i < |required| && StrArr(required).items[i] == j;
        assert required[i] in required;
        var m :| 0 <= m < |listed| && listed[m] == j.s;
        assert items[m] == Str(listed[m]) && items[m] in items;
      }
    }
  }

  lemma {:induction false} MemberRelaxes(table: Table, leaf: Leaf, o: Fields, k: string, depth: nat, v: Json, n: nat)
    requires k in o && VisitMember(table, o, k, depth).Some? && DeepPlain(v) && Keyword(table, leaf, k, o[k], v, n)
    ensures Keyword(table, leaf, k, VisitMember(table, o, k, depth).value, v, n)
    decreases depth, 5
  {
    hide Resolve, Accepts, Keyword, Visit, VisitProperties, VisitParameters;
    var arg := o[k];
    if k == "properties" {
      if arg.Obj? { PropertiesRelax(table, leaf, arg.fields, depth, v, n); }
    } else if k == "parameters" {
      ParametersIgnored(table, leaf, arg, v, n);
    } else if k == "required" || (k == "enum" && arg.Arr?) {
    } else {
      VisitKeepsShape(table, arg, depth);
      if (k == "anyOf" || k == "allOf") && arg.Arr? {
        BranchesRelax(table, leaf, k, arg.items, depth, v, n);
      } else if k == "items" && v.Arr? {
        ItemsRelax(table, leaf, arg, depth, v.items, n);
      } else if k == "type" && arg.Arr? {
        TypesStay(table, leaf, arg.items, depth, v, n);
      } else {
        OtherRelaxes(table, leaf, k, arg, Visit(table, arg, depth).value, v, n);
      }
    }
  }

  lemma ParametersIgnored(table: Table, leaf: Leaf, arg: Json, v: Json, n: nat)
    requires Keyword(table, leaf, "parameters", arg, v, n)
    ensures Keyword(table, leaf, "parameters", VisitParameters(table, arg), v, n)
  {
    hide Resolve, Accepts, VisitParameter;
  }

  lemma OtherRelaxes(table: Table, leaf: Leaf, k: string, arg: Json, arg': Json, v: Json, n: nat)
    requires (arg.Arr? <==> arg'.Arr?) && (arg.Obj? <==> arg'.Obj?) && (Scalar(arg) ==> arg' == arg)
    requires !(k in {"enum", "type", "anyOf", "allOf"} && arg.Arr?) && k !in {"properties", "required"} && !(k == "items" && v.Arr?)
    requires Keyword(table, leaf, k, arg, v, n)
    ensures Keyword(table, leaf, k, arg', v, n)
  {
    hide Accepts;
  }

  lemma TypesStay(table: Table, leaf: Leaf, items: seq<Json>, depth: nat, v: Json, n: nat)
    requires Visit(table, Arr(items), depth).Some? && Keyword(table, leaf, "type", Arr(items), v, n)
    ensures Keyword(table, leaf, "type", Visit(table, Arr(items), depth).value, v, n)
  {
    hide Resolve;
    var t :| t in items && t.Str? && HasType(t.s, v);
    var i :| 0 <= i < |items| && items[i] == t;
    assert Visit(table, items[i], depth - 1) == Some(t);
    assert Visit(table, Arr(items), depth).value.items[i] == t;
  }

  lemma {:induction false} BranchesRelax(table: Table, leaf: Leaf, k: string, items: seq<Json>, depth: nat, v: Json, n: nat)
    requires Visit(table, Arr(items), depth).Some? && DeepPlain(v) && (k == "anyOf" || k == "allOf")
    requires Keyword(table, leaf, k, Arr(items), v, n)
    ensures Keyword(table, leaf, k, Visit(table, Arr(items), depth).value, v, n)
    decreases depth, 3
  {
    hide Resolve, Accepts, Keyword;
    var items' := Visit(table, Arr(items), depth).value.items;
    forall i | 0 <= i < |items| && Accepts(table, leaf, items[i], v, n) ensures Accepts(table, leaf, items'[i], v, n) {
      VisitRelaxes(table, leaf, items[i], depth - 1, v, n);
    }
    BranchesTransfer(table, table, leaf, k, items, items', v, n);
  }

  lemma {:induction false} ItemsRelax(table: Table, leaf: Leaf, arg: Json, depth: nat, entries: seq<Json>, n: nat)
    requires Visit(table, arg, depth).Some? && DeepPlain(Arr(entries))
    requires Keyword(table, leaf, "items", arg, Arr(entries), n)
    ensures Keyword(table, leaf, "items", Visit(table, arg, depth).value, Arr(entries), n)
    decreases depth, 3
  {
    hide Resolve, Accepts, Visit;
    forall e | e in entries ensures Accepts(table, leaf, Visit(table, arg, depth).value, e, n) {
      var i :| 0 <= i < |entries| && entries[i] == e;
      VisitRelaxes(table, leaf, arg, depth, e, n);
    }
  }

  lemma {:induction false} PropertiesRelax(table: Table, leaf: Leaf, properties: Fields, depth: nat, v: Json, n: nat)
    requires VisitProperties(table, properties, depth).Some? && DeepPlain(v)
    requires Keyword(table, leaf, "properties", Obj(properties), v, n)
    ensures Keyword(table, leaf, "properties", VisitProperties(table, properties, depth).value, v, n)
    decreases depth, 4
  {
    hide Resolve, Accepts, VisitProperty;
    if v.Obj? {
      var visited := VisitProperties(table, properties, depth).value.fields;
      forall p | p in visited && p in v.fields ensures Accepts(table, leaf, visited[p], v.fields[p], n) {
        assert DeepPlain(v.fields[p]);
        PropertyRelaxes(table, leaf, properties[p], depth, v.fields[p], n);
      }
    }
  }

  lemma {:induction false} PropertyRelaxes(table: Table, leaf: Leaf, value: Json, depth: nat, v: Json, n: nat)
    requires VisitProperty(table, value, depth).Some? && DeepPlain(v) && Accepts(table, leaf, value, v, n)
    ensures Accepts(table, leaf, VisitProperty(table, value, depth).value, v, n)
    decreases depth, 3
  {
    hide Resolve, Accepts, Visit;
    if value.Obj? {
      ResolveRelaxes(table, leaf, value.fields, v, n);
      VisitRelaxes(table, leaf, Obj(Resolve(table, value.fields).schema), depth, v, n);
    }
  }

  // ------------------------------------------------------------ the visited components

  /** The components that are left, each of them visited. */
  function VisitedTable(table: Table, depth: nat): Table
    requires forall x :: x in table ==> Visit(table, table[x], depth).Some?
  {
    map x | x in table && x !in Aliases(table) :: Visit(table, table[x], depth).value
  }

  /** Where no reference is left dangling, reading references in relaxed components accepts no less. */
  lemma {:induction false} RelaxedTable(table: Table, after: Table, leaf: Leaf, j: Json, v: Json, n: nat)
    requires ComponentsRelaxed(table, after, leaf) && TableResolves(after) && Resolves(after, j)
    requires DeepPlain(v) && Accepts(table, leaf, j, v, n)
    ensures Accepts(after, leaf, j, v, n)
    decreases n, 1
  {
    hide TableResolves, ComponentsRelaxed, Refs;
    if j.Obj? {
      forall k | k in j.fields ensures Keyword(after, leaf, k, j.fields[k], v, n - 1) {
        MemberRefs(j.fields, k);
        if k == "$ref" && RefName(j.fields).Some? {
          RelaxedReference(table, after, leaf, j.fields, v, n - 1);
        } else {
          RelaxedKeyword(table, after, leaf, k, j.fields[k], v, n - 1);
        }
      }
    }
  }

  /** Each component that is left accepts what the component it was made from accepted. */
  ghost predicate ComponentsRelaxed(table: Table, after: Table, leaf: Leaf) {
    forall x :: x in after ==> x in table && ComponentRelaxed(table, leaf, table[x], after[x])
  }

  ghost predicate ComponentRelaxed(table: Table, leaf: Leaf, before: Json, after: Json) {
    forall v, n: nat :: DeepPlain(v) && Accepts(table, leaf, before, v, n) ==> Accepts(table, leaf, after, v, n)
  }

  lemma {:induction false} RelaxedReference(table: Table, after: Table, leaf: Leaf, o: Fields, v: Json, n: nat)
    requires ComponentsRelaxed(table, after, leaf) && TableResolves(after) && DeepPlain(v)
    requires "$ref" in o && RefName(o).Some? && Resolves(after, Obj(o))
    requires Keyword(table, leaf, "$ref", o["$ref"], v, n)
    ensures Keyword(after, leaf, "$ref", o["$ref"], v, n)
    decreases n, 3
  {
    hide Accepts, Refs;
    var name := RefName(o).value;
    assert name in OwnRef(o) by { assert RefName(o).Some?; }
    MemberRefs(o, "$ref");
    assert name in after;
    assert ComponentRelaxed(table, leaf, table[name], after[name]);
    RelaxedTable(table, after, leaf, after[name], v, n);
  }

  lemma {:induction false} RelaxedKeyword(table: Table, after: Table, leaf: Leaf, k: string, arg: Json, v: Json, n: nat)
    requires ComponentsRelaxed(table, after, leaf) && TableResolves(after) && Resolves(after, arg)
    requires DeepPlain(v) && Keyword(table, leaf, k, arg, v, n)
    requires !(k == "$ref" && arg.Str? && ComponentNameFromRef(arg.s).Some?)
    ensures Keyword(after, leaf, k, arg, v, n)
    decreases n, 3
  {
    hide Accepts, Refs, TableResolves, ComponentsRelaxed;
    if (k == "anyOf" || k == "allOf") && arg.Arr? {
      forall i | 0 <= i < |arg.items| && Accepts(table, leaf, arg.items[i], v, n)
        ensures Accepts(after, leaf, arg.items[i], v, n)
      {
        EntryRefs(arg.items, i);
        RelaxedTable(table, after, leaf, arg.items[i], v, n);
      }
      BranchesTransfer(table, after, leaf, k, arg.items, arg.items, v, n);
    } else if k == "properties" && arg.Obj? && v.Obj? {
      forall p | p in arg.fields && p in v.fields ensures Accepts(after, leaf, arg.fields[p], v.fields[p], n) {
        MemberRefs(arg.fields, p);
        RelaxedTable(table, after, leaf, arg.fields[p], v.fields[p], n);
      }
    } else if k == "items" && v.Arr? {
      forall e | e in v.items ensures Accepts(after, leaf, arg, e, n) {
        var i :| 0 <= i < |v.items| && v.items[i] == e;
        RelaxedTable(table, after, leaf, arg, e, n);
      }
    }
  }

  /** The collapsing pass as a whole: once every component and the schema are visited and the
      collapsed components are gone, no plain value is refused that was accepted, as long as no
      reference dangles, which the sweep that follows reports. */
  lemma VisitedDocumentAccepts(table: Table, leaf: Leaf, j: Json, depth: nat, v: Json, n: nat)
    requires Visit(table, j, depth).Some? && forall x :: x in table ==> Visit(table, table[x], depth).Some?
    requires TableResolves(VisitedTable(table, depth)) && Resolves(VisitedTable(table, depth), Visit(table, j, depth).value)
    requires DeepPlain(v) && Accepts(table, leaf, j, v, n)
    ensures Accepts(VisitedTable(table, depth), leaf, Visit(table, j, depth).value, v, n)
  {
    hide Accepts, Visit, TableResolves, Refs, Aliases;
    ComponentsAreRelaxed(table, depth, leaf);
    VisitRelaxes(table, leaf, j, depth, v, n);
    RelaxedTable(table, VisitedTable(table, depth), leaf, Visit(table, j, depth).value, v, n);
  }

  lemma ComponentsAreRelaxed(table: Table, depth: nat, leaf: Leaf)
    requires forall x :: x in table ==> Visit(table, table[x], depth).Some?
    ensures ComponentsRelaxed(table, VisitedTable(table, depth), leaf)
  {
    hide Accepts, Visit, Aliases;
    var after := VisitedTable(table, depth);
    forall x | x in after ensures ComponentRelaxed(table, leaf, table[x], after[x]) {
      forall u, m: nat | DeepPlain(u) && Accepts(table, leaf, table[x], u, m) ensures Accepts(table, leaf, after[x], u, m) {
        VisitRelaxes(table, leaf, table[x], depth, u, m);
      }
    }
  }
}
