/** Answers with `null` in them (scripts/generate-ios-openapi.ts, `visit`): a nullable property becomes
    one that may be left out, so an answer is read without the members that are `null` there. Read
    that way, at every depth along properties, list items and references, it is still accepted. */
module Answers {
  import opened JsonSchema
  import opened References
  import opened UnionCollapse
  import opened Visiting
  import opened Wrappers

  // ------------------------------------------------------------ reading an answer

  function PropertiesOf(o: Fields): Fields {
    if "properties" in o && o["properties"].Obj? then o["properties"].fields else map[]
  }

  /** What the walk puts in the place of a property's schema before it goes on inside. */
  function PropertySchema(table: Table, o: Fields, m: string): Json
    requires m in PropertiesOf(o) && PropertiesOf(o)[m].Obj?
  {
    Obj(Resolve(table, PropertiesOf(o)[m].fields).schema)
  }

  /** A `null` where the collapsed schema makes the key optional. */
  predicate LeftOut(table: Table, o: Fields, m: string, x: Json) {
    x == Null && NullableProperty(table, PropertiesOf(o), m)
  }

  /** The answer as it is read: without such members, as deep as `levels` says. */
  function Read(table: Table, j: Json, v: Json, levels: nat): Json
    decreases levels, 1
  {
    if levels == 0 || !j.Obj? || DeepPlain(v) then v
    else if RefName(j.fields).Some? then
      if RefName(j.fields).value in table then Read(table, table[RefName(j.fields).value], v, levels - 1) else v
    else
      match v
      case Obj(f) => Obj(map m | m in f && !LeftOut(table, j.fields, m, f[m]) :: ReadMember(table, j.fields, m, f[m], levels - 1))
      case Arr(entries) =>
        if "items" !in j.fields then v
        else Arr(seq(|entries|, i requires 0 <= i < |entries| => Read(table, j.fields["items"], entries[i], levels - 1)))
      case _ => v
  }

  function ReadMember(table: Table, o: Fields, m: string, x: Json, levels: nat): Json
    decreases levels, 2
  {
    if m in PropertiesOf(o) && PropertiesOf(o)[m].Obj? then Read(table, PropertySchema(table, o, m), x, levels) else x
  }

  /** Every `null`, and every string for a non-finite number, that the schema says anything about is
      the `null` of a nullable property, and no union stands on the way to it. */
  ghost predicate NullsOptional(table: Table, j: Json, v: Json, levels: nat)
    decreases levels, 1
  {
    DeepPlain(v) ||
    (levels > 0 && j.Obj? && "anyOf" !in j.fields && "allOf" !in j.fields && "enum" !in j.fields &&
      if RefName(j.fields).Some? then
        && RefName(j.fields).value in table && RefName(j.fields).value !in Aliases(table)
        && j.fields.Keys <= {"$ref"} + ANNOTATIONS
        && NullsOptional(table, table[RefName(j.fields).value], v, levels - 1)
      else
        match v
        case Obj(f) => forall m :: m in f ==> MemberOptional(table, j.fields, m, f[m], levels - 1)
        case Arr(entries) => "items" in j.fields ==> forall i :: 0 <= i < |entries| ==> NullsOptional(table, j.fields["items"], entries[i], levels - 1)
        case _ => false)
  }

  ghost predicate MemberOptional(table: Table, o: Fields, m: string, x: Json, levels: nat)
    decreases levels, 2
  {
    m in PropertiesOf(o) && PropertiesOf(o)[m].Obj? ==>
      LeftOut(table, o, m, x) || (Plain(x) && NullsOptional(table, PropertySchema(table, o, m), x, levels))
  }

  /** Reading keeps what kind of value it is: an object has no new keys, a list no other length. */
  predicate ReadAs(v: Json, r: Json) {
    match v
    case Obj(f) => r.Obj? && r.fields.Keys <= f.Keys
    case Arr(entries) => r.Arr? && |r.items| == |entries|
    case _ => r == v
  }

  /** The checks outside the fragment do not mind that: they look at neither the contents of an
      object or a list nor the absence of a key. */
  ghost predicate Tolerant(leaf: Leaf) {
    forall k, arg, v, r :: ReadAs(v, r) && leaf(k, arg, v) ==> leaf(k, arg, r)
  }

  lemma {:induction false} ReadKeepsKind(table: Table, j: Json, v: Json, levels: nat)
    ensures ReadAs(v, Read(table, j, v, levels))
    decreases levels
  {
    hide Resolve, DeepPlain, ReadMember;
    if levels > 0 && j.Obj? && RefName(j.fields).Some? && RefName(j.fields).value in table {
      ReadKeepsKind(table, table[RefName(j.fields).value], v, levels - 1);
    }
  }

  // ------------------------------------------------------------ what was read is accepted

  /** The hypotheses on the document: every component visited, and no reference left dangling. */
  ghost predicate Walked(table: Table, depth: nat) {
    && (forall x :: x in table ==> Visit(table, table[x], depth).Some?)
    && TableResolves(VisitedTable(table, depth))
  }

  /** Whatever was accepted and has `null` only where a key may be left out is accepted, as it is
      read, by the visited schema in the visited document. */
  lemma {:induction false} ReadAnswerAccepted(table: Table, depth: nat, leaf: Leaf, j: Json, d: nat, v: Json, n: nat, levels: nat)
    requires Walked(table, depth) && Tolerant(leaf)
    requires Visit(table, j, d).Some? && Resolves(VisitedTable(table, depth), Visit(table, j, d).value)
    requires Accepts(table, leaf, j, v, n) && NullsOptional(table, j, v, levels)
    ensures Accepts(VisitedTable(table, depth), leaf, Visit(table, j, d).value, Read(table, j, v, levels), n)
    decreases levels, 2
  {
    hide Visit, Accepts, Refs, TableResolves, DeepPlain, MemberOptional, VisitedTable, ReadMember, Tolerant;
    if DeepPlain(v) {
      PlainAnswerAccepted(table, depth, leaf, j, d, v, n);
    } else {
      assert j == Obj(j.fields);
      if RefName(j.fields).Some? {
        ReferenceAnswer(table, depth, leaf, j.fields, d, v, n, levels);
      } else {
        OwnAnswer(table, depth, leaf, j.fields, d, v, n, levels);
      }
    }
  }

  lemma PlainAnswerAccepted(table: Table, depth: nat, leaf: Leaf, j: Json, d: nat, v: Json, n: nat)
    requires Walked(table, depth) && DeepPlain(v)
    requires Visit(table, j, d).Some? && Resolves(VisitedTable(table, depth), Visit(table, j, d).value)
    requires Accepts(table, leaf, j, v, n)
    ensures Accepts(VisitedTable(table, depth), leaf, Visit(table, j, d).value, v, n)
  {
    hide Accepts, Visit, TableResolves, Refs, DeepPlain;
    ComponentsAreRelaxed(table, depth, leaf);
    VisitRelaxes(table, leaf, j, d, v, n);
    RelaxedTable(table, VisitedTable(table, depth), leaf, Visit(table, j, d).value, v, n);
  }

  lemma {:induction false} ReferenceAnswer(table: Table, depth: nat, leaf: Leaf, o: Fields, d: nat, v: Json, n: nat, levels: nat)
    requires Walked(table, depth) && Tolerant(leaf) && levels > 0 && RefName(o).Some? && !DeepPlain(v)
    requires Visit(table, Obj(o), d).Some? && Resolves(VisitedTable(table, depth), Visit(table, Obj(o), d).value)
    requires Accepts(table, leaf, Obj(o), v, n) && NullsOptional(table, Obj(o), v, levels)
    ensures Accepts(VisitedTable(table, depth), leaf, Visit(table, Obj(o), d).value, Read(table, Obj(o), v, levels), n)
    decreases levels, 1
  {
    hide Visit, Refs, DeepPlain, VisitFields, Resolve, Aliases;
    var x, after, r := RefName(o).value, VisitedTable(table, depth), Read(table, Obj(o), v, levels);
    SteadyVisit(table, o, d);
    assert after[x] == Visit(table, table[x], depth).value;
    KeywordOf(table, leaf, o, "$ref", v, n);
    ReadAnswerAccepted(table, depth, leaf, table[x], depth, v, n - 1, levels - 1);
    RefStays(table, o, d - 1);
    OnlyReference(table, after, leaf, o, VisitFields(table, o, d - 1), d - 1, r, n);
  }

  lemma OnlyReference(table: Table, after: Table, leaf: Leaf, o: Fields, visited: Fields, d: nat, r: Json, n: nat)
    requires n > 0 && RefName(o).Some? && RefName(visited) == RefName(o) && o.Keys <= {"$ref"} + ANNOTATIONS
    requires (forall k :: k in o ==> VisitMember(table, o, k, d).Some?) && visited == VisitFields(table, o, d)
    requires RefName(o).value in after && Accepts(after, leaf, after[RefName(o).value], r, n - 1)
    ensures Accepts(after, leaf, Obj(visited), r, n)
  {
    hide VisitMember;
    forall k | k in visited ensures Keyword(after, leaf, k, visited[k], r, n - 1) {
      hide Accepts;
      assert k in o;
    }
  }

  /** What is known of an object or a list with a `null` somewhere that the schema `o` judges itself. */
  ghost predicate Judged(table: Table, leaf: Leaf, o: Fields, d: nat, v: Json, n: nat, levels: nat) {
    && RefName(o).None? && Steady(table, o) && "enum" !in o && (v.Obj? || v.Arr?) && !DeepPlain(v)
    && (v.Obj? ==> forall m :: m in v.fields ==> MemberOptional(table, o, m, v.fields[m], levels))
    && (v.Arr? && "items" in o ==> forall i :: 0 <= i < |v.items| ==> NullsOptional(table, o["items"], v.items[i], levels))
    && (forall k :: k in o ==> VisitMember(table, o, k, d).Some? && Keyword(table, leaf, k, o[k], v, n))
  }

  lemma IsJudged(table: Table, leaf: Leaf, o: Fields, d: nat, v: Json, n: nat, levels: nat)
    requires RefName(o).None? && !DeepPlain(v) && Visit(table, Obj(o), d).Some?
    requires Accepts(table, leaf, Obj(o), v, n) && NullsOptional(table, Obj(o), v, levels)
    ensures d > 0 && n > 0 && levels > 0 && Judged(table, leaf, o, d - 1, v, n - 1, levels - 1)
    ensures (forall k :: k in o ==> VisitMember(table, o, k, d - 1).Some?)
    ensures Visit(table, Obj(o), d).value == Obj(VisitFields(table, o, d - 1))
  {
    hide MemberOptional, DeepPlain, Aliases, Keyword, VisitMember, Visit, VisitFields;
    SteadyVisit(table, o, d);
  }

  lemma {:induction false} OwnAnswer(table: Table, depth: nat, leaf: Leaf, o: Fields, d: nat, v: Json, n: nat, levels: nat)
    requires Walked(table, depth) && Tolerant(leaf) && levels > 0 && RefName(o).None? && !DeepPlain(v)
    requires Visit(table, Obj(o), d).Some? && Resolves(VisitedTable(table, depth), Visit(table, Obj(o), d).value)
    requires Accepts(table, leaf, Obj(o), v, n) && NullsOptional(table, Obj(o), v, levels)
    ensures Accepts(VisitedTable(table, depth), leaf, Visit(table, Obj(o), d).value, Read(table, Obj(o), v, levels), n)
    decreases levels, 1
  {
    hide Visit, Refs, DeepPlain, Resolve, Aliases, Keyword, VisitMember, VisitedTable, Tolerant, Read, NullsOptional, StillRequired, StrArr;
    hide TableResolves, Judged;
    IsJudged(table, leaf, o, d, v, n, levels);
    var after, r, visited := VisitedTable(table, depth), Read(table, Obj(o), v, levels), VisitFields(table, o, d - 1);
    forall k | k in visited ensures Keyword(after, leaf, k, visited[k], r, n - 1) {
      MemberRefs(visited, k);
      JudgedKeyword(table, depth, leaf, o, k, d - 1, v, n - 1, levels - 1);
    }
  }

  lemma {:induction false} JudgedKeyword(table: Table, depth: nat, leaf: Leaf, o: Fields, k: string, d: nat, v: Json, n: nat, levels: nat)
    requires Walked(table, depth) && Tolerant(leaf) && Judged(table, leaf, o, d, v, n, levels)
    requires k in VisitFields(table, o, d) && Resolves(VisitedTable(table, depth), VisitFields(table, o, d)[k])
    ensures Keyword(VisitedTable(table, depth), leaf, k, VisitFields(table, o, d)[k], Read(table, Obj(o), v, levels + 1), n)
    decreases levels, 5
  {
    hide Refs, DeepPlain, Resolve, Aliases, Keyword, VisitMember, VisitedTable, Tolerant, Read, NullsOptional, StillRequired, StrArr;
    hide TableResolves, MemberOptional;
    if k == "properties" {
      PropertiesAnswer(table, depth, leaf, o, d, v, n, levels);
    } else if k == "required" {
      RequiredAnswer(table, VisitedTable(table, depth), leaf, o, d, v, n, levels);
    } else if k == "items" {
      ItemsAnswer(table, depth, leaf, o, d, v, n, levels);
    } else {
      ReadKeepsKind(table, Obj(o), v, levels + 1);
      OtherAnswer(table, VisitedTable(table, depth), leaf, o, k, d, v, Read(table, Obj(o), v, levels + 1), n);
    }
  }

  lemma {:induction false} PropertiesAnswer(table: Table, depth: nat, leaf: Leaf, o: Fields, d: nat, v: Json, n: nat, levels: nat)
    requires Walked(table, depth) && Tolerant(leaf) && Judged(table, leaf, o, d, v, n, levels)
    requires "properties" in o && Resolves(VisitedTable(table, depth), VisitMember(table, o, "properties", d).value)
    ensures Keyword(VisitedTable(table, depth), leaf, "properties", VisitMember(table, o, "properties", d).value, Read(table, Obj(o), v, levels + 1), n)
    decreases levels, 4
  {
    hide Refs, DeepPlain, Resolve, Aliases, VisitProperty, VisitedTable, Tolerant, TableResolves, MemberOptional, Accepts, NullableProperty, NullsOptional, ReadMember;
    if o["properties"].Obj? && v.Obj? {
      var properties := o["properties"].fields;
      var visited := VisitProperties(table, properties, d).value.fields;
      var r := Read(table, Obj(o), v, levels + 1).fields;
      forall p | p in visited && p in r ensures Accepts(VisitedTable(table, depth), leaf, visited[p], r[p], n) {
        MemberRefs(visited, p);
        assert Accepts(table, leaf, properties[p], v.fields[p], n);
        MemberAnswer(table, depth, leaf, o, p, d, v.fields[p], n, levels);
      }
    }
  }

  lemma {:induction false} MemberAnswer(table: Table, depth: nat, leaf: Leaf, o: Fields, m: string, d: nat, x: Json, n: nat, levels: nat)
    requires Walked(table, depth) && Tolerant(leaf) && m in PropertiesOf(o)
    requires MemberOptional(table, o, m, x, levels) && !LeftOut(table, o, m, x) && Accepts(table, leaf, PropertiesOf(o)[m], x, n)
    requires VisitProperty(table, PropertiesOf(o)[m], d).Some?
    requires Resolves(VisitedTable(table, depth), VisitProperty(table, PropertiesOf(o)[m], d).value)
    ensures Accepts(VisitedTable(table, depth), leaf, VisitProperty(table, PropertiesOf(o)[m], d).value, ReadMember(table, o, m, x, levels), n)
    decreases levels, 3
  {
    hide Refs, DeepPlain, Resolve, Aliases, Visit, VisitedTable, Tolerant, TableResolves, NullsOptional, Read, LeftOut, PropertiesOf, Keyword;
    var value := PropertiesOf(o)[m];
    if value.Obj? {
      assert value == Obj(value.fields);
      ResolveRelaxes(table, leaf, value.fields, x, n);
      ReadAnswerAccepted(table, depth, leaf, PropertySchema(table, o, m), d, x, n, levels);
    }
  }

  lemma RequiredAnswer(table: Table, after: Table, leaf: Leaf, o: Fields, d: nat, v: Json, n: nat, levels: nat)
    requires Judged(table, leaf, o, d, v, n, levels) && "required" in VisitFields(table, o, d)
    ensures Keyword(after, leaf, "required", VisitFields(table, o, d)["required"], Read(table, Obj(o), v, levels + 1), n)
  {
    hide DeepPlain, Resolve, Aliases, MemberOptional, Accepts, NullsOptional, ReadMember, StrArr, Without, AddNew;
    ReadKeepsKind(table, Obj(o), v, levels + 1);
    if v.Obj? && "properties" in o && o["properties"].Obj? {
      StillRequiredPresent(table, leaf, o, v.fields, n);
    }
  }

  lemma StillRequiredPresent(table: Table, leaf: Leaf, o: Fields, members: map<string, Json>, n: nat)
    requires "required" in o ==> Keyword(table, leaf, "required", o["required"], Obj(members), n)
    ensures forall j :: j in StrArr(StillRequired(table, o, PropertiesOf(o))).items && j.Str? ==>
      j.s in members && !LeftOut(table, o, j.s, members[j.s])
  {
    hide Resolve;
    var required := StillRequired(table, o, PropertiesOf(o));
    forall j | j in StrArr(required).items && j.Str? ensures j.s in members && !LeftOut(table, o, j.s, members[j.s]) {
      var i :| 0 <= i < |required| && StrArr(required).items[i] == j;
      assert required[i] in required;
      var listed := AsStringArray(Get(o, "required")).value;
      var m :| 0 <= m < |listed| && listed[m] == j.s;
      assert o["required"].items[m] == Str(listed[m]);
    }
  }

  lemma {:induction false} ItemsAnswer(table: Table, depth: nat, leaf: Leaf, o: Fields, d: nat, v: Json, n: nat, levels: nat)
    requires Walked(table, depth) && Tolerant(leaf) && Judged(table, leaf, o, d, v, n, levels)
    requires "items" in o && Resolves(VisitedTable(table, depth), VisitMember(table, o, "items", d).value)
    ensures Keyword(VisitedTable(table, depth), leaf, "items", VisitMember(table, o, "items", d).value, Read(table, Obj(o), v, levels + 1), n)
    decreases levels, 4
  {
    hide Refs, DeepPlain, Resolve, Aliases, VisitedTable, Tolerant, TableResolves, MemberOptional, Accepts, NullsOptional, ReadMember, Visit;
    if v.Arr? {
      var r := Read(table, Obj(o), v, levels + 1).items;
      forall e | e in r ensures Accepts(VisitedTable(table, depth), leaf, VisitMember(table, o, "items", d).value, e, n) {
        var i :| 0 <= i < |r| && r[i] == e;
        assert v.items[i] in v.items;
        ReadAnswerAccepted(table, depth, leaf, o["items"], d, v.items[i], n, levels);
      }
    }
  }

  /** The other keywords judge an object or a list by its kind alone. */
  lemma OtherAnswer(table: Table, after: Table, leaf: Leaf, o: Fields, k: string, d: nat, v: Json, r: Json, n: nat)
    requires Tolerant(leaf) && ReadAs(v, r) && (v.Obj? || v.Arr?) && RefName(o).None?
    requires k in o && k !in {"properties", "required", "items", "anyOf", "allOf", "enum"}
    requires VisitMember(table, o, k, d).Some? && Keyword(table, leaf, k, o[k], v, n)
    ensures Keyword(after, leaf, k, VisitMember(table, o, k, d).value, r, n)
  {
    hide Visit, Accepts, VisitParameter;
    if k != "parameters" {
      VisitKeepsShape(table, o[k], d);
      if k == "type" && o[k].Arr? { TypesStay(table, leaf, o[k].items, d, v, n); }
    }
  }
}
