/** When the walk that collapses unions ends (scripts/generate-ios-openapi.ts, `visit`). It puts
    collapsed components in the place of property schemas and goes on inside them, so a component
    whose properties lead back to it keeps the walk going; a rank on the components rules that out. */
module WalkEnds {
  import opened JsonSchema
  import opened Pieces
  import opened References
  import opened UnionCollapse
  import opened Visiting
  import opened Wrappers

  // ------------------------------------------------------------ deeper changes nothing

  /** The depth only says whether there is an answer, not which. */
  lemma {:induction false} DepthIndependent(table: Table, j: Json, d: nat, e: nat)
    requires d <= e && Visit(table, j, d).Some?
    ensures Visit(table, j, e) == Visit(table, j, d)
    decreases d, 2
  {
    hide Resolve, VisitMember, VisitFields;
    match j
    case Arr(items) =>
      forall i | 0 <= i < |items| ensures Visit(table, items[i], e - 1) == Visit(table, items[i], d - 1) {
        DepthIndependent(table, items[i], d - 1, e - 1);
      }
      assert Visit(table, j, e).Some?;
      assert Visit(table, j, e).value.items == Visit(table, j, d).value.items;
    case Obj(o) =>
      forall k | k in o ensures VisitMember(table, o, k, e - 1) == VisitMember(table, o, k, d - 1) {
        MemberDepthIndependent(table, o, k, d - 1, e - 1);
      }
      SameMembersSameFields(table, o, d - 1, e - 1);
    case _ =>
  }

  lemma SameMembersSameFields(table: Table, o: Fields, d: nat, e: nat)
    requires forall k :: k in o ==> VisitMember(table, o, k, d).Some? && VisitMember(table, o, k, e) == VisitMember(table, o, k, d)
    ensures VisitFields(table, o, e) == VisitFields(table, o, d)
  {
    hide Resolve, VisitMember, StillRequired, StrArr;
    assert (map k | k in o :: VisitMember(table, o, k, e).value) == map k | k in o :: VisitMember(table, o, k, d).value;
  }

  lemma {:induction false} MemberDepthIndependent(table: Table, o: Fields, k: string, d: nat, e: nat)
    requires d <= e && k in o && VisitMember(table, o, k, d).Some?
    ensures VisitMember(table, o, k, e) == VisitMember(table, o, k, d)
    decreases d, 5
  {
    hide Resolve, Visit, VisitProperty;
    if k == "properties" {
      if o[k].Obj? {
        var properties := o[k].fields;
        forall p | p in properties ensures VisitProperty(table, properties[p], e) == VisitProperty(table, properties[p], d) {
          PropertyDepthIndependent(table, properties[p], d, e);
        }
        assert VisitProperties(table, properties, e).Some?;
        assert VisitProperties(table, properties, e).value.fields == VisitProperties(table, properties, d).value.fields;
      }
    } else if k != "parameters" && k != "required" && !(k == "enum" && o[k].Arr?) {
      DepthIndependent(table, o[k], d, e);
    }
  }

  lemma {:induction false} PropertyDepthIndependent(table: Table, value: Json, d: nat, e: nat)
    requires d <= e && VisitProperty(table, value, d).Some?
    ensures VisitProperty(table, value, e) == VisitProperty(table, value, d)
    decreases d, 3
  {
    hide Resolve, Visit;
    if value.Obj? { DepthIndependent(table, Obj(Resolve(table, value.fields).schema), d, e); }
  }

  // ------------------------------------------------------------ a walk without an end

  /** A list: a node has a next node or none. */
  function ListNode(): Fields {
    map["properties" := Obj(map["next" := RefTo("U")])]
  }

  function ListTable(): Table { map["U" := Obj(OrNull(ListNode()))] }

  lemma ListCollapses()
    ensures Resolve(ListTable(), RefTo("U").fields) == Collapsed(ListNode(), true)
  {
    hide OrNull, Resolve, Aliases;
    AliasResolves(ListTable(), "U", ListNode());
  }

  /** A reference to a nullable component resolves to what the component is besides `null`. */
  lemma AliasResolves(table: Table, x: string, plain: Fields)
    requires x in table && table[x] == Obj(OrNull(plain))
    requires "type" !in plain || plain["type"] == Str("string")
    requires "anyOf" !in plain && "allOf" !in plain && "$ref" !in plain
    ensures x in Aliases(table) && Resolve(table, RefTo(x).fields) == Collapsed(plain, true)
  {
    assert !Peelable(table, plain);
    OrNullCollapses(table, plain);
    hide Collapse, OrNull, Peelable, ComponentNameFromRef;
    RefToName(x);
    assert Aliases(table)[x] == Collapsed(plain, true);
    hide Aliases;
    assert ResolveFrom(table, plain, true, {} + {x}, RESOLVE_PASSES - 1) == Collapsed(plain, true);
  }

  /** Walking a list node meets the next one, at every depth. */
  lemma {:induction false} ListWalkNeverEnds(depth: nat)
    ensures Visit(ListTable(), Obj(ListNode()), depth).None?
    decreases depth
  {
    hide *;
    if depth == 0 {
      NoDepthNoAnswer(ListTable(), Obj(ListNode()));
    } else {
      ListWalkNeverEnds(depth - 1);
      NextUnanswered(depth - 1);
      NodeUnanswered(depth);
    }
  }

  lemma NoDepthNoAnswer(table: Table, j: Json)
    ensures Visit(table, j, 0).None?
  {}

  lemma NodeUnanswered(depth: nat)
    requires depth > 0 && VisitProperties(ListTable(), ListNode()["properties"].fields, depth - 1).None?
    ensures Visit(ListTable(), Obj(ListNode()), depth).None?
  {
    hide Visit, VisitProperties, ListTable;
    UnansweredMember(ListTable(), ListNode(), depth);
  }

  lemma NextUnanswered(depth: nat)
    requires Visit(ListTable(), Obj(ListNode()), depth).None?
    ensures VisitProperties(ListTable(), ListNode()["properties"].fields, depth).None?
  {
    ListCollapses();
    hide Resolve, Visit, ListTable;
    var properties := ListNode()["properties"].fields;
    assert "next" in properties && properties["next"] == RefTo("U");
    assert VisitProperty(ListTable(), properties["next"], depth).None?;
  }

  lemma UnansweredMember(table: Table, o: Fields, depth: nat)
    requires depth > 0 && "properties" in o && o["properties"].Obj?
    requires VisitProperties(table, o["properties"].fields, depth - 1).None?
    ensures Visit(table, Obj(o), depth).None?
  {
    hide Resolve, VisitProperties;
    assert VisitMember(table, o, "properties", depth - 1).None?;
  }

  // ------------------------------------------------------------ a reference left dangling

  /** An object whose one property is a nullable string, by reference. */
  function Holder(): Fields { map["properties" := Obj(map["x" := RefTo("B")])] }

  function HolderTable(): Table { map["A" := Obj(OrNull(Holder())), "B" := Obj(MaybeString())] }

  lemma HoldersAreAliases()
    ensures "B" in Aliases(HolderTable()) && Resolve(HolderTable(), RefTo("A").fields).schema == Holder()
  {
    hide OrNull, Resolve, Aliases;
    AliasResolves(HolderTable(), "A", Holder());
    AliasResolves(HolderTable(), "B", map["type" := Str("string")]);
  }

  /** A component collapsed below `items` is put there as it is: nothing inside it is walked, and a
      reference in it to another collapsed component dangles. */
  lemma ItemsLeaveDangling(depth: nat)
    requires depth >= 3
    ensures
      var schema := Obj(map["items" := RefTo("A")]);
      && Visit(HolderTable(), schema, depth) == Some(Obj(map["items" := Obj(Holder())]))
      && "B" in Refs(Obj(map["items" := Obj(Holder())])) && "B" in Aliases(HolderTable())
  {
    HoldersAreAliases();
    RefToName("B");
    hide Aliases, HolderTable, Resolve;
    var table, ref, held := HolderTable(), Str(REF_PREFIX + "A"), Obj(Holder());
    OneMember(table, "$ref", ref, ref, depth - 2);
    OneMember(table, "items", RefTo("A"), held, depth - 1);
    assert Steady(table, map["items" := held]);
    SteadyResolves(table, map["items" := held]);
    HeldRefs();
  }

  lemma HeldRefs()
    ensures "B" in Refs(Obj(map["items" := Obj(Holder())]))
  {
    RefToName("B");
    hide RefName;
    var properties: Fields := map["x" := RefTo("B")];
    MemberRefs(properties, "x");
    MemberRefs(Holder(), "properties");
    MemberRefs(map["items" := Obj(Holder())], "items");
  }

  lemma OneMember(table: Table, k: string, j: Json, visited: Json, d: nat)
    requires k !in {"properties", "parameters", "required", "enum"} && Visit(table, j, d) == Some(visited)
    ensures Visit(table, Obj(map[k := j]), d + 1) == Some(Obj(Resolve(table, map[k := visited]).schema))
  {
    hide Resolve;
    assert VisitFields(table, map[k := j], d) == map[k := visited];
  }

  // ------------------------------------------------------------ enumerations of scalars

  /** No `enum` lists lists or objects. */
  predicate EnumsScalar(j: Json)
    decreases j, 1
  {
    match j
    case Arr(items) => forall i :: 0 <= i < |items| ==> EnumsScalar(items[i])
    case Obj(o) => forall k :: k in o ==> MemberScalar(k, o[k])
    case _ => true
  }

  predicate MemberScalar(k: string, arg: Json)
    decreases arg, 2
  {
    EnumsScalar(arg) && (k == "enum" && arg.Arr? ==> forall x :: x in arg.items ==> Scalar(x))
  }

  lemma BranchScalar(o: Fields, i: nat)
    requires EnumsScalar(Obj(o)) && "anyOf" in o && o["anyOf"].Arr? && i < |o["anyOf"].items|
    ensures EnumsScalar(o["anyOf"].items[i])
  {
    assert MemberScalar("anyOf", o["anyOf"]);
  }

  ghost predicate AllScalar(table: Table) { forall x :: x in table ==> EnumsScalar(table[x]) }

  // What a schema is collapsed to lists scalars only, if its pieces do.

  lemma {:induction false} ScalarIsPassing(o: Fields)
    ensures EnumsScalar(Obj(o)) <==> (forall k :: k in o ==> MemberScalar(k, o[k]))
    ensures EnumsScalar(Obj(o)) <==> Passes(MemberScalar, o)
    decreases Obj(o)
  {
    hide MemberScalar;
    if EnumsScalar(Obj(o)) && "anyOf" in o && o["anyOf"].Arr? {
      var branches := o["anyOf"].items;
      forall i | 0 <= i < |branches| && branches[i].Obj? ensures Passes(MemberScalar, branches[i].fields) {
        BranchScalar(o, i);
        assert branches[i] == Obj(branches[i].fields);
        ScalarIsPassing(branches[i].fields);
      }
    }
  }

  lemma ScalarListed(list: seq<Fields>)
    ensures EnumsScalar(ToArr(list)) <==> forall o :: o in list ==> EnumsScalar(Obj(o))
  {
    var items := ToArr(list).items;
    if EnumsScalar(ToArr(list)) {
      forall o | o in list ensures EnumsScalar(Obj(o)) {
        var m :| 0 <= m < |list| && list[m] == o;
        assert items[m] == Obj(o) && EnumsScalar(items[m]);
      }
    }
    if forall o :: o in list ==> EnumsScalar(Obj(o)) {
      forall i | 0 <= i < |items| ensures EnumsScalar(items[i]) { assert items[i] == Obj(list[i]) && list[i] in list; }
    }
  }

  lemma ScalarIsStable()
    ensures Stable(MemberScalar)
  {
    hide ToArr;
    forall values ensures MemberScalar("enum", StrArr(values)) { StringsAreScalar(values); }
    forall branches, rest: seq<Fields> | FewerOf(branches, rest) && MemberScalar("anyOf", ToArr(branches))
      ensures MemberScalar("anyOf", ToArr(rest))
    {
      ScalarListed(branches);
      ScalarListed(rest);
    }
    forall fragments: seq<Fields>, f | f in fragments && MemberScalar("allOf", ToArr(fragments))
      ensures PassesOutside(MemberScalar, f)
    {
      ScalarListed(fragments);
      assert EnumsScalar(Obj(f));
    }
  }

  lemma StringsAreScalar(values: seq<string>)
    ensures MemberScalar("enum", StrArr(values))
  {}

  lemma CollapsedStaysScalar(table: Table)
    requires AllScalar(table)
    ensures NumbersPass(table, MemberScalar) && AliasesPass(table, MemberScalar)
    ensures forall x :: x in Aliases(table) ==> EnumsScalar(Obj(Aliases(table)[x].schema))
  {
    hide MemberScalar, EnumsScalar, Collapse;
    ScalarIsStable();
    forall x | x in table && table[x].Obj? ensures Passes(MemberScalar, table[x].fields) {
      assert table[x] == Obj(table[x].fields);
      ScalarIsPassing(table[x].fields);
    }
    assert NumbersPass(table, MemberScalar);
    forall x | x in Aliases(table)
      ensures Passes(MemberScalar, Aliases(table)[x].schema) && EnumsScalar(Obj(Aliases(table)[x].schema))
    {
      CollapsePasses(table, MemberScalar, table[x].fields);
      ScalarIsPassing(Aliases(table)[x].schema);
    }
  }

  lemma ResolvedStaysScalar(table: Table, o: Fields)
    requires AllScalar(table) && EnumsScalar(Obj(o))
    ensures EnumsScalar(Obj(Resolve(table, o).schema))
  {
    hide EnumsScalar, MemberScalar, Resolve, Passes, AllScalar, NumbersPass, AliasesPass, Stable;
    ScalarIsStable();
    CollapsedStaysScalar(table);
    ScalarIsPassing(o);
    ResolvePasses(table, MemberScalar, o);
    ScalarIsPassing(Resolve(table, o).schema);
  }

  // ------------------------------------------------------------ exactly when the walk ends

  /** The property schemas that a walk of `j` resolves before it goes on inside any of them. */
  function PropertySchemas(j: Json): set<Json>
    decreases j, 1
  {
    match j
    case Arr(items) => set i, x | 0 <= i < |items| && x in PropertySchemas(items[i]) :: x
    case Obj(o) => set k, x | k in o && x in MemberSchemas(k, o[k]) :: x
    case _ => {}
  }

  function MemberSchemas(k: string, arg: Json): set<Json>
    decreases arg, 2
  {
    if k == "properties" then
      (if arg.Obj? then set p | p in arg.fields && arg.fields[p].Obj? :: arg.fields[p] else {})
    else if k == "parameters" || k == "required" || (k == "enum" && arg.Arr?) then {}
    else PropertySchemas(arg)
  }

  /** The property schemas met in what a property schema is resolved to. */
  function Next(table: Table, p: Json): set<Json>
    requires p.Obj?
  {
    PropertySchemas(Obj(Resolve(table, p.fields).schema))
  }

  /** A rank of the property schemas that falls from each one to those met in what it is resolved to;
      there is one exactly when no property schema of the document leads back to itself. */
  ghost predicate Ranked(table: Table, j: Json, rank: map<Json, nat>) {
    && PropertySchemas(j) <= rank.Keys
    && forall p :: p in rank ==> p.Obj? && LeadsBelow(table, rank, p)
  }

  ghost predicate LeadsBelow(table: Table, rank: map<Json, nat>, p: Json)
    requires p.Obj? && p in rank
  {
    forall q :: q in Next(table, p) ==> q in rank && rank[q] < rank[p]
  }

  // A walk that ends has resolved every property schema it met, each at a smaller depth.

  lemma {:induction false} MetAreResolved(table: Table, j: Json, d: nat)
    requires Visit(table, j, d).Some?
    ensures d > 0 && forall p :: p in PropertySchemas(j) ==> p.Obj? && VisitProperty(table, p, d - 1).Some?
    decreases d, 1
  {
    hide Resolve, VisitFields, VisitProperty, VisitMember, MemberSchemas;
    match j
    case Arr(items) =>
      forall i | 0 <= i < |items|
        ensures forall p :: p in PropertySchemas(items[i]) ==> p.Obj? && VisitProperty(table, p, d - 1).Some?
      {
        MetAreResolved(table, items[i], d - 1);
        forall p | p in PropertySchemas(items[i]) ensures VisitProperty(table, p, d - 1).Some? {
          PropertyDepthIndependent(table, p, d - 2, d - 1);
        }
      }
    case Obj(o) =>
      forall k | k in o
        ensures forall p :: p in MemberSchemas(k, o[k]) ==> p.Obj? && VisitProperty(table, p, d - 1).Some?
      {
        MetInMember(table, o, k, d - 1);
      }
    case _ =>
  }

  lemma {:induction false} MetInMember(table: Table, o: Fields, k: string, d: nat)
    requires k in o && VisitMember(table, o, k, d).Some?
    ensures forall p :: p in MemberSchemas(k, o[k]) ==> p.Obj? && VisitProperty(table, p, d).Some?
    decreases d, 2
  {
    hide Resolve, Visit, VisitProperty, PropertySchemas;
    if k == "properties" || k == "parameters" || k == "required" || (k == "enum" && o[k].Arr?) {
    } else {
      MetAreResolved(table, o[k], d);
      forall p | p in PropertySchemas(o[k]) ensures VisitProperty(table, p, d).Some? {
        PropertyDepthIndependent(table, p, d - 1, d);
      }
    }
  }

  /** The least depth at which a property schema is answered. */
  function LeastDepth(table: Table, p: Json, d: nat): (least: nat)
    requires VisitProperty(table, p, d).Some?
    ensures least <= d && VisitProperty(table, p, least).Some?
  {
    if d > 0 && VisitProperty(table, p, d - 1).Some? then LeastDepth(table, p, d - 1) else d
  }

  lemma {:induction false} LeastIsLeast(table: Table, p: Json, d: nat, e: nat)
    requires VisitProperty(table, p, d).Some? && VisitProperty(table, p, e).Some?
    ensures LeastDepth(table, p, d) <= e
    decreases d
  {
    hide VisitProperty;
    if d > e {
      PropertyDepthIndependent(table, p, e, d - 1);
      LeastIsLeast(table, p, d - 1, e);
    }
  }

  /** All property schemas that a walk of that depth meets. */
  function Reached(table: Table, j: Json, d: nat): set<Json>
    decreases d, 1
  {
    PropertySchemas(j) + set p, x | p in PropertySchemas(j) && x in ReachedInside(table, p, d) :: x
  }

  function ReachedInside(table: Table, p: Json, d: nat): set<Json>
    decreases d, 0
  {
    if p.Obj? && d > 0 then Reached(table, Obj(Resolve(table, p.fields).schema), d - 1) else {}
  }

  lemma {:induction false} ReachedIsClosed(table: Table, j: Json, d: nat)
    requires Visit(table, j, d).Some?
    ensures forall x :: x in Reached(table, j, d) ==> x.Obj? && VisitProperty(table, x, d).Some? && Next(table, x) <= Reached(table, j, d)
    decreases d, 1
  {
    hide Resolve, Visit, PropertySchemas, VisitProperty, ReachedInside, Next;
    MetAreResolved(table, j, d);
    forall p | p in PropertySchemas(j)
      ensures p.Obj? && VisitProperty(table, p, d).Some? && Next(table, p) <= Reached(table, j, d)
      ensures forall x :: x in ReachedInside(table, p, d) ==> x.Obj? && VisitProperty(table, x, d).Some? && Next(table, x) <= Reached(table, j, d)
    {
      InsideIsClosed(table, p, d);
      assert ReachedInside(table, p, d) <= Reached(table, j, d);
      PropertyDepthIndependent(table, p, d - 1, d);
    }
  }

  lemma {:induction false} InsideIsClosed(table: Table, p: Json, d: nat)
    requires p.Obj? && d > 0 && VisitProperty(table, p, d - 1).Some?
    ensures Next(table, p) <= ReachedInside(table, p, d)
    ensures forall x :: x in ReachedInside(table, p, d) ==> x.Obj? && VisitProperty(table, x, d).Some? && Next(table, x) <= ReachedInside(table, p, d)
    decreases d, 0
  {
    hide Resolve, Visit, PropertySchemas;
    ReachedIsClosed(table, Obj(Resolve(table, p.fields).schema), d - 1);
    forall x | x in ReachedInside(table, p, d) ensures VisitProperty(table, x, d).Some? {
      PropertyDepthIndependent(table, x, d - 1, d);
    }
  }

  lemma EndedWalkIsRanked(table: Table, j: Json, d: nat) returns (rank: map<Json, nat>)
    requires Visit(table, j, d).Some?
    ensures Ranked(table, j, rank)
  {
    hide Visit, PropertySchemas, Resolve;
    ReachedIsClosed(table, j, d);
    var reached := Reached(table, j, d);
    rank := map x | x in reached :: LeastDepth(table, x, d);
    forall p | p in rank ensures LeadsBelow(table, rank, p) {
      MetAreResolved(table, Obj(Resolve(table, p.fields).schema), rank[p]);
      forall q | q in Next(table, p) ensures q in rank && rank[q] < rank[p] {
        LeastIsLeast(table, q, d, rank[p] - 1);
      }
    }
  }

  // Rank by rank, every property schema is answered, and then the walk is.

  lemma {:induction false} AnsweredOnce(table: Table, j: Json, d: nat) returns (e: nat)
    requires EnumsScalar(j) && forall p :: p in PropertySchemas(j) ==> VisitProperty(table, p, d).Some?
    ensures Visit(table, j, e).Some?
    decreases j, 1
  {
    hide Resolve, VisitFields, VisitMember, VisitProperty, MemberScalar, MemberSchemas;
    e := 1;
    match j
    case Arr(items) =>
      for i := 0 to |items|
        invariant e > 0 && forall m :: 0 <= m < i ==> Visit(table, items[m], e - 1).Some?
      {
        assert PropertySchemas(items[i]) <= PropertySchemas(j);
        var own := AnsweredOnce(table, items[i], d);
        var most := if e > own then e else own + 1;
        forall m | 0 <= m < i ensures Visit(table, items[m], most - 1).Some? { DepthIndependent(table, items[m], e - 1, most - 1); }
        DepthIndependent(table, items[i], own, most - 1);
        e := most;
      }
    case Obj(o) =>
      e := MembersAnsweredOnce(table, o, d);
      e := e + 1;
    case _ =>
  }

  lemma {:induction false} MembersAnsweredOnce(table: Table, o: Fields, d: nat) returns (e: nat)
    requires EnumsScalar(Obj(o)) && forall p :: p in PropertySchemas(Obj(o)) ==> VisitProperty(table, p, d).Some?
    ensures forall k :: k in o ==> VisitMember(table, o, k, e).Some?
    decreases Obj(o), 0
  {
    hide VisitMember, VisitProperty, MemberScalar, MemberSchemas;
    e := 0;
    var todo := o.Keys;
    while todo != {}
      invariant todo <= o.Keys && forall k :: k in o && k !in todo ==> VisitMember(table, o, k, e).Some?
      decreases todo
    {
      var k :| k in todo;
      assert MemberSchemas(k, o[k]) <= PropertySchemas(Obj(o)) && MemberScalar(k, o[k]);
      var own := MemberAnsweredOnce(table, o, k, d);
      var most := if e > own then e else own;
      forall x | x in o && x !in todo ensures VisitMember(table, o, x, most).Some? { MemberDepthIndependent(table, o, x, e, most); }
      MemberDepthIndependent(table, o, k, own, most);
      todo, e := todo - {k}, most;
    }
  }

  lemma {:induction false} MemberAnsweredOnce(table: Table, o: Fields, k: string, d: nat) returns (e: nat)
    requires k in o && MemberScalar(k, o[k]) && forall p :: p in MemberSchemas(k, o[k]) ==> VisitProperty(table, p, d).Some?
    ensures VisitMember(table, o, k, e).Some?
    decreases o[k], 2
  {
    hide Visit, PropertySchemas, EnumsScalar;
    e := d;
    if k == "properties" && o[k].Obj? {
      var properties := o[k].fields;
      forall p | p in properties ensures VisitProperty(table, properties[p], d).Some? {
        if properties[p].Obj? { assert properties[p] in MemberSchemas(k, o[k]); }
      }
    } else if k != "properties" && k != "parameters" && k != "required" && !(k == "enum" && o[k].Arr?) {
      e := AnsweredOnce(table, o[k], d);
    }
  }

  lemma {:induction false} SchemasScalar(j: Json, p: Json)
    requires EnumsScalar(j) && p in PropertySchemas(j)
    ensures p.Obj? && EnumsScalar(p)
    decreases j
  {
    match j
    case Arr(items) =>
      var i :| 0 <= i < |items| && p in PropertySchemas(items[i]);
      SchemasScalar(items[i], p);
    case Obj(o) =>
      var k :| k in o && p in MemberSchemas(k, o[k]);
      assert MemberScalar(k, o[k]);
      if k == "properties" {
        var x :| x in o[k].fields && o[k].fields[x] == p;
        assert MemberScalar(x, o[k].fields[x]);
      } else {
        SchemasScalar(o[k], p);
      }
    case _ =>
  }

  lemma {:induction false} RankAnswered(table: Table, rank: map<Json, nat>, p: Json) returns (d: nat)
    requires AllScalar(table) && p in rank && EnumsScalar(p)
    requires forall q :: q in rank ==> q.Obj? && LeadsBelow(table, rank, q)
    ensures VisitProperty(table, p, d).Some?
    decreases rank[p], 1
  {
    hide Visit, EnumsScalar, AllScalar, Resolve, PropertySchemas;
    assert p == Obj(p.fields) && LeadsBelow(table, rank, p);
    var inner := Obj(Resolve(table, p.fields).schema);
    ResolvedStaysScalar(table, p.fields);
    forall q | q in Next(table, p) ensures EnumsScalar(q) { SchemasScalar(inner, q); }
    var e := AllRanked(table, rank, Next(table, p), rank[p]);
    d := AnsweredOnce(table, inner, e);
  }

  lemma {:induction false} AllRanked(table: Table, rank: map<Json, nat>, schemas: set<Json>, r: nat) returns (d: nat)
    requires AllScalar(table) && forall q :: q in schemas ==> q in rank && rank[q] < r && EnumsScalar(q)
    requires forall q :: q in rank ==> q.Obj? && LeadsBelow(table, rank, q)
    ensures forall q :: q in schemas ==> VisitProperty(table, q, d).Some?
    decreases r, 0
  {
    hide VisitProperty, EnumsScalar, AllScalar, LeadsBelow;
    d := 0;
    var todo := schemas;
    while todo != {}
      invariant todo <= schemas && forall q :: q in schemas && q !in todo ==> VisitProperty(table, q, d).Some?
      decreases todo
    {
      var q :| q in todo;
      var own := RankAnswered(table, rank, q);
      var most := if d > own then d else own;
      forall x | x in schemas && x !in todo ensures VisitProperty(table, x, most).Some? { PropertyDepthIndependent(table, x, d, most); }
      PropertyDepthIndependent(table, q, own, most);
      todo, d := todo - {q}, most;
    }
  }

  /** The walk of a schema ends exactly when no property schema it meets leads back to itself. */
  lemma WalkEndsExactly(table: Table, j: Json)
    requires AllScalar(table) && EnumsScalar(j)
    ensures (exists d: nat :: Visit(table, j, d).Some?) <==> exists rank: map<Json, nat> :: Ranked(table, j, rank)
  {
    hide Visit, EnumsScalar, AllScalar, Ranked;
    if d: nat :| Visit(table, j, d).Some? {
      var rank := EndedWalkIsRanked(table, j, d);
      assert Ranked(table, j, rank);
    }
    if rank: map<Json, nat> :| Ranked(table, j, rank) {
      var d := RankedIsAnswered(table, j, rank);
      assert Visit(table, j, d).Some?;
    }
  }

  lemma RankedIsAnswered(table: Table, j: Json, rank: map<Json, nat>) returns (d: nat)
    requires AllScalar(table) && EnumsScalar(j) && Ranked(table, j, rank)
    ensures Visit(table, j, d).Some?
  {
    hide Visit, EnumsScalar, AllScalar, VisitProperty, LeadsBelow, PropertySchemas;
    forall q | q in PropertySchemas(j) ensures EnumsScalar(q) { SchemasScalar(j, q); }
    var r := RankBound(rank);
    var e := AllRanked(table, rank, PropertySchemas(j), r);
    d := AnsweredOnce(table, j, e);
  }

  lemma RankBound<T>(rank: map<T, nat>) returns (r: nat)
    ensures forall x :: x in rank ==> rank[x] < r
  {
    r := 0;
    var todo := rank.Keys;
    while todo != {}
      invariant todo <= rank.Keys && forall x :: x in rank && x !in todo ==> rank[x] < r
      decreases todo
    {
      var x :| x in todo;
      todo := todo - {x};
      if rank[x] >= r { r := rank[x] + 1; }
    }
  }

  // ------------------------------------------------------------ ranked documents

  /** May take the place of its reference. */
  predicate Inlinable(table: Table, x: string) { x in Aliases(table) || Numeric(table, x) }

  /** What a reference to such a component is replaced by. */
  ghost predicate StandsFor(table: Table, x: string, o: Fields) {
    (x in Aliases(table) && o == Aliases(table)[x].schema) || (Numeric(table, x) && table[x] == Obj(o))
  }

  /** A rank that falls along the references inside whatever a reference may be replaced by. */
  ghost predicate Falls(table: Table, rank: map<string, nat>) {
    forall x, o :: StandsFor(table, x, o) ==> x in rank && Below(table, rank, rank[x], Refs(Obj(o)))
  }

  ghost predicate Below(table: Table, rank: map<string, nat>, r: nat, refs: set<string>) {
    forall y :: y in refs && Inlinable(table, y) ==> y in rank && rank[y] < r
  }

  /** At that depth every property schema is answered in all that references below the rank stand for. */
  ghost predicate Answered(table: Table, rank: map<string, nat>, r: nat, d: nat) {
    forall x, o :: StandsFor(table, x, o) && x in rank && rank[x] < r ==> SchemasAnswered(table, Obj(o), d)
  }

  ghost predicate SchemasAnswered(table: Table, j: Json, d: nat) {
    forall p :: p in PropertySchemas(j) ==> VisitProperty(table, p, d).Some?
  }

  /** A keyword with references below the rank only, and with property schemas that are answered. */
  ghost predicate AnswerTest(table: Table, rank: map<string, nat>, r: nat, d: nat, k: string, arg: Json) {
    && (k == "$ref" && arg.Str? && ComponentNameFromRef(arg.s).Some? ==>
          Below(table, rank, r, {ComponentNameFromRef(arg.s).value}))
    && forall p :: p in MemberSchemas(k, arg) ==> VisitProperty(table, p, d).Some?
  }

  lemma {:induction false} AnsweredPasses(table: Table, rank: map<string, nat>, r: nat, d: nat, o: Fields)
    requires SchemasAnswered(table, Obj(o), d) && Below(table, rank, r, Refs(Obj(o)))
    ensures Passes((k, arg) => AnswerTest(table, rank, r, d, k, arg), o)
    decreases Obj(o)
  {
    hide VisitProperty, Below, Refs;
    var test := (k, arg) => AnswerTest(table, rank, r, d, k, arg);
    forall k | k in o ensures test(k, o[k]) {
      assert MemberSchemas(k, o[k]) <= PropertySchemas(Obj(o));
      if k == "$ref" && o[k].Str? && ComponentNameFromRef(o[k].s).Some? {
        MemberRefs(o, k);
        BelowFewer(table, rank, r, Refs(Obj(o)), {ComponentNameFromRef(o[k].s).value});
      }
    }
    if "anyOf" in o && o["anyOf"].Arr? {
      var branches := o["anyOf"].items;
      forall i | 0 <= i < |branches| && branches[i].Obj? ensures Passes(test, branches[i].fields) {
        assert PropertySchemas(branches[i]) <= MemberSchemas("anyOf", o["anyOf"]) <= PropertySchemas(Obj(o));
        MemberRefs(o, "anyOf");
        EntryRefs(branches, i);
        BelowFewer(table, rank, r, Refs(Obj(o)), Refs(branches[i]));
        assert branches[i] == Obj(branches[i].fields);
        AnsweredPasses(table, rank, r, d, branches[i].fields);
      }
    }
  }

  lemma BelowFewer(table: Table, rank: map<string, nat>, r: nat, refs: set<string>, fewer: set<string>)
    requires Below(table, rank, r, refs) && fewer <= refs
    ensures Below(table, rank, r, fewer)
  {}

  lemma SchemasOfList(list: seq<Fields>, f: Fields)
    requires f in list
    ensures PropertySchemas(Obj(f)) <= PropertySchemas(ToArr(list))
  {
    var i :| 0 <= i < |list| && list[i] == f;
    assert ToArr(list).items[i] == Obj(f);
  }

  lemma SchemasInList(list: seq<Fields>, p: Json) returns (f: Fields)
    requires p in PropertySchemas(ToArr(list))
    ensures f in list && p in PropertySchemas(Obj(f))
  {
    var i :| 0 <= i < |list| && p in PropertySchemas(ToArr(list).items[i]);
    f := list[i];
  }

  lemma AnswersAreStable(table: Table, rank: map<string, nat>, r: nat, d: nat)
    ensures Stable((k, arg) => AnswerTest(table, rank, r, d, k, arg))
  {
    hide VisitProperty, Below, ToArr, PropertySchemas;
    var test := (k, arg) => AnswerTest(table, rank, r, d, k, arg);
    assert test("type", Str("string")) by { NoSchemasInScalars(Str("string")); }
    forall branches, rest: seq<Fields> | FewerOf(branches, rest) && test("anyOf", ToArr(branches))
      ensures test("anyOf", ToArr(rest))
    {
      forall p | p in MemberSchemas("anyOf", ToArr(rest)) ensures VisitProperty(table, p, d).Some? {
        var f := SchemasInList(rest, p);
        SchemasOfList(branches, f);
      }
    }
    forall fragments: seq<Fields>, f | f in fragments && test("allOf", ToArr(fragments)) ensures PassesOutside(test, f) {
      SchemasOfList(fragments, f);
      forall k | k in f && k !in STRUCTURAL ensures test(k, f[k]) { SchemasOfMember(f, k); }
    }
  }

  lemma NoSchemasInScalars(j: Json)
    requires Scalar(j)
    ensures PropertySchemas(j) == {}
  {}

  lemma SchemasOfMember(o: Fields, k: string)
    requires k in o
    ensures MemberSchemas(k, o[k]) <= PropertySchemas(Obj(o))
  {
    hide MemberSchemas;
  }

  lemma ComponentsPass(table: Table, rank: map<string, nat>, r: nat, d: nat)
    requires Falls(table, rank) && Answered(table, rank, r, d)
    ensures NumbersPass(table, (k, arg) => AnswerTest(table, rank, r, d, k, arg))
    ensures AliasesPass(table, (k, arg) => AnswerTest(table, rank, r, d, k, arg))
  {
    hide Aliases, Passes, SchemasAnswered, Refs, PropertySchemas, Inlinable;
    var test := (k, arg) => AnswerTest(table, rank, r, d, k, arg);
    forall ref: string | test("$ref", Str(ref)) && ComponentNameFromRef(ref).Some? && Numeric(table, ComponentNameFromRef(ref).value)
      ensures Passes(test, table[ComponentNameFromRef(ref).value].fields)
    {
      var x := ComponentNameFromRef(ref).value;
      StandInPasses(table, rank, r, d, x, table[x].fields);
    }
    forall ref: string | test("$ref", Str(ref)) && ComponentNameFromRef(ref).Some? && ComponentNameFromRef(ref).value in Aliases(table)
      ensures Passes(test, Aliases(table)[ComponentNameFromRef(ref).value].schema)
    {
      var x := ComponentNameFromRef(ref).value;
      StandInPasses(table, rank, r, d, x, Aliases(table)[x].schema);
    }
  }

  lemma StandInPasses(table: Table, rank: map<string, nat>, r: nat, d: nat, x: string, o: Fields)
    requires Falls(table, rank) && Answered(table, rank, r, d) && StandsFor(table, x, o) && Below(table, rank, r, {x})
    ensures Passes((k, arg) => AnswerTest(table, rank, r, d, k, arg), o)
  {
    hide Aliases, Passes, SchemasAnswered, Refs;
    assert Inlinable(table, x) && rank[x] < r;
    AnsweredPasses(table, rank, r, d, o);
  }

  /** Whatever a property schema with references below the rank resolves to has answered property schemas. */
  lemma ResolvedAnswered(table: Table, rank: map<string, nat>, r: nat, d: nat, o: Fields)
    requires Falls(table, rank) && Answered(table, rank, r, d)
    requires SchemasAnswered(table, Obj(o), d) && Below(table, rank, r, Refs(Obj(o)))
    ensures SchemasAnswered(table, Obj(Resolve(table, o).schema), d)
  {
    hide Resolve, Stable, NumbersPass, AliasesPass, Passes, Below, Refs, VisitProperty, MemberSchemas, Falls, Answered;
    var test := (k, arg) => AnswerTest(table, rank, r, d, k, arg);
    AnswersAreStable(table, rank, r, d);
    ComponentsPass(table, rank, r, d);
    AnsweredPasses(table, rank, r, d, o);
    ResolvePasses(table, test, o);
    PassedAnswered(table, rank, r, d, Resolve(table, o).schema);
  }

  lemma PassedAnswered(table: Table, rank: map<string, nat>, r: nat, d: nat, o: Fields)
    requires Passes((k, arg) => AnswerTest(table, rank, r, d, k, arg), o)
    ensures SchemasAnswered(table, Obj(o), d)
  {
    hide VisitProperty, MemberSchemas, Below;
    var test := (k, arg) => AnswerTest(table, rank, r, d, k, arg);
    forall p | p in PropertySchemas(Obj(o)) ensures VisitProperty(table, p, d).Some? {
      var k :| k in o && p in MemberSchemas(k, o[k]);
      assert test(k, o[k]);
    }
  }

  lemma {:induction false} SchemasInside(j: Json, p: Json)
    requires p in PropertySchemas(j)
    ensures p.Obj? && p < j && Refs(p) <= Refs(j)
    decreases j
  {
    match j
    case Arr(items) =>
      var i :| 0 <= i < |items| && p in PropertySchemas(items[i]);
      SchemasInside(items[i], p);
      EntryRefs(items, i);
    case Obj(o) =>
      var k :| k in o && p in MemberSchemas(k, o[k]);
      MemberRefs(o, k);
      if k == "properties" {
        var x :| x in o[k].fields && o[k].fields[x] == p;
        MemberRefs(o[k].fields, x);
      } else {
        SchemasInside(o[k], p);
      }
    case _ =>
  }

  /** With the components below the rank answered, so is every property schema that refers to no others. */
  lemma {:induction false} AllAnswered(table: Table, rank: map<string, nat>, r: nat, base: nat, j: Json) returns (d: nat)
    requires Falls(table, rank) && AllScalar(table) && Answered(table, rank, r, base)
    requires EnumsScalar(j) && Below(table, rank, r, Refs(j))
    ensures SchemasAnswered(table, j, d)
    decreases j, 1
  {
    hide VisitProperty, EnumsScalar, AllScalar, Falls, Answered, Below, Refs, PropertySchemas;
    d := 0;
    var todo := PropertySchemas(j);
    while todo != {}
      invariant todo <= PropertySchemas(j)
      invariant forall p :: p in PropertySchemas(j) && p !in todo ==> VisitProperty(table, p, d).Some?
      decreases todo
    {
      var p :| p in todo;
      SchemasInside(j, p);
      SchemasScalar(j, p);
      BelowFewer(table, rank, r, Refs(j), Refs(p));
      var own := PropertyAnswered(table, rank, r, base, p);
      var most := if d > own then d else own;
      forall q | q in PropertySchemas(j) && q !in todo ensures VisitProperty(table, q, most).Some? {
        PropertyDepthIndependent(table, q, d, most);
      }
      PropertyDepthIndependent(table, p, own, most);
      todo, d := todo - {p}, most;
    }
  }

  lemma {:induction false} PropertyAnswered(table: Table, rank: map<string, nat>, r: nat, base: nat, p: Json) returns (d: nat)
    requires Falls(table, rank) && AllScalar(table) && Answered(table, rank, r, base)
    requires p.Obj? && EnumsScalar(p) && Below(table, rank, r, Refs(p))
    ensures VisitProperty(table, p, d).Some?
    decreases p, 2
  {
    hide Visit, EnumsScalar, AllScalar, Falls, Below, Refs, PropertySchemas, Resolve;
    assert p == Obj(p.fields);
    var own := AllAnswered(table, rank, r, base, p);
    var most := if base > own then base else own;
    AnsweredMore(table, p, own, most);
    forall x, o | StandsFor(table, x, o) && x in rank && rank[x] < r ensures SchemasAnswered(table, Obj(o), most) {
      AnsweredMore(table, Obj(o), base, most);
    }
    ResolvedAnswered(table, rank, r, most, p.fields);
    ResolvedStaysScalar(table, p.fields);
    d := AnsweredOnce(table, Obj(Resolve(table, p.fields).schema), most);
  }

  lemma AnsweredMore(table: Table, j: Json, d: nat, e: nat)
    requires SchemasAnswered(table, j, d) && d <= e
    ensures SchemasAnswered(table, j, e)
  {
    hide VisitProperty, PropertySchemas;
    forall p | p in PropertySchemas(j) ensures VisitProperty(table, p, e).Some? { PropertyDepthIndependent(table, p, d, e); }
  }

  /** Rank by rank, the components are answered. */
  lemma {:induction false} ComponentsAnswered(table: Table, rank: map<string, nat>, r: nat) returns (d: nat)
    requires Falls(table, rank) && AllScalar(table)
    ensures Answered(table, rank, r, d)
    decreases r
  {
    hide SchemasAnswered, Below, Refs, EnumsScalar, Collapse, Falls, AllScalar;
    d := 0;
    if r > 0 {
      var base := ComponentsAnswered(table, rank, r - 1);
      d := base;
      var level := set x | x in table && Inlinable(table, x) && x in rank && rank[x] < r;
      var todo := level;
      while todo != {}
        invariant todo <= level
        invariant forall x, o :: StandsFor(table, x, o) && x in level && x !in todo ==> SchemasAnswered(table, Obj(o), d)
        decreases todo
      {
        var x :| x in todo;
        var own := OneAnswered(table, rank, r - 1, base, x);
        var most := if d > own then d else own;
        forall y, o | StandsFor(table, y, o) && y in level && y !in todo - {x} ensures SchemasAnswered(table, Obj(o), most) {
          AnsweredMore(table, Obj(o), if y == x then own else d, most);
        }
        todo, d := todo - {x}, most;
      }
    }
  }

  lemma OneAnswered(table: Table, rank: map<string, nat>, r: nat, base: nat, x: string) returns (d: nat)
    requires Falls(table, rank) && AllScalar(table) && Answered(table, rank, r, base)
    requires Inlinable(table, x) && x in rank && rank[x] <= r
    ensures forall o :: StandsFor(table, x, o) ==> SchemasAnswered(table, Obj(o), d)
  {
    hide SchemasAnswered, Refs, EnumsScalar, Answered, Collapse;
    CollapsedStaysScalar(table);
    var a, b := 0, 0;
    if x in Aliases(table) {
      assert StandsFor(table, x, Aliases(table)[x].schema);
      a := AllAnswered(table, rank, r, base, Obj(Aliases(table)[x].schema));
    }
    if Numeric(table, x) {
      assert StandsFor(table, x, table[x].fields);
      b := AllAnswered(table, rank, r, base, table[x]);
    }
    d := if a > b then a else b;
    if x in Aliases(table) { AnsweredMore(table, Obj(Aliases(table)[x].schema), a, d); }
    if Numeric(table, x) { AnsweredMore(table, table[x], b, d); }
  }

  lemma BelowBound(table: Table, rank: map<string, nat>, r: nat, refs: set<string>)
    requires Falls(table, rank) && forall x :: x in rank ==> rank[x] < r
    ensures Below(table, rank, r, refs)
  {
    hide Refs, Aliases;
    forall y | Inlinable(table, y) ensures y in rank {
      if y in Aliases(table) {
        assert StandsFor(table, y, Aliases(table)[y].schema);
      } else {
        assert StandsFor(table, y, table[y].fields);
      }
    }
  }

  lemma RankedIsVisited(table: Table, rank: map<string, nat>, j: Json) returns (d: nat)
    requires Falls(table, rank) && AllScalar(table) && EnumsScalar(j)
    ensures Visit(table, j, d).Some?
  {
    hide Visit, VisitProperty, EnumsScalar, AllScalar, Falls, Answered, Below, PropertySchemas;
    var r := RankBound(rank);
    var base := ComponentsAnswered(table, rank, r);
    BelowBound(table, rank, r, Refs(j));
    var e := AllAnswered(table, rank, r, base, j);
    d := AnsweredOnce(table, j, e);
  }

  /** With such a rank the walk of a document and of all components ends. */
  lemma RankedWalkEnds(table: Table, rank: map<string, nat>, j: Json) returns (depth: nat)
    requires Falls(table, rank) && AllScalar(table) && EnumsScalar(j)
    ensures Visit(table, j, depth).Some? && forall x :: x in table ==> Visit(table, table[x], depth).Some?
  {
    hide Visit, Falls, EnumsScalar;
    depth := RankedIsVisited(table, rank, j);
    var todo := table.Keys;
    while todo != {}
      invariant todo <= table.Keys && Visit(table, j, depth).Some?
      invariant forall x :: x in table && x !in todo ==> Visit(table, table[x], depth).Some?
      decreases todo
    {
      var x :| x in todo;
      var own := RankedIsVisited(table, rank, table[x]);
      var most := if depth > own then depth else own;
      DepthIndependent(table, j, depth, most);
      DepthIndependent(table, table[x], own, most);
      forall y | y in table && y !in todo ensures Visit(table, table[y], most).Some? {
        DepthIndependent(table, table[y], depth, most);
      }
      todo, depth := todo - {x}, most;
    }
  }

  /** The collapsing pass on a ranked document: it ends, and where no reference dangles afterwards it
      refuses no plain value that was accepted. */
  lemma RankedDocumentAccepts(table: Table, rank: map<string, nat>, leaf: Leaf, j: Json) returns (depth: nat)
    requires Falls(table, rank) && AllScalar(table) && EnumsScalar(j)
    ensures Visit(table, j, depth).Some? && forall x :: x in table ==> Visit(table, table[x], depth).Some?
    ensures TableResolves(VisitedTable(table, depth)) && Resolves(VisitedTable(table, depth), Visit(table, j, depth).value) ==>
      forall v, n: nat | DeepPlain(v) && Accepts(table, leaf, j, v, n) ::
        Accepts(VisitedTable(table, depth), leaf, Visit(table, j, depth).value, v, n)
  {
    hide Visit, Accepts, Falls, EnumsScalar, Refs, TableResolves;
    depth := RankedWalkEnds(table, rank, j);
    var after := VisitedTable(table, depth);
    if TableResolves(after) && Resolves(after, Visit(table, j, depth).value) {
      forall v, n: nat | DeepPlain(v) && Accepts(table, leaf, j, v, n)
        ensures Accepts(after, leaf, Visit(table, j, depth).value, v, n)
      {
        VisitedDocumentAccepts(table, leaf, j, depth, v, n);
      }
    }
  }
}
