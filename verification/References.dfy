/** Component references inside a JSON document: collecting them, redirecting them, and the
    theorem that a consistent redirection does not change what any schema accepts
    (scripts/generate-ios-openapi.ts, the two `rewrite` walks). */
module References {
  import opened JsonSchema
  import opened Wrappers

  function OwnRef(o: Fields): set<string> { if RefName(o).Some? then {RefName(o).value} else {} }

  /** Every component named by a `$ref` anywhere inside `j`. */
  function Refs(j: Json): set<string>
    decreases j
  {
    match j
    case Arr(items) => set i, name | 0 <= i < |items| && name in Refs(items[i]) :: name
    case Obj(o) =>
      OwnRef(o) +
      (set k, name | k in o && name in Refs(o[k]) :: name)
    case _ => {}
  }

  type Redirects = map<string, string>

  function Redirect(to: Redirects, name: string): string { if name in to then to[name] else name }

  /** Every `$ref` redirected, the rest untouched. */
  function RewriteRefs(to: Redirects, j: Json): Json
    decreases j, 0
  {
    match j
    case Arr(items) => Arr(seq(|items|, i requires 0 <= i < |items| => RewriteRefs(to, items[i])))
    case Obj(o) => Obj(map k | k in o :: RewriteMember(to, o, k))
    case _ => j
  }

  function RewriteMember(to: Redirects, o: Fields, k: string): Json
    requires k in o
    decreases o[k], 1
  {
    if k == "$ref" && RefName(o).Some? then Str(REF_PREFIX + Redirect(to, RefName(o).value))
    else RewriteRefs(to, o[k])
  }

  function RewriteTable(to: Redirects, table: Table): Table {
    map name | name in table :: RewriteRefs(to, table[name])
  }

  /** Every component reference in the table and in `j` names a component. */
  ghost predicate Resolves(table: Table, j: Json) { Refs(j) <= table.Keys }

  ghost predicate TableResolves(table: Table) {
    forall name :: name in table ==> Resolves(table, table[name])
  }

  lemma PrefixRoundTrip(name: string)
    ensures ComponentNameFromRef(REF_PREFIX + name) == Some(name)
  {
    assert (REF_PREFIX + name)[|REF_PREFIX|..] == name;
  }

  function RedirectAll(to: Redirects, names: set<string>): set<string> {
    set name | name in names :: Redirect(to, name)
  }

  /** The references of a redirected document are the redirected references. */
  lemma {:induction false} RefsAfter(to: Redirects, j: Json)
    ensures Refs(RewriteRefs(to, j)) == RedirectAll(to, Refs(j))
    decreases j
  {
    match j
    case Arr(items) =>
      forall i | 0 <= i < |items| ensures Refs(RewriteRefs(to, items[i])) == RedirectAll(to, Refs(items[i])) {
        RefsAfter(to, items[i]);
      }
      RefsAfterArr(to, items);
    case Obj(o) =>
      forall k | k in o ensures Refs(RewriteRefs(to, o[k])) == RedirectAll(to, Refs(o[k])) {
        RefsAfter(to, o[k]);
      }
      RefsAfterObj(to, o);
    case _ =>
  }

  lemma RefsAfterArr(to: Redirects, items: seq<Json>)
    requires forall i :: 0 <= i < |items| ==> Refs(RewriteRefs(to, items[i])) == RedirectAll(to, Refs(items[i]))
    ensures Refs(RewriteRefs(to, Arr(items))) == RedirectAll(to, Refs(Arr(items)))
  {
    var after := RewriteRefs(to, Arr(items)).items;
    assert forall i :: 0 <= i < |items| ==> after[i] == RewriteRefs(to, items[i]);
    forall name | name in Refs(Arr(after)) ensures name in RedirectAll(to, Refs(Arr(items))) {
      var i :| 0 <= i < |after| && name in Refs(after[i]);
      var was :| was in Refs(items[i]) && Redirect(to, was) == name;
      assert was in Refs(Arr(items));
    }
    forall name | name in RedirectAll(to, Refs(Arr(items))) ensures name in Refs(Arr(after)) {
      var was :| was in Refs(Arr(items)) && Redirect(to, was) == name;
      var i :| 0 <= i < |items| && was in Refs(items[i]);
      assert name in Refs(after[i]);
    }
  }

  lemma RefsAfterObj(to: Redirects, o: Fields)
    requires forall k :: k in o ==> Refs(RewriteRefs(to, o[k])) == RedirectAll(to, Refs(o[k]))
    ensures Refs(RewriteRefs(to, Obj(o))) == RedirectAll(to, Refs(Obj(o)))
  {
    var after := RewriteRefs(to, Obj(o)).fields;
    RefNameAfter(to, o);
    forall k | k in o ensures Refs(after[k]) == RedirectAll(to, Refs(o[k])) {
      assert after[k] == RewriteMember(to, o, k);
    }
    forall name | name in Refs(Obj(after)) && name !in OwnRef(after) ensures name in RedirectAll(to, Refs(Obj(o))) {
      var k :| k in after && name in Refs(after[k]);
      var was :| was in Refs(o[k]) && Redirect(to, was) == name;
      assert was in Refs(Obj(o));
    }
    forall name | name in RedirectAll(to, Refs(Obj(o))) ensures name in Refs(Obj(after)) {
      var was :| was in Refs(Obj(o)) && Redirect(to, was) == name;
      if RefName(o) != Some(was) {
        var k :| k in o && was in Refs(o[k]);
        assert name in Refs(after[k]);
      }
    }
  }

  lemma RefNameAfter(to: Redirects, o: Fields)
    ensures
      var after := RewriteRefs(to, Obj(o)).fields;
      RefName(after) == if RefName(o).None? then None else Some(Redirect(to, RefName(o).value))
  {
    var after := RewriteRefs(to, Obj(o)).fields;
    if RefName(o).Some? {
      PrefixRoundTrip(Redirect(to, RefName(o).value));
      assert after["$ref"] == RewriteMember(to, o, "$ref");
    } else if "$ref" in o {
      assert after["$ref"] == RewriteRefs(to, o["$ref"]);
    }
  }

  /** A document is left as it is when it names nothing that is redirected. */
  lemma {:induction false} RewriteKept(to: Redirects, j: Json)
    requires Refs(j) !! to.Keys
    ensures RewriteRefs(to, j) == j
    decreases j
  {
    match j
    case Arr(items) =>
      forall i | 0 <= i < |items| ensures RewriteRefs(to, items[i]) == items[i] {
        EntryRefs(items, i);
        RewriteKept(to, items[i]);
      }
    case Obj(o) =>
      forall k | k in o ensures RewriteMember(to, o, k) == o[k] {
        MemberRefs(o, k);
        RewriteKept(to, o[k]);
        if k == "$ref" && RefName(o).Some? {
          assert RefName(o).value in OwnRef(o);
          assert o[k].s == REF_PREFIX + o[k].s[|REF_PREFIX|..];
        }
      }
      assert RewriteRefs(to, j).fields == o;
    case _ =>
  }

  /** Listing a value that no redirection reads or writes is not affected by one. */
  lemma EnumEntry(to: Redirects, items: seq<Json>, v: Json)
    requires Refs(v) !! to.Keys + to.Values
    ensures v in items <==> v in RewriteRefs(to, Arr(items)).items
  {
    var after := RewriteRefs(to, Arr(items)).items;
    if v in items {
      var i :| 0 <= i < |items| && items[i] == v;
      RewriteKept(to, v);
      assert after[i] == v;
    }
    if v in after {
      var i :| 0 <= i < |after| && after[i] == v;
      RefsAfter(to, items[i]);
      forall name | name in Refs(items[i]) ensures name !in to {
        assert Redirect(to, name) in RedirectAll(to, Refs(items[i]));
      }
      RewriteKept(to, items[i]);
    }
  }

  /** When no target is a source, an `enum` lists the same values before and after if and only if it
      names nothing that is redirected. */
  lemma EnumKeptExactly(to: Redirects, items: seq<Json>)
    requires forall x :: x in to ==> to[x] !in to
    ensures (forall v :: v in items <==> v in RewriteRefs(to, Arr(items)).items) <==> Refs(Arr(items)) !! to.Keys
  {
    var after := RewriteRefs(to, Arr(items)).items;
    if Refs(Arr(items)) !! to.Keys {
      RewriteKept(to, Arr(items));
    } else {
      var name :| name in Refs(Arr(items)) && name in to;
      var i :| 0 <= i < |items| && name in Refs(items[i]);
      assert items[i] in items;
      RedirectedNotListed(to, items, items[i]);
    }
  }

  /** After a redirection nothing listed names a source any more. */
  lemma RedirectedNotListed(to: Redirects, items: seq<Json>, v: Json)
    requires (forall x :: x in to ==> to[x] !in to) && !(Refs(v) !! to.Keys)
    ensures v !in RewriteRefs(to, Arr(items)).items
  {
    forall i | 0 <= i < |items| ensures RewriteRefs(to, items[i]) != v { RewrittenAvoids(to, items[i]); }
  }

  lemma RewrittenAvoids(to: Redirects, j: Json)
    requires forall x :: x in to ==> to[x] !in to
    ensures Refs(RewriteRefs(to, j)) !! to.Keys
  {
    RefsAfter(to, j);
  }

  lemma MemberRefs(o: Fields, k: string)
    requires k in o
    ensures Refs(o[k]) <= Refs(Obj(o)) && OwnRef(o) <= Refs(Obj(o))
  {}

  lemma EntryRefs(items: seq<Json>, i: nat)
    requires i < |items|
    ensures Refs(items[i]) <= Refs(Arr(items))
  {}

  // ------------------------------------------------------------ meaning is preserved

  /** No `enum` lists a reference that is redirected. */
  predicate EnumsKept(to: Redirects, j: Json)
    decreases j
  {
    match j
    case Arr(items) => forall i :: 0 <= i < |items| ==> EnumsKept(to, items[i])
    case Obj(o) =>
      && ("enum" in o && o["enum"].Arr? ==> Refs(o["enum"]) !! to.Keys)
      && forall k :: k in o ==> EnumsKept(to, o[k])
    case _ => true
  }

  /** Redirecting references reaches every part of a document, also the values an `enum` lists. That
      makes no difference where none of them is redirected, nor to a value that names neither
      sources nor targets. */
  ghost predicate Indifferent(to: Redirects, table: Table, schema: Json, v: Json) {
    || Refs(v) !! to.Keys + to.Values
    || (EnumsKept(to, schema) && forall name :: name in table ==> EnumsKept(to, table[name]))
  }

  /** Without that, a redirection changes what is accepted: the value an `enum` lists is itself
      redirected, and the one that was accepted is refused. */
  lemma EnumeratedReference(before: Table, after: Table, leaf: Leaf, x: string, y: string, n: nat)
    requires x != y
    ensures
      var schema := Obj(map["enum" := Arr([RefTo(x)])]);
      && Accepts(before, leaf, schema, RefTo(x), 1)
      && !Accepts(after, leaf, RewriteRefs(map[x := y], schema), RefTo(x), n)
  {
    var to: Redirects := map[x := y];
    var listed := Arr([RefTo(x)]);
    var o: Fields := map["enum" := listed];
    RewriteRefTo(to, x);
    assert RewriteRefs(to, listed).items == [RefTo(y)];
    var o' := RewriteRefs(to, Obj(o)).fields;
    assert "enum" in o && "enum" in o' && o'["enum"] == RewriteMember(to, o, "enum") == RewriteRefs(to, listed);
    assert o["enum"].items[0] == RefTo(x);
    assert RefTo(x) != RefTo(y) by { RefToName(x); RefToName(y); }
    if n > 0 { assert !Keyword(after, leaf, "enum", o'["enum"], RefTo(x), n - 1); }
  }

  /** Two copies of one component, but for its documentation. */
  predicate SameStructure(a: Json, b: Json) {
    a.Obj? && b.Obj? && a.fields - ANNOTATIONS == b.fields - ANNOTATIONS
  }

  lemma SameStructureAccepts(table: Table, leaf: Leaf, a: Json, b: Json, v: Json, n: nat)
    requires SameStructure(a, b)
    ensures Accepts(table, leaf, a, v, n) == Accepts(table, leaf, b, v, n)
  {
    if n > 0 {
      SameStructureOneWay(table, leaf, a, b, v, n);
      SameStructureOneWay(table, leaf, b, a, v, n);
    }
  }

  lemma SameStructureOneWay(table: Table, leaf: Leaf, a: Json, b: Json, v: Json, n: nat)
    requires SameStructure(a, b) && n > 0
    ensures Accepts(table, leaf, a, v, n) ==> Accepts(table, leaf, b, v, n)
  {
    if Accepts(table, leaf, a, v, n) {
      forall k | k in b.fields ensures Keyword(table, leaf, k, b.fields[k], v, n - 1) {
        if k !in ANNOTATIONS {
          assert k in b.fields - ANNOTATIONS;
          assert k in a.fields - ANNOTATIONS && a.fields[k] == (a.fields - ANNOTATIONS)[k] == b.fields[k];
        }
      }
    }
  }

  /** Documentation holds no references: titles and descriptions never do, examples might. */
  ghost predicate PlainAnnotations(table: Table) {
    forall x, k :: x in table && table[x].Obj? && k in table[x].fields && k in ANNOTATIONS ==> Refs(table[x].fields[k]) == {}
  }

  lemma SameStructureRefs(table: Table, x: string, y: string)
    requires PlainAnnotations(table) && x in table && y in table && SameStructure(table[x], table[y])
    ensures Refs(table[x]) == Refs(table[y])
  {
    FieldRefs(table, x, y);
    FieldRefs(table, y, x);
  }

  lemma FieldRefs(table: Table, x: string, y: string)
    requires PlainAnnotations(table) && x in table && y in table && SameStructure(table[x], table[y])
    ensures Refs(table[x]) <= Refs(table[y])
  {
    var a, b := table[x].fields, table[y].fields;
    forall k | k in a && k !in ANNOTATIONS ensures k in b && b[k] == a[k] {
      assert k in a - ANNOTATIONS;
      assert k in b - ANNOTATIONS && (b - ANNOTATIONS)[k] == (a - ANNOTATIONS)[k];
    }
    forall name | name in Refs(table[x]) ensures name in Refs(table[y]) {
      if name in OwnRef(a) {
        assert "$ref" in a && OwnRef(b) == OwnRef(a);
      } else {
        var k :| k in a && name in Refs(a[k]);
        assert k !in ANNOTATIONS;
      }
    }
  }

  /** `after` holds, under `name`'s redirected name, a redirected copy of what `name` stood for. */
  ghost predicate RedirectedName(before: Table, after: Table, to: Redirects, name: string)
    requires name in before
  {
    && Redirect(to, name) in after
    && exists copy :: CopyOf(before, name, copy) && after[Redirect(to, name)] == RewriteRefs(to, before[copy])
  }

  predicate CopyOf(table: Table, name: string, copy: string)
    requires name in table
  {
    copy in table && (copy == name || SameStructure(table[copy], table[name]))
  }

  ghost predicate Redirected(before: Table, after: Table, to: Redirects) {
    forall name :: name in before ==> RedirectedName(before, after, to, name)
  }

  /** Redirecting every reference consistently keeps exactly the values each schema accepts. */
  lemma {:induction false} RedirectPreserves(before: Table, after: Table, to: Redirects, leaf: Leaf, schema: Json, v: Json, n: nat)
    requires Redirected(before, after, to) && TableResolves(before) && Resolves(before, schema)
    requires Indifferent(to, before, schema, v)
    ensures Accepts(after, leaf, RewriteRefs(to, schema), v, n) == Accepts(before, leaf, schema, v, n)
    decreases n, 1
  {
    hide Refs, Redirected, TableResolves, Indifferent;
    if n > 0 && schema.Obj? {
      var o, o' := schema.fields, RewriteRefs(to, schema).fields;
      forall k | k in o
        ensures Keyword(after, leaf, k, o'[k], v, n - 1) == Keyword(before, leaf, k, o[k], v, n - 1)
      {
        MemberRefs(o, k);
        MemberApart(to, before, schema, k, v);
        assert o'[k] == RewriteMember(to, o, k);
        if k == "$ref" && RefName(o).Some? {
          var name := RefName(o).value;
          assert name in OwnRef(o);
          ComponentApart(to, before, schema, name, v);
          RefKeywordPreserves(before, after, to, leaf, name, v, n - 1);
          RefMember(before, after, to, leaf, o, v, n - 1);
        } else {
          KeywordPreserves(before, after, to, leaf, k, o[k], v, n - 1);
        }
      }
    }
  }

  lemma RefMember(before: Table, after: Table, to: Redirects, leaf: Leaf, o: Fields, v: Json, n: nat)
    requires "$ref" in o && RefName(o).Some? && RefName(o).value in before && Redirect(to, RefName(o).value) in after
    requires Accepts(after, leaf, after[Redirect(to, RefName(o).value)], v, n) == Accepts(before, leaf, before[RefName(o).value], v, n)
    ensures Keyword(after, leaf, "$ref", RewriteMember(to, o, "$ref"), v, n) == Keyword(before, leaf, "$ref", o["$ref"], v, n)
  {
    hide Accepts;
    PrefixRoundTrip(Redirect(to, RefName(o).value));
  }

  lemma NameRedirected(before: Table, after: Table, to: Redirects, name: string)
    requires Redirected(before, after, to) && TableResolves(before) && name in before
    ensures RedirectedName(before, after, to, name)
    ensures forall copy :: copy in before ==> Resolves(before, before[copy])
  {
    hide Resolves, RedirectedName;
  }

  ghost predicate EnumApart(to: Redirects, listed: Json, v: Json) {
    Refs(v) !! to.Keys + to.Values || Refs(listed) !! to.Keys
  }

  lemma MemberApart(to: Redirects, table: Table, schema: Json, k: string, v: Json)
    requires Indifferent(to, table, schema, v) && schema.Obj? && k in schema.fields
    ensures Indifferent(to, table, schema.fields[k], v)
    ensures k == "enum" && schema.fields[k].Arr? ==> EnumApart(to, schema.fields[k], v)
  {}

  lemma EntryApart(to: Redirects, table: Table, items: seq<Json>, i: nat, v: Json)
    requires Indifferent(to, table, Arr(items), v) && i < |items|
    ensures Indifferent(to, table, items[i], v)
  {}

  lemma ComponentApart(to: Redirects, table: Table, schema: Json, name: string, v: Json)
    requires Indifferent(to, table, schema, v) && name in table
    ensures Indifferent(to, table, table[name], v)
  {}

  /** Parts of a value are apart from a schema the whole is apart from. */
  lemma PartApart(to: Redirects, table: Table, schema: Json, v: Json, part: Json)
    requires Indifferent(to, table, schema, v) && Refs(part) <= Refs(v)
    ensures Indifferent(to, table, schema, part)
  {}

  lemma {:induction false} RefKeywordPreserves(before: Table, after: Table, to: Redirects, leaf: Leaf, name: string, v: Json, n: nat)
    requires Redirected(before, after, to) && TableResolves(before) && name in before
    requires Indifferent(to, before, before[name], v)
    ensures Redirect(to, name) in after
    ensures Accepts(after, leaf, after[Redirect(to, name)], v, n) == Accepts(before, leaf, before[name], v, n)
    decreases n, 2
  {
    hide Refs, Redirected, TableResolves, Accepts, RewriteRefs, Indifferent, SameStructure;
    NameRedirected(before, after, to, name);
    var copy :| CopyOf(before, name, copy) && after[Redirect(to, name)] == RewriteRefs(to, before[copy]);
    ComponentApart(to, before, before[name], copy, v);
    RedirectPreserves(before, after, to, leaf, before[copy], v, n);
    if copy != name { SameStructureAccepts(before, leaf, before[copy], before[name], v, n); }
  }

  lemma {:induction false} KeywordPreserves(before: Table, after: Table, to: Redirects, leaf: Leaf, k: string, arg: Json, v: Json, n: nat)
    requires Redirected(before, after, to) && TableResolves(before) && Resolves(before, arg)
    requires Indifferent(to, before, arg, v)
    requires k == "enum" && arg.Arr? ==> EnumApart(to, arg, v)
    requires !(k == "$ref" && arg.Str? && ComponentNameFromRef(arg.s).Some?)
    ensures Keyword(after, leaf, k, RewriteRefs(to, arg), v, n) == Keyword(before, leaf, k, arg, v, n)
    decreases n, 3
  {
    hide Refs, Redirected, TableResolves, Accepts, Keyword, RewriteRefs, Indifferent;
    RewriteKeepsShape(to, arg);
    if k in {"enum", "type", "required"} && arg.Arr? {
      ListKeywordPreserves(before, after, to, leaf, k, arg.items, v, n);
    } else if (k == "anyOf" || k == "allOf") && arg.Arr? {
      BranchesPreserve(before, after, to, leaf, k, arg.items, v, n);
    } else if k == "properties" && arg.Obj? && v.Obj? {
      PropertiesPreserve(before, after, to, leaf, arg.fields, v.fields, n);
      PropertiesTransfer(before, after, leaf, arg, RewriteRefs(to, arg), v, n);
    } else if k == "items" && v.Arr? {
      ItemsPreserve(before, after, to, leaf, arg, v.items, n);
      ItemsTransfer(before, after, leaf, arg, RewriteRefs(to, arg), v, n);
    } else {
      OtherKeywordPreserves(before, after, to, leaf, k, arg, v, n);
    }
  }

  lemma RewriteKeepsShape(to: Redirects, arg: Json)
    ensures arg.Obj? <==> RewriteRefs(to, arg).Obj?
    ensures arg.Arr? <==> RewriteRefs(to, arg).Arr?
  {}

  lemma PropertiesTransfer(a: Table, b: Table, leaf: Leaf, arg: Json, arg': Json, v: Json, n: nat)
    requires arg.Obj? && arg'.Obj? && v.Obj? && arg.fields.Keys == arg'.fields.Keys
    requires forall p :: p in arg.fields && p in v.fields ==>
      Accepts(b, leaf, arg'.fields[p], v.fields[p], n) == Accepts(a, leaf, arg.fields[p], v.fields[p], n)
    ensures Keyword(b, leaf, "properties", arg', v, n) == Keyword(a, leaf, "properties", arg, v, n)
  {
    hide Accepts;
  }

  lemma ItemsTransfer(a: Table, b: Table, leaf: Leaf, arg: Json, arg': Json, v: Json, n: nat)
    requires v.Arr? && forall e :: e in v.items ==> Accepts(b, leaf, arg', e, n) == Accepts(a, leaf, arg, e, n)
    ensures Keyword(b, leaf, "items", arg', v, n) == Keyword(a, leaf, "items", arg, v, n)
  {
    hide Accepts;
  }

  /** Keywords that look at no nested schema, or whose argument or value has the wrong shape. */
  lemma OtherKeywordPreserves(before: Table, after: Table, to: Redirects, leaf: Leaf, k: string, arg: Json, v: Json, n: nat)
    requires !(k in {"enum", "type", "required", "anyOf", "allOf"} && arg.Arr?)
    requires !(k == "properties" && arg.Obj? && v.Obj?) && !(k == "items" && v.Arr?)
    requires !(k == "$ref" && arg.Str? && ComponentNameFromRef(arg.s).Some?)
    ensures Keyword(after, leaf, k, RewriteRefs(to, arg), v, n) == Keyword(before, leaf, k, arg, v, n)
  {
    hide Accepts;
    RewriteKeepsShape(to, arg);
    assert Scalar(arg) ==> RewriteRefs(to, arg) == arg;
  }

  lemma ListKeywordPreserves(before: Table, after: Table, to: Redirects, leaf: Leaf, k: string, items: seq<Json>, v: Json, n: nat)
    requires k in {"enum", "type", "required"} && (k == "enum" ==> EnumApart(to, Arr(items), v))
    ensures Keyword(after, leaf, k, RewriteRefs(to, Arr(items)), v, n) == Keyword(before, leaf, k, Arr(items), v, n)
  {
    hide Refs;
    if k != "enum" {
      StringsStay(to, items);
    } else if Refs(Arr(items)) !! to.Keys {
      RewriteKept(to, Arr(items));
    } else {
      EnumEntry(to, items, v);
    }
  }

  lemma {:induction false} BranchesPreserve(before: Table, after: Table, to: Redirects, leaf: Leaf, k: string, items: seq<Json>, v: Json, n: nat)
    requires Redirected(before, after, to) && TableResolves(before) && Resolves(before, Arr(items))
    requires (k == "anyOf" || k == "allOf") && Indifferent(to, before, Arr(items), v)
    ensures Keyword(after, leaf, k, RewriteRefs(to, Arr(items)), v, n) == Keyword(before, leaf, k, Arr(items), v, n)
    decreases n, 2
  {
    hide Refs, Redirected, TableResolves, Accepts, Keyword, Indifferent;
    var items' := RewriteRefs(to, Arr(items)).items;
    forall i | 0 <= i < |items|
      ensures Accepts(after, leaf, items'[i], v, n) == Accepts(before, leaf, items[i], v, n)
    {
      EntryRefs(items, i);
      EntryApart(to, before, items, i, v);
      RedirectPreserves(before, after, to, leaf, items[i], v, n);
    }
    BranchesTransfer(before, after, leaf, k, items, items', v, n);
    BranchesTransfer(after, before, leaf, k, items', items, v, n);
  }

  /** Branches that accept what their counterparts accept make a union, or intersection, that does. */
  lemma BranchesTransfer(a: Table, b: Table, leaf: Leaf, k: string, s: seq<Json>, t: seq<Json>, v: Json, n: nat)
    requires (k == "anyOf" || k == "allOf") && |s| == |t|
    requires forall i :: 0 <= i < |s| && Accepts(a, leaf, s[i], v, n) ==> Accepts(b, leaf, t[i], v, n)
    ensures Keyword(a, leaf, k, Arr(s), v, n) ==> Keyword(b, leaf, k, Arr(t), v, n)
  {
    hide Accepts;
    if Keyword(a, leaf, k, Arr(s), v, n) {
      if k == "anyOf" {
        var x :| x in s && Accepts(a, leaf, x, v, n);
        var i :| 0 <= i < |s| && s[i] == x;
        assert t[i] in t;
      } else {
        forall y | y in t ensures Accepts(b, leaf, y, v, n) {
          var i :| 0 <= i < |t| && t[i] == y;
          assert s[i] in s;
        }
      }
    }
  }

  lemma {:induction false} PropertiesPreserve(before: Table, after: Table, to: Redirects, leaf: Leaf, properties: Fields, members: Fields, n: nat)
    requires Redirected(before, after, to) && TableResolves(before) && Resolves(before, Obj(properties))
    requires Indifferent(to, before, Obj(properties), Obj(members))
    ensures
      var properties' := RewriteRefs(to, Obj(properties)).fields;
      && properties'.Keys == properties.Keys
      && forall p :: p in properties && p in members ==>
           Accepts(after, leaf, properties'[p], members[p], n) == Accepts(before, leaf, properties[p], members[p], n)
    decreases n, 2
  {
    hide Refs, Redirected, TableResolves, Indifferent;
    var properties' := RewriteRefs(to, Obj(properties)).fields;
    forall p | p in properties && p in members
      ensures Accepts(after, leaf, properties'[p], members[p], n) == Accepts(before, leaf, properties[p], members[p], n)
    {
      MemberRefs(properties, p);
      MemberRefs(members, p);
      assert properties'[p] == RewriteMember(to, properties, p);
      if p != "$ref" || RefName(properties).None? {
        PartApart(to, before, Obj(properties), Obj(members), members[p]);
        MemberApart(to, before, Obj(properties), p, members[p]);
        RedirectPreserves(before, after, to, leaf, properties[p], members[p], n);
      }
    }
  }

  lemma {:induction false} ItemsPreserve(before: Table, after: Table, to: Redirects, leaf: Leaf, arg: Json, entries: seq<Json>, n: nat)
    requires Redirected(before, after, to) && TableResolves(before) && Resolves(before, arg)
    requires Indifferent(to, before, arg, Arr(entries))
    ensures forall e :: e in entries ==> Accepts(after, leaf, RewriteRefs(to, arg), e, n) == Accepts(before, leaf, arg, e, n)
    decreases n, 2
  {
    hide Refs, Redirected, TableResolves, Accepts, Indifferent;
    forall e | e in entries
      ensures Accepts(after, leaf, RewriteRefs(to, arg), e, n) == Accepts(before, leaf, arg, e, n)
    {
      var i :| 0 <= i < |entries| && entries[i] == e;
      EntryRefs(entries, i);
      PartApart(to, before, arg, Arr(entries), e);
      RedirectPreserves(before, after, to, leaf, arg, e, n);
    }
  }

  lemma StringsStay(to: Redirects, items: seq<Json>)
    ensures forall t: Json :: t.Str? ==> (t in items <==> t in RewriteRefs(to, Arr(items)).items)
  {
    var after := RewriteRefs(to, Arr(items)).items;
    forall t: Json | t.Str? ensures t in items <==> t in after {
      EnumEntry(to, items, t);
    }
  }

  /** A bare reference to a component. */
  function RefTo(name: string): Json { Obj(map["$ref" := Str(REF_PREFIX + name)]) }

  lemma RefToName(name: string)
    ensures RefName(RefTo(name).fields) == Some(name) && Refs(RefTo(name)) == {name}
  {
    PrefixRoundTrip(name);
    var o := RefTo(name).fields;
    assert Refs(o["$ref"]) == {};
    assert forall k :: k in o ==> k == "$ref";
  }

  lemma RewriteRefTo(to: Redirects, name: string)
    ensures RewriteRefs(to, RefTo(name)) == RefTo(Redirect(to, name))
  {
    RefToName(name);
    var o := RefTo(name).fields;
    assert RewriteRefs(to, RefTo(name)).fields == map["$ref" := RewriteMember(to, o, "$ref")];
  }

  /** After a consistent redirection every reference resolves again. */
  lemma RedirectedResolves(before: Table, after: Table, to: Redirects, schema: Json)
    requires Redirected(before, after, to) && Resolves(before, schema)
    ensures Resolves(after, RewriteRefs(to, schema))
  {
    RefsAfter(to, schema);
    forall name | name in Refs(schema) ensures Redirect(to, name) in after {
      assert RedirectedName(before, after, to, name);
    }
  }
}
