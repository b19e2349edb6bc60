/** The component table of the document: merging numbered copies, dropping the `Encoded` suffix,
    and sweeping what the paths cannot reach (scripts/generate-ios-openapi.ts). */
module Components {
  import opened Grouping
  import opened JsonSchema
  import opened Order
  import opened References
  import opened Text
  import opened Wrappers

  // ------------------------------------------------------------ names

  datatype Numbered = Numbered(base: string, index: nat)

  function ToNat(digits: string): nat
    requires forall c :: c in digits ==> Digit(c)
  {
    if digits == [] then 0
    else
      assert Digit(digits[|digits| - 1]);
      10 * ToNat(digits[..|digits| - 1]) + (digits[|digits| - 1] as int - '0' as int)
  }

  function LastUnderscore(name: string): (i: int)
    ensures -1 <= i < |name|
  {
    if name == [] then -1
    else if name[|name| - 1] == '_' then |name| - 1
    else LastUnderscore(name[..|name| - 1])
  }

  /** `<base>_<digits>`, as the pattern that finds numbered copies reads a name. */
  function NumberedName(name: string): (r: Option<Numbered>)
    ensures r.Some? ==> |r.value.base| < |name|
  {
    var i := LastUnderscore(name);
    if i < 1 || i + 1 == |name| || exists c :: c in name[i + 1..] && !Digit(c) then None
    else Some(Numbered(name[..i], ToNat(name[i + 1..])))
  }

  /** A name is numbered exactly when it is a non-empty base, an underscore and a numeral; the
      last underscore parts them, and the numeral's value is the copy number. */
  lemma NumberedNames(name: string, base: string, index: nat)
    ensures NumberedName(name) == Some(Numbered(base, index)) <==> exists digits :: IsCopyName(name, base, digits, index)
  {
    if NumberedName(name) == Some(Numbered(base, index)) {
      var i := LastUnderscore(name);
      LastUnderscoreIsLast(name);
      assert name == name[..i] + "_" + name[i + 1..];
      assert IsCopyName(name, base, name[i + 1..], index);
    }
    if exists digits :: IsCopyName(name, base, digits, index) {
      var digits :| IsCopyName(name, base, digits, index);
      LastUnderscoreIsLast(name);
      assert name[|base|] == '_';
      forall k | |base| < k < |name| ensures name[k] != '_' {
        assert name[k] == digits[k - |base| - 1] && digits[k - |base| - 1] in digits;
      }
      assert LastUnderscore(name) == |base|;
      assert name[|base| + 1..] == digits && name[..|base|] == base;
    }
  }

  predicate IsCopyName(name: string, base: string, digits: string, index: nat) {
    base != "" && IsNumeral(digits) && name == base + "_" + digits && ToNat(digits) == index
  }

  lemma {:induction false} LastUnderscoreIsLast(name: string)
    ensures LastUnderscore(name) >= 0 ==> name[LastUnderscore(name)] == '_'
    ensures forall k :: LastUnderscore(name) < k < |name| ==> name[k] != '_'
  {
    if name != [] && name[|name| - 1] != '_' {
      var front := name[..|name| - 1];
      LastUnderscoreIsLast(front);
      assert forall k :: 0 <= k < |front| ==> front[k] == name[k];
    }
  }

  predicate IsNumbered(name: string) { NumberedName(name).Some? }

  function Base(name: string): string { if IsNumbered(name) then NumberedName(name).value.base else name }

  function Index(name: string): nat { if IsNumbered(name) then NumberedName(name).value.index else 0 }

  predicate ByIndex(a: string, b: string) { Index(a) <= Index(b) }

  const ENCODED := "Encoded"

  function EncodedBase(name: string): Option<string> {
    var cut := |name| - |ENCODED|;
    if cut > 0 && name[cut..] == ENCODED then Some(name[..cut]) else None
  }

  // ------------------------------------------------------------ renaming keys

  ghost predicate Injective(to: Redirects) {
    forall x, y :: x in to && y in to && to[x] == to[y] ==> x == y
  }

  ghost function Source(to: Redirects, y: string): (x: string)
    requires y in to.Values
    ensures x in to && to[x] == y
  {
    var x :| x in to && to[x] == y;
    x
  }

  /** All renames at once. */
  ghost function RenameKeys(table: Table, to: Redirects): Table
    requires to.Keys <= table.Keys
  {
    (table - to.Keys) + map y | y in to.Values :: table[Source(to, y)]
  }

  /** `r` is `table` with the keys of `to` renamed. */
  ghost predicate Renamed(table: Table, to: Redirects, r: Table)
    requires to.Keys <= table.Keys
  {
    && r.Keys == (table.Keys - to.Keys) + to.Values
    && (forall x :: x in to ==> to[x] in to.Values && r[to[x]] == table[x])
    && (forall y :: y in table && y !in to && y !in to.Values ==> r[y] == table[y])
  }

  /** One rename after the other amounts to all at once when targets are distinct and no sources. */
  method RenameInTurn(table: Table, to: Redirects) returns (r: Table)
    requires to.Keys <= table.Keys && Injective(to) && to.Keys !! to.Values
    ensures r == RenameKeys(table, to)
  {
    hide RenameKeys, Renamed;
    r := table;
    var todo := to.Keys;
    ghost var part: Redirects := map[];
    RenamedNothing(table);
    while todo != {}
      invariant todo <= to.Keys && part.Keys == to.Keys - todo
      invariant forall x :: x in part ==> part[x] == to[x]
      invariant Renamed(table, part, r)
      decreases todo
    {
      var from :| from in todo;
      assert to[from] in to.Values && forall x :: x in part ==> part[x] in to.Values;
      RenamedOneMore(table, part, r, from, to[from]);
      todo := todo - {from};
      r := r[to[from] := r[from]] - {from};
      part := part[from := to[from]];
    }
    assert part == to;
    RenamedIsRenameKeys(table, to, r);
  }

  lemma RenamedNothing(table: Table)
    ensures Renamed(table, map[], table)
  {}

  lemma NewRename(part: Redirects, from: string, target: string)
    requires from !in part && Injective(part[from := target])
    ensures part[from := target].Values == part.Values + {target} && target !in part.Values
  {
    var more := part[from := target];
    assert more[from] == target;
    forall x | x in part ensures part[x] in more.Values && part[x] != target {
      assert more[x] == part[x];
    }
  }

  lemma RenamedOneMore(table: Table, part: Redirects, r: Table, from: string, target: string)
    requires part.Keys <= table.Keys && Renamed(table, part, r) && Injective(part[from := target])
    requires from in table && from !in part && from !in part.Values && target !in part.Keys && target != from
    ensures from in r && Renamed(table, part[from := target], r[target := r[from]] - {from})
  {
    hide Injective;
    NewRename(part, from, target);
    var more, r' := part[from := target], r[target := r[from]] - {from};
    assert r'.Keys == (table.Keys - more.Keys) + more.Values;
    forall x | x in more ensures more[x] in more.Values && r'[more[x]] == table[x] {
      if x != from { assert part[x] in part.Values; }
    }
  }

  lemma RenamedIsRenameKeys(table: Table, to: Redirects, r: Table)
    requires to.Keys <= table.Keys && Renamed(table, to, r)
    ensures r == RenameKeys(table, to)
  {
    forall y | y in r ensures r[y] == RenameKeys(table, to)[y] {
      if y in to.Values { assert r[to[Source(to, y)]] == table[Source(to, y)]; }
    }
  }

  // ------------------------------------------------------------ merging numbered copies

  predicate IsObject(table: Table, name: string) { name in table && table[name].Obj? }

  /** The numbered copies of `base`, in key order. */
  function CopiesOf(names: seq<string>, base: string): (r: seq<string>)
    ensures forall x :: x in r <==> x in names && IsNumbered(x) && Base(x) == base
  {
    if names == [] then [] else
    var last := names[|names| - 1];
    CopiesOf(names[..|names| - 1], base) + (if IsNumbered(last) && Base(last) == base then [last] else [])
  }

  /** A base with its copies by number; the first is the canonical one. */
  function Group(table: Table, names: seq<string>, base: string): seq<string> {
    GroupOf(table, base, CopiesOf(names, base))
  }

  function GroupOf(table: Table, base: string, copies: seq<string>): seq<string> {
    (if IsObject(table, base) then [base] else []) + Sort(copies, ByIndex)
  }

  predicate AllAgree(table: Table, group: seq<string>) {
    && group != []
    && (forall x :: x in group ==>
          IsObject(table, x) && IsObject(table, group[0]) && SameStructure(table[x], table[group[0]]))
  }

  /** All copies in a group agree, but for their documentation. */
  predicate Mergeable(table: Table, names: seq<string>, base: string) {
    AllAgree(table, Group(table, names, base))
  }

  function Merges(table: Table, names: seq<string>): Redirects {
    map x | x in names && IsNumbered(x) && Mergeable(table, names, Base(x)) :: Base(x)
  }

  /** Copies that vanish into the canonical component. */
  function MergeAliases(table: Table, names: seq<string>): Redirects {
    map x | x in Merges(table, names) && x != Group(table, names, Base(x))[0] :: Base(x)
  }

  /** Copies promoted into the unnumbered name. */
  function MergeRenames(table: Table, names: seq<string>): Redirects {
    map x | x in Merges(table, names) && x == Group(table, names, Base(x))[0] :: Base(x)
  }

  /** References redirected, canonical copies promoted, the other copies gone. */
  ghost function MergedTable(table: Table, names: seq<string>): Table
    requires forall x :: x in names ==> x in table
  {
    RenameKeys(RewriteTable(Merges(table, names), table), MergeRenames(table, names)) - MergeAliases(table, names).Keys
  }

  lemma GroupMembers(table: Table, names: seq<string>, base: string)
    ensures forall x :: x in Group(table, names, base) <==>
      (x == base && IsObject(table, base)) || (x in names && IsNumbered(x) && Base(x) == base)
    ensures IsObject(table, base) ==> Group(table, names, base)[0] == base
  {
    var copies := CopiesOf(names, base);
    forall x ensures x in Sort(copies, ByIndex) <==> x in copies {
      assert x in multiset(Sort(copies, ByIndex)) <==> x in multiset(copies);
    }
  }

  /** No copy is promoted onto a component, which could only be one that is no object. */
  ghost predicate NothingOverwritten(table: Table, names: seq<string>) {
    MergeRenames(table, names).Values !! table.Keys
  }

  lemma ObjectsAreNotOverwritten(table: Table, names: seq<string>)
    requires forall x :: x in table ==> table[x].Obj?
    ensures NothingOverwritten(table, names)
  {
    hide Group, IsNumbered, Mergeable, Merges;
    RenamesAreSafe(table, names);
  }

  /** No merge target is itself merged away: no base name is a numbered copy of another. */
  ghost predicate Unchained(to: Redirects) { forall x :: x in to ==> to[x] !in to }

  lemma SameStructureSymmetric(a: Json, b: Json)
    requires SameStructure(a, b)
    ensures SameStructure(b, a)
  {}

  lemma MergeableHasFirst(table: Table, names: seq<string>, base: string)
    requires Mergeable(table, names, base)
    ensures Group(table, names, base) != [] && Group(table, names, base)[0] in Group(table, names, base)
    ensures IsObject(table, Group(table, names, base)[0])
  {}

  lemma BaseIsShorter(x: string)
    requires IsNumbered(x)
    ensures Base(x) != x
  {}

  /** What a merged copy's base is: an existing object, or a name its first copy is promoted to. */
  lemma MergedBase(table: Table, names: seq<string>, x: string)
    requires x in Merges(table, names)
    ensures IsObject(table, x) && Group(table, names, Base(x)) != []
    ensures
      var base, first := Base(x), Group(table, names, Base(x))[0];
      && IsObject(table, first) && SameStructure(table[first], table[x])
      && (if IsObject(table, base) then first == base && base !in MergeRenames(table, names).Values
          else first in MergeRenames(table, names) && MergeRenames(table, names)[first] == base)
  {
    hide Group, IsNumbered, SameStructure;
    var base := Base(x);
    GroupMembers(table, names, base);
    MergeableHasFirst(table, names, base);
    var first := Group(table, names, base)[0];
    assert SameStructure(table[x], table[first]);
    SameStructureSymmetric(table[x], table[first]);
    if IsObject(table, base) && base in MergeRenames(table, names).Values {
      var y :| y in MergeRenames(table, names) && MergeRenames(table, names)[y] == base;
      BaseIsShorter(y);
    }
  }

  /** Promotions are distinct, and no promoted name is itself a copy. */
  lemma RenamesAreSafe(table: Table, names: seq<string>)
    ensures Injective(MergeRenames(table, names))
    ensures MergeRenames(table, names).Keys !! MergeRenames(table, names).Values
    ensures forall y :: y in MergeRenames(table, names).Values ==> !IsObject(table, y)
    ensures forall x :: x in Merges(table, names) ==> IsObject(table, x)
  {
    hide Group, IsNumbered, Mergeable, IsObject;
    forall x | x in Merges(table, names) { MergedBase(table, names, x); }
  }

  lemma MergedName(table: Table, names: seq<string>, x: string)
    requires forall y :: y in names ==> y in table
    requires x in table && x in Merges(table, names) && Unchained(Merges(table, names))
    ensures RedirectedName(table, MergedTable(table, names), Merges(table, names), x)
  {
    hide Group, IsNumbered, Mergeable, RewriteRefs, SameStructure;
    var to, renames := Merges(table, names), MergeRenames(table, names);
    MergedBase(table, names, x);
    var base, first := Base(x), Group(table, names, Base(x))[0];
    RenamesAreSafe(table, names);
    assert base == to[x] && base !in to;
    if base in renames.Values {
      assert Source(renames, base) == first;
    }
    assert MergedTable(table, names)[base] == RewriteRefs(to, table[first]);
    assert CopyOf(table, x, first);
  }

  lemma UnmergedName(table: Table, names: seq<string>, x: string)
    requires forall y :: y in names ==> y in table
    requires x in table && x !in Merges(table, names) && NothingOverwritten(table, names)
    ensures RedirectedName(table, MergedTable(table, names), Merges(table, names), x)
  {
    hide Group, IsNumbered, Mergeable, RewriteRefs, SameStructure;
    RenamesAreSafe(table, names);
    assert MergedTable(table, names)[x] == RewriteRefs(Merges(table, names), table[x]);
    assert CopyOf(table, x, x);
  }

  lemma MergeIsRedirect(table: Table, names: seq<string>)
    requires forall x :: x in names ==> x in table
    requires NothingOverwritten(table, names) && Unchained(Merges(table, names))
    ensures Redirected(table, MergedTable(table, names), Merges(table, names))
  {
    forall x | x in table ensures RedirectedName(table, MergedTable(table, names), Merges(table, names), x) {
      if x in Merges(table, names) { MergedName(table, names, x); } else { UnmergedName(table, names, x); }
    }
  }

  // ------------------------------------------------------------ which copies are merged

  /** The base, an underscore and a number. */
  ghost predicate CopyNamed(name: string, base: string) {
    base != "" && exists digits :: IsNumeral(digits) && name == base + "_" + digits
  }

  lemma CopyIs(name: string, base: string)
    ensures IsNumbered(name) && Base(name) == base <==> CopyNamed(name, base)
  {
    hide NumberedName, ToNat;
    if IsNumbered(name) && Base(name) == base {
      NumberedNames(name, base, Index(name));
      var digits :| IsCopyName(name, base, digits, Index(name));
    }
    if CopyNamed(name, base) {
      var digits :| IsNumeral(digits) && name == base + "_" + digits;
      assert IsCopyName(name, base, digits, ToNat(digits));
      NumberedNames(name, base, ToNat(digits));
    }
  }

  /** An object of the base's name, or a numbered copy, of whatever kind. */
  ghost predicate Sibling(table: Table, base: string, y: string) {
    y in table && ((y == base && table[y].Obj?) || CopyNamed(y, base))
  }

  /** Both are objects that agree but for title, description and examples. */
  predicate AgreeButForDocs(a: Json, b: Json) {
    a.Obj? && b.Obj? && a.fields - {"title", "description", "examples"} == b.fields - {"title", "description", "examples"}
  }

  /** A numbered component is merged into its base if and only if the base, as far as it is an object,
      and all its copies are objects that agree but for their documentation. */
  lemma MergedExactly(table: Table, names: seq<string>, x: string, base: string)
    requires (forall y :: y in names <==> y in table) && x in table && CopyNamed(x, base)
    ensures x in Merges(table, names) <==> forall y :: Sibling(table, base, y) ==> AgreeButForDocs(table[y], table[x])
    ensures x in Merges(table, names) ==> Merges(table, names)[x] == base
  {
    hide IsNumbered, Base, Group, CopyNamed;
    CopyIs(x, base);
    GroupMembers(table, names, base);
    var group := Group(table, names, base);
    assert x in group;
    forall y ensures y in group <==> Sibling(table, base, y) { CopyIs(y, base); }
    AgreeingGroup(table, group, x);
  }

  lemma AgreeingGroup(table: Table, group: seq<string>, x: string)
    requires x in group && forall y :: y in group ==> y in table
    ensures AllAgree(table, group) <==> forall y :: y in group ==> AgreeButForDocs(table[y], table[x])
  {
    assert group[0] in group;
    if AllAgree(table, group) {
      forall y | y in group ensures AgreeButForDocs(table[y], table[x]) {
        assert SameStructure(table[y], table[group[0]]) && SameStructure(table[x], table[group[0]]);
      }
    }
  }

  /** Nothing else is merged. */
  lemma OnlyCopiesMerged(table: Table, names: seq<string>, x: string)
    requires x in Merges(table, names)
    ensures x in names && CopyNamed(x, Merges(table, names)[x])
  {
    hide NumberedName, Mergeable, CopyNamed;
    CopyIs(x, Base(x));
  }

  /** What is not merged stays, with its references redirected. */
  lemma UnmergedStays(table: Table, names: seq<string>, x: string)
    requires forall y :: y in names ==> y in table
    requires x in table && x !in Merges(table, names) && NothingOverwritten(table, names)
    ensures x in MergedTable(table, names) && MergedTable(table, names)[x] == RewriteRefs(Merges(table, names), table[x])
  {
    hide Group, IsNumbered, Mergeable, RewriteRefs;
    RenamesAreSafe(table, names);
  }

  /** The copy with the lowest number, and the first of those in key order. */
  ghost predicate LowestCopy(names: seq<string>, base: string, p: nat) {
    && p < |names| && CopyNamed(names[p], base)
    && forall q :: 0 <= q < |names| && CopyNamed(names[q], base) ==>
         Index(names[p]) < Index(names[q]) || (Index(names[p]) == Index(names[q]) && p <= q)
  }

  lemma ByIndexIsPreorder()
    ensures TotalPreorder(ByIndex)
  {
    hide Index;
  }

  lemma {:induction false} FirstTie(names: seq<string>, base: string, z: string) returns (p: nat)
    requires Ties(CopiesOf(names, base), z, ByIndex) != []
    ensures p < |names| && names[p] == Ties(CopiesOf(names, base), z, ByIndex)[0] && IsNumbered(names[p]) && Base(names[p]) == base
    ensures forall q :: 0 <= q < p && IsNumbered(names[q]) && Base(names[q]) == base ==> Index(names[q]) != Index(z)
  {
    hide Index, Base, IsNumbered, Ties;
    if names == [] {
      TiesOfNone(z);
    } else {
      var front, last := names[..|names| - 1], names[|names| - 1];
      var own := if IsNumbered(last) && Base(last) == base then [last] else [];
      TiesConcat(CopiesOf(front, base), own, z, ByIndex);
      if Ties(CopiesOf(front, base), z, ByIndex) != [] {
        p := FirstTie(front, base, z);
        assert forall q :: 0 <= q < p ==> names[q] == front[q];
      } else {
        TiesOfNone(z);
        TiesOfOne(last, z, ByIndex);
        p := |names| - 1;
        forall q | 0 <= q < p && IsNumbered(names[q]) && Base(names[q]) == base ensures Index(names[q]) != Index(z) {
          assert front[q] == names[q] && names[q] in CopiesOf(front, base);
          if Index(names[q]) == Index(z) { TieIsListed(CopiesOf(front, base), names[q], z); }
        }
      }
    }
  }

  lemma TiesOfNone(z: string)
    ensures Ties([], z, ByIndex) == []
  {}

  lemma {:induction false} TieIsListed(s: seq<string>, y: string, z: string)
    requires y in s && Index(y) == Index(z)
    ensures y in Ties(s, z, ByIndex)
  {
    hide Index;
    if y != s[0] { TieIsListed(s[1..], y, z); }
  }

  lemma LeastCopy(names: seq<string>, base: string) returns (p: nat)
    requires CopiesOf(names, base) != []
    ensures p < |names| && LowestCopy(names, base, p) && names[p] == Sort(CopiesOf(names, base), ByIndex)[0]
  {
    hide Index, Base, IsNumbered, CopiesOf, Insert, Sort, CopyNamed;
    var copies := CopiesOf(names, base);
    var sorted := Sort(copies, ByIndex);
    ByIndexIsPreorder();
    SortSorts(copies, ByIndex);
    SortIsStable(copies, sorted[0], ByIndex);
    assert Ties(sorted, sorted[0], ByIndex)[0] == sorted[0];
    p := FirstTie(names, base, sorted[0]);
    forall q | 0 <= q < |names| && CopyNamed(names[q], base)
      ensures Index(names[p]) < Index(names[q]) || (Index(names[p]) == Index(names[q]) && p <= q)
    {
      CopyIs(names[q], base);
      CopyListed(names, base, q);
      assert names[q] in multiset(sorted);
      FirstIsLeast(sorted, ByIndex, names[q]);
    }
    CopyIs(names[p], base);
  }

  lemma CopyListed(names: seq<string>, base: string, q: nat)
    requires q < |names| && IsNumbered(names[q]) && Base(names[q]) == base
    ensures names[q] in CopiesOf(names, base)
  {
    hide Base, IsNumbered;
  }

  /** Where no object has the base's name, the base becomes the copy with the lowest number. */
  lemma MissingBaseIsPromoted(table: Table, names: seq<string>, x: string) returns (p: nat)
    requires (forall y :: y in names ==> y in table) && x in Merges(table, names) && Unchained(Merges(table, names))
    requires !IsObject(table, Merges(table, names)[x])
    ensures p < |names| && LowestCopy(names, Merges(table, names)[x], p)
    ensures
      var to, merged := Merges(table, names), MergedTable(table, names);
      to[x] in merged && merged[to[x]] == RewriteRefs(to, table[names[p]])
  {
    hide IsNumbered, Mergeable, RewriteRefs, SameStructure, CopiesOf, Sort, LowestCopy;
    var base := Base(x);
    MergedBase(table, names, x);
    assert Group(table, names, base) == [] + Sort(CopiesOf(names, base), ByIndex) == Sort(CopiesOf(names, base), ByIndex);
    assert CopiesOf(names, base) != [] by { assert x in CopiesOf(names, base); }
    p := LeastCopy(names, base);
    RenamesAreSafe(table, names);
    assert Source(MergeRenames(table, names), base) == names[p];
  }

  // ------------------------------------------------------------ meanings are kept

  /** Merging numbered copies changes no reference's meaning, recursive components included. */
  lemma MergePreserves(table: Table, names: seq<string>, leaf: Leaf, schema: Json, v: Json, n: nat)
    requires forall x :: x in names ==> x in table
    requires NothingOverwritten(table, names) && Unchained(Merges(table, names))
    requires TableResolves(table) && Resolves(table, schema) && Indifferent(Merges(table, names), table, schema, v)
    ensures Accepts(MergedTable(table, names), leaf, RewriteRefs(Merges(table, names), schema), v, n)
         == Accepts(table, leaf, schema, v, n)
  {
    MergeIsRedirect(table, names);
    RedirectPreserves(table, MergedTable(table, names), Merges(table, names), leaf, schema, v, n);
  }

  lemma MergedFrom(table: Table, names: seq<string>, y: string) returns (x: string)
    requires forall x :: x in names ==> x in table
    requires y in MergedTable(table, names)
    ensures x in table && MergedTable(table, names)[y] == RewriteRefs(Merges(table, names), table[x])
  {
    hide Group, Base, IsNumbered, Mergeable, RewriteRefs;
    var renames := MergeRenames(table, names);
    x := if y in renames.Values then Source(renames, y) else y;
  }

  lemma MergedResolves(table: Table, names: seq<string>)
    requires forall x :: x in names ==> x in table
    requires NothingOverwritten(table, names) && Unchained(Merges(table, names)) && TableResolves(table)
    ensures TableResolves(MergedTable(table, names))
  {
    hide MergedTable, Merges, RewriteRefs, Redirected;
    MergeIsRedirect(table, names);
    forall y | y in MergedTable(table, names)
      ensures Resolves(MergedTable(table, names), MergedTable(table, names)[y])
    {
      var x := MergedFrom(table, names, y);
      RedirectedResolves(table, MergedTable(table, names), Merges(table, names), table[x]);
    }
  }

  /** Where a base name is itself merged away, references to its copies dangle. */
  lemma ChainedReferenceDangles(table: Table, names: seq<string>, x: string, leaf: Leaf, v: Json, n: nat)
    requires forall y :: y in names ==> y in table
    requires x in Merges(table, names) && Merges(table, names)[x] in Merges(table, names)
    ensures !Accepts(MergedTable(table, names), leaf, RewriteRefs(Merges(table, names), RefTo(x)), v, n)
  {
    var to := Merges(table, names);
    MergedIsGone(table, names, to[x]);
    RewriteRefTo(to, x);
    DanglingAcceptsNothing(MergedTable(table, names), to[x], leaf, v, n);
  }

  /** A merged copy is gone afterwards, even where it is itself the base of others. */
  lemma MergedIsGone(table: Table, names: seq<string>, base: string)
    requires forall x :: x in names ==> x in table
    requires base in Merges(table, names)
    ensures base !in MergedTable(table, names)
  {
    hide Group, IsNumbered, Mergeable, IsObject, RewriteRefs;
    RenamesAreSafe(table, names);
  }

  lemma DanglingAcceptsNothing(table: Table, name: string, leaf: Leaf, v: Json, n: nat)
    requires name !in table
    ensures !Accepts(table, leaf, RefTo(name), v, n)
  {
    RefToName(name);
    var o := RefTo(name).fields;
    assert n > 0 ==> !Keyword(table, leaf, "$ref", o["$ref"], v, n - 1);
  }

  lemma RefToAccepts(table: Table, name: string, leaf: Leaf, v: Json, n: nat)
    requires name in table && Accepts(table, leaf, table[name], v, n)
    ensures Accepts(table, leaf, RefTo(name), v, n + 1)
  {
    PrefixRoundTrip(name);
    var o := RefTo(name).fields;
    forall k | k in o ensures Keyword(table, leaf, k, o[k], v, n) { assert k == "$ref"; }
  }

  /** `A`, its copy `A_1`, and a copy of that. */
  function ChainedNames(): seq<string> { ["A", "A_1", "A_1_2"] }

  function ChainedTable(): Table { map x | x in ChainedNames() :: Obj(map[]) }

  lemma ChainedNumbers()
    ensures !IsNumbered("A")
    ensures IsNumbered("A_1") && Base("A_1") == "A"
    ensures IsNumbered("A_1_2") && Base("A_1_2") == "A_1"
  {
    assert "A"[..0] == "" && LastUnderscore("A") == -1;
    assert "A_1"[..2] == "A_" && LastUnderscore("A_1") == 1 && "A_1"[2..] == "1" && "A_1"[..1] == "A";
    assert "A_1_2"[..4] == "A_1_" && LastUnderscore("A_1_2") == 3 && "A_1_2"[4..] == "2" && "A_1_2"[..3] == "A_1";
  }

  /** The smallest document it happens in: three components without constraints, and a reference
      that accepted every value accepts none after the merge. */
  lemma ChainedExample(leaf: Leaf, v: Json, n: nat)
    ensures "A_1_2" in Merges(ChainedTable(), ChainedNames()) && Merges(ChainedTable(), ChainedNames())["A_1_2"] == "A_1"
    ensures "A_1" in Merges(ChainedTable(), ChainedNames())
    ensures Accepts(ChainedTable(), leaf, RefTo("A_1_2"), v, 2)
    ensures
      var to := Merges(ChainedTable(), ChainedNames());
      !Accepts(MergedTable(ChainedTable(), ChainedNames()), leaf, RewriteRefs(to, RefTo("A_1_2")), v, n)
  {
    hide NumberedName, Group, MergedTable;
    var table, names := ChainedTable(), ChainedNames();
    ChainedNumbers();
    forall base | base in {"A", "A_1"} ensures Mergeable(table, names, base) {
      assert base in names;
      GroupMembers(table, names, base);
    }
    assert "A_1" in names && "A_1_2" in names;
    RefToAccepts(table, "A_1_2", leaf, v, 1);
    ChainedReferenceDangles(table, names, "A_1_2", leaf, v, n);
  }

  /** A component that is no object, and a copy that gets promoted onto it. */
  function OverwrittenTable(): Table { map["A" := Bool(false), "A_1" := Obj(map[])] }

  lemma OverwrittenMerges(names: seq<string>)
    requires names == ["A", "A_1"]
    ensures Merges(OverwrittenTable(), names) == map["A_1" := "A"] == MergeRenames(OverwrittenTable(), names)
    ensures MergeAliases(OverwrittenTable(), names) == map[]
  {
    hide NumberedName, Group;
    var table := OverwrittenTable();
    ChainedNumbers();
    GroupMembers(table, names, "A");
    assert names[1] == "A_1" && "A_1" in names;
    MergeableHasFirst(table, names, "A");
  }

  /** Without an object under the base name, what is there is lost: `false` accepted nothing, and
      the promoted copy accepts everything. */
  lemma OverwrittenExample(leaf: Leaf, v: Json, n: nat)
    ensures !NothingOverwritten(OverwrittenTable(), ["A", "A_1"])
    ensures !Accepts(OverwrittenTable(), leaf, RefTo("A"), v, n)
    ensures Accepts(MergedTable(OverwrittenTable(), ["A", "A_1"]), leaf, RewriteRefs(Merges(OverwrittenTable(), ["A", "A_1"]), RefTo("A")), v, 2)
  {
    hide Merges, MergeRenames, MergeAliases, Accepts, Keyword, MergedTable;
    var table, names := OverwrittenTable(), ["A", "A_1"];
    OverwrittenMerges(names);
    OverwrittenMerged(names);
    var to, merged := Merges(table, names), MergedTable(table, names);
    assert "A" in MergeRenames(table, names).Values by { assert MergeRenames(table, names)["A_1"] == "A"; }
    assert "A" in table;
    RewriteRefTo(to, "A");
    EmptyAccepts(merged, leaf, v);
    RefToAccepts(merged, "A", leaf, v, 1);
    FalseAccepts(table, leaf, v);
    RefToRefuses(table, "A", leaf, v);
  }

  lemma OverwrittenMerged(names: seq<string>)
    requires names == ["A", "A_1"]
    ensures "A" in MergedTable(OverwrittenTable(), names) && MergedTable(OverwrittenTable(), names)["A"] == Obj(map[])
  {
    hide Merges, MergeRenames, MergeAliases;
    OverwrittenMerges(names);
    var to, merged := Merges(OverwrittenTable(), names), MergedTable(OverwrittenTable(), names);
    assert "A" in to.Values by { assert to["A_1"] == "A"; }
    assert Source(to, "A") == "A_1";
    assert merged["A"] == RewriteRefs(to, Obj(map[])) == Obj(map[]);
  }

  lemma EmptyAccepts(table: Table, leaf: Leaf, v: Json)
    ensures Accepts(table, leaf, Obj(map[]), v, 1)
  {}

  lemma FalseAccepts(table: Table, leaf: Leaf, v: Json)
    ensures NeverAccepts(table, leaf, Bool(false), v)
  {}

  /** A reference means the same before and after the merge, for every value without references. */
  ghost predicate KeepsMeaning(table: Table, names: seq<string>, leaf: Leaf, x: string)
    requires forall y :: y in names ==> y in table
  {
    forall v, n: nat :: Refs(v) == {} ==>
      (Accepts(MergedTable(table, names), leaf, RewriteRefs(Merges(table, names), RefTo(x)), v, n) <==>
       Accepts(table, leaf, RefTo(x), v, n))
  }

  ghost predicate AcceptsSomething(table: Table, leaf: Leaf, x: string)
    requires x in table
  {
    exists v, n: nat :: Refs(v) == {} && Accepts(table, leaf, table[x], v, n)
  }

  /** No step count makes the component accept this value, which has no references. */
  ghost predicate RefusesSomething(table: Table, leaf: Leaf, x: string)
    requires x in table
  {
    exists v :: Refs(v) == {} && NeverAccepts(table, leaf, table[x], v)
  }

  ghost predicate NeverAccepts(table: Table, leaf: Leaf, schema: Json, v: Json) {
    forall n: nat :: !Accepts(table, leaf, schema, v, n)
  }

  /** A copy was promoted onto this component. */
  ghost predicate Overwritten(table: Table, names: seq<string>, y: string) {
    y in table && y in MergeRenames(table, names).Values
  }

  lemma OverwrittenComponent(table: Table, names: seq<string>, y: string)
    requires forall x :: x in names ==> x in table
    requires Overwritten(table, names, y)
    ensures !table[y].Obj? && y !in Merges(table, names) && y in MergedTable(table, names)
  {
    hide Group, IsNumbered, Mergeable, RewriteRefs;
    RenamesAreSafe(table, names);
    assert !IsObject(table, y);
  }

  lemma RefToRefuses(table: Table, name: string, leaf: Leaf, v: Json)
    requires name in table && NeverAccepts(table, leaf, table[name], v)
    ensures NeverAccepts(table, leaf, RefTo(name), v)
  {
    hide Accepts;
    forall n: nat ensures !Accepts(table, leaf, RefTo(name), v, n) {
      if Accepts(table, leaf, RefTo(name), v, n) { RefToNeeds(table, name, leaf, v, n); }
    }
  }

  lemma RefToNeeds(table: Table, name: string, leaf: Leaf, v: Json, n: nat)
    requires name in table && Accepts(table, leaf, RefTo(name), v, n)
    ensures n > 0 && Accepts(table, leaf, table[name], v, n - 1)
  {
    PrefixRoundTrip(name);
    var o := RefTo(name).fields;
    assert Keyword(table, leaf, "$ref", o["$ref"], v, n - 1);
  }

  /** A reference to an overwritten component changes its meaning when the promoted copy accepts
      one value and refuses another: before, it accepted all values or none. */
  lemma OverwrittenChangesMeaning(table: Table, names: seq<string>, leaf: Leaf, y: string)
    requires forall x :: x in names ==> x in table
    requires Overwritten(table, names, y) && y in MergedTable(table, names)
    requires AcceptsSomething(MergedTable(table, names), leaf, y) && RefusesSomething(MergedTable(table, names), leaf, y)
    ensures !KeepsMeaning(table, names, leaf, y)
  {
    OverwrittenComponent(table, names, y);
    hide MergedTable, Merges, MergeRenames, RewriteRefs, Refs;
    var to, merged := Merges(table, names), MergedTable(table, names);
    RewriteRefTo(to, y);
    if table[y] == Bool(true) {
      var v :| Refs(v) == {} && NeverAccepts(merged, leaf, merged[y], v);
      RefToRefuses(merged, y, leaf, v);
      RefToAccepts(table, y, leaf, v, 1);
      assert !Accepts(merged, leaf, RewriteRefs(to, RefTo(y)), v, 2);
    } else {
      var v, n: nat :| Refs(v) == {} && Accepts(merged, leaf, merged[y], v, n);
      RefToAccepts(merged, y, leaf, v, n);
      RefToRefuses(table, y, leaf, v);
      assert !Accepts(table, leaf, RefTo(y), v, n + 1);
    }
  }

  /** Suppose every merged copy accepts something, and every copy promoted onto a component accepts
      one value and refuses another. Then merging keeps the meaning of all references if and only
      if no base name is itself a merged copy and nothing is overwritten. */
  lemma MergePreservesExactly(table: Table, names: seq<string>, leaf: Leaf)
    requires TableResolves(table) && forall x :: x in names ==> x in table
    requires forall x :: x in Merges(table, names) ==> x in table && AcceptsSomething(table, leaf, x)
    requires forall y :: y in MergedTable(table, names) && Overwritten(table, names, y) ==>
      AcceptsSomething(MergedTable(table, names), leaf, y) && RefusesSomething(MergedTable(table, names), leaf, y)
    ensures Unchained(Merges(table, names)) && NothingOverwritten(table, names) <==>
      forall x :: x in table ==> KeepsMeaning(table, names, leaf, x)
  {
    hide Refs, RewriteRefs, Accepts, MergedTable, Mergeable, TableResolves, MergeRenames;
    var to := Merges(table, names);
    if !Unchained(to) {
      var x :| x in to && to[x] in to;
      assert AcceptsSomething(table, leaf, x);
      var v, n: nat :| Refs(v) == {} && Accepts(table, leaf, table[x], v, n);
      RefToAccepts(table, x, leaf, v, n);
      ChainedReferenceDangles(table, names, x, leaf, v, n + 1);
      assert !KeepsMeaning(table, names, leaf, x);
    } else if !NothingOverwritten(table, names) {
      var y :| y in MergeRenames(table, names).Values && y in table;
      OverwrittenComponent(table, names, y);
      OverwrittenChangesMeaning(table, names, leaf, y);
    } else {
      forall x | x in table ensures KeepsMeaning(table, names, leaf, x) {
        RefToName(x);
        forall v, n: nat | Refs(v) == {} { MergePreserves(table, names, leaf, RefTo(x), v, n); }
      }
    }
  }

  /** A reference means the same before and after the merge, for every value. */
  ghost predicate KeepsAllMeaning(table: Table, names: seq<string>, leaf: Leaf, x: string)
    requires forall y :: y in names ==> y in table
  {
    forall v, n: nat ::
      (Accepts(MergedTable(table, names), leaf, RewriteRefs(Merges(table, names), RefTo(x)), v, n) <==>
       Accepts(table, leaf, RefTo(x), v, n))
  }

  /** The component is an enumeration that names merged copies. */
  predicate ListsMerged(to: Redirects, schema: Json) {
    schema.Obj? && "enum" in schema.fields && schema.fields["enum"].Arr? && !(Refs(schema.fields["enum"]) !! to.Keys)
  }

  /** The component accepts some value that names a merged copy. */
  ghost predicate AcceptsMerged(table: Table, to: Redirects, leaf: Leaf, x: string)
    requires x in table
  {
    exists v, n: nat :: !(Refs(v) !! to.Keys) && Accepts(table, leaf, table[x], v, n)
  }

  /** Below the top of a component no `enum` names a merged copy. */
  predicate InnerEnumsKept(to: Redirects, schema: Json) {
    match schema
    case Obj(o) => forall k :: k in o ==> (k == "enum" && o[k].Arr?) || EnumsKept(to, o[k])
    case _ => EnumsKept(to, schema)
  }

  lemma {:induction false} KeptWithoutSources(to: Redirects, j: Json)
    requires Refs(j) !! to.Keys
    ensures EnumsKept(to, j)
    decreases j
  {
    match j
    case Arr(items) =>
      forall i | 0 <= i < |items| ensures EnumsKept(to, items[i]) {
        EntryRefs(items, i);
        KeptWithoutSources(to, items[i]);
      }
    case Obj(o) =>
      forall k | k in o ensures EnumsKept(to, o[k]) && Refs(o[k]) !! to.Keys {
        MemberRefs(o, k);
        KeptWithoutSources(to, o[k]);
      }
    case _ =>
  }

  lemma AllEnumsKept(to: Redirects, schema: Json)
    requires InnerEnumsKept(to, schema)
    ensures !ListsMerged(to, schema) ==> EnumsKept(to, schema)
  {
    if schema.Obj? && !ListsMerged(to, schema) && "enum" in schema.fields && schema.fields["enum"].Arr? {
      KeptWithoutSources(to, schema.fields["enum"]);
    }
  }

  /** An enumeration that names merged copies no longer accepts the values that do. */
  lemma ListedChangesMeaning(table: Table, names: seq<string>, leaf: Leaf, x: string)
    requires TableResolves(table) && x in table && forall y :: y in names ==> y in table
    requires NothingOverwritten(table, names) && Unchained(Merges(table, names))
    requires ListsMerged(Merges(table, names), table[x]) && AcceptsMerged(table, Merges(table, names), leaf, x)
    ensures !KeepsAllMeaning(table, names, leaf, x)
  {
    hide Merges, MergedTable, Accepts, Refs, RewriteRefs, RefTo, ListsMerged, TableResolves, Unchained, NothingOverwritten;
    var to := Merges(table, names);
    var v, n: nat :| !(Refs(v) !! to.Keys) && Accepts(table, leaf, table[x], v, n);
    ListedValueIsLost(table, names, leaf, x, v);
    RefToAccepts(table, x, leaf, v, n);
    NeverAtStep(MergedTable(table, names), leaf, RewriteRefs(to, RefTo(x)), v, n + 1);
  }

  lemma ListedValueIsLost(table: Table, names: seq<string>, leaf: Leaf, x: string, v: Json)
    requires TableResolves(table) && x in table && forall y :: y in names ==> y in table
    requires NothingOverwritten(table, names) && Unchained(Merges(table, names))
    requires ListsMerged(Merges(table, names), table[x]) && !(Refs(v) !! Merges(table, names).Keys)
    ensures NeverAccepts(MergedTable(table, names), leaf, RewriteRefs(Merges(table, names), RefTo(x)), v)
  {
    hide *;
    MergeIsRedirect(table, names);
    var to, merged := Merges(table, names), MergedTable(table, names);
    ListedIsRefused(table, merged, to, leaf, x, v);
    RewriteRefTo(to, x);
    RefToRefuses(merged, Redirect(to, x), leaf, v);
  }

  lemma NeverAtStep(table: Table, leaf: Leaf, schema: Json, v: Json, n: nat)
    requires NeverAccepts(table, leaf, schema, v)
    ensures !Accepts(table, leaf, schema, v, n)
  {
    hide Accepts;
  }

  lemma ListedIsRefused(table: Table, merged: Table, to: Redirects, leaf: Leaf, x: string, v: Json)
    requires Redirected(table, merged, to) && TableResolves(table) && Unchained(to) && x in table && ListsMerged(to, table[x])
    requires !(Refs(v) !! to.Keys)
    ensures Redirect(to, x) in merged && NeverAccepts(merged, leaf, merged[Redirect(to, x)], v)
  {
    hide Refs, RewriteRefs, NeverAccepts, Unchained, TableResolves, Redirected, Accepts;
    NameRedirected(table, merged, to, x);
    var copy :| CopyOf(table, x, copy) && merged[Redirect(to, x)] == RewriteRefs(to, table[copy]);
    SameEnum(table[x], table[copy]);
    EnumRefuses(merged, leaf, to, table[copy], v);
  }

  lemma SameEnum(a: Json, b: Json)
    requires a.Obj? && "enum" in a.fields && (a == b || SameStructure(b, a))
    ensures b.Obj? && "enum" in b.fields && b.fields["enum"] == a.fields["enum"]
  {
    if a != b {
      assert "enum" in a.fields - ANNOTATIONS;
      assert "enum" in b.fields - ANNOTATIONS && (b.fields - ANNOTATIONS)["enum"] == (a.fields - ANNOTATIONS)["enum"];
    }
  }

  lemma EnumRefuses(table: Table, leaf: Leaf, to: Redirects, schema: Json, v: Json)
    requires Unchained(to) && schema.Obj? && "enum" in schema.fields && schema.fields["enum"].Arr?
    requires !(Refs(v) !! to.Keys)
    ensures NeverAccepts(table, leaf, RewriteRefs(to, schema), v)
  {
    hide Refs;
    var o, o' := schema.fields, RewriteRefs(to, schema).fields;
    assert "enum" in o' && o'["enum"] == RewriteMember(to, o, "enum") == RewriteRefs(to, o["enum"]);
    RedirectedNotListed(to, o["enum"].items, v);
    forall n: nat ensures !Accepts(table, leaf, RewriteRefs(to, schema), v, n) {
      if n > 0 { assert !Keyword(table, leaf, "enum", o'["enum"], v, n - 1); }
    }
  }

  /** The same for all values. Suppose further that merged copies are listed at the top of components
      only, and that such a component accepts a value that names one. Then merging keeps the meaning
      of all references if and only if no base name is itself a merged copy, nothing is overwritten,
      and no enumeration names a merged copy. */
  lemma MergePreservesAllExactly(table: Table, names: seq<string>, leaf: Leaf)
    requires TableResolves(table) && forall x :: x in names ==> x in table
    requires forall x :: x in Merges(table, names) ==> x in table && AcceptsSomething(table, leaf, x)
    requires forall y :: y in MergedTable(table, names) && Overwritten(table, names, y) ==>
      AcceptsSomething(MergedTable(table, names), leaf, y) && RefusesSomething(MergedTable(table, names), leaf, y)
    requires forall x :: x in table ==> InnerEnumsKept(Merges(table, names), table[x])
    requires forall x :: x in table && ListsMerged(Merges(table, names), table[x]) ==>
      AcceptsMerged(table, Merges(table, names), leaf, x)
    ensures
      && Unchained(Merges(table, names)) && NothingOverwritten(table, names)
      && (forall x :: x in table ==> !ListsMerged(Merges(table, names), table[x]))
      <==> forall x :: x in table ==> KeepsAllMeaning(table, names, leaf, x)
  {
    MergePreservesExactly(table, names, leaf);
    hide Refs, RewriteRefs, Accepts, MergedTable, Merges, TableResolves, MergeRenames, AcceptsMerged, ListsMerged, InnerEnumsKept;
    var to := Merges(table, names);
    if Unchained(to) && NothingOverwritten(table, names) {
      if x :| x in table && ListsMerged(to, table[x]) {
        ListedChangesMeaning(table, names, leaf, x);
      } else {
        forall x | x in table ensures KeepsAllMeaning(table, names, leaf, x) {
          AllKeep(table, names, leaf, x);
        }
      }
    } else {
      var x :| x in table && !KeepsMeaning(table, names, leaf, x);
      AllIsMore(table, names, leaf, x);
    }
  }

  lemma AllIsMore(table: Table, names: seq<string>, leaf: Leaf, x: string)
    requires forall y :: y in names ==> y in table
    ensures KeepsAllMeaning(table, names, leaf, x) ==> KeepsMeaning(table, names, leaf, x)
  {
    hide Refs, RewriteRefs, Accepts, MergedTable, Merges;
  }

  lemma AllKeep(table: Table, names: seq<string>, leaf: Leaf, x: string)
    requires TableResolves(table) && x in table && forall y :: y in names ==> y in table
    requires NothingOverwritten(table, names) && Unchained(Merges(table, names))
    requires forall y :: y in table ==> InnerEnumsKept(Merges(table, names), table[y]) && !ListsMerged(Merges(table, names), table[y])
    ensures KeepsAllMeaning(table, names, leaf, x)
  {
    hide Refs, RewriteRefs, Accepts, MergedTable, Merges, TableResolves, ListsMerged, InnerEnumsKept, EnumsKept;
    var to := Merges(table, names);
    RefToName(x);
    forall y | y in table ensures EnumsKept(to, table[y]) { AllEnumsKept(to, table[y]); }
    RefToKept(to, x);
    forall v, n: nat ensures
      Accepts(MergedTable(table, names), leaf, RewriteRefs(to, RefTo(x)), v, n) <==> Accepts(table, leaf, RefTo(x), v, n)
    {
      MergePreserves(table, names, leaf, RefTo(x), v, n);
    }
  }

  lemma RefToKept(to: Redirects, x: string)
    ensures EnumsKept(to, RefTo(x))
  {
    var o := RefTo(x).fields;
    assert forall k :: k in o ==> k == "$ref";
  }

  /** Where all components are objects, as OpenAPI schemas commonly are, only chains matter; for all
      values too where no `enum` names a merged copy. */
  lemma MergingObjectsPreservesExactly(table: Table, names: seq<string>, leaf: Leaf)
    requires forall x :: x in table ==> table[x].Obj?
    requires TableResolves(table) && forall x :: x in names ==> x in table
    requires forall x :: x in Merges(table, names) ==> x in table && AcceptsSomething(table, leaf, x)
    ensures Unchained(Merges(table, names)) <==> forall x :: x in table ==> KeepsMeaning(table, names, leaf, x)
    ensures (forall x :: x in table ==> EnumsKept(Merges(table, names), table[x])) ==>
      (Unchained(Merges(table, names)) <==> forall x :: x in table ==> KeepsAllMeaning(table, names, leaf, x))
  {
    hide Merges, MergeRenames, MergedTable, AcceptsSomething, KeepsMeaning, KeepsAllMeaning, RefusesSomething, Refs, EnumsKept;
    ObjectsAreNotOverwritten(table, names);
    MergePreservesExactly(table, names, leaf);
    if forall x :: x in table ==> EnumsKept(Merges(table, names), table[x]) {
      forall x | x in table ensures InnerEnumsKept(Merges(table, names), table[x]) && !ListsMerged(Merges(table, names), table[x]) {
        KeptAtTheTop(Merges(table, names), table[x]);
      }
      MergePreservesAllExactly(table, names, leaf);
    }
  }

  lemma KeptAtTheTop(to: Redirects, schema: Json)
    requires EnumsKept(to, schema)
    ensures InnerEnumsKept(to, schema) && !ListsMerged(to, schema)
  {}

  // ------------------------------------------------------------ dropping the Encoded suffix

  function EncodedRenames(table: Table): Redirects {
    map x | x in table && EncodedBase(x).Some? && EncodedBase(x).value !in table :: EncodedBase(x).value
  }

  ghost function RenamedTable(table: Table): Table {
    RenameKeys(RewriteTable(EncodedRenames(table), table), EncodedRenames(table))
  }

  lemma EncodedName(x: string)
    requires EncodedBase(x).Some?
    ensures x == EncodedBase(x).value + ENCODED
  {}

  /** Rename targets are new and pairwise distinct, so one pass of renames is one renaming. */
  lemma RenamesAreFresh(table: Table, x: string, y: string)
    requires x in EncodedRenames(table) && y in EncodedRenames(table)
    ensures EncodedRenames(table)[x] !in table
    ensures EncodedRenames(table)[x] == EncodedRenames(table)[y] ==> x == y
  {
    EncodedName(x);
    EncodedName(y);
  }

  /** A component is renamed if and only if its name ends in `Encoded` and what is left of it is no
      component; it loses exactly that ending. */
  lemma RenamedExactly(table: Table, x: string, base: string)
    ensures x in EncodedRenames(table) && EncodedRenames(table)[x] == base <==>
      x in table && base != "" && x == base + "Encoded" && base !in table
  {
    if x == base + "Encoded" {
      assert x[|x| - |ENCODED|..] == ENCODED && x[..|x| - |ENCODED|] == base;
    }
    if x in EncodedRenames(table) { EncodedName(x); }
  }

  /** It is found under the new name and no more under the old one; the others stay. */
  lemma RenamedComponents(table: Table, x: string)
    requires x in table
    ensures
      var to, after := EncodedRenames(table), RenamedTable(table);
      if x in to then x !in after && to[x] in after && after[to[x]] == RewriteRefs(to, table[x])
      else x in after && after[x] == RewriteRefs(to, table[x])
  {
    hide RewriteRefs, EncodedBase;
    var to := EncodedRenames(table);
    forall y, z | y in to && z in to && to[y] == to[z] ensures y == z { RenamesAreFresh(table, y, z); }
    if x in to {
      assert to[x] in to.Values && Source(to, to[x]) == x;
      RenamesAreFresh(table, x, x);
    }
  }

  lemma RenameIsRedirect(table: Table)
    ensures Redirected(table, RenamedTable(table), EncodedRenames(table))
  {
    hide RewriteRefs, EncodedBase;
    var to, after := EncodedRenames(table), RenamedTable(table);
    forall x, y | x in to && y in to && to[x] == to[y] ensures x == y { RenamesAreFresh(table, x, y); }
    forall x | x in table ensures RedirectedName(table, after, to, x) {
      if x in to { assert Source(to, to[x]) == x; }
      assert after[Redirect(to, x)] == RewriteRefs(to, table[x]);
      assert CopyOf(table, x, x);
    }
  }

  /** Dropping the `Encoded` suffix changes no reference's meaning. */
  lemma RenamePreserves(table: Table, leaf: Leaf, schema: Json, v: Json, n: nat)
    requires TableResolves(table) && Resolves(table, schema) && Indifferent(EncodedRenames(table), table, schema, v)
    ensures Accepts(RenamedTable(table), leaf, RewriteRefs(EncodedRenames(table), schema), v, n)
         == Accepts(table, leaf, schema, v, n)
  {
    RenameIsRedirect(table);
    RedirectPreserves(table, RenamedTable(table), EncodedRenames(table), leaf, schema, v, n);
  }

  lemma RenamedFrom(table: Table, y: string) returns (x: string)
    requires y in RenamedTable(table)
    ensures x in table && RenamedTable(table)[y] == RewriteRefs(EncodedRenames(table), table[x])
  {
    hide RewriteRefs, EncodedBase;
    var to := EncodedRenames(table);
    x := if y in to.Values then Source(to, y) else y;
  }

  lemma RenamedResolves(table: Table)
    requires TableResolves(table)
    ensures TableResolves(RenamedTable(table))
  {
    hide RenamedTable, EncodedRenames, RewriteRefs, Redirected;
    RenameIsRedirect(table);
    forall y | y in RenamedTable(table) ensures Resolves(RenamedTable(table), RenamedTable(table)[y]) {
      var x := RenamedFrom(table, y);
      RedirectedResolves(table, RenamedTable(table), EncodedRenames(table), table[x]);
    }
  }

  // ------------------------------------------------------------ sweeping

  ghost predicate Closed(table: Table, s: set<string>) {
    forall x :: x in s && x in table ==> Refs(table[x]) <= s
  }

  /** `s` is what can be reached from `root` through chains of references. */
  ghost predicate IsReachable(table: Table, root: Json, s: set<string>) {
    && Refs(root) <= s && Closed(table, s)
    && forall t :: Refs(root) <= t && Closed(table, t) ==> s <= t
  }

  /** What one marking walk adds: everything reachable from `node`, and nothing else. */
  ghost predicate Marked(table: Table, node: Json, before: set<string>, after: set<string>) {
    && before <= after && Refs(node) <= after
    && (forall x :: x in after - before && x in table ==> Refs(table[x]) <= after)
    && (forall t :: Refs(node) <= t && Closed(table, t) ==> after <= before + t)
  }

  /** The depth-first marking walk; each component is entered once. */
  method Walk(table: Table, node: Json, reachable: set<string>) returns (marked: set<string>)
    ensures Marked(table, node, reachable, marked)
    decreases table.Keys - reachable, node
  {
    marked := reachable;
    match node
    case Arr(items) =>
      for i := 0 to |items|
        invariant Marked(table, Arr(items[..i]), reachable, marked)
      {
        ghost var before := marked;
        marked := Walk(table, items[i], marked);
        MarkedEntries(table, items, i, reachable, before, marked);
      }
      assert items[..|items|] == items;
    case Obj(o) =>
      if RefName(o).Some? && RefName(o).value !in reachable {
        var name := RefName(o).value;
        marked := marked + {name};
        if name in table {
          marked := Walk(table, table[name], marked);
        }
      }
      ghost var entered := marked;
      var todo := o.Keys;
      while todo != {}
        invariant todo <= o.Keys
        invariant reachable <= entered <= marked && OwnRef(o) <= marked
        invariant forall k :: k in o && k !in todo ==> Refs(o[k]) <= marked
        invariant forall x :: x in marked - reachable && x in table ==> Refs(table[x]) <= marked
        invariant forall t :: Refs(node) <= t && Closed(table, t) ==> marked <= reachable + t
        decreases todo
      {
        var k :| k in todo;
        todo := todo - {k};
        MemberRefs(o, k);
        marked := Walk(table, o[k], marked);
      }
    case _ =>
  }

  lemma MarkedEntries(table: Table, items: seq<Json>, i: nat, start: set<string>, before: set<string>, after: set<string>)
    requires i < |items| && Marked(table, Arr(items[..i]), start, before) && Marked(table, items[i], before, after)
    ensures Marked(table, Arr(items[..i + 1]), start, after)
  {
    assert Refs(Arr(items[..i + 1])) == Refs(Arr(items[..i])) + Refs(items[i]) by {
      forall name | name in Refs(Arr(items[..i])) + Refs(items[i]) ensures name in Refs(Arr(items[..i + 1])) {
        if name in Refs(items[i]) {
          assert items[..i + 1][i] == items[i];
        } else {
          var j :| 0 <= j < i && name in Refs(items[..i][j]);
          assert items[..i + 1][j] == items[..i][j];
        }
      }
    }
  }

  lemma NothingToTell(table: Table, schema: Json, v: Json)
    ensures Indifferent(map[], table, schema, v)
  {}

  /** Keeping a closed part of the table changes nothing for schemas that stay inside it. */
  lemma SweepPreserves(table: Table, kept: Table, leaf: Leaf, schema: Json, v: Json, n: nat)
    requires kept.Keys <= table.Keys && forall x :: x in kept ==> kept[x] == table[x]
    requires TableResolves(kept) && Resolves(kept, schema)
    ensures Accepts(kept, leaf, schema, v, n) == Accepts(table, leaf, schema, v, n)
  {
    hide Refs, Accepts, TableResolves, SameStructure, RewriteRefs, Indifferent;
    forall x | x in kept ensures RedirectedName(kept, table, map[], x) {
      RewriteKept(map[], kept[x]);
      assert CopyOf(kept, x, x);
    }
    RewriteKept(map[], schema);
    NothingToTell(kept, schema, v);
    RedirectPreserves(kept, table, map[], leaf, schema, v, n);
  }

  ghost function Swept(table: Table, reach: set<string>): Table { map x | x in table && x in reach :: table[x] }

  /** A sweep that reports nothing dangling leaves a document whose references all resolve. */
  lemma SweepResolves(table: Table, paths: Json, reach: set<string>)
    requires IsReachable(table, paths, reach)
    ensures reach <= table.Keys ==>
      Swept(table, reach).Keys == reach && TableResolves(Swept(table, reach)) && Resolves(Swept(table, reach), paths)
    ensures TableResolves(table) && Resolves(table, paths) ==> reach <= table.Keys
  {
    assert TableResolves(table) ==> Closed(table, table.Keys);
  }

  /** What can be reached always exists: what every closed set around the root has in common. */
  lemma ReachableExists(table: Table, root: Json) returns (s: set<string>)
    requires TableResolves(table) && Resolves(table, root)
    ensures IsReachable(table, root, s) && s <= table.Keys
  {
    hide Refs;
    assert Closed(table, table.Keys);
    s := set x | x in table.Keys && forall t :: Around(table, root, t) ==> x in t;
    assert Around(table, root, table.Keys);
    forall x | x in s ensures Refs(table[x]) <= s {
      forall y | y in Refs(table[x]) ensures y in s {
        forall t | Around(table, root, t) ensures y in t { assert x in t && Refs(table[x]) <= t; }
      }
    }
    forall y | y in Refs(root) ensures y in s {
      forall t | Around(table, root, t) ensures y in t { }
    }
    forall t | Refs(root) <= t && Closed(table, t) ensures s <= t { assert Around(table, root, t); }
  }

  ghost predicate Around(table: Table, root: Json, t: set<string>) { Refs(root) <= t && Closed(table, t) }

  /** What could be reached before a redirection is reached, redirected, afterwards. */
  lemma RedirectedIsReached(before: Table, after: Table, to: Redirects, root: Json, r: set<string>, r': set<string>)
    requires Redirected(before, after, to) && TableResolves(before) && Resolves(before, root) && PlainAnnotations(before)
    requires IsReachable(before, root, r) && IsReachable(after, RewriteRefs(to, root), r')
    ensures RedirectAll(to, r) <= r'
  {
    hide Refs, RewriteRefs, SameStructure, Redirected, PlainAnnotations;
    var s := set x | x in before && Redirect(to, x) in r';
    RefsAfter(to, root);
    forall y | y in Refs(root) ensures y in s { assert Redirect(to, y) in RedirectAll(to, Refs(root)); }
    forall x, y | x in s && y in Refs(before[x]) ensures y in s {
      NameRedirected(before, after, to, x);
      var copy :| CopyOf(before, x, copy) && after[Redirect(to, x)] == RewriteRefs(to, before[copy]);
      if copy != x { SameStructureRefs(before, copy, x); }
      RefsAfter(to, before[copy]);
      assert Redirect(to, y) in RedirectAll(to, Refs(before[copy]));
    }
    assert Closed(before, s);
  }

  lemma MergedStaysPlain(table: Table, names: seq<string>)
    requires (forall x :: x in names ==> x in table) && PlainAnnotations(table)
    ensures PlainAnnotations(MergedTable(table, names))
  {
    hide Refs, RewriteRefs, Merges, MergedTable;
    var to, merged := Merges(table, names), MergedTable(table, names);
    forall y | y in merged && merged[y].Obj?
      ensures forall k :: k in merged[y].fields && k in ANNOTATIONS ==> Refs(merged[y].fields[k]) == {}
    {
      var x := MergedFrom(table, names, y);
      AnnotationsStayPlain(to, table[x]);
    }
  }

  lemma AnnotationsStayPlain(to: Redirects, j: Json)
    requires j.Obj? ==> forall k :: k in j.fields && k in ANNOTATIONS ==> Refs(j.fields[k]) == {}
    ensures var j' := RewriteRefs(to, j);
      j'.Obj? ==> forall k :: k in j'.fields && k in ANNOTATIONS ==> Refs(j'.fields[k]) == {}
  {
    if j.Obj? {
      forall k | k in j.fields && k in ANNOTATIONS ensures Refs(RewriteRefs(to, j).fields[k]) == {} {
        assert RewriteRefs(to, j).fields[k] == RewriteMember(to, j.fields, k);
        RewriteKept(to, j.fields[k]);
      }
    }
  }

  /** From merge to sweep: every schema whose references the paths reach, directly or through
      other components, keeps its meaning, and nothing dangles. */
  lemma PipelinePreserves(table: Table, names: seq<string>, paths: Json, reached: set<string>, reach: set<string>, leaf: Leaf, schema: Json, v: Json, n: nat)
    requires forall x :: x in names ==> x in table
    requires NothingOverwritten(table, names) && Unchained(Merges(table, names)) && PlainAnnotations(table)
    requires TableResolves(table) && Resolves(table, paths)
    requires IsReachable(table, paths, reached) && Refs(schema) <= reached && Indifferent(Merges(table, names), table, schema, v)
    requires
      var merged, paths' := MergedTable(table, names), RewriteRefs(Merges(table, names), paths);
      && IsReachable(RenamedTable(merged), RewriteRefs(EncodedRenames(merged), paths'), reach)
      && Indifferent(EncodedRenames(merged), merged, RewriteRefs(Merges(table, names), schema), v)
    ensures
      var merged, schema' := MergedTable(table, names), RewriteRefs(Merges(table, names), schema);
      var kept := Swept(RenamedTable(merged), reach);
      && TableResolves(kept) && kept.Keys == reach
      && Accepts(kept, leaf, RewriteRefs(EncodedRenames(merged), schema'), v, n) == Accepts(table, leaf, schema, v, n)
  {
    hide MergedTable, RenamedTable, Merges, EncodedRenames, RewriteRefs, Refs, NothingOverwritten, Unchained, TableResolves, Accepts;
    hide PlainAnnotations, IsReachable, Redirected, Indifferent;
    var to, merged := Merges(table, names), MergedTable(table, names);
    var to', renamed := EncodedRenames(merged), RenamedTable(merged);
    var paths', schema' := RewriteRefs(to, paths), RewriteRefs(to, schema);
    var paths'', schema'' := RewriteRefs(to', paths'), RewriteRefs(to', schema');
    SweepResolves(table, paths, reached);
    MergeIsRedirect(table, names);
    MergedResolves(table, names);
    RedirectedResolves(table, merged, to, paths);
    RedirectedResolves(table, merged, to, schema);
    RenameIsRedirect(merged);
    RenamedResolves(merged);
    RedirectedResolves(merged, renamed, to', paths');
    SweepResolves(renamed, paths'', reach);
    MergedStaysPlain(table, names);
    MergePreserves(table, names, leaf, schema, v, n);
    RenamePreserves(merged, leaf, schema', v, n);

    var mid := ReachableExists(merged, paths');
    RedirectedIsReached(table, merged, to, paths, reached, mid);
    RedirectedIsReached(merged, renamed, to', paths', mid, reach);
    RefsInside(to, schema, reached, mid);
    RefsInside(to', schema', mid, reach);
    SweepPreserves(renamed, Swept(renamed, reach), leaf, schema'', v, n);
  }

  lemma RefsInside(to: Redirects, schema: Json, r: set<string>, r': set<string>)
    requires Refs(schema) <= r && RedirectAll(to, r) <= r'
    ensures Refs(RewriteRefs(to, schema)) <= r'
  {
    RefsAfter(to, schema);
    forall x | x in Refs(schema) ensures Redirect(to, x) in RedirectAll(to, r) { }
  }

  // ------------------------------------------------------------ the passes, step by step

  lemma OneMoreCopy(names: seq<string>, i: nat, base: string)
    requires i < |names|
    ensures CopiesOf(names[..i + 1], base) ==
      CopiesOf(names[..i], base) + (if IsNumbered(names[i]) && Base(names[i]) == base then [names[i]] else [])
  {
    assert names[..i + 1][..i] == names[..i];
  }

  /** The numbered names by base; `names` is the table's key order. */
  method GroupNames(names: seq<string>) returns (groups: map<string, seq<string>>)
    ensures forall base :: Listed(groups, base) == CopiesOf(names, base)
  {
    hide IsNumbered, Base, CopiesOf;
    groups := map[];
    NoNames();
    for i := 0 to |names|
      invariant forall base :: Listed(groups, base) == CopiesOf(names[..i], base)
    {
      var name := names[i];
      ghost var before := groups;
      if IsNumbered(name) {
        groups := Push(groups, Base(name), name);
      }
      forall base ensures Listed(groups, base) == CopiesOf(names[..i + 1], base) {
        OneMoreCopy(names, i, base);
        assert Listed(before, base) == CopiesOf(names[..i], base);
      }
    }
    assert names[..|names|] == names;
  }

  lemma NoNames()
    ensures forall base :: CopiesOf([], base) == []
  {}

  /** The part of a decision about bases that are no longer to do. */
  function Decided(to: Redirects, todo: set<string>): Redirects {
    map x | x in to && to[x] !in todo :: to[x]
  }

  function AliasesOf(table: Table, names: seq<string>, base: string): Redirects {
    var group := Group(table, names, base);
    if Mergeable(table, names, base) then map x | x in group && x != group[0] :: base else map[]
  }

  function RenamesOf(table: Table, names: seq<string>, base: string): Redirects {
    var group := Group(table, names, base);
    if Mergeable(table, names, base) && !IsObject(table, base) then map[group[0] := base] else map[]
  }

  /** A merged copy other than the canonical one, told by its base's group. */
  lemma AliasIn(table: Table, names: seq<string>, base: string, x: string)
    ensures x in AliasesOf(table, names, base) <==> x in MergeAliases(table, names) && Base(x) == base
  {
    hide Group, IsNumbered;
    GroupMembers(table, names, base);
    if Mergeable(table, names, base) { MergeableHasFirst(table, names, base); }
  }

  lemma RenameIn(table: Table, names: seq<string>, base: string, x: string)
    ensures x in RenamesOf(table, names, base) <==> x in MergeRenames(table, names) && Base(x) == base
  {
    hide Group, IsNumbered;
    GroupMembers(table, names, base);
    if Mergeable(table, names, base) { MergeableHasFirst(table, names, base); }
    if IsNumbered(x) { BaseIsShorter(x); }
  }

  lemma DecideBase(table: Table, names: seq<string>, todo: set<string>, base: string)
    requires base in todo
    ensures Decided(MergeAliases(table, names), todo - {base})
         == Decided(MergeAliases(table, names), todo) + AliasesOf(table, names, base)
    ensures Decided(MergeRenames(table, names), todo - {base})
         == Decided(MergeRenames(table, names), todo) + RenamesOf(table, names, base)
  {
    hide IsNumbered, Base, Mergeable, Group;
    forall x ensures x in AliasesOf(table, names, base) <==> x in MergeAliases(table, names) && Base(x) == base {
      AliasIn(table, names, base, x);
    }
    forall x ensures x in RenamesOf(table, names, base) <==> x in MergeRenames(table, names) && Base(x) == base {
      RenameIn(table, names, base, x);
    }
    DecideMap(MergeAliases(table, names), AliasesOf(table, names, base), todo, base);
    DecideMap(MergeRenames(table, names), RenamesOf(table, names, base), todo, base);
  }

  lemma DecideMap(to: Redirects, part: Redirects, todo: set<string>, base: string)
    requires base in todo
    requires forall x :: x in part <==> x in to && to[x] == base
    requires forall x :: x in part ==> part[x] == base
    ensures Decided(to, todo - {base}) == Decided(to, todo) + part
  {}

  /** Which copies are dropped for their base, and which are promoted to it. */
  method DecideMerges(table: Table, names: seq<string>) returns (aliases: Redirects, renames: Redirects)
    ensures aliases == MergeAliases(table, names) && renames == MergeRenames(table, names)
  {
    hide IsNumbered, Base, MergeAliases, MergeRenames, AliasesOf, RenamesOf, Decided, CopiesOf;
    var groups := GroupNames(names);
    aliases, renames := map[], map[];
    var todo := groups.Keys;
    NoneDecided(table, names, groups);
    while todo != {}
      invariant todo <= groups.Keys
      invariant aliases == Decided(MergeAliases(table, names), todo)
      invariant renames == Decided(MergeRenames(table, names), todo)
      decreases todo
    {
      var base :| base in todo;
      DecideBase(table, names, todo, base);
      todo := todo - {base};
      assert Listed(groups, base) == groups[base];
      aliases, renames := DecideOne(table, names, base, groups[base], aliases, renames);
    }
    AllDecided(MergeAliases(table, names));
    AllDecided(MergeRenames(table, names));
  }

  method DecideOne(table: Table, ghost names: seq<string>, base: string, copies: seq<string>, aliases: Redirects, renames: Redirects)
    returns (aliases': Redirects, renames': Redirects)
    requires copies == CopiesOf(names, base)
    ensures aliases' == aliases + AliasesOf(table, names, base)
    ensures renames' == renames + RenamesOf(table, names, base)
  {
    hide AllAgree, CopiesOf, GroupOf;
    var group := GroupOf(table, base, copies);
    aliases', renames' := aliases, renames;
    if AllAgree(table, group) {
      MergeableHasFirst(table, names, base);
      if !IsObject(table, base) { renames' := renames'[group[0] := base]; }
      aliases' := AliasAll(aliases', group, base);
    }
  }

  lemma AllDecided(to: Redirects)
    ensures Decided(to, {}) == to
  {}

  lemma NoneDecided(table: Table, names: seq<string>, groups: map<string, seq<string>>)
    requires forall base :: Listed(groups, base) == CopiesOf(names, base)
    ensures Decided(MergeAliases(table, names), groups.Keys) == map[]
    ensures Decided(MergeRenames(table, names), groups.Keys) == map[]
  {
    hide IsNumbered, Mergeable, Group, Base;
    forall x | x in Merges(table, names) ensures Base(x) in groups {
      assert x in CopiesOf(names, Base(x)) && Listed(groups, Base(x)) == CopiesOf(names, Base(x));
    }
  }

  method AliasAll(aliases: Redirects, group: seq<string>, base: string) returns (r: Redirects)
    requires group != []
    ensures r == aliases + map x | x in group && x != group[0] :: base
  {
    r := aliases;
    for i := 0 to |group|
      invariant r == aliases + map x | x in group[..i] && x != group[0] :: base
    {
      assert group[..i + 1] == group[..i] + [group[i]];
      if group[i] != group[0] { r := r[group[i] := base]; }
    }
    assert group[..|group|] == group;
  }

  lemma MergesSplit(table: Table, names: seq<string>)
    ensures MergeRenames(table, names) + MergeAliases(table, names) == Merges(table, names)
  {
    hide Group, Mergeable, IsNumbered, Base;
  }

  // ------------------------------------------------------------ the document

  /** The two parts of the OpenAPI document the passes rewrite in place. */
  class Document {
    var paths: Json
    var schemas: Table

    constructor (paths: Json, schemas: Table)
      ensures this.paths == paths && this.schemas == schemas
    {
      this.paths, this.schemas := paths, schemas;
    }

    /** `rewrite(doc)`: redirects every reference in the document. */
    method Rewrite(to: Redirects)
      modifies this
      ensures paths == RewriteRefs(to, old(paths)) && schemas == RewriteTable(to, old(schemas))
    {
      paths := RewriteRefs(to, paths);
      var todo := schemas.Keys;
      while todo != {}
        invariant todo <= schemas.Keys == old(schemas).Keys && paths == RewriteRefs(to, old(paths))
        invariant forall x :: x in schemas ==>
          schemas[x] == if x in todo then old(schemas)[x] else RewriteRefs(to, old(schemas)[x])
        decreases todo
      {
        var x :| x in todo;
        todo := todo - {x};
        schemas := schemas[x := RewriteRefs(to, schemas[x])];
      }
    }

    method MergeDuplicateComponents(names: seq<string>)
      requires forall x :: x in names <==> x in schemas
      modifies this
      ensures paths == RewriteRefs(Merges(old(schemas), names), old(paths))
      ensures schemas == MergedTable(old(schemas), names)
    {
      hide IsNumbered, Base, Mergeable, Group, RewriteRefs, RenameKeys;
      var aliases, renames := DecideMerges(schemas, names);
      MergesSplit(schemas, names);
      RenamesAreSafe(schemas, names);
      Rewrite(renames + aliases);
      schemas := RenameInTurn(schemas, renames);
      schemas := schemas - aliases.Keys;
    }

    method RenameEncodedComponents()
      modifies this
      ensures paths == RewriteRefs(EncodedRenames(old(schemas)), old(paths))
      ensures schemas == RenamedTable(old(schemas))
    {
      hide RewriteRefs, EncodedBase, RenameKeys;
      var renames := EncodedRenames(schemas);
      forall x, y | x in renames && y in renames && renames[x] == renames[y] ensures x == y {
        RenamesAreFresh(schemas, x, y);
      }
      Rewrite(renames);
      schemas := RenameInTurn(schemas, renames);
    }

    /** Drops the components the paths cannot reach; answers the reachable names that do not exist. */
    method SweepUnreachableSchemas() returns (dangling: set<string>, ghost reach: set<string>)
      modifies `schemas
      ensures IsReachable(old(schemas), paths, reach)
      ensures schemas == Swept(old(schemas), reach)
      ensures dangling == reach - schemas.Keys
    {
      var reachable := Walk(schemas, paths, {});
      reach := reachable;
      forall t | Refs(paths) <= t && Closed(schemas, t) ensures reach <= t { assert reach <= {} + t; }
      var todo := schemas.Keys;
      while todo != {}
        invariant todo <= old(schemas).Keys
        invariant schemas == map x | x in old(schemas) && (x in reach || x in todo) :: old(schemas)[x]
        decreases todo
      {
        var name :| name in todo;
        todo := todo - {name};
        if name !in reachable { schemas := schemas - {name}; }
      }
      dangling := set x | x in reachable && x !in schemas;
    }
  }
}
