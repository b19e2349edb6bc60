/** The rewriting passes one after another (scripts/generate-ios-openapi.ts, `render`): unions are
    collapsed, the error envelope is added, numbered copies are merged, the suffix is dropped and what
    the paths do not reach is swept away. An answer the published schema accepted is accepted, as it is
    read, by the schema that is left for it. */
module Pipeline {
  import opened Answers
  import opened Components
  import opened JsonSchema
  import opened References
  import opened UnionCollapse
  import opened Visiting
  import opened Wrappers

  const ERROR_ENVELOPE := "MapleErrorEnvelope"

  /** The visited components and the envelope every error response names afterwards. */
  function CollapsedTable(table: Table, depth: nat, envelope: Json): Table
    requires forall x :: x in table ==> Visit(table, table[x], depth).Some?
  {
    VisitedTable(table, depth)[ERROR_ENVELOPE := envelope]
  }

  /** The document that is left once copies are merged, the suffix is dropped and the rest is swept. */
  ghost function Final(table: Table, names: seq<string>, reach: set<string>): Table
    requires forall x :: x in names ==> x in table
  {
    Swept(RenamedTable(MergedTable(table, names)), reach)
  }

  /** A part of the document, with the references of the final one. */
  ghost function Republished(table: Table, names: seq<string>, j: Json): Json
    requires forall x :: x in names ==> x in table
  {
    RewriteRefs(EncodedRenames(MergedTable(table, names)), RewriteRefs(Merges(table, names), j))
  }

  /** When the passes after the collapse keep what the schema says of a value: no merge target is
      merged away itself, no component is overwritten, no annotation holds a reference, and either no
      `enum` lists what is redirected or the value names neither sources nor targets. */
  ghost predicate Kept(table: Table, names: seq<string>, schema: Json, v: Json) {
    && (forall x :: x in names ==> x in table)
    && NothingOverwritten(table, names) && Unchained(Merges(table, names)) && PlainAnnotations(table)
    && Indifferent(Merges(table, names), table, schema, v)
    && Indifferent(EncodedRenames(MergedTable(table, names)), MergedTable(table, names), RewriteRefs(Merges(table, names), schema), v)
  }

  /** The sweep marks what the paths reach, and before any renaming they reached the schema's references. */
  ghost predicate Reaches(table: Table, names: seq<string>, paths: Json, reached: set<string>, reach: set<string>, schema: Json) {
    && (forall x :: x in names ==> x in table)
    && Resolves(table, paths) && IsReachable(table, paths, reached) && Refs(schema) <= reached
    && IsReachable(RenamedTable(MergedTable(table, names)), Republished(table, names, paths), reach)
  }

  /** From the published document to the final one: an accepted answer whose nulls may be left out is
      accepted, as it is read, by what the final document has in the schema's place. */
  lemma WholePipelineAccepts(table: Table, depth: nat, envelope: Json, names: seq<string>, paths: Json, reached: set<string>,
    reach: set<string>, leaf: Leaf, schema: Json, v: Json, n: nat, levels: nat)
    requires Walked(table, depth) && Tolerant(leaf) && Refs(envelope) == {} && ERROR_ENVELOPE !in VisitedTable(table, depth)
    requires Visit(table, schema, depth).Some? && Resolves(VisitedTable(table, depth), Visit(table, schema, depth).value)
    requires Kept(CollapsedTable(table, depth, envelope), names, Visit(table, schema, depth).value, Read(table, schema, v, levels))
    requires Reaches(CollapsedTable(table, depth, envelope), names, paths, reached, reach, Visit(table, schema, depth).value)
    requires Accepts(table, leaf, schema, v, n) && NullsOptional(table, schema, v, levels)
    ensures
      var collapsed := CollapsedTable(table, depth, envelope);
      var final := Final(collapsed, names, reach);
      && TableResolves(final) && final.Keys == reach
      && Accepts(final, leaf, Republished(collapsed, names, Visit(table, schema, depth).value), Read(table, schema, v, levels), n)
  {
    hide Visit, Accepts, Refs, TableResolves, VisitedTable, Read, NullsOptional, Tolerant;
    hide MergedTable, RenamedTable, Merges, EncodedRenames, RewriteRefs, NothingOverwritten, Unchained, PlainAnnotations, IsReachable, Indifferent;
    var after, collapsed := VisitedTable(table, depth), CollapsedTable(table, depth, envelope);
    var visited, r := Visit(table, schema, depth).value, Read(table, schema, v, levels);
    ReadAnswerAccepted(table, depth, leaf, schema, depth, v, n, levels);
    SweepPreserves(collapsed, after, leaf, visited, r, n);
    EnvelopeResolves(after, envelope);
    PipelinePreserves(collapsed, names, paths, reached, reach, leaf, visited, r, n);
  }

  lemma EnvelopeResolves(after: Table, envelope: Json)
    requires TableResolves(after) && Refs(envelope) == {}
    ensures TableResolves(after[ERROR_ENVELOPE := envelope])
  {
    hide Refs;
  }
}
