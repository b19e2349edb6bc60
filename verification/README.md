# Proofs about Maple's scripts and workers

This project models seven parts of the Maple repository that carry an algorithm or a protocol, and
proves what they promise. Each module stands beside one source file or one step of it.

- **CI test planner** (`Order`, `Sums`, `Packing`, `Plan`, `Grouping`, `Affected`): which workspaces a
  diff can reach, and how suites are sharded and packed into lanes.
- **OpenAPI schema compiler** (`JsonSchema`, `UnionCollapse`, `Pieces`, `Rules`, `Visiting`, `WalkEnds`, `Answers`,
  `References`, `Components`, `Pipeline`): the passes that rewrite the iOS document. A schema's meaning is the set of JSON values
  it accepts, defined step by step so that recursive components are covered.
- **Trace simulator** (`Trace`, `CallTree`, `SinkModel`, `TraceBuilderModel`, `Metrics`, `PoolDebt`): the interpreter of
  call trees, the span trees it leaves behind, the metrics that must agree with them, and the error
  diffusion of pool timeouts.
- **Preview teardown** (`WorkerSweep`, `StageTeardown`): two sweeps over a cloud whose calls can be refused
  or fail.
- **Queue consumer and placed ticks** (`AuditQueue`, `TickDispatch`): at-least-once delivery, and an
  at-most-once hop between two invocations.
- **Org purge** (`Purge`): the lineage of a datasource, bucket-aligned deletes, restartable order.
- **Blame lines** (`MergeLines`): the canonical interval form of a set of lines.

`Wrappers` and `Text` hold what the modules share: a value that may be absent, and digits in names.

`dafny verify dfyconfig.toml` checks everything. Imperative code is modelled by methods with loops and by
classes with the source's fields; each method is tied to a specification function or states its result
outright, and the lemmas are about those specifications. An API that can fail is a class whose methods
answer arbitrarily within the stated rules; ghost fields record the calls made.

Where the code and its comments differ, the model follows the code:

- Merging numbered components is unfaithful in three ways: a base name is itself a numbered copy that gets merged
  (`A_1_2` beside `A_1`), a copy is promoted onto a component that is no object, or an `enum` lists a reference
  that is redirected. `Components.ChainedExample`, `Components.OverwrittenExample` and
  `References.EnumeratedReference` show one each. Under the hypotheses named in its row
  `Components.MergePreservesAllExactly` says that meanings are kept if and only if none of them happens.
- The walk that collapses unions goes on inside what it puts in the place of a reference. It ends if and only if
  no property schema leads back to itself that way (`WalkEnds.WalkEndsExactly`); a nullable list node that names
  itself is walked for ever (`WalkEnds.ListWalkNeverEnds`).
- A collapsed component that is put below `items` is not walked any more, so a reference inside it to another
  collapsed component is left dangling, which the sweep reports (`WalkEnds.ItemsLeaveDangling`).
- The comment on flattening constraint fragments says it loses nothing. It never refuses a value that was
  accepted; for the branded scalars it is made for it adds none if and only if no check is given two arguments
  (`UnionCollapse.FlatteningIsExactForBrands`, with `UnionCollapse.FlatteningLosesConflicts` as the example).
- Nullability moves from a collapsed schema to the key that owns it. An array element has no key: an array of plain
  elements and nulls stays accepted if and only if it has no `null` or the collapsed element schema still accepts one
  (`UnionCollapse.ItemsAcceptExactly`, with `UnionCollapse.NullItemIsLost` as the example).
- A failure logs one ERROR for the throw and one per service boundary it crosses. That is one per server span
  if and only if no service on its way calls itself (`Trace.OneLogPerServer`); `Trace.SelfCallLogsOnce` is a
  trace where it is fewer.
- The Worker sweep succeeds exactly when what it deletes is used by nothing else
  (`WorkerSweep.Sweep.Run`, `SelfContained`), which its comments take for granted;
  `WorkerSweep.SharedQueueStays` is a cloud it cannot finish.

## Model

| member | source | states |
|---|---|---|
| Affected.AffectedWorkspaces | scripts/ci/plan-tests.ts:114-139 | the answer is undefined exactly when some changed file that tests read lies in no workspace; otherwise it is the least set with the direct owners and the declared root-input owners that is closed under dependents |
| Affected.StartsExactly | scripts/ci/plan-tests.ts:120-126 | a changed file starts the walk at a workspace exactly when tests read it and it matches an input that workspace declares or lies first in its directory; the answer is undefined exactly when some file that tests read lies in no directory |
| Affected.InertExactly | scripts/ci/plan-tests.ts:25-27 | exactly files under `docs/` and Markdown files at the root are read by no test |
| Affected.DependentsOf | scripts/ci/plan-tests.ts:127-129 | the map lists a workspace under a name exactly when it declares that dependency |
| Affected.AffectedIsUnique | scripts/ci/plan-tests.ts:109-118 | the least set is one set, so the answer does not depend on the order the queue is walked in |
| Affected.AffectedIsMonotone | scripts/ci/plan-tests.ts:114-139 | more changed files never affect fewer workspaces, with "all" as the top |
| Affected.AffectedIsReached | scripts/ci/plan-tests.ts:130-137 | a workspace is affected exactly when a chain of declared dependencies leads from it to a touched one |
| Packing.Pack | scripts/ci/plan-tests.ts:160-184 | the groups built in place, with their names, seconds and Bun filters, are the bins of first fit over the suites sorted heaviest first and by name |
| Packing.BinsKeepItems | scripts/ci/plan-tests.ts:166-182 | packing loses and duplicates no suite |
| Packing.NoTwoLanesMerge | scripts/ci/plan-tests.ts:167-178 | any two lanes the packer opens exceed the limit together |
| Packing.AtMostThreeHalvesOfAnyPacking | scripts/ci/plan-tests.ts:160-184 | first fit decreasing opens at most 3/2 times the lanes of any packing of the same suites under TARGET_SECONDS |
| Order.SortSorts | scripts/ci/plan-tests.ts:165 | sorting by a total preorder gives a sorted permutation |
| Order.SortIsStable | scripts/generate-ios-openapi.ts:683 | elements that tie keep their order |
| Order.SortIgnoresOrder | scripts/ci/plan-tests.ts:165-189 | sorting forgets the input order when no two elements tie |
| Plan.PlanTests | scripts/ci/plan-tests.ts:186-221 | the loops produce the specified lanes, or the matrix error above 256 lanes; what those lanes run is in the rows below |
| Plan.Shards | scripts/ci/plan-tests.ts:197-198 | the least number of shards whose shares each fit a lane; one exactly when the suite fits a lane |
| Plan.ShardedBeyond | scripts/ci/plan-tests.ts:10-22 | with the measured rates a Vitest suite is sharded exactly above 59 files for the API, 85 for the backend, 123, 302, 302 and 340 for the others measured, and 226 for any other |
| Plan.ShardsShareFiles | scripts/ci/plan-tests.ts:190-197 | the number of shards is the least that leaves each at most 136 seconds of the suite's files |
| Plan.LanesRunSuites | scripts/ci/plan-tests.ts:160-214 | every lane runs one shard, with its own index and count as `--shard` argument and its share of the time, or whole suites without such an argument, the Bun suites among them listed and their seconds added up |
| Plan.EveryShardRunsOnce | scripts/ci/plan-tests.ts:202-211 | with unique names exactly one lane asks for shard i of n of a sharded suite, for each i in 1..n |
| Plan.LanesAreNamedApart | scripts/ci/plan-tests.ts:170-204 | no two lanes of the matrix share a name |
| Plan.LaneBrowser | scripts/ci/plan-tests.ts:215-217 | a lane's browser workspace is that of the first of its suites that needs one, and empty if none does |
| Plan.PlanRunsEverySuite | scripts/ci/plan-tests.ts:189-214 | summed over all lanes, each name is run once per unsharded suite and once per shard of a sharded one |
| Plan.EverySuiteRunsOnce | scripts/ci/plan-tests.ts:189-214 | with unique names an unsharded suite is in exactly one lane, a sharded one in as many as it has shards |
| Plan.PlanHasEveryShard | scripts/ci/plan-tests.ts:202-211 | one lane for each index 1..n of a sharded suite, none for any other shard |
| Plan.EveryLaneFits | scripts/ci/plan-tests.ts:186-221 | every lane is within TARGET_SECONDS unless it holds one oversized Bun suite |
| Plan.PlanIgnoresOrder | scripts/ci/plan-tests.ts:186-221 | with unique names the plan is the same for every permutation of the suites |
| UnionCollapse.NullableInnerRelaxes | scripts/generate-ios-openapi.ts:402-412 | dropping the null branch keeps every non-null value |
| UnionCollapse.FiniteNumberRelaxes | scripts/generate-ios-openapi.ts:425-454 | dropping the non-finite branch keeps every value but the three strings |
| UnionCollapse.MergedStringEnumRelaxes | scripts/generate-ios-openapi.ts:465-481 | merging string enums keeps every accepted value |
| UnionCollapse.WidenedStringRelaxes | scripts/generate-ios-openapi.ts:490-506 | a widened string union keeps every accepted value |
| UnionCollapse.FlattenedAllOfRelaxes | scripts/generate-ios-openapi.ts:522-538 | flattening constraint fragments keeps every accepted value |
| UnionCollapse.FlattenedAllOfIsExact | scripts/generate-ios-openapi.ts:522-538 | it adds none either, for any schema in which no fragment's keyword is given two arguments |
| UnionCollapse.FlatteningIsExactForBrands | scripts/generate-ios-openapi.ts:508-538 | for one type beside scalar checks, whose fragments are scalar checks: flattening adds no value, however checks are judged, if and only if no check is given two arguments |
| UnionCollapse.FlatteningLosesConflicts | scripts/generate-ios-openapi.ts:516-537 | with two arguments the last wins: a concrete schema and value that gets in |
| UnionCollapse.SingleBranchRelaxes | scripts/generate-ios-openapi.ts:545-555 | unwrapping a one-branch union keeps every accepted value |
| Rules.CollapsesExactly | scripts/generate-ios-openapi.ts:272-297 | a schema is collapsed if and only if it is a union with one null branch, of a number and the three strings, of string enums, of plain strings, or of one branch, or has an `allOf` of constraints |
| Rules.StopsWhenSettled | scripts/generate-ios-openapi.ts:277-294 | peeling ends before its passes are used up only at a schema that is none of these |
| Rules.NullableAddsNothing | scripts/generate-ios-openapi.ts:402-412 | where no branch repeats a constraint beside the union, peeling null off lets no value in |
| Rules.FiniteAddsNothing | scripts/generate-ios-openapi.ts:425-454 | nor does dropping the three strings, when branches are written out or bare references |
| Rules.SingleAddsNothing | scripts/generate-ios-openapi.ts:545-555 | nor does unwrapping a union of one |
| Rules.StringsStayStrings | scripts/generate-ios-openapi.ts:465-506 | a merged enum accepts only strings some branch lists, a widened one only strings |
| Rules.FlatteningKeeps | scripts/generate-ios-openapi.ts:522-538 | flattening keeps each keyword beside `allOf`, and takes every other from the last fragment that has it |
| Rules.OnlyNullMakesOptional | scripts/generate-ios-openapi.ts:319-351 | where neither the schema nor any component has a union with a null branch, resolving finds nothing nullable |
| UnionCollapse.CollapseUnion | scripts/generate-ios-openapi.ts:272-297 | the eight-pass loop computes the specified peeling |
| UnionCollapse.CollapseRelaxes | scripts/generate-ios-openapi.ts:272-297 | whatever the loop returns is a sound relaxation; null may be lost only under the nullable flag |
| UnionCollapse.CollapseComponents | scripts/generate-ios-openapi.ts:302-317 | the aliases are exactly the object components that collapse, and those leave the table |
| UnionCollapse.ResolveSchema | scripts/generate-ios-openapi.ts:327-351 | the sixteen-pass loop with its seen set computes the specified resolution |
| UnionCollapse.ResolveRelaxes | scripts/generate-ios-openapi.ts:319-351 | through aliases and all rules: every plain value stays accepted, and null does unless the nullable flag is set |
| UnionCollapse.VisitedPropertiesAccept | scripts/generate-ios-openapi.ts:358-372 | an accepted object stays valid once its nullable null members are deleted, if the keywords beside `properties` and `required`, unions included, accept what is left |
| UnionCollapse.ItemsAcceptExactly | scripts/generate-ios-openapi.ts:380-389 | below `items` an accepted array of plain elements and nulls stays accepted, at some step, if and only if it has no null or the collapsed element schema accepts null at some step |
| UnionCollapse.TypedItemsAcceptExactly | scripts/generate-ios-openapi.ts:380-389 | if the collapsed element schema has a `type` that does not name null, such an array stays accepted if and only if it has no null |
| UnionCollapse.ItemsStillAccept | scripts/generate-ios-openapi.ts:380-389 | within the same number of steps, when its elements are plain, or null where the element schema was not nullable |
| UnionCollapse.NullItemIsLost | scripts/generate-ios-openapi.ts:387-389 | an accepted array with a null in it that is refused afterwards |
| Visiting.VisitNode | scripts/generate-ios-openapi.ts:353-390 | the recursive walk with its loops over properties, parameters and members: every property is resolved and then walked, nullable ones leave `required`, and each node is resolved last; it answers as the specification does, at every depth |
| Visiting.ObjectVisited | scripts/generate-ios-openapi.ts:353-390 | an object becomes what its walked members resolve to: each property the walk of what it resolves to, each parameter its resolved schema and optional exactly where that was found nullable, enumerations as they were, every other member walked; nothing else is added or lost |
| Visiting.RequiredExactly | scripts/generate-ios-openapi.ts:358-372 | a name is required afterwards if and only if it was and its property was not found nullable |
| Visiting.VisitRelaxes | scripts/generate-ios-openapi.ts:353-390 | wherever the walk ends, it refuses no accepted value that is free of null and the three strings at every depth, through properties, unions, items and every other keyword |
| WalkEnds.DepthIndependent | scripts/generate-ios-openapi.ts:353-390 | a walk that ends within some depth has the same result within any larger one |
| WalkEnds.ListWalkNeverEnds | scripts/generate-ios-openapi.ts:353-390 | the walk of a list node whose nullable component names itself ends within no depth |
| WalkEnds.WalkEndsExactly | scripts/generate-ios-openapi.ts:353-390 | where enumerations list scalars: the walk of a schema ends if and only if its property schemas can be ranked so that the rank falls from each one to those met in what it resolves to, that is, none leads back to itself |
| WalkEnds.RankedWalkEnds | scripts/generate-ios-openapi.ts:250-393 | if the components that can be put in the place of a reference have a rank that falls along such references inside what they collapse to, the walk of the document and of all components ends |
| WalkEnds.ItemsLeaveDangling | scripts/generate-ios-openapi.ts:380-389 | a document where a collapsed component below `items` brings along a reference to another collapsed component |
| Visiting.RelaxedTable | scripts/generate-ios-openapi.ts:250-262 | reading references in relaxed components instead of the original ones refuses no such value either, cyclic components included, while no reference dangles |
| Visiting.VisitedDocumentAccepts | scripts/generate-ios-openapi.ts:250-393 | so with all components visited and the collapsed ones deleted the whole pass is a sound relaxation at every depth, if the walk ends and nothing dangles |
| WalkEnds.RankedDocumentAccepts | scripts/generate-ios-openapi.ts:250-393 | on a document ranked as above the walk ends within some depth, and if nothing dangles afterwards the pass is a sound relaxation |
| Answers.ReadAnswerAccepted | scripts/generate-ios-openapi.ts:246-393 | an accepted answer whose nulls are those of nullable properties, at any depth along properties, items and references, is accepted by the visited schema in the visited document once it is read without them; checks outside the fragment must not look into objects and lists, and no union, `allOf` or `enum` may stand on the way to a null, the one that makes a property nullable apart |
| References.RedirectPreserves | scripts/generate-ios-openapi.ts:704-718 | redirecting every reference consistently, over possibly cyclic components, keeps exactly the accepted values: all values when no `enum` lists a reference that is redirected, else the values that name neither sources nor targets |
| References.EnumKeptExactly | scripts/generate-ios-openapi.ts:704-718 | when no target is itself redirected, an `enum` lists the same values before and after if and only if it names nothing that is redirected |
| References.EnumeratedReference | scripts/generate-ios-openapi.ts:704-718 | a value that an `enum` lists, itself a reference, is accepted before a redirection and refused after it |
| References.RefsAfter | scripts/generate-ios-openapi.ts:704-718 | the references of a rewritten schema are the redirected ones |
| Components.NumberedNames | scripts/generate-ios-openapi.ts:668-673 | exactly the names `<base>_<digits>` with a non-empty base are numbered, with that base and the value of the digits |
| Components.MergedExactly | scripts/generate-ios-openapi.ts:662-702 | a copy `<base>_<digits>` is merged if and only if the base, as far as it is an object, and all its copies are objects equal but for title, description and examples |
| Components.OnlyCopiesMerged | scripts/generate-ios-openapi.ts:667-702 | nothing but such copies is merged, and each into the base its name begins with |
| Components.MissingBaseIsPromoted | scripts/generate-ios-openapi.ts:692-726 | where no object has the base's name, the base becomes the copy with the lowest number, the first listed among equals |
| Components.MergedIsGone | scripts/generate-ios-openapi.ts:721-727 | a merged copy is no component afterwards |
| Components.UnmergedStays | scripts/generate-ios-openapi.ts:704-727 | every other component stays, with its references redirected, if nothing is promoted onto one |
| Components.MergePreserves | scripts/generate-ios-openapi.ts:651-728 | without chained bases, and with no copy promoted onto an existing component, merging numbered copies changes no schema's meaning, recursive and mutually recursive components included; `enum` entries as for RedirectPreserves |
| Components.MergedResolves | scripts/generate-ios-openapi.ts:679-727 | and leaves no dangling reference |
| Components.ChainedReferenceDangles | scripts/generate-ios-openapi.ts:679-727 | where a base is itself merged away, references to its copies accept nothing |
| Components.ChainedExample | scripts/generate-ios-openapi.ts:665-727 | the smallest such document, `A`, `A_1`, `A_1_2`: a reference that accepted everything accepts nothing afterwards |
| Components.OverwrittenExample | scripts/generate-ios-openapi.ts:681-726 | a copy promoted onto a boolean schema replaces it, and references to it change their meaning |
| Components.MergePreservesExactly | scripts/generate-ios-openapi.ts:651-728 | supposing every merged copy accepts some value, and every copy promoted onto a component accepts one value and refuses another: all references keep their meaning for values without references if and only if no base is a merged copy and nothing is overwritten |
| Components.MergePreservesAllExactly | scripts/generate-ios-openapi.ts:651-728 | supposing also that merged copies are listed by an `enum` only at the top of components, and that such a component accepts a value that names one: all references keep their meaning for all values if and only if no base is a merged copy, nothing is overwritten and no component's `enum` lists a merged copy |
| Components.ObjectsAreNotOverwritten | scripts/generate-ios-openapi.ts:681-697 | where all components are objects no copy is promoted onto one |
| Components.MergingObjectsPreservesExactly | scripts/generate-ios-openapi.ts:651-728 | where all components are objects, and every merged copy accepts some value, meanings are kept if and only if no base is a merged copy: for values without references, and for all values where no `enum` lists a merged copy |
| Components.RenameInTurn | scripts/generate-ios-openapi.ts:721-727 | the sequential rename loop equals one simultaneous renaming |
| Components.RenamesAreFresh | scripts/generate-ios-openapi.ts:738-765 | the targets of dropping `Encoded` are new and pairwise distinct |
| Components.RenamedExactly | scripts/generate-ios-openapi.ts:739-744 | a component is renamed if and only if its name is a base and `Encoded` and the base is no component; it gets the base's name |
| Components.RenamedComponents | scripts/generate-ios-openapi.ts:746-764 | it is found under the new name only; the others stay; references are redirected in all of them |
| Components.RenamePreserves | scripts/generate-ios-openapi.ts:738-765 | dropping the suffix changes no schema's meaning |
| Components.RenamedResolves | scripts/generate-ios-openapi.ts:738-765 | and leaves no dangling reference |
| Components.Walk | scripts/generate-ios-openapi.ts:767-790 | the marking walk terminates on cyclic components and marks exactly what the node reaches beyond what was marked |
| Components.SweepPreserves | scripts/generate-ios-openapi.ts:790-801 | keeping a closed part of the table changes nothing for schemas inside it, for any value |
| Components.SweepResolves | scripts/generate-ios-openapi.ts:767-801 | when no reachable name is missing, every reference of the paths and the kept schemas resolves |
| Components.PipelinePreserves | scripts/generate-ios-openapi.ts:651-801 | merge, rename and sweep together keep the meaning of every schema whose references the paths reach, directly or through other components, in a document whose annotations hold no references, for `enum` entries as in RedirectPreserves; and nothing dangles |
| Pipeline.WholePipelineAccepts | scripts/generate-ios-openapi.ts:179-183 | collapse, error envelope, merge, rename and sweep in this order: an answer that a schema accepted is accepted, as it is read, by what the final document has in its place, under the conditions of its two halves; and nothing dangles |
| Components.Document.Rewrite | scripts/generate-ios-openapi.ts:704-718 | every reference of paths and components is redirected |
| Components.Document.MergeDuplicateComponents | scripts/generate-ios-openapi.ts:651-728 | grouping, deciding and rewriting in place yield the merged table and paths |
| Components.Document.RenameEncodedComponents | scripts/generate-ios-openapi.ts:738-765 | the in-place renaming yields the renamed table and paths |
| Components.Document.SweepUnreachableSchemas | scripts/generate-ios-openapi.ts:767-801 | exactly the components reachable from the paths stay; the reachable names that do not exist are reported |
| Trace.EverySpanHasItsParent | scripts/seed-demo/telemetry.ts:323-618 | every span but the root sits inside its parent's interval, or, for a consumer, starts no earlier than its producer ends |
| Trace.SingleRoot | scripts/seed-demo/telemetry.ts:323-327 | one span of a trace has no parent |
| Trace.SiblingsDoNotOverlap | scripts/seed-demo/telemetry.ts:344-352 | consecutive siblings do not overlap |
| Trace.ThrowsOnce | scripts/seed-demo/telemetry.ts:329-618 | in a synchronous region at most one exception is thrown, and an ERROR is logged only if it failed |
| Trace.FailureAccount | scripts/seed-demo/telemetry.ts:280-452 | one ERROR for the throw and one per service boundary crossed; each server span on the way records the thrown exception or an UpstreamError naming its callee |
| Trace.OneLogPerServer | scripts/seed-demo/telemetry.ts:386-419 | a failing tree logs one ERROR per server span its failure passed if and only if it passed one and no service on the way calls itself; else fewer |
| Trace.SelfCallLogsOnce | scripts/seed-demo/telemetry.ts:386-395 | a trace of a service that calls itself: two failed server spans, one ERROR |
| CallTree.SelfCallIsTraced | scripts/seed-demo/telemetry.ts:386-452 | that trace is one of a call tree of two calls, its hops as long as the code draws them |
| Trace.TraceFailsOnce | scripts/seed-demo/telemetry.ts:354-419 | a failed trace threw exactly once and its root is an error span; an unfailed one logged no ERROR |
| SinkModel.Sink.PutSpan | scripts/seed-demo/telemetry.ts:192-204 | the span joins its pod's group, after all earlier ones |
| SinkModel.Sink.PutRequest | scripts/seed-demo/telemetry.ts:206-218 | the request joins the aggregate of its pod, minute, verb, route and status, after all earlier ones, and no other changes |
| SinkModel.Sink.PutOrder | scripts/seed-demo/telemetry.ts:219-227 | the order joins its pod's minute |
| CallTree.NothingIsLost | scripts/seed-demo/telemetry.ts:329-618 | when no span carries an exception, the server spans of a run are exactly the call tree's server calls, by service and route, in order of completion, consumers included |
| CallTree.FailureShows | scripts/seed-demo/telemetry.ts:280-293 | a failure is never seen without an exception on some span below |
| TraceBuilderModel.TraceBuilder.RunOp | scripts/seed-demo/telemetry.ts:329-342 | each kind of call leaves the spans of its kind, in order and inside its caller's time, and the failure its caller sees is that of its last span |
| TraceBuilderModel.TraceBuilder.Children | scripts/seed-demo/telemetry.ts:344-352 | every child runs, one after the other, until the first failure, which is theirs as a whole |
| TraceBuilderModel.TraceBuilder.Server | scripts/seed-demo/telemetry.ts:354-419 | emits a well-formed server tree with its service, verb and route that starts on time; it fails with what failed inside, or by its own rule only if nothing did |
| TraceBuilderModel.TraceBuilder.Remote | scripts/seed-demo/telemetry.ts:421-452 | the client span holds the callee's span and passes its failure on under the callee's name |
| TraceBuilderModel.TraceBuilder.Db | scripts/seed-demo/telemetry.ts:459-500 | queries are client spans that follow each other and stop at the first failure, which needs a rule |
| TraceBuilderModel.TraceBuilder.External | scripts/seed-demo/telemetry.ts:502-534 | one client span without children that fails only if there is a rule |
| TraceBuilderModel.TraceBuilder.RunInternal | scripts/seed-demo/telemetry.ts:536-553 | one internal span contains the spans of its children and errors with them |
| TraceBuilderModel.TraceBuilder.Publish | scripts/seed-demo/telemetry.ts:556-618 | one producer span with one consumer of the right service below it; the caller never sees a failure, and the consumer starts after the producer ended |
| TraceBuilderModel.TraceBuilder.Run | scripts/seed-demo/telemetry.ts:323-327 | exactly the spans of one well-formed trace of the entry point are emitted, under fresh and distinct ids |
| Metrics.OneBucket | scripts/seed-demo/telemetry.ts:735-758 | every value lies in exactly one (lower, upper] bucket, as the Histogram section of the OpenTelemetry Metrics Data Model has it |
| Metrics.HistogramPoint | scripts/seed-demo/telemetry.ts:735-758 | bucket counts sum to the count, each is the number of values in its bucket; sum, min and max are those of the values |
| Metrics.BuildRequestMetrics | scripts/seed-demo/telemetry.ts:760-792 | every aggregate that a server span falls into has exactly one point, there are no others, and each has the count, bucket counts, sum and extremes of its spans; counts over all points sum to the requests served, over the 500 points to those answered 500 |
| Metrics.PointsTell | scripts/seed-demo/telemetry.ts:206-218 | read from the spans: each point's count, buckets, sum and extremes are those of the seconds from start to end of the server spans of its pod, verb, route and status that began in its minute; every server span falls under a point |
| Metrics.PointsSumUp | scripts/seed-demo/telemetry.ts:735-792 | the points' sums add up to the seconds of all server spans |
| Metrics.BuildOrderMetrics | scripts/seed-demo/telemetry.ts:854-867 | one point per pod and minute in which a consumer began and did not fail, with the number of those; they sum to the orders created |
| Metrics.StatusTellsInTrace | scripts/seed-demo/telemetry.ts:354-419 | a server span is an error exactly when it answered 500 |
| Metrics.FailedRequests | scripts/seed-demo/telemetry.ts:206-218 | the requests under status 500 are as many as the failed server spans |
| Metrics.GenerateTraces | scripts/seed-demo/telemetry.ts:662-680 | a window emits exactly the spans and ERROR logs of its traces, each of an entry point and begun between the window's start and the end of its last minute, which is the window's end for whole minutes, all ids distinct, and counts them and the failed ones |
| Metrics.GenerateWindow | scripts/seed-demo/telemetry.ts:662-686 | the points of a window are one per pod, minute, verb, route and status of the server spans it emitted, each with the count, bucket counts, sum and extremes of their seconds from start to end; sums add up to all their seconds, counts sum to the server spans, 500s to the failed ones, order points, one per pod and minute, to the consumers that did not fail, traceCount and errorTraceCount to the roots and failed roots |
| PoolDebt.Pool.TimesOut | scripts/seed-demo/scenario.ts:169-177 | a call fails exactly when the increment brings the debt of all earlier ones to 1; nothing happens outside an incident |
| PoolDebt.DebtIsBounded | scripts/seed-demo/scenario.ts:169-177 | the debt stays in [0, 1) on every run and accounts for all increments and failures |
| PoolDebt.FailuresAreWholePart | scripts/seed-demo/scenario.ts:164-177 | the failures so far are the floor of the summed increments |
| PoolDebt.FailuresAreSpaced | scripts/seed-demo/scenario.ts:164-177 | consecutive failures are 5 to 22 calls apart, whatever the wave and the draws |
| WorkerSweep.MatchesPreviewNames | scripts/cloudflare-worker-orphan-sweep.ts:86 | exactly the names `maple-<base>-pr-<digits>` with a non-empty base in which no `-dev-` begins match, with those digits as PR |
| WorkerSweep.DevStageNeverMatches | scripts/cloudflare-worker-orphan-sweep.ts:37-40 | a dev stage named like a PR never matches |
| WorkerSweep.Sweep.PrState | scripts/cloudflare-worker-orphan-sweep.ts:123-133 | one lookup and one verdict per PR, kept for all passes |
| WorkerSweep.Sweep.DetachRetiredQueues | scripts/cloudflare-worker-orphan-sweep.ts:136-206 | pass 1: exactly the retired candidates are remembered, and their consumers, and no others, are detached |
| WorkerSweep.Sweep.DeleteRetiredWorkers | scripts/cloudflare-worker-orphan-sweep.ts:208-248 | pass 2: the retired Workers that consume nothing go; failures are recorded exactly when one does |
| WorkerSweep.Sweep.DeleteRetiredQueues | scripts/cloudflare-worker-orphan-sweep.ts:250-260 | pass 3: the remembered queues that nothing binds go; failures are recorded exactly when one is bound |
| WorkerSweep.Sweep.Run | scripts/cloudflare-worker-orphan-sweep.ts:136-265 | under arbitrary answers every call names a PR found retired; with an API that only refuses by its rules the cloud ends as specified, and success is reported if and only if the deleted set is self-contained |
| WorkerSweep.FreeExactlyWhenSelfContained | scripts/cloudflare-worker-orphan-sweep.ts:21-31 | after pass 1 all deletions are allowed if and only if retired Workers consume only retired listed queues and only retired Workers bind those |
| WorkerSweep.SelfContainedSweepIsComplete | scripts/cloudflare-worker-orphan-sweep.ts:21-31 | then no retired Worker and no listed retired queue is left, and everything else is exactly as before |
| WorkerSweep.SharedQueueStays | scripts/cloudflare-worker-orphan-sweep.ts:21-31 | a retired queue that a live Worker binds: not self-contained, and the sweep leaves it |
| WorkerSweep.SweepTouchesNothingElse | scripts/cloudflare-worker-orphan-sweep.ts:33-41 | in any case what was not to be deleted stays unchanged |
| WorkerSweep.DeletionsAloneAreDeadlocked | scripts/cloudflare-worker-orphan-sweep.ts:21-31 | without pass 1 a Worker and a queue it binds and consumes survive every sequence of deletions |
| StageTeardown.MatchesNumberedNames | scripts/preview-stage-orphan-sweep.ts:55-56 | exactly the names of a prefix and digits match, with those digits as PR |
| StageTeardown.WorkerAndBucketAgree | scripts/preview-stage-orphan-sweep.ts:54-56 | a Worker whose name also matches the bucket pattern is of the same PR |
| StageTeardown.Teardown.Discover | scripts/preview-stage-orphan-sweep.ts:125-191 | when the listings answer, every preview Worker, every bucket of a one-page listing and, with Neon configured, every preview branch with an id makes its PR a candidate |
| StageTeardown.Teardown.RemovePage | scripts/preview-stage-orphan-sweep.ts:233-255 | one page of keys is deleted; an absent bucket, a failed call and an empty page are told apart |
| StageTeardown.Teardown.EmptyAndDeleteBucket | scripts/preview-stage-orphan-sweep.ts:228-264 | without failures and writers it succeeds exactly when the bucket is missing or holds at most 10,000 × 1,000 objects, and leaves exactly the rest otherwise |
| StageTeardown.Teardown.TearDown | scripts/preview-stage-orphan-sweep.ts:292-339 | nothing happens unless the PR is retired and no run is active; while the stack stands, branch and bucket stay as they are |
| StageTeardown.Teardown.Run | scripts/preview-stage-orphan-sweep.ts:266-345 | under any failures only condemned PRs lose anything, branch and bucket only after a successful destroy, and every standing stage still has its bucket; a faultless run finishes every condemned candidate and reports failure exactly for oversized buckets |
| StageTeardown.NarrowedKeepsDiscoverable | scripts/preview-stage-orphan-sweep.ts:12-20 | whatever part of a teardown happened, a standing stack keeps its bucket |
| StageTeardown.Nights | scripts/preview-stage-orphan-sweep.ts:12-20 | over any number of nights with deploys and arbitrary failures every standing stage keeps its bucket |
| StageTeardown.FaultlessNight | scripts/preview-stage-orphan-sweep.ts:17-20 | so the first faultless run finds and finishes it |
| AuditQueue.Consumer.DecodeBatch | apps/api/src/audit-events-runtime.ts:94-111 | exactly the messages that do not decode are acked at once, up to an interruption |
| AuditQueue.Consumer.SettleGroup | apps/api/src/audit-events-runtime.ts:59-80 | a stored group is acked whole, a failed one retried or dead-lettered message by message until an interruption, an interrupted one left alone |
| AuditQueue.Consumer.ProcessBatch | apps/api/src/audit-events-runtime.ts:89-157 | every message that was reached ends as its organisation's write says, every other is as it was; without an interruption all are reached; stored rows are in the table |
| AuditQueue.OrgsAreIndependent | apps/api/src/audit-events-runtime.ts:121-155 | one organisation's failure never changes another's messages |
| AuditQueue.NextInv | apps/api/src/audit-events-runtime.ts:89-157 | every step keeps: written means its row exists, discarded that it never decoded, dead-lettered that it used every retry |
| AuditQueue.RunInv | apps/api/src/audit-events-runtime.ts:82-157 | hence in every run no decodable event is acked without its row |
| AuditQueue.SettledForGood | apps/api/src/audit-events-runtime.ts:82-157 | no message is lost and a settled one never changes |
| AuditQueue.AttemptsAreCounted | apps/api/src/audit-events-runtime.ts:59-80 | a pending message's attempt number is one more than the deliveries that reached it or that the platform charged for an interruption; a dead-lettered one used six |
| AuditQueue.SixAttemptsSettle | apps/api/src/audit-events-runtime.ts:28-34 | six deliveries that reach a message settle it, whether or not the platform charges for interruptions |
| AuditQueue.WrittenOnce | apps/api/src/audit-events-runtime.ts:82-88 | with rows merged by entry id a written event has one row, its own, however often it was redelivered |
| TickDispatch.Authorize | apps/alerting/src/tick-dispatch.ts:155-177 | 404 exactly off the route, 401 exactly on it without the handler's token, else acceptance or 400, before anything runs |
| TickDispatch.LaneHasOneCron | apps/alerting/src/schedule.ts:20-48 | every lane is on one schedule only |
| TickDispatch.AcceptsExactlyDispatches | apps/alerting/src/tick-dispatch.ts:155-177 | exactly the requests a dispatcher with the handler's token sends for a scheduled lane are accepted, each for its own cron and lane |
| TickDispatch.OwnLaneIsAccepted | apps/alerting/src/tick-dispatch.ts:155-177 | a dispatched lane is accepted when the tokens agree and else refused with 401, which the caller may run inline |
| TickDispatch.Isolate.BeginFire | apps/alerting/src/worker.ts:135-240 | a fire dispatches the lanes of its cron exactly when the environment is production or the override is `1` or `true`; else it logs the skip, once per isolate |
| TickDispatch.OwnLaneIsNeverMalformed | apps/alerting/src/tick-dispatch.ts:110-117 | whatever version and token a hop meets, a dispatched lane is accepted, or refused with 401 or 404 |
| TickDispatch.StepInv | apps/alerting/src/worker.ts:178-285 | the inductive invariant of dispatches, handlers of any version and token, kills and inline runs under every interleaving |
| TickDispatch.AtMostOnce | apps/alerting/src/worker.ts:199-265 | in every reachable state a lane's body has started at most once over both invocations |
| TickDispatch.InlineOnlyWhenCertain | apps/alerting/src/worker.ts:242-265 | a lane runs inline only if the placed handler never runs it, after all dispatches settled, one at a time |
| TickDispatch.FailuresAreKillsOrThrows | apps/alerting/src/tick-dispatch.ts:95-145 | a dispatch counts as failed only when the fetch threw or the callee was killed |
| TickDispatch.ExactlyOnceUnlessFailed | apps/alerting/src/worker.ts:199-265 | when the fire is over every lane ran exactly once, except where the hop failed |
| Purge.TraceLineage | scripts/purge-org-traces.ts:115-131 | the least set with the raw spans that is closed under materialized views |
| Purge.CheckCoverage | scripts/purge-org-traces.ts:133-141 | exactly the members of the least lineage without a purge rule, outside the kept set, are reported |
| Purge.BucketIntersects | scripts/purge-org-traces.ts:143-159 | at every grain a bucket is in the deleted range exactly when it intersects [from, to) |
| Purge.Workspace.DeleteRows | scripts/purge-org-traces.ts:193-208 | a delete job keeps every other row and adds none: the matching rows it leaves were there before, and none is left if it ends well |
| Purge.Run | scripts/purge-org-traces.ts:225-253 | a run that dies anywhere removed matching rows only and added none, target by target in order; a completed one cleared every target; a dry run changed nothing |
| Purge.RepeatedRuns | scripts/purge-org-traces.ts:225-253 | the same holds over any sequence of crashed and repeated runs |
| Purge.TargetsAreOrdered | scripts/purge-org-traces.ts:43-74 | the list names no datasource twice and has the raw spans last |
| Purge.TargetRules | scripts/purge-org-traces.ts:35-74 | each target is widened to its own datasource's hours, minutes or not at all, and exactly the three shared datasources are narrowed to trace-derived rows |
| Purge.RowsKept | scripts/purge-org-traces.ts:146-208 | whatever a run did, no row is added, and rows of another organisation, rows whose bucket lies outside [from, to), rows of shared datasources that are not trace-derived and rows without a rule are all still there, each as often as before |
| Purge.RowsGone | scripts/purge-org-traces.ts:146-159 | a cleared datasource has no row left of the organisation, trace-derived where shared, whose bucket meets [from, to) |
| Purge.RawSpansGoLast | scripts/purge-org-traces.ts:43-74 | after any sequence of runs, if a raw span is gone every derived datasource is cleared |
| Purge.CompletedPurgeClearsLineage | scripts/purge-org-traces.ts:115-141 | a covered, completed purge leaves no matching row in the lineage outside the kept set |
| Purge.PurgeOrg | scripts/purge-org-traces.ts:210-253 | an empty range, an uncovered datasource or a dry run deletes nothing; in any case all rows stay of other organisations, of buckets outside the range, of kept datasources, and those of shared datasources that are not trace-derived; a completed run left no row in the lineage outside the kept set that is the organisation's, meets the range and, where shared, is trace-derived |
| MergeLines.Merge | apps/ai/scripts/pr-review-eval.ts:162-176 | per path the ranges are sorted, disjoint, not adjacent, and cover exactly the blamed lines |
| MergeLines.MergeNumbers | apps/ai/scripts/pr-review-eval.ts:166-174 | the loop that rewrites the last range yields the canonical form of a list of numbers |
| MergeLines.CanonicalIsUnique | apps/ai/scripts/pr-review-eval.ts:161-176 | a set of lines has one canonical form |
| MergeLines.RangesDependOnLinesOnly | apps/ai/scripts/pr-review-eval.ts:161-176 | a path's ranges depend on its line set alone, not on order, repetitions or other paths |

## Left out

- HTTP, git, `gh`, Tinybird, Neon, Cloudflare and `alchemy` calls: arbitrary results within the refusal rules
  the comments state. An answer other than the handler's own (a gateway's error page) is taken not to be a
  401, 404 or 204.
- Floating point: exact reals. Latency draws, `sin` and the random generator are arbitrary values in the
  ranges the code guarantees.
- Log texts, console tables and telemetry about the scripts themselves.
- Keywords of JSON Schema that do not judge a value independently of their siblings
  (`additionalProperties`, `oneOf`, `not`, `if`): outside the modelled fragment. Annotations are ignored.
- `Visiting.VisitRelaxes`: the walk is a function on trees, up to any depth. The original rewrites component
  objects in place, where several places share them. An `enum` that lists lists or objects is outside the model,
  and so is a component named like a keyword.
- `Visiting.VisitedDocumentAccepts`: that nothing dangles after the collapse is a hypothesis, which the sweep checks;
  in general it fails (`WalkEnds.ItemsLeaveDangling`).
- `UnionCollapse.VisitedPropertiesAccept`: deletes null members of one object. `Answers.ReadAnswerAccepted` is the
  deep form; it asks that no union stands on the way, because two branches may disagree on a deletion.
- `Pipeline.WholePipelineAccepts`: which responses get the error envelope is left open: the paths are any whose
  references resolve. Dropping `propertyNames` and unlisted operations before the collapse is not modelled.
- `UnionCollapse.CollapseRelaxes`: says nothing about reaching a normal form within the eight passes.
- JSON text order: objects are maps, so sorting keys and the order of properties are not modelled.
- Copy numbers of components and PR numbers are unbounded integers and digit strings.
- Lanes and groups of the planner are values in a list, not shared objects; lane names are structured values.
  The order of several suites with one name is not modelled.
- `Affected.AffectedWorkspaces`: globs are an arbitrary relation between patterns and files.
- Span attributes, background logs, process and pool gauges, and how points are packed per pod into
  envelopes. Rollouts: a span's pod is any pod of its service. Aggregation keys are tuples, not joined strings.
- `TraceBuilderModel.TraceBuilder.Run`: an entry point that is no server call emits nothing, as in the code.
- `StageTeardown.Teardown.Run`: candidates are handled in any order, not by PR number, and a deploy during
  the run of the very stage being destroyed is not modelled; the check for an active run guards against it.
- `StageTeardown.Teardown.Discover`: a failed listing answers nothing rather than part of the list.
- `WorkerSweep.Sweep.Run`: the queue listing shows any part of the queues, as its first page does; a stage
  whose verdict changes during the run keeps the first one.
- `AuditQueue.AttemptsAreCounted`: whether the platform charges an interrupted delivery to the messages that
  were not reached is left open; both are covered.
- The three-way concurrency of organisation writes: writes happen in any order, one after the other.
- `Purge.Run`: rows arriving during a purge are not modelled, and the verification after it may still stop it.
- Stack declarations, benchmark scripts, the other queue consumers and package publishing.
