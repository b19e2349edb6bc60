/** Purging one organisation's traces from a workspace (scripts/purge-org-traces.ts): which
    datasources derive from `traces`, which buckets a time range widens to, and the deletion
    order that makes an interrupted run safe to repeat. */
module Purge {

  // ------------------------------------------------------------ targets

  /** The datasources the script names; every other one carries its own name. */
  datatype Datasource =
    | TraceFacetsHourly | ServiceEndpointDetailsHourly | ServiceOperationsHourly | ServiceOperationsMinutely
    | ErrorFingerprintsMinutely | ServiceOverviewMinutely | ServiceOverviewHourly | TracesAggregatesHourly
    | ServiceMapEdgesHourly | ServiceMapDbEdgesHourly | ServiceMapDbQueryShapesHourly | ServiceExternalEdgesHourly
    | ServiceAddressResolutionsHourly | ServicePlatformsHourly | ServiceRuntimesHourly | AttributeKeysHourly
    | AttributeValuesHourly | ProductEvents | ErrorEvents | ErrorEventsByTime | AiTraceIndex | AiCrawlerRequests
    | ScannerRequests | CiRuns | CiJobs | ServiceMapSpans | ServiceMapChildren | ServiceOverviewSpans
    | TraceListMv | Traces | ServiceUsage | SourceUsageHourly | Other(name: string)

  datatype Grain = Raw | Minute | Hour

  function GrainMs(g: Grain): (ms: int)
    ensures ms > 0
  {
    match g case Raw => 1 case Minute => 60000 case Hour => 3600000
  }

  /** `narrowed` targets hold other signals too; only their trace-derived rows are meant. */
  datatype Target = Target(name: Datasource, grain: Grain, narrowed: bool)

  function RawTarget(name: Datasource): Target { Target(name, Raw, false) }
  function HourTarget(name: Datasource): Target { Target(name, Hour, false) }
  function MinuteTarget(name: Datasource): Target { Target(name, Minute, false) }

  const TARGET_COUNT := 30

  /** In deletion order: leaves first, the raw spans last. */
  function TargetAt(i: nat): Target {
    match i
    case 0 => HourTarget(TraceFacetsHourly)
    case 1 => HourTarget(ServiceEndpointDetailsHourly)
    case 2 => HourTarget(ServiceOperationsHourly)
    case 3 => MinuteTarget(ServiceOperationsMinutely)
    case 4 => MinuteTarget(ErrorFingerprintsMinutely)
    case 5 => MinuteTarget(ServiceOverviewMinutely)
    case 6 => HourTarget(ServiceOverviewHourly)
    case 7 => HourTarget(TracesAggregatesHourly)
    case 8 => HourTarget(ServiceMapEdgesHourly)
    case 9 => HourTarget(ServiceMapDbEdgesHourly)
    case 10 => HourTarget(ServiceMapDbQueryShapesHourly)
    case 11 => HourTarget(ServiceExternalEdgesHourly)
    case 12 => HourTarget(ServiceAddressResolutionsHourly)
    case 13 => HourTarget(ServicePlatformsHourly)
    case 14 => HourTarget(ServiceRuntimesHourly)
    case 15 => Target(AttributeKeysHourly, Hour, true)
    case 16 => Target(AttributeValuesHourly, Hour, true)
    case 17 => Target(ProductEvents, Raw, true)
    case 18 => RawTarget(ErrorEvents)
    case 19 => RawTarget(ErrorEventsByTime)
    case 20 => RawTarget(AiTraceIndex)
    case 21 => RawTarget(AiCrawlerRequests)
    case 22 => RawTarget(ScannerRequests)
    case 23 => RawTarget(CiRuns)
    case 24 => RawTarget(CiJobs)
    case 25 => RawTarget(ServiceMapSpans)
    case 26 => RawTarget(ServiceMapChildren)
    case 27 => RawTarget(ServiceOverviewSpans)
    case 28 => RawTarget(TraceListMv)
    case _ => RawTarget(Traces)
  }

  function Targets(): seq<Target> { seq(TARGET_COUNT, i requires 0 <= i => TargetAt(i)) }

  const KEPT := {ServiceUsage, SourceUsageHourly}
  const JOB_FED := {ServiceMapEdgesHourly, ServiceAddressResolutionsHourly}

  function Names(targets: seq<Target>): set<Datasource> { set t | t in targets :: t.name }

  // ------------------------------------------------------------ lineage

  datatype MaterializedView = MaterializedView(to: Datasource, sources: seq<Datasource>)

  ghost predicate Feeds(mv: MaterializedView, s: set<Datasource>) { exists x :: x in mv.sources && x in s }

  ghost predicate ClosedUnder(mvs: seq<MaterializedView>, s: set<Datasource>) {
    forall mv :: mv in mvs && Feeds(mv, s) ==> mv.to in s
  }

  function Roots(): set<Datasource> { {Traces} + JOB_FED }

  /** The least set with the raw spans that materialized views do not lead out of. */
  ghost predicate IsLineage(mvs: seq<MaterializedView>, s: set<Datasource>) {
    && Roots() <= s && ClosedUnder(mvs, s)
    && forall t :: Roots() <= t && ClosedUnder(mvs, t) ==> s <= t
  }

  /** Every datasource that materialized views populate from `traces`, directly or in turn. */
  method TraceLineage(mvs: seq<MaterializedView>) returns (reached: set<Datasource>)
    ensures IsLineage(mvs, reached)
  {
    reached := Roots();
    var grew := true;
    ghost var universe := Roots() + set mv | mv in mvs :: mv.to;
    while grew
      invariant Roots() <= reached <= universe
      invariant !grew ==> ClosedUnder(mvs, reached)
      invariant forall t :: Roots() <= t && ClosedUnder(mvs, t) ==> reached <= t
      decreases universe - reached, grew
    {
      grew := false;
      ghost var before := reached;
      for i := 0 to |mvs|
        invariant before <= reached <= universe
        invariant grew <==> reached != before
        invariant !grew ==> forall k :: 0 <= k < i && Feeds(mvs[k], reached) ==> mvs[k].to in reached
        invariant forall t :: Roots() <= t && ClosedUnder(mvs, t) ==> reached <= t
      {
        var mv := mvs[i];
        if mv.to !in reached && exists x :: x in mv.sources && x in reached {
          assert mv in mvs && Feeds(mv, reached);
          reached := reached + {mv.to};
          grew := true;
        }
      }
    }
  }

  /** The startup check: a derived datasource without a purge rule stops the run. */
  method CheckCoverage(mvs: seq<MaterializedView>) returns (missing: set<Datasource>)
    ensures forall lineage :: IsLineage(mvs, lineage) ==> missing == lineage - Names(Targets()) - KEPT
  {
    var reached := TraceLineage(mvs);
    missing := reached - Names(Targets()) - KEPT;
    forall lineage | IsLineage(mvs, lineage) ensures lineage == reached { }
  }

  // ------------------------------------------------------------ time ranges

  function FloorTo(at: int, ms: int): int
    requires ms > 0
  {
    at / ms * ms
  }

  function CeilTo(at: int, ms: int): int
    requires ms > 0
  {
    -(-at / ms) * ms
  }

  /** An instant of the range [from, to) that lies in the bucket. */
  predicate InBoth(at: int, from: int, to: int, bucket: int, ms: int) {
    from <= at < to && bucket <= at < bucket + ms
  }

  /** A bucket is inside the widened range exactly when it intersects the range asked for. */
  lemma BucketIntersects(bucket: int, from: int, to: int, g: Grain)
    requires bucket % GrainMs(g) == 0 && from < to
    ensures FloorTo(from, GrainMs(g)) <= bucket < CeilTo(to, GrainMs(g)) <==>
      exists at :: InBoth(at, from, to, bucket, GrainMs(g))
  {
    var ms := GrainMs(g);
    WidenedBounds(bucket, from, to, g);
    if from < bucket + ms && bucket < to {
      assert InBoth(if from > bucket then from else bucket, from, to, bucket, ms);
    }
  }

  lemma WidenedBounds(bucket: int, from: int, to: int, g: Grain)
    requires bucket % GrainMs(g) == 0
    ensures FloorTo(from, GrainMs(g)) <= bucket <==> from < bucket + GrainMs(g)
    ensures bucket < CeilTo(to, GrainMs(g)) <==> bucket < to
  {
    match g
    case Raw =>
    case Minute => MinuteBounds(bucket, from, to);
    case Hour => HourBounds(bucket, from, to);
  }

  lemma MinuteBounds(bucket: int, from: int, to: int)
    requires bucket % 60000 == 0
    ensures from / 60000 * 60000 <= bucket <==> from < bucket + 60000
    ensures bucket < -(-to / 60000) * 60000 <==> bucket < to
  {}

  lemma HourBounds(bucket: int, from: int, to: int)
    requires bucket % 3600000 == 0
    ensures from / 3600000 * 3600000 <= bucket <==> from < bucket + 3600000
    ensures bucket < -(-to / 3600000) * 3600000 <==> bucket < to
  {}

  // ------------------------------------------------------------ rows and deletion

  datatype Row = Row(org: string, time: int, traceDerived: bool)

  datatype Request = Request(org: string, from: int, to: int)

  /** The delete condition of a target. */
  predicate Matches(t: Target, q: Request, r: Row) {
    && r.org == q.org
    && FloorTo(q.from, GrainMs(t.grain)) <= r.time < CeilTo(q.to, GrainMs(t.grain))
    && (t.narrowed ==> r.traceDerived)
  }

  type Tables = map<Datasource, seq<Row>>

  function RowsOf(tables: Tables, name: Datasource): seq<Row> { if name in tables then tables[name] else [] }

  function Matching(rows: seq<Row>, t: Target, q: Request): seq<Row> {
    if rows == [] then [] else
    var last := rows[|rows| - 1];
    Matching(rows[..|rows| - 1], t, q) + (if Matches(t, q, last) then [last] else [])
  }

  function Rest(rows: seq<Row>, t: Target, q: Request): seq<Row> {
    if rows == [] then [] else
    var last := rows[|rows| - 1];
    Rest(rows[..|rows| - 1], t, q) + (if Matches(t, q, last) then [] else [last])
  }

  function MatchingIn(tables: Tables, t: Target, q: Request): seq<Row> { Matching(RowsOf(tables, t.name), t, q) }

  function RestIn(tables: Tables, t: Target, q: Request): seq<Row> { Rest(RowsOf(tables, t.name), t, q) }

  lemma {:induction false} RestHasNoMatch(rows: seq<Row>, t: Target, q: Request)
    ensures Matching(Rest(rows, t, q), t, q) == [] && Rest(Rest(rows, t, q), t, q) == Rest(rows, t, q)
  {
    hide Matches;
    if rows != [] {
      var front, last := rows[..|rows| - 1], rows[|rows| - 1];
      RestHasNoMatch(front, t, q);
      var rest := Rest(front, t, q);
      assert rest + [] == rest && (rest + [last])[..|rest|] == rest;
      if !Matches(t, q, last) {
        assert Rest(rows, t, q) == rest + [last];
        assert Rest(rest + [last], t, q) == Rest(rest, t, q) + [last];
        assert Matching(rest + [last], t, q) == Matching(rest, t, q) + [];
      }
    }
  }

  /** No datasource is listed twice. */
  ghost predicate DistinctTargets(targets: seq<Target>) {
    forall i, j :: 0 <= i < j < |targets| ==> targets[i].name != targets[j].name
  }

  /** Some matching rows of the targets may have gone, and nothing else changed. */
  ghost predicate OnlyMatchingGone(targets: seq<Target>, q: Request, before: Tables, after: Tables) {
    && (forall t :: t in targets ==>
          RestIn(after, t, q) == RestIn(before, t, q) && multiset(MatchingIn(after, t, q)) <= multiset(MatchingIn(before, t, q)))
    && (forall name :: name !in Names(targets) ==> RowsOf(after, name) == RowsOf(before, name))
  }

  ghost predicate Cleared(tables: Tables, t: Target, q: Request) { MatchingIn(tables, t, q) == [] }

  /** A target lost rows only after every target before it was cleared. */
  ghost predicate ClearedInOrder(targets: seq<Target>, q: Request, before: Tables, after: Tables) {
    forall j, k :: 0 <= j < k < |targets| && MatchingIn(after, targets[k], q) != MatchingIn(before, targets[k], q) ==>
      Cleared(after, targets[j], q)
  }

  datatype Outcome = DryRun | Purged | Stopped

  /** A workspace, reached over an API whose calls may fail; a run may also die at any point. */
  class Workspace {
    var tables: Tables

    constructor (tables: Tables)
      ensures this.tables == tables
    {
      this.tables := tables;
    }

    /** Counts matching rows; no answer means the run stops. */
    method CountRows(t: Target, q: Request) returns (ok: bool, n: nat)
      ensures ok ==> n == |MatchingIn(tables, t, q)|
    {
      ok := *;
      n := |MatchingIn(tables, t, q)|;
    }

    /** A delete job; one that does not end well may have deleted any of the matching rows. */
    method DeleteRows(t: Target, q: Request) returns (ok: bool)
      modifies this
      ensures forall name :: name != t.name ==> RowsOf(tables, name) == old(RowsOf(tables, name))
      ensures RestIn(tables, t, q) == old(RestIn(tables, t, q))
      ensures multiset(MatchingIn(tables, t, q)) <= old(multiset(MatchingIn(tables, t, q)))
      ensures ok ==> Cleared(tables, t, q)
    {
      var rows := RowsOf(tables, t.name);
      ok := *;
      if ok {
        RestHasNoMatch(rows, t, q);
        tables := tables[t.name := Rest(rows, t, q)];
      } else {
        var upTo: int := *;
        if !(0 <= upTo <= |rows|) { upTo := 0; }
        PartlyDeleted(rows, upTo, t, q);
        tables := tables[t.name := Rest(rows[..upTo], t, q) + rows[upTo..]];
      }
    }
  }

  lemma {:induction false} MatchingConcat(a: seq<Row>, b: seq<Row>, t: Target, q: Request)
    ensures Matching(a + b, t, q) == Matching(a, t, q) + Matching(b, t, q)
    ensures Rest(a + b, t, q) == Rest(a, t, q) + Rest(b, t, q)
  {
    if b == [] {
      assert a + b == a;
    } else {
      assert (a + b)[..|a + b| - 1] == a + b[..|b| - 1];
      MatchingConcat(a, b[..|b| - 1], t, q);
    }
  }

  lemma PartlyDeleted(rows: seq<Row>, upTo: nat, t: Target, q: Request)
    requires upTo <= |rows|
    ensures
      var left := Rest(rows[..upTo], t, q) + rows[upTo..];
      Rest(left, t, q) == Rest(rows, t, q) && multiset(Matching(left, t, q)) <= multiset(Matching(rows, t, q))
  {
    assert rows == rows[..upTo] + rows[upTo..];
    MatchingConcat(rows[..upTo], rows[upTo..], t, q);
    MatchingConcat(Rest(rows[..upTo], t, q), rows[upTo..], t, q);
    RestHasNoMatch(rows[..upTo], t, q);
    assert [] + Matching(rows[upTo..], t, q) == Matching(rows[upTo..], t, q);
  }

  // ------------------------------------------------------------ a run

  /** Counts, deletes target by target, and verifies; `targets` in deletion order. */
  method Run(w: Workspace, targets: seq<Target>, q: Request, execute: bool) returns (outcome: Outcome)
    requires DistinctTargets(targets)
    modifies w
    ensures OnlyMatchingGone(targets, q, old(w.tables), w.tables)
    ensures ClearedInOrder(targets, q, old(w.tables), w.tables)
    ensures outcome.DryRun? ==> !execute
    ensures !execute ==> w.tables == old(w.tables)
    ensures outcome.Purged? ==> forall t :: t in targets ==> Cleared(w.tables, t, q)
  {
    hide Matches, Matching, Rest, RowsOf;
    var rows: seq<nat> := [];
    for k := 0 to |targets|
      invariant w.tables == old(w.tables) && |rows| == k
      invariant forall j :: 0 <= j < k ==> rows[j] == |MatchingIn(w.tables, targets[j], q)|
    {
      var ok, n := w.CountRows(targets[k], q);
      if !ok { return Stopped; }
      rows := rows + [n];
    }
    if !execute { return DryRun; }
    for k := 0 to |targets|
      invariant OnlyMatchingGone(targets, q, old(w.tables), w.tables)
      invariant forall j :: 0 <= j < k ==> Cleared(w.tables, targets[j], q)
      invariant forall j :: k <= j < |targets| ==> MatchingIn(w.tables, targets[j], q) == MatchingIn(old(w.tables), targets[j], q)
    {
      if rows[k] == 0 { continue; }
      var crashed := *;
      if crashed { return Stopped; }
      ghost var before := w.tables;
      var ok := w.DeleteRows(targets[k], q);
      OneTargetDeleted(targets, q, old(w.tables), before, w.tables, k);
      if !ok { return Stopped; }
    }
    outcome := Purged;
    ghost var purged := w.tables;
    for k := 0 to |targets|
      invariant w.tables == purged && !outcome.DryRun?
    {
      var ok, n := w.CountRows(targets[k], q);
      if !ok || n > 0 { outcome := Stopped; }
    }
  }

  /** A delete job on one target leaves all other targets as they were. */
  lemma OneTargetDeleted(targets: seq<Target>, q: Request, start: Tables, before: Tables, after: Tables, k: nat)
    requires DistinctTargets(targets) && k < |targets| && OnlyMatchingGone(targets, q, start, before)
    requires forall name :: name != targets[k].name ==> RowsOf(after, name) == RowsOf(before, name)
    requires RestIn(after, targets[k], q) == RestIn(before, targets[k], q)
    requires multiset(MatchingIn(after, targets[k], q)) <= multiset(MatchingIn(before, targets[k], q))
    ensures OnlyMatchingGone(targets, q, start, after)
    ensures forall j :: 0 <= j < |targets| && j != k ==> MatchingIn(after, targets[j], q) == MatchingIn(before, targets[j], q)
  {
    hide Matches, Matching, Rest, RowsOf;
    forall j | 0 <= j < |targets| && j != k
      ensures MatchingIn(after, targets[j], q) == MatchingIn(before, targets[j], q)
      ensures RestIn(after, targets[j], q) == RestIn(before, targets[j], q)
    {
      assert targets[j].name != targets[k].name;
    }
    forall t | t in targets
      ensures RestIn(after, t, q) == RestIn(start, t, q) && multiset(MatchingIn(after, t, q)) <= multiset(MatchingIn(start, t, q))
    {
      var j :| 0 <= j < |targets| && targets[j] == t;
    }
    assert targets[k].name in Names(targets);
  }

  // ------------------------------------------------------------ interrupted and repeated runs

  /** What any run of the script does, finished or not. */
  ghost predicate RunStep(targets: seq<Target>, q: Request, before: Tables, after: Tables) {
    OnlyMatchingGone(targets, q, before, after) && ClearedInOrder(targets, q, before, after)
  }

  /** However often the purge is interrupted and repeated, a target's rows, and so the raw spans
      last of all, go only once everything before it is cleared. */
  lemma {:induction false} RepeatedRuns(targets: seq<Target>, q: Request, states: seq<Tables>)
    requires states != []
    requires forall i :: 0 <= i < |states| - 1 ==> RunStep(targets, q, states[i], states[i + 1])
    ensures RunStep(targets, q, states[0], states[|states| - 1])
  {
    hide Matches, Matching, Rest, RowsOf;
    if |states| > 1 {
      var front := states[..|states| - 1];
      forall i | 0 <= i < |front| - 1 ensures RunStep(targets, q, front[i], front[i + 1]) {
        assert RunStep(targets, q, states[i], states[i + 1]);
      }
      RepeatedRuns(targets, q, front);
      assert RunStep(targets, q, states[|states| - 2], states[|states| - 2 + 1]);
      OneMoreRun(targets, q, states[0], states[|states| - 2], states[|states| - 1]);
    }
  }

  lemma NoneLeft(rows: seq<Row>)
    requires multiset(rows) <= multiset{}
    ensures rows == []
  {
    assert |rows| == |multiset(rows)|;
  }

  lemma OneMoreRun(targets: seq<Target>, q: Request, a: Tables, b: Tables, c: Tables)
    requires RunStep(targets, q, a, b) && RunStep(targets, q, b, c)
    ensures RunStep(targets, q, a, c)
  {
    hide Matches, Matching, Rest, RowsOf;
    forall j, k | 0 <= j < k < |targets| && MatchingIn(c, targets[k], q) != MatchingIn(a, targets[k], q)
      ensures Cleared(c, targets[j], q)
    {
      if MatchingIn(b, targets[k], q) != MatchingIn(a, targets[k], q) {
        assert Cleared(b, targets[j], q);
        assert multiset(MatchingIn(c, targets[j], q)) <= multiset(MatchingIn(b, targets[j], q));
        NoneLeft(MatchingIn(c, targets[j], q));
      }
    }
  }

  // ------------------------------------------------------------ the script's own list

  function Position(name: Datasource): nat {
    match name
    case TraceFacetsHourly => 0 case ServiceEndpointDetailsHourly => 1 case ServiceOperationsHourly => 2
    case ServiceOperationsMinutely => 3 case ErrorFingerprintsMinutely => 4 case ServiceOverviewMinutely => 5
    case ServiceOverviewHourly => 6 case TracesAggregatesHourly => 7 case ServiceMapEdgesHourly => 8
    case ServiceMapDbEdgesHourly => 9 case ServiceMapDbQueryShapesHourly => 10 case ServiceExternalEdgesHourly => 11
    case ServiceAddressResolutionsHourly => 12 case ServicePlatformsHourly => 13 case ServiceRuntimesHourly => 14
    case AttributeKeysHourly => 15 case AttributeValuesHourly => 16 case ProductEvents => 17 case ErrorEvents => 18
    case ErrorEventsByTime => 19 case AiTraceIndex => 20 case AiCrawlerRequests => 21 case ScannerRequests => 22
    case CiRuns => 23 case CiJobs => 24 case ServiceMapSpans => 25 case ServiceMapChildren => 26
    case ServiceOverviewSpans => 27 case TraceListMv => 28 case Traces => 29
    case _ => 30
  }

  lemma PositionAt(i: nat)
    requires i < TARGET_COUNT
    ensures Position(TargetAt(i).name) == i
  {}

  lemma LastTarget()
    ensures TargetAt(TARGET_COUNT - 1).name == Traces
  {}

  /** The script's list names no datasource twice and deletes the raw spans last. */
  lemma TargetsAreOrdered()
    ensures DistinctTargets(Targets())
    ensures |Targets()| == TARGET_COUNT && Targets()[TARGET_COUNT - 1].name == Traces
  {
    hide TargetAt, Position;
    forall i | 0 <= i < TARGET_COUNT ensures Position(Targets()[i].name) == i { PositionAt(i); }
    LastTarget();
  }

  /** After any sequence of runs: if a raw span is gone, every derived datasource is cleared. */
  lemma RawSpansGoLast(q: Request, states: seq<Tables>)
    requires states != []
    requires forall i :: 0 <= i < |states| - 1 ==> RunStep(Targets(), q, states[i], states[i + 1])
    ensures
      var traces, last := Targets()[TARGET_COUNT - 1], states[|states| - 1];
      MatchingIn(last, traces, q) != MatchingIn(states[0], traces, q) ==>
        forall t :: t in Targets() && t.name != Traces ==> Cleared(last, t, q)
  {
    hide Matches, Matching, Rest, RowsOf;
    RepeatedRuns(Targets(), q, states);
    TargetsAreOrdered();
    var last := states[|states| - 1];
    if MatchingIn(last, Targets()[TARGET_COUNT - 1], q) != MatchingIn(states[0], Targets()[TARGET_COUNT - 1], q) {
      forall t | t in Targets() && t.name != Traces ensures Cleared(last, t, q) {
        var j :| 0 <= j < TARGET_COUNT && Targets()[j] == t;
      }
    }
  }

  /** The datasource has a purge rule, and no row of it matches any more. */
  ghost predicate ClearedOf(tables: Tables, q: Request, name: Datasource) {
    exists t :: t in Targets() && t.name == name && Cleared(tables, t, q)
  }

  /** A covered, completed purge leaves nothing derived from the spans outside the kept counters. */
  lemma CompletedPurgeClearsLineage(lineage: set<Datasource>, tables: Tables, q: Request)
    requires lineage - Names(Targets()) - KEPT == {}
    requires forall t :: t in Targets() ==> Cleared(tables, t, q)
    ensures forall name :: name in lineage && name !in KEPT ==> ClearedOf(tables, q, name)
  {
    hide Matches, Matching, Rest, RowsOf, Targets;
    forall name | name in lineage && name !in KEPT ensures ClearedOf(tables, q, name) {
      assert name in Names(Targets());
      var t :| t in Targets() && t.name == name;
      assert Cleared(tables, t, q);
    }
  }

  // ------------------------------------------------------------ row by row

  const HOURLY := {TraceFacetsHourly, ServiceEndpointDetailsHourly, ServiceOperationsHourly, ServiceOverviewHourly,
    TracesAggregatesHourly, ServiceMapEdgesHourly, ServiceMapDbEdgesHourly, ServiceMapDbQueryShapesHourly,
    ServiceExternalEdgesHourly, ServiceAddressResolutionsHourly, ServicePlatformsHourly, ServiceRuntimesHourly,
    AttributeKeysHourly, AttributeValuesHourly}
  const MINUTELY := {ServiceOperationsMinutely, ErrorFingerprintsMinutely, ServiceOverviewMinutely}

  /** Datasources that hold other signals too. */
  const SHARED := {AttributeKeysHourly, AttributeValuesHourly, ProductEvents}

  /** How long a row's bucket is; a row of a rollup is dated by the start of its bucket. */
  function BucketMs(name: Datasource): (ms: int)
    ensures ms > 0
  {
    if name in HOURLY then 3600000 else if name in MINUTELY then 60000 else 1
  }

  lemma TargetRule(i: nat)
    requires i < TARGET_COUNT
    ensures GrainMs(TargetAt(i).grain) == BucketMs(TargetAt(i).name)
    ensures TargetAt(i).narrowed <==> TargetAt(i).name in SHARED
  {}

  /** The list widens each datasource to its own buckets, and narrows the shared ones alone. */
  lemma TargetRules(t: Target)
    requires t in Targets()
    ensures GrainMs(t.grain) == BucketMs(t.name) && (t.narrowed <==> t.name in SHARED)
  {
    hide TargetAt, BucketMs;
    var i :| 0 <= i < TARGET_COUNT && Targets()[i] == t;
    TargetRule(i);
  }

  /** The row belongs to the organisation, its bucket meets [from, to), and in a shared datasource it
      is trace-derived. */
  lemma MatchesExactly(t: Target, q: Request, r: Row)
    requires t in Targets() && r.time % BucketMs(t.name) == 0
    ensures Matches(t, q, r) <==>
      r.org == q.org && r.time < q.to && q.from < r.time + BucketMs(t.name) && (t.name in SHARED ==> r.traceDerived)
  {
    hide Targets, BucketMs;
    TargetRules(t);
    WidenedBounds(r.time, q.from, q.to, t.grain);
  }

  lemma {:induction false} MatchingAndRest(rows: seq<Row>, t: Target, q: Request, r: Row)
    ensures multiset(rows)[r] == multiset(Matching(rows, t, q))[r] + multiset(Rest(rows, t, q))[r]
    ensures if Matches(t, q, r) then r !in Rest(rows, t, q) else r !in Matching(rows, t, q)
  {
    hide Matches, Matching, Rest;
    if rows == [] {
      NoRowFiled(t, q);
    } else {
      var front, last := rows[..|rows| - 1], rows[|rows| - 1];
      MatchingAndRest(front, t, q, r);
      OneRowFiled(rows, t, q);
      OneMoreRow(front, last, r);
      OneMoreRow(Matching(front, t, q), last, r);
      OneMoreRow(Rest(front, t, q), last, r);
      assert rows == front + [last];
    }
  }

  lemma NoRowFiled(t: Target, q: Request)
    ensures Matching([], t, q) == [] && Rest([], t, q) == []
  {}

  lemma OneRowFiled(rows: seq<Row>, t: Target, q: Request)
    requires rows != []
    ensures
      var front, last := rows[..|rows| - 1], rows[|rows| - 1];
      if Matches(t, q, last) then Matching(rows, t, q) == Matching(front, t, q) + [last] && Rest(rows, t, q) == Rest(front, t, q)
      else Rest(rows, t, q) == Rest(front, t, q) + [last] && Matching(rows, t, q) == Matching(front, t, q)
  {
    hide Matches;
  }

  lemma OneMoreRow(rows: seq<Row>, last: Row, r: Row)
    ensures multiset(rows + [last])[r] == multiset(rows)[r] + (if r == last then 1 else 0)
    ensures r in rows + [last] <==> r in rows || r == last
  {}

  /** What any run, finished or not, leaves of the rows of one kind: none is added, and as many as
      before are left of another organisation's rows, of rows whose bucket lies outside the range, of
      rows of a shared datasource that are not trace-derived, and of datasources without a rule. */
  lemma RowsKept(q: Request, before: Tables, after: Tables, name: Datasource, r: Row)
    requires OnlyMatchingGone(Targets(), q, before, after) && r.time % BucketMs(name) == 0
    ensures multiset(RowsOf(after, name))[r] <= multiset(RowsOf(before, name))[r]
    ensures
      || r.org != q.org || r.time >= q.to || r.time + BucketMs(name) <= q.from
      || (name in SHARED && !r.traceDerived) || name !in Names(Targets())
      ==> multiset(RowsOf(after, name))[r] == multiset(RowsOf(before, name))[r]
  {
    hide Matches, Matching, Rest, RowsOf, BucketMs, Targets;
    if name in Names(Targets()) {
      var t :| t in Targets() && t.name == name;
      MatchesExactly(t, q, r);
      MatchingAndRest(RowsOf(before, name), t, q, r);
      MatchingAndRest(RowsOf(after, name), t, q, r);
      assert RestIn(after, t, q) == RestIn(before, t, q);
      assert multiset(MatchingIn(after, t, q)) <= multiset(MatchingIn(before, t, q));
    }
  }

  /** A cleared datasource has no row that was asked for. */
  lemma RowsGone(q: Request, tables: Tables, name: Datasource, r: Row)
    requires ClearedOf(tables, q, name) && r.time % BucketMs(name) == 0
    requires r.org == q.org && r.time < q.to && q.from < r.time + BucketMs(name) && (name in SHARED ==> r.traceDerived)
    ensures r !in RowsOf(tables, name)
  {
    hide Matches, Matching, Rest, BucketMs, Targets;
    var t :| t in Targets() && t.name == name && Cleared(tables, t, q);
    MatchesExactly(t, q, r);
    MatchingAndRest(RowsOf(tables, name), t, q, r);
  }

  /** The script: nothing is deleted for an empty range or with a datasource uncovered, and a
      completed run cleared the whole lineage but the kept counters. */
  method PurgeOrg(w: Workspace, mvs: seq<MaterializedView>, q: Request, execute: bool) returns (outcome: Outcome)
    modifies w
    ensures RunStep(Targets(), q, old(w.tables), w.tables)
    ensures !execute || q.from >= q.to ==> w.tables == old(w.tables)
    ensures outcome.Purged? ==> forall lineage, name ::
      IsLineage(mvs, lineage) && name in lineage && name !in KEPT ==> ClearedOf(w.tables, q, name)
    ensures (exists lineage :: IsLineage(mvs, lineage) && !(lineage <= Names(Targets()) + KEPT)) ==>
      outcome == Stopped && w.tables == old(w.tables)
    ensures forall name, r: Row :: r.time % BucketMs(name) == 0 ==>
      multiset(RowsOf(w.tables, name))[r] <= old(multiset(RowsOf(w.tables, name)))[r]
    ensures forall name, r: Row | r.time % BucketMs(name) == 0 &&
      (r.org != q.org || r.time >= q.to || r.time + BucketMs(name) <= q.from || (name in SHARED && !r.traceDerived) || name in KEPT) ::
        multiset(RowsOf(w.tables, name))[r] == old(multiset(RowsOf(w.tables, name)))[r]
    ensures outcome.Purged? ==> forall lineage, name, r: Row |
      IsLineage(mvs, lineage) && name in lineage && name !in KEPT && r.time % BucketMs(name) == 0 &&
      r.org == q.org && r.time < q.to && q.from < r.time + BucketMs(name) && (name in SHARED ==> r.traceDerived) ::
        r !in RowsOf(w.tables, name)
  {
    ghost var before := w.tables;
    outcome := PurgeLineage(w, mvs, q, execute);
    hide *;
    KeptHasNoRule();
    forall name, r: Row | r.time % BucketMs(name) == 0
      ensures multiset(RowsOf(w.tables, name))[r] <= multiset(RowsOf(before, name))[r]
      ensures r.org != q.org || r.time >= q.to || r.time + BucketMs(name) <= q.from || (name in SHARED && !r.traceDerived) || name in KEPT ==>
        multiset(RowsOf(w.tables, name))[r] == multiset(RowsOf(before, name))[r]
    {
      StepIsKeeping(q, before, w.tables);
      RowsKept(q, before, w.tables, name, r);
    }
    if outcome.Purged? {
      forall lineage, name, r: Row | IsLineage(mvs, lineage) && name in lineage && name !in KEPT && r.time % BucketMs(name) == 0 &&
        r.org == q.org && r.time < q.to && q.from < r.time + BucketMs(name) && (name in SHARED ==> r.traceDerived)
        ensures r !in RowsOf(w.tables, name)
      {
        RowsGone(q, w.tables, name, r);
      }
    }
  }

  lemma StepIsKeeping(q: Request, before: Tables, after: Tables)
    requires RunStep(Targets(), q, before, after)
    ensures OnlyMatchingGone(Targets(), q, before, after)
  {}

  lemma KeptHasNoRule()
    ensures forall name :: name in KEPT ==> name !in Names(Targets())
  {
    hide TargetAt;
    forall t | t in Targets() ensures t.name !in KEPT {
      var i :| 0 <= i < TARGET_COUNT && Targets()[i] == t;
      TargetNotKept(i);
    }
  }

  lemma TargetNotKept(i: nat)
    requires i < TARGET_COUNT
    ensures TargetAt(i).name !in KEPT
  {}

  /** The checks and the run, target by target. */
  method PurgeLineage(w: Workspace, mvs: seq<MaterializedView>, q: Request, execute: bool) returns (outcome: Outcome)
    modifies w
    ensures RunStep(Targets(), q, old(w.tables), w.tables)
    ensures !execute || q.from >= q.to ==> w.tables == old(w.tables)
    ensures outcome.Purged? ==> forall lineage, name ::
      IsLineage(mvs, lineage) && name in lineage && name !in KEPT ==> ClearedOf(w.tables, q, name)
    ensures (exists lineage :: IsLineage(mvs, lineage) && !(lineage <= Names(Targets()) + KEPT)) ==>
      outcome == Stopped && w.tables == old(w.tables)
  {
    hide Matches, Matching, Rest, RowsOf, Targets, IsLineage;
    TargetsAreOrdered();
    NothingGone(Targets(), q, w.tables);
    if q.from >= q.to { return Stopped; }
    var missing := CheckCoverage(mvs);
    if missing != {} { return Stopped; }
    outcome := Run(w, Targets(), q, execute);
    if outcome.Purged? {
      forall lineage | IsLineage(mvs, lineage)
        ensures forall name :: name in lineage && name !in KEPT ==> ClearedOf(w.tables, q, name)
      {
        CompletedPurgeClearsLineage(lineage, w.tables, q);
      }
    }
  }

  lemma NothingGone(targets: seq<Target>, q: Request, tables: Tables)
    ensures RunStep(targets, q, tables, tables)
  {}
}
