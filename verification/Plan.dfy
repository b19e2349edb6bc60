/** The CI test matrix (scripts/ci/plan-tests.ts, `plan`): big Vitest suites are sharded, the rest
    is packed, and no suite is lost or run twice. */
module Plan {
  import opened Order
  import opened Packing
  import opened Sums

  const STARTUP_SECONDS := 4.0
  const MAX_LANES := 256
  const DEFAULT_SECONDS_PER_FILE := 0.6

  /** Measured seconds per test file. */
  function SecondsPerFile(suite: string): (r: real)
    ensures r > 0.0
  {
    if suite == "@maple/api" then 2.3
    else if suite == "@maple/backend" then 1.6
    else if suite == "@maple/ai" then 1.1
    else if suite == "@maple/query-engine" then 0.45
    else if suite == "@maple/ui" then 0.45
    else if suite == "@maple/domain" then 0.4
    else DEFAULT_SECONDS_PER_FILE
  }

  datatype Suite = Suite(name: string, files: nat, vitest: bool, browserWorkspace: string)

  /** The source prints these as `<suite>-<index>-of-<n>` and `small-<index>`. */
  datatype LaneName = ShardLane(suite: string, index: nat, of: nat) | SmallLane(index: nat)

  datatype Arg = Shard(index: nat, of: nat) | MaxWorkers(n: nat)

  datatype Lane = Lane(
    name: LaneName, filters: seq<string>, args: seq<Arg>, bunFilters: seq<string>, seconds: real, browser: string)

  datatype Outcome = Planned(lanes: seq<Lane>) | TooManyLanes

  // ------------------------------------------------------------ weights and shards

  function FilesWeight(s: Suite): (r: real)
    ensures r > 0.0
  {
    var files := if s.files > 1 then s.files else 1;
    PositiveProduct(files as real, SecondsPerFile(s.name));
    files as real * SecondsPerFile(s.name)
  }

  lemma PositiveProduct(a: real, b: real)
    requires a > 0.0 && b > 0.0
    ensures a * b > 0.0
  {}

  function Ceil(x: real): (n: int)
    ensures (n - 1) as real < x <= n as real
  {
    -(-x).Floor
  }

  /** How many shards a Vitest suite is split into: the fewest whose shares each fit a lane. */
  function Shards(s: Suite): (n: nat)
    ensures n >= 1
    ensures n == 1 <==> FilesWeight(s) <= TARGET_SECONDS - STARTUP_SECONDS
    ensures n as real * (TARGET_SECONDS - STARTUP_SECONDS) >= FilesWeight(s)
    ensures (n - 1) as real * (TARGET_SECONDS - STARTUP_SECONDS) < FilesWeight(s)
  {
    Ceil(FilesWeight(s) / (TARGET_SECONDS - STARTUP_SECONDS))
  }

  predicate Sharded(s: Suite) { s.vitest && Shards(s) != 1 }

  function ItemOf(s: Suite): Item { Item(s.name, FilesWeight(s) + STARTUP_SECONDS, s.vitest) }

  function ShardLaneOf(s: Suite, index: nat): Lane {
    var n := Shards(s);
    Lane(ShardLane(s.name, index, n), [s.name], [Shard(index, n), MaxWorkers(2)], [],
      FilesWeight(s) / n as real + STARTUP_SECONDS, "")
  }

  /** The first `upTo` shards of a suite. */
  function ShardLanes(s: Suite, upTo: nat): seq<Lane> {
    if upTo == 0 then [] else ShardLanes(s, upTo - 1) + [ShardLaneOf(s, upTo)]
  }

  function AllShardLanes(suites: seq<Suite>): seq<Lane> {
    if suites == [] then [] else
    var s := suites[|suites| - 1];
    AllShardLanes(suites[..|suites| - 1]) + (if Sharded(s) then ShardLanes(s, Shards(s)) else [])
  }

  function SmallItems(suites: seq<Suite>): seq<Item> {
    if suites == [] then [] else
    var s := suites[|suites| - 1];
    SmallItems(suites[..|suites| - 1]) + (if Sharded(s) then [] else [ItemOf(s)])
  }

  function LaneOf(g: Group): Lane {
    Lane(SmallLane(g.index), g.filters, [MaxWorkers(2)], g.bunFilters, g.seconds, "")
  }

  function SmallLanes(bins: seq<seq<Item>>): seq<Lane> {
    seq(|bins|, k requires 0 <= k < |bins| => LaneOf(GroupOf(bins, k)))
  }

  // ------------------------------------------------------------ browsers

  /** The browser workspace of a name: the last suite listed under it decides. */
  function BrowserOf(suites: seq<Suite>, name: string): string {
    if suites == [] then ""
    else if suites[|suites| - 1].name == name then suites[|suites| - 1].browserWorkspace
    else BrowserOf(suites[..|suites| - 1], name)
  }

  /** The first browser workspace that one of the filters needs. */
  function BrowserFor(suites: seq<Suite>, filters: seq<string>): string {
    if filters == [] then ""
    else if BrowserOf(suites, filters[0]) != "" then BrowserOf(suites, filters[0])
    else BrowserFor(suites, filters[1..])
  }

  function WithBrowser(suites: seq<Suite>, lanes: seq<Lane>): seq<Lane> {
    seq(|lanes|, k requires 0 <= k < |lanes| => lanes[k].(browser := BrowserFor(suites, lanes[k].filters)))
  }

  // ------------------------------------------------------------ the plan

  predicate ByName(a: Suite, b: Suite) { Leq(a.name, b.name) }

  function BareLanes(suites: seq<Suite>): seq<Lane> {
    var sorted := Sort(suites, ByName);
    AllShardLanes(sorted) + SmallLanes(PackedBins(SmallItems(sorted)))
  }

  function Lanes(suites: seq<Suite>): seq<Lane> { WithBrowser(suites, BareLanes(suites)) }

  method PlanTests(suites: seq<Suite>) returns (r: Outcome)
    ensures r == if |Lanes(suites)| > 256 then TooManyLanes else Planned(Lanes(suites))
  {
    hide AllShardLanes, SmallItems, PackedBins;
    var lanes, small := ShardOrCollect(Sort(suites, ByName));
    var groups := Pack(small);
    lanes := lanes + seq(|groups|, k requires 0 <= k < |groups| => LaneOf(groups[k]));
    assert lanes == BareLanes(suites);
    lanes := AssignBrowsers(suites, lanes);
    r := if |lanes| > MAX_LANES then TooManyLanes else Planned(lanes);
  }

  /** The first loop: shard lanes right away, the small suites collected for packing. */
  method ShardOrCollect(sorted: seq<Suite>) returns (lanes: seq<Lane>, small: seq<Item>)
    ensures lanes == AllShardLanes(sorted) && small == SmallItems(sorted)
  {
    hide Shards, FilesWeight;
    lanes, small := [], [];
    for i := 0 to |sorted|
      invariant lanes == AllShardLanes(sorted[..i]) && small == SmallItems(sorted[..i])
    {
      var s := sorted[i];
      assert sorted[..i + 1][..i] == sorted[..i];
      var weight := FilesWeight(s);
      if !s.vitest || Shards(s) == 1 {
        small := small + [Item(s.name, weight + STARTUP_SECONDS, s.vitest)];
      } else {
        lanes := PushShards(s, weight, lanes);
      }
    }
    assert sorted[..|sorted|] == sorted;
  }

  method PushShards(s: Suite, weight: real, lanes: seq<Lane>) returns (r: seq<Lane>)
    requires weight == FilesWeight(s)
    ensures r == lanes + ShardLanes(s, Shards(s))
  {
    hide FilesWeight, Shards;
    var shards := Shards(s);
    var index := 1;
    r := lanes;
    while index <= shards
      invariant 1 <= index <= shards + 1
      invariant r == lanes + ShardLanes(s, index - 1)
    {
      r := r + [Lane(ShardLane(s.name, index, shards), [s.name], [Shard(index, shards), MaxWorkers(2)], [],
        weight / shards as real + STARTUP_SECONDS, "")];
      index := index + 1;
    }
  }

  method AssignBrowsers(suites: seq<Suite>, lanes: seq<Lane>) returns (r: seq<Lane>)
    ensures r == WithBrowser(suites, lanes)
  {
    hide BrowserFor;
    r := lanes;
    for k := 0 to |r|
      invariant |r| == |lanes|
      invariant forall j :: 0 <= j < |r| ==> r[j] == if j < k then WithBrowser(suites, lanes)[j] else lanes[j]
    {
      r := r[k := r[k].(browser := BrowserFor(suites, r[k].filters))];
    }
  }

  // ------------------------------------------------------------ nothing lost, nothing twice

  function Count(names: seq<string>, name: string): nat {
    if names == [] then 0 else Count(names[..|names| - 1], name) + (if names[|names| - 1] == name then 1 else 0)
  }

  /** How often a suite's name is run over all lanes. */
  function Runs(lanes: seq<Lane>, name: string): nat {
    if lanes == [] then 0 else Runs(lanes[..|lanes| - 1], name) + Count(lanes[|lanes| - 1].filters, name)
  }

  /** How often the suites call for it. */
  function Wanted(suites: seq<Suite>, name: string): nat {
    if suites == [] then 0 else
    var s := suites[|suites| - 1];
    Wanted(suites[..|suites| - 1], name) + (if s.name != name then 0 else if Sharded(s) then Shards(s) else 1)
  }

  lemma {:induction false} RunsConcat(a: seq<Lane>, b: seq<Lane>, name: string)
    ensures Runs(a + b, name) == Runs(a, name) + Runs(b, name)
  {
    if b == [] {
      assert a + b == a;
    } else {
      assert (a + b)[..|a + b| - 1] == a + b[..|b| - 1];
      RunsConcat(a, b[..|b| - 1], name);
    }
  }

  lemma {:induction false} ShardRuns(s: Suite, upTo: nat, name: string)
    ensures Runs(ShardLanes(s, upTo), name) == if s.name == name then upTo else 0
  {
    hide Shards, FilesWeight;
    if upTo > 0 {
      ShardRuns(s, upTo - 1, name);
      RunsConcat(ShardLanes(s, upTo - 1), [ShardLaneOf(s, upTo)], name);
      OneLane(ShardLaneOf(s, upTo), name);
    }
  }

  lemma OneLane(lane: Lane, name: string)
    requires |lane.filters| == 1
    ensures Runs([lane], name) == if lane.filters[0] == name then 1 else 0
  {
    assert [lane][..|[lane]| - 1] == [];
    assert lane.filters[..|lane.filters| - 1] == [];
    assert Count(lane.filters, name) == Count([], name) + (if lane.filters[0] == name then 1 else 0);
    assert Runs([lane], name) == Runs([], name) + Count(lane.filters, name);
  }

  /** How often an item of this name is among the items. */
  function Named(name: string): Item -> real { (x: Item) => if x.name == name then 1.0 else 0.0 }

  lemma {:induction false} NamesCount(bin: seq<Item>, name: string)
    ensures Count(Names(bin), name) as real == Sum(bin, Named(name))
  {
    if bin != [] {
      NamesCount(bin[..|bin| - 1], name);
      var names := Names(bin);
      assert names[..|names| - 1] == Names(bin[..|bin| - 1]);
    }
  }

  lemma {:induction false} SmallRuns(bins: seq<seq<Item>>, name: string)
    ensures Runs(SmallLanes(bins), name) as real == Sum(Flatten(bins), Named(name))
  {
    if bins != [] {
      var front := bins[..|bins| - 1];
      SmallRuns(front, name);
      var lanes := SmallLanes(bins);
      assert lanes[..|lanes| - 1] == SmallLanes(front);
      NamesCount(bins[|bins| - 1], name);
      SumConcat(Flatten(front), bins[|bins| - 1], Named(name));
    }
  }

  lemma SumOneMore(items: seq<Item>, x: Item, name: string)
    ensures Sum(items + [x], Named(name)) == Sum(items, Named(name)) + (if x.name == name then 1.0 else 0.0)
  {
    assert (items + [x])[..|items|] == items;
  }

  /** Each name is run by the shard lanes, or waits among the small items, as often as asked for. */
  lemma {:induction false} SplitRuns(suites: seq<Suite>, name: string)
    ensures Runs(AllShardLanes(suites), name) as real + Sum(SmallItems(suites), Named(name)) == Wanted(suites, name) as real
  {
    hide Shards, FilesWeight, Runs, Sum, Named, ShardLanes;
    if suites == [] {
      NoRuns(name);
    } else {
      var front, s := suites[..|suites| - 1], suites[|suites| - 1];
      SplitRuns(front, name);
      if Sharded(s) {
        ShardRuns(s, Shards(s), name);
        RunsConcat(AllShardLanes(front), ShardLanes(s, Shards(s)), name);
        assert AllShardLanes(suites) == AllShardLanes(front) + ShardLanes(s, Shards(s));
        assert SmallItems(suites) == SmallItems(front);
      } else {
        SumOneMore(SmallItems(front), ItemOf(s), name);
        assert AllShardLanes(suites) == AllShardLanes(front);
      }
    }
  }

  lemma NoRuns(name: string)
    ensures Runs([], name) == 0 && Sum([], Named(name)) == 0.0
  {}

  lemma {:induction false} BrowsersKeepRuns(suites: seq<Suite>, lanes: seq<Lane>, name: string)
    ensures Runs(WithBrowser(suites, lanes), name) == Runs(lanes, name)
  {
    if lanes != [] {
      BrowsersKeepRuns(suites, lanes[..|lanes| - 1], name);
      var r := WithBrowser(suites, lanes);
      assert r[..|r| - 1] == WithBrowser(suites, lanes[..|lanes| - 1]);
    }
  }

  /** Over all lanes every suite is run exactly as often as it should be: once, or once per shard. */
  lemma PlanRunsEverySuite(suites: seq<Suite>, name: string)
    ensures Runs(Lanes(suites), name) == Wanted(Sort(suites, ByName), name)
  {
    hide ShardLanes, AllShardLanes, SmallItems, Wanted;
    var sorted := Sort(suites, ByName);
    var small := SmallItems(sorted);
    var order := Sort(small, HeavierFirst);
    BrowsersKeepRuns(suites, BareLanes(suites), name);
    RunsConcat(AllShardLanes(sorted), SmallLanes(PackedBins(small)), name);
    SmallRuns(PackedBins(small), name);
    BinsKeepItems(order);
    SumIgnoresOrder(Flatten(PackedBins(small)), small, Named(name));
    SplitRuns(sorted, name);
  }

  // ------------------------------------------------------------ unique names

  ghost predicate UniqueNames(suites: seq<Suite>) {
    forall a, b :: a in suites && b in suites && a.name == b.name ==> a == b
  }

  /** With unique names, `Wanted` is what the one suite of that name asks for, times its occurrences. */
  lemma {:induction false} WantedOnce(suites: seq<Suite>, s: Suite)
    requires UniqueNames(suites) && s in suites && multiset(suites)[s] == 1
    ensures Wanted(suites, s.name) == if Sharded(s) then Shards(s) else 1
  {
    var front, last := suites[..|suites| - 1], suites[|suites| - 1];
    assert suites == front + [last];
    if last == s {
      assert s !in multiset(front);
      WantedNone(front, s.name);
    } else {
      assert multiset(front)[s] == 1;
      assert s in multiset(front);
      WantedOnce(front, s);
    }
  }

  lemma {:induction false} WantedNone(suites: seq<Suite>, name: string)
    requires forall s :: s in suites ==> s.name != name
    ensures Wanted(suites, name) == 0
  {
    if suites != [] { WantedNone(suites[..|suites| - 1], name); }
  }

  /** With unique names and no suite listed twice, each suite is run once, or once per shard. */
  lemma EverySuiteRunsOnce(suites: seq<Suite>, s: Suite)
    requires UniqueNames(suites) && s in suites && multiset(suites)[s] == 1
    ensures Runs(Lanes(suites), s.name) == if Sharded(s) then Shards(s) else 1
  {
    hide Shards, FilesWeight;
    var sorted := Sort(suites, ByName);
    PlanRunsEverySuite(suites, s.name);
    assert s in multiset(sorted);
    forall a, b | a in sorted && b in sorted && a.name == b.name ensures a == b {
      assert a in multiset(suites) && b in multiset(suites);
    }
    WantedOnce(sorted, s);
  }

  /** How many lanes carry this shard. */
  function ShardCount(lanes: seq<Lane>, name: LaneName): nat {
    if lanes == [] then 0 else ShardCount(lanes[..|lanes| - 1], name) + (if lanes[|lanes| - 1].name == name then 1 else 0)
  }

  function ShardWanted(suites: seq<Suite>, name: LaneName): nat
    requires name.ShardLane?
  {
    if suites == [] then 0 else
    var s := suites[|suites| - 1];
    ShardWanted(suites[..|suites| - 1], name) +
    (if Sharded(s) && s.name == name.suite && Shards(s) == name.of && 1 <= name.index <= name.of then 1 else 0)
  }

  lemma {:induction false} ShardCountConcat(a: seq<Lane>, b: seq<Lane>, name: LaneName)
    ensures ShardCount(a + b, name) == ShardCount(a, name) + ShardCount(b, name)
  {
    if b == [] {
      assert a + b == a;
    } else {
      assert (a + b)[..|a + b| - 1] == a + b[..|b| - 1];
      ShardCountConcat(a, b[..|b| - 1], name);
    }
  }

  lemma {:induction false} ShardsOnce(s: Suite, upTo: nat, name: LaneName)
    requires name.ShardLane?
    ensures ShardCount(ShardLanes(s, upTo), name) ==
      if s.name == name.suite && Shards(s) == name.of && 1 <= name.index <= upTo then 1 else 0
  {
    hide Shards, FilesWeight;
    if upTo > 0 {
      ShardsOnce(s, upTo - 1, name);
      ShardCountConcat(ShardLanes(s, upTo - 1), [ShardLaneOf(s, upTo)], name);
      assert [ShardLaneOf(s, upTo)][..0] == [];
    }
  }

  lemma {:induction false} AllShardsOnce(suites: seq<Suite>, name: LaneName)
    requires name.ShardLane?
    ensures ShardCount(AllShardLanes(suites), name) == ShardWanted(suites, name)
  {
    hide Shards, FilesWeight, ShardCount, ShardLanes;
    if suites == [] {
      NoShards(name);
    } else {
      var front, s := suites[..|suites| - 1], suites[|suites| - 1];
      AllShardsOnce(front, name);
      if Sharded(s) {
        ShardsOnce(s, Shards(s), name);
        ShardCountConcat(AllShardLanes(front), ShardLanes(s, Shards(s)), name);
      }
      assert AllShardLanes(front) + [] == AllShardLanes(front);
    }
  }

  lemma NoShards(name: LaneName)
    ensures ShardCount([], name) == 0
  {}

  lemma {:induction false} NoShardAmong(lanes: seq<Lane>, name: LaneName)
    requires forall k :: 0 <= k < |lanes| ==> lanes[k].name != name
    ensures ShardCount(lanes, name) == 0
  {
    if lanes != [] { NoShardAmong(lanes[..|lanes| - 1], name); }
  }

  lemma {:induction false} BrowsersKeepShards(suites: seq<Suite>, lanes: seq<Lane>, name: LaneName)
    ensures ShardCount(WithBrowser(suites, lanes), name) == ShardCount(lanes, name)
  {
    if lanes != [] {
      BrowsersKeepShards(suites, lanes[..|lanes| - 1], name);
      var r := WithBrowser(suites, lanes);
      assert r[..|r| - 1] == WithBrowser(suites, lanes[..|lanes| - 1]);
    }
  }

  /** There is one lane for each index 1..n of a sharded suite, and no lane for any other shard. */
  lemma PlanHasEveryShard(suites: seq<Suite>, name: LaneName)
    requires name.ShardLane?
    ensures ShardCount(Lanes(suites), name) == ShardWanted(Sort(suites, ByName), name)
  {
    hide ShardCount, AllShardLanes, SmallItems;
    var sorted := Sort(suites, ByName);
    var packed := SmallLanes(PackedBins(SmallItems(sorted)));
    BrowsersKeepShards(suites, BareLanes(suites), name);
    ShardCountConcat(AllShardLanes(sorted), packed, name);
    NoShardAmong(packed, name);
    AllShardsOnce(sorted, name);
  }

  // ------------------------------------------------------------ what a lane runs

  /** How many test files of a suite fit one lane, at the seconds per file it was measured with. */
  function FilesPerLane(suite: string): nat {
    if suite == "@maple/api" then 59
    else if suite == "@maple/backend" then 85
    else if suite == "@maple/ai" then 123
    else if suite == "@maple/query-engine" || suite == "@maple/ui" then 302
    else if suite == "@maple/domain" then 340
    else 226
  }

  /** A Vitest suite stays whole up to that many files and is sharded beyond. */
  lemma ShardedBeyond(s: Suite)
    requires s.vitest
    ensures Sharded(s) <==> s.files > FilesPerLane(s.name)
  {
    if s.files > 1 { RateTells(s.name, s.files); } else { RateTells(s.name, 1); }
  }

  lemma RateTells(name: string, files: nat)
    ensures files as real * SecondsPerFile(name) <= TARGET_SECONDS - STARTUP_SECONDS <==> files <= FilesPerLane(name)
  {
    if name == "@maple/api" {
    } else if name == "@maple/backend" {
    } else if name == "@maple/ai" {
    } else if name == "@maple/query-engine" || name == "@maple/ui" {
    } else if name == "@maple/domain" {
    } else {
    }
  }

  /** The shards of a suite are the fewest that share its files' seconds out below 136 each. */
  lemma ShardsShareFiles(s: Suite)
    ensures
      var seconds := (if s.files == 0 then 1.0 else s.files as real) * SecondsPerFile(s.name);
      (Shards(s) - 1) as real * 136.0 < seconds <= Shards(s) as real * 136.0
  {}

  /** A lane that runs one shard of a sharded suite. */
  ghost predicate RunsShard(suites: seq<Suite>, lane: Lane, name: string, i: nat, n: nat) {
    && 1 <= i <= n && lane.filters == [name] && lane.args == [Shard(i, n), MaxWorkers(2)] && lane.bunFilters == []
    && exists s :: s in suites && s.name == name && Sharded(s) && Shards(s) == n && lane.seconds == FilesWeight(s) / n as real + 4.0
  }

  /** A lane that runs whole suites, `members` in order; those that are not Vitest's are listed apart. */
  ghost predicate RunsWhole(suites: seq<Suite>, lane: Lane, members: seq<Suite>) {
    && lane.args == [MaxWorkers(2)] && |lane.filters| == |members| && (forall s :: s in members ==> s in suites && !Sharded(s))
    && (forall j :: 0 <= j < |members| ==> lane.filters[j] == members[j].name)
    && lane.bunFilters == BunSuites(members) && lane.seconds == TotalSeconds(members)
  }

  function BunSuites(members: seq<Suite>): seq<string> {
    if members == [] then [] else
    var s := members[|members| - 1];
    BunSuites(members[..|members| - 1]) + (if s.vitest then [] else [s.name])
  }

  function TotalSeconds(members: seq<Suite>): real {
    if members == [] then 0.0 else TotalSeconds(members[..|members| - 1]) + (FilesWeight(members[|members| - 1]) + 4.0)
  }

  lemma {:induction false} ShardLaneRuns(suites: seq<Suite>, k: nat)
    requires k < |AllShardLanes(suites)|
    ensures AllShardLanes(suites)[k].name.ShardLane?
    ensures
      var lane := AllShardLanes(suites)[k];
      RunsShard(suites, lane, lane.name.suite, lane.name.index, lane.name.of)
  {
    hide Shards, FilesWeight;
    var front, s := suites[..|suites| - 1], suites[|suites| - 1];
    if k < |AllShardLanes(front)| {
      ShardLaneRuns(front, k);
      assert AllShardLanes(suites)[k] == AllShardLanes(front)[k];
      forall x | x in front ensures x in suites {}
    } else {
      OneSuiteRuns(s, Shards(s), k - |AllShardLanes(front)|);
    }
  }

  lemma {:induction false} OneSuiteRuns(s: Suite, upTo: nat, j: nat)
    requires j < |ShardLanes(s, upTo)|
    ensures |ShardLanes(s, upTo)| == upTo && ShardLanes(s, upTo)[j] == ShardLaneOf(s, j + 1)
  {
    hide Shards, FilesWeight, ShardLaneOf;
    if j < |ShardLanes(s, upTo - 1)| {
      OneSuiteRuns(s, upTo - 1, j);
    } else if upTo > 1 {
      OneSuiteRuns(s, upTo - 1, 0);
    }
  }

  lemma {:induction false} BinMembers(suites: seq<Suite>, bin: seq<Item>) returns (members: seq<Suite>)
    requires forall x :: x in bin ==> x in SmallItems(suites)
    ensures |members| == |bin| && |Names(bin)| == |bin|
    ensures forall j :: 0 <= j < |members| ==> members[j] in suites && !Sharded(members[j]) && Names(bin)[j] == members[j].name
    ensures BunNames(bin) == BunSuites(members) && Load(bin) == TotalSeconds(members)
  {
    hide Shards, FilesWeight, SmallItems;
    members := [];
    if bin != [] {
      var front, x := bin[..|bin| - 1], bin[|bin| - 1];
      var before := BinMembers(suites, front);
      var s := SmallItemSuite(suites, x);
      members := before + [s];
      assert members[..|members| - 1] == before && bin == front + [x];
      AppendViews(front, x);
    }
  }

  /** Every lane of the plan runs one shard, with that shard's own index and count as argument, or
      whole suites without such an argument. */
  lemma LanesRunSuites(suites: seq<Suite>, k: nat)
    requires k < |Lanes(suites)|
    ensures
      var lane := Lanes(suites)[k];
      match lane.name
      case ShardLane(name, i, n) => RunsShard(suites, lane, name, i, n)
      case SmallLane(_) => exists members :: RunsWhole(suites, lane, members)
  {
    hide Shards, FilesWeight, AllShardLanes, SmallItems, PackedBins, BrowserFor, Sharded, RunsWhole, RunsShard;
    var sorted := Sort(suites, ByName);
    var m := |AllShardLanes(sorted)|;
    if k < m {
      ShardLaneRuns(sorted, k);
      SameRunsShard(sorted, suites, AllShardLanes(sorted)[k], Lanes(suites)[k]);
    } else {
      var members := PackedLaneRuns(suites, sorted, k - m, BrowserFor(suites, BareLanes(suites)[k].filters));
    }
  }

  lemma SameRunsShard(sorted: seq<Suite>, suites: seq<Suite>, bare: Lane, lane: Lane)
    requires multiset(sorted) == multiset(suites) && bare.name.ShardLane? && lane == bare.(browser := lane.browser)
    requires RunsShard(sorted, bare, bare.name.suite, bare.name.index, bare.name.of)
    ensures RunsShard(suites, lane, lane.name.suite, lane.name.index, lane.name.of)
  {
    hide Shards, FilesWeight, Sharded;
    SameSuites(sorted, suites);
  }

  lemma PackedLaneRuns(suites: seq<Suite>, sorted: seq<Suite>, k: nat, browser: string) returns (members: seq<Suite>)
    requires multiset(sorted) == multiset(suites) && k < |PackedBins(SmallItems(sorted))|
    ensures RunsWhole(suites, SmallLanes(PackedBins(SmallItems(sorted)))[k].(browser := browser), members)
  {
    hide Shards, FilesWeight, SmallItems, PackedBins, Sharded;
    SameSuites(sorted, suites);
    PackedFromSmall(SmallItems(sorted), k);
    members := BinMembers(sorted, PackedBins(SmallItems(sorted))[k]);
  }

  lemma PackedFromSmall(small: seq<Item>, k: nat)
    requires k < |PackedBins(small)|
    ensures forall x :: x in PackedBins(small)[k] ==> x in small
  {
    var order := Sort(small, HeavierFirst);
    BinsKeepItems(order);
    forall x | x in PackedBins(small)[k] ensures x in small {
      InFlatten(PackedBins(small), k, x);
      assert x in multiset(Flatten(PackedBins(small)));
      assert x in multiset(small);
    }
  }

  /** A lane is named after a shard exactly when that is the shard its arguments ask for. */
  lemma ArgsTellShard(suites: seq<Suite>, k: nat, name: string, i: nat, n: nat)
    requires k < |Lanes(suites)|
    ensures
      var lane := Lanes(suites)[k];
      lane.name == ShardLane(name, i, n) <==> lane.filters == [name] && Shard(i, n) in lane.args
  {
    hide Lanes, Sharded, Shards, FilesWeight;
    LanesRunSuites(suites, k);
  }

  lemma {:induction false} CountedLane(lanes: seq<Lane>, name: LaneName)
    ensures ShardCount(lanes, name) > 0 ==> exists k :: 0 <= k < |lanes| && lanes[k].name == name
    ensures ShardCount(lanes, name) <= 1 ==> forall a, b :: 0 <= a < b < |lanes| ==> !(lanes[a].name == name && lanes[b].name == name)
  {
    if lanes != [] {
      var front := lanes[..|lanes| - 1];
      CountedLane(front, name);
      if ShardCount(lanes, name) <= 1 && lanes[|lanes| - 1].name == name {
        forall a | 0 <= a < |front| ensures front[a].name != name {
          if front[a].name == name { CountedFrom(front, name, a); }
        }
      }
    }
  }

  lemma {:induction false} CountedFrom(lanes: seq<Lane>, name: LaneName, a: nat)
    requires a < |lanes| && lanes[a].name == name
    ensures ShardCount(lanes, name) > 0
  {
    if a < |lanes| - 1 { CountedFrom(lanes[..|lanes| - 1], name, a); }
  }

  /** Asks for that shard of the suite. */
  predicate AsksFor(lane: Lane, name: string, i: nat, n: nat) { lane.filters == [name] && Shard(i, n) in lane.args }

  /** With unique names, for each index up to its number of shards exactly one lane runs that shard
      of a sharded suite: each of its tests is asked for, and none twice. */
  lemma EveryShardRunsOnce(suites: seq<Suite>, s: Suite, i: nat)
    requires UniqueNames(suites) && s in suites && multiset(suites)[s] == 1 && Sharded(s) && 1 <= i <= Shards(s)
    ensures exists k :: 0 <= k < |Lanes(suites)| && AsksFor(Lanes(suites)[k], s.name, i, Shards(s))
    ensures forall a, b :: 0 <= a < b < |Lanes(suites)| ==>
      !(AsksFor(Lanes(suites)[a], s.name, i, Shards(s)) && AsksFor(Lanes(suites)[b], s.name, i, Shards(s)))
  {
    hide Lanes, Sharded, Shards, FilesWeight, ShardWanted, ShardCount;
    var lanes, name := Lanes(suites), ShardLane(s.name, i, Shards(s));
    PlanHasEveryShard(suites, name);
    WantedShardOnce(suites, s, i);
    CountedLane(lanes, name);
    forall k | 0 <= k < |lanes| ensures lanes[k].name == name <==> AsksFor(lanes[k], s.name, i, Shards(s)) {
      ArgsTellShard(suites, k, s.name, i, Shards(s));
    }
  }

  /** With no suite listed twice, no two lanes of the matrix have the same name. */
  lemma LanesAreNamedApart(suites: seq<Suite>, a: nat, b: nat)
    requires UniqueNames(suites) && (forall s :: s in suites ==> multiset(suites)[s] == 1) && a < b < |Lanes(suites)|
    ensures Lanes(suites)[a].name != Lanes(suites)[b].name
  {
    hide Sharded, Shards, FilesWeight, AllShardLanes, SmallItems, PackedBins, BrowserFor;
    var x, y := Lanes(suites)[a].name, Lanes(suites)[b].name;
    var sorted := Sort(suites, ByName);
    if a < |AllShardLanes(sorted)| { ShardLaneRuns(sorted, a); }
    if b < |AllShardLanes(sorted)| { ShardLaneRuns(sorted, b); }
    if x == y && x.ShardLane? {
      SameSuites(sorted, suites);
      var s :| s in sorted && s.name == x.suite && Sharded(s) && Shards(s) == x.of;
      PlanHasEveryShard(suites, x);
      WantedShardOnce(suites, s, x.index);
      CountedLane(Lanes(suites), x);
    }
  }

  lemma WantedShardOnce(suites: seq<Suite>, s: Suite, i: nat)
    requires UniqueNames(suites) && s in suites && multiset(suites)[s] == 1 && Sharded(s) && 1 <= i <= Shards(s)
    ensures ShardWanted(Sort(suites, ByName), ShardLane(s.name, i, Shards(s))) == 1
  {
    hide Sharded, Shards, FilesWeight, ShardWanted;
    var sorted := Sort(suites, ByName);
    SameSuites(sorted, suites);
    ShardWantedOnce(sorted, s, i);
  }

  lemma {:induction false} ShardWantedOnce(suites: seq<Suite>, s: Suite, i: nat)
    requires UniqueNames(suites) && s in suites && multiset(suites)[s] == 1 && Sharded(s) && 1 <= i <= Shards(s)
    ensures ShardWanted(suites, ShardLane(s.name, i, Shards(s))) == 1
  {
    hide Shards, FilesWeight;
    var front, last := suites[..|suites| - 1], suites[|suites| - 1];
    assert suites == front + [last];
    if last == s {
      assert s !in multiset(front);
      ShardWantedNone(front, ShardLane(s.name, i, Shards(s)));
    } else {
      assert multiset(front)[s] == 1;
      assert s in multiset(front);
      ShardWantedOnce(front, s, i);
    }
  }

  lemma {:induction false} ShardWantedNone(suites: seq<Suite>, name: LaneName)
    requires name.ShardLane? && forall s :: s in suites ==> s.name != name.suite
    ensures ShardWanted(suites, name) == 0
  {
    if suites != [] { ShardWantedNone(suites[..|suites| - 1], name); }
  }

  /** The browser of a lane is that of the first of its suites that needs one. */
  lemma LaneBrowser(suites: seq<Suite>, k: nat)
    requires UniqueNames(suites) && k < |Lanes(suites)|
    ensures
      var lane := Lanes(suites)[k];
      if forall s :: s in suites && s.name in lane.filters ==> s.browserWorkspace == "" then lane.browser == ""
      else exists j :: 0 <= j < |lane.filters| && FirstNeed(suites, lane.filters, j, lane.browser)
  {
    hide BareLanes;
    FirstBrowser(suites, BareLanes(suites)[k].filters);
  }

  /** The suite at `j` needs that browser, and none before it needs one. */
  ghost predicate FirstNeed(suites: seq<Suite>, filters: seq<string>, j: nat, browser: string)
    requires j < |filters|
  {
    && browser != "" && (exists s :: s in suites && s.name == filters[j] && s.browserWorkspace == browser)
    && forall s :: s in suites && s.name in filters[..j] ==> s.browserWorkspace == ""
  }

  lemma {:induction false} FirstBrowser(suites: seq<Suite>, filters: seq<string>)
    requires UniqueNames(suites)
    ensures
      if forall s :: s in suites && s.name in filters ==> s.browserWorkspace == "" then BrowserFor(suites, filters) == ""
      else exists j :: 0 <= j < |filters| && FirstNeed(suites, filters, j, BrowserFor(suites, filters))
  {
    if filters != [] {
      var browser := BrowserFor(suites, filters);
      BrowserIs(suites, filters[0]);
      FirstBrowser(suites, filters[1..]);
      if BrowserOf(suites, filters[0]) != "" {
        assert FirstNeed(suites, filters, 0, browser);
      } else if exists j :: 0 <= j < |filters[1..]| && FirstNeed(suites, filters[1..], j, browser) {
        var j :| 0 <= j < |filters[1..]| && FirstNeed(suites, filters[1..], j, browser);
        assert filters[..j + 1] == [filters[0]] + filters[1..][..j];
        assert FirstNeed(suites, filters, j + 1, browser);
      }
    }
  }

  // ------------------------------------------------------------ lanes within the limit

  lemma ShardFits(weight: real, n: nat)
    requires n >= 1 && n as real * (TARGET_SECONDS - STARTUP_SECONDS) >= weight
    ensures weight / n as real + STARTUP_SECONDS <= TARGET_SECONDS
  {
  }

  /** Within the limit, or a single Bun suite too heavy for any lane. */
  ghost predicate Fits(suites: seq<Suite>, lane: Lane) {
    || lane.seconds <= TARGET_SECONDS
    || exists s :: s in suites && !s.vitest && lane.filters == [s.name] && lane.seconds == FilesWeight(s) + STARTUP_SECONDS
  }

  lemma {:induction false} ShardLanesFit(suites: seq<Suite>, k: nat)
    requires k < |AllShardLanes(suites)|
    ensures AllShardLanes(suites)[k].seconds <= TARGET_SECONDS
  {
    hide Shards, FilesWeight;
    var front, s := suites[..|suites| - 1], suites[|suites| - 1];
    if k < |AllShardLanes(front)| {
      ShardLanesFit(front, k);
    } else {
      OneSuiteFits(s, Shards(s), k - |AllShardLanes(front)|);
    }
  }

  lemma {:induction false} OneSuiteFits(s: Suite, upTo: nat, k: nat)
    requires k < |ShardLanes(s, upTo)|
    ensures ShardLanes(s, upTo)[k].seconds <= TARGET_SECONDS
  {
    hide FilesWeight;
    if k < |ShardLanes(s, upTo - 1)| { OneSuiteFits(s, upTo - 1, k); }
    ShardFits(FilesWeight(s), Shards(s));
  }

  lemma {:induction false} SmallItemSuite(suites: seq<Suite>, x: Item) returns (s: Suite)
    requires x in SmallItems(suites)
    ensures s in suites && !Sharded(s) && x == ItemOf(s)
  {
    hide Shards, FilesWeight;
    s := suites[|suites| - 1];
    if Sharded(s) || x != ItemOf(s) { s := SmallItemSuite(suites[..|suites| - 1], x); }
  }

  lemma PackedLaneFits(suites: seq<Suite>, sorted: seq<Suite>, k: nat)
    requires multiset(sorted) == multiset(suites) && k < |PackedBins(SmallItems(sorted))|
    ensures Fits(suites, LaneOf(GroupOf(PackedBins(SmallItems(sorted)), k)))
  {
    hide Shards, FilesWeight, SmallItems;
    var small := SmallItems(sorted);
    var order := Sort(small, HeavierFirst);
    var bins := PackedBins(small);
    forall x | x in order ensures x in small { assert x in multiset(small); }
    forall x | x in order ensures x.weight >= 0.0 { var s := SmallItemSuite(sorted, x); }
    BinsInvariant(order);
    if |bins[k]| == 1 {
      var x := bins[k][0];
      InFlatten(bins, k, x);
      BinsKeepItems(order);
      assert x in multiset(Flatten(bins)) && x in order;
      var s := SmallItemSuite(sorted, x);
      assert s in multiset(suites);
      LoadOfOne(bins[k]);
      NamesOfOne(bins[k]);
    }
  }

  lemma NamesOfOne(bin: seq<Item>)
    requires |bin| == 1
    ensures Names(bin) == [bin[0].name]
  {
    assert Names(bin[..0]) == [];
  }

  /** Every lane of the plan is within the limit unless it holds one oversized Bun suite. */
  lemma EveryLaneFits(suites: seq<Suite>, k: nat)
    requires k < |Lanes(suites)|
    ensures Fits(suites, Lanes(suites)[k])
  {
    hide Shards, FilesWeight, AllShardLanes, SmallItems, PackedBins;
    var sorted := Sort(suites, ByName);
    if k < |AllShardLanes(sorted)| {
      ShardLanesFit(sorted, k);
    } else {
      PackedLaneFits(suites, sorted, k - |AllShardLanes(sorted)|);
    }
  }

  // ------------------------------------------------------------ independent of the input order

  lemma {:induction false} BrowserIs(suites: seq<Suite>, name: string)
    requires UniqueNames(suites)
    ensures forall s :: s in suites && s.name == name ==> BrowserOf(suites, name) == s.browserWorkspace
    ensures (forall s :: s in suites ==> s.name != name) ==> BrowserOf(suites, name) == ""
  {
    if suites != [] {
      var front, last := suites[..|suites| - 1], suites[|suites| - 1];
      BrowserIs(front, name);
      assert suites == front + [last];
    }
  }

  lemma {:induction false} BrowserForSame(suites: seq<Suite>, other: seq<Suite>, filters: seq<string>)
    requires UniqueNames(suites) && multiset(suites) == multiset(other)
    ensures BrowserFor(suites, filters) == BrowserFor(other, filters)
  {
    if filters != [] {
      SameSuites(suites, other);
      BrowserIs(suites, filters[0]);
      BrowserIs(other, filters[0]);
      BrowserForSame(suites, other, filters[1..]);
    }
  }

  lemma SameSuites(suites: seq<Suite>, other: seq<Suite>)
    requires multiset(suites) == multiset(other)
    ensures forall s :: s in suites <==> s in other
  {
    forall s ensures s in suites <==> s in other { assert s in multiset(suites) <==> s in multiset(other); }
  }

  /** With unique names the plan is the same for every order of the suites. */
  lemma PlanIgnoresOrder(suites: seq<Suite>, other: seq<Suite>)
    requires UniqueNames(suites) && multiset(suites) == multiset(other)
    ensures Lanes(suites) == Lanes(other)
  {
    hide AllShardLanes, SmallItems, PackedBins, BrowserFor;
    ByNameIsPreorder();
    forall a, b | a in suites && b in suites && ByName(a, b) && ByName(b, a) ensures a == b {
      LeqAntisymmetric(a.name, b.name);
    }
    SortIgnoresOrder(suites, other, ByName);
    var lanes := BareLanes(suites);
    forall k | 0 <= k < |lanes| ensures BrowserFor(suites, lanes[k].filters) == BrowserFor(other, lanes[k].filters) {
      BrowserForSame(suites, other, lanes[k].filters);
    }
  }

  lemma ByNameIsPreorder()
    ensures TotalPreorder(ByName)
  {
    forall a: Suite, b: Suite ensures ByName(a, b) || ByName(b, a) { LeqTotal(a.name, b.name); }
    forall a: Suite, b: Suite, c: Suite | ByName(a, b) && ByName(b, c) ensures ByName(a, c) {
      LeqTransitive(a.name, b.name, c.name);
    }
  }
}
