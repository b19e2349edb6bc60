/** First-fit-decreasing packing of small test suites into CI lanes
    (scripts/ci/plan-tests.ts, `pack`), and its distance from the best possible packing. */
module Packing {
  import opened Order
  import opened Sums

  /** A lane may hold this many estimated seconds of tests. */
  const TARGET_SECONDS := 140.0

  /** One suite as `pack` receives it: name, estimated seconds, and which runner it needs. */
  datatype Item = Item(name: string, weight: real, vitest: bool)

  /** A packed lane; the source names it `small-<index>`. */
  datatype Group = Group(index: nat, filters: seq<string>, bunFilters: seq<string>, seconds: real)

  // ------------------------------------------------------------ specification

  function Weight(x: Item): real { x.weight }

  function Load(bin: seq<Item>): real { Sum(bin, Weight) }

  function Names(bin: seq<Item>): seq<string> {
    if bin == [] then [] else Names(bin[..|bin| - 1]) + [bin[|bin| - 1].name]
  }

  function BunNames(bin: seq<Item>): seq<string> {
    if bin == [] then []
    else BunNames(bin[..|bin| - 1]) + (if bin[|bin| - 1].vitest then [] else [bin[|bin| - 1].name])
  }

  /** The lane that the `k`-th bin of items stands for. */
  function GroupOf(bins: seq<seq<Item>>, k: nat): Group
    requires k < |bins|
  {
    Group(k + 1, Names(bins[k]), BunNames(bins[k]), Load(bins[k]))
  }

  /** The first bin, at or after `from`, in which `x` still fits; `|bins|` when there is none. */
  function FirstFit(bins: seq<seq<Item>>, x: Item, from: nat): (g: nat)
    requires from <= |bins|
    ensures from <= g <= |bins|
    ensures g < |bins| ==> Load(bins[g]) + x.weight <= TARGET_SECONDS
    ensures forall k :: from <= k < g ==> Load(bins[k]) + x.weight > TARGET_SECONDS
    decreases |bins| - from
  {
    if from == |bins| then from
    else if Load(bins[from]) + x.weight <= TARGET_SECONDS then from
    else FirstFit(bins, x, from + 1)
  }

  function Place(bins: seq<seq<Item>>, x: Item): seq<seq<Item>> {
    var g := FirstFit(bins, x, 0);
    if g < |bins| then bins[g := bins[g] + [x]] else bins + [[x]]
  }

  /** The bins after the items of `sorted` were placed one by one. */
  function Bins(sorted: seq<Item>): seq<seq<Item>> {
    if sorted == [] then [] else Place(Bins(sorted[..|sorted| - 1]), sorted[|sorted| - 1])
  }

  /** The comparator `pack` sorts with: heavier first, ties by name. */
  predicate HeavierFirst(a: Item, b: Item) {
    a.weight > b.weight || (a.weight == b.weight && Leq(a.name, b.name))
  }

  lemma HeavierFirstIsPreorder()
    ensures TotalPreorder(HeavierFirst)
  {
    forall a: Item, b: Item ensures HeavierFirst(a, b) || HeavierFirst(b, a) {
      LeqTotal(a.name, b.name);
    }
    forall a: Item, b: Item, c: Item | HeavierFirst(a, b) && HeavierFirst(b, c)
      ensures HeavierFirst(a, c)
    {
      if a.weight == b.weight == c.weight { LeqTransitive(a.name, b.name, c.name); }
    }
  }

  /** The bins `pack` fills for a list of suites. */
  function PackedBins(suites: seq<Item>): seq<seq<Item>> { Bins(Sort(suites, HeavierFirst)) }

  // ------------------------------------------------------------ the algorithm

  /** The lanes hold exactly what the bins hold. */
  ghost predicate Mirrors(groups: seq<Group>, bins: seq<seq<Item>>) {
    && |groups| == |bins|
    && forall k :: 0 <= k < |bins| ==> groups[k] == GroupOf(bins, k)
  }

  method Pack(suites: seq<Item>) returns (groups: seq<Group>)
    ensures Mirrors(groups, PackedBins(suites))
  {
    var sorted := Sort(suites, HeavierFirst);
    groups := [];
    for i := 0 to |sorted|
      invariant Mirrors(groups, Bins(sorted[..i]))
    {
      ghost var before := groups;
      ghost var bins := Bins(sorted[..i]);
      var x := sorted[i];
      var g := 0;
      while g < |groups| && groups[g].seconds + x.weight > TARGET_SECONDS
        invariant 0 <= g <= |groups|
        invariant FirstFit(bins, x, g) == FirstFit(bins, x, 0)
      {
        g := g + 1;
      }
      if g == |groups| {
        groups := groups + [Group(|groups| + 1, [], [], 0.0)];
      }
      groups := groups[g := Grown(groups[g], x)];
      assert sorted[..i + 1][..i] == sorted[..i];
      MirrorsPlace(before, bins, x, g);
    }
    assert sorted[..|sorted|] == sorted;
  }

  /** The in-place update of one lane. */
  function Grown(group: Group, x: Item): Group {
    group.(
      filters := group.filters + [x.name],
      bunFilters := if x.vitest then group.bunFilters else group.bunFilters + [x.name],
      seconds := group.seconds + x.weight)
  }

  lemma MirrorsPlace(groups: seq<Group>, bins: seq<seq<Item>>, x: Item, g: nat)
    requires Mirrors(groups, bins) && g == FirstFit(bins, x, 0)
    ensures
      var room := if g < |groups| then groups else groups + [Group(|groups| + 1, [], [], 0.0)];
      Mirrors(room[g := Grown(room[g], x)], Place(bins, x))
  {
    if g < |bins| {
      AppendViews(bins[g], x);
    } else {
      AppendViews([], x);
      assert [] + [x] == [x];
    }
  }

  // ------------------------------------------------------------ what first fit keeps

  ghost predicate NonNegative(items: seq<Item>) { forall x :: x in items ==> x.weight >= 0.0 }

  ghost predicate Decreasing(items: seq<Item>) {
    forall i, j :: 0 <= i < j < |items| ==> items[i].weight >= items[j].weight
  }

  /** No item of a later lane fits in an earlier one. */
  ghost predicate NoSlack(bins: seq<seq<Item>>) {
    forall a, b, x :: 0 <= a < b < |bins| && x in bins[b] ==> Load(bins[a]) + x.weight > TARGET_SECONDS
  }

  /** A lane was opened by an item at least as heavy as everything in it and after it. */
  ghost predicate OpenedByHeaviest(bins: seq<seq<Item>>) {
    && (forall a :: 0 <= a < |bins| ==> bins[a] != [])
    && (forall a, b, x :: 0 <= a <= b < |bins| && x in bins[b] ==> bins[a][0].weight >= x.weight)
  }

  /** Only a lane holding a single item may be over the limit. */
  ghost predicate WithinLimit(bins: seq<seq<Item>>) {
    forall a :: 0 <= a < |bins| ==> |bins[a]| == 1 || Load(bins[a]) <= TARGET_SECONDS
  }

  lemma LoadAppend(bin: seq<Item>, x: Item)
    ensures Load(bin + [x]) == Load(bin) + x.weight
  {
    assert (bin + [x])[..|bin|] == bin;
  }

  lemma AppendViews(bin: seq<Item>, x: Item)
    ensures Names(bin + [x]) == Names(bin) + [x.name]
    ensures BunNames(bin + [x]) == BunNames(bin) + (if x.vitest then [] else [x.name])
    ensures Load(bin + [x]) == Load(bin) + x.weight
  {
    assert (bin + [x])[..|bin|] == bin;
  }

  lemma LoadOfOne(bin: seq<Item>)
    requires |bin| == 1
    ensures Load(bin) == bin[0].weight
  {
    assert bin[..|bin| - 1] == [];
    assert Sum(bin, Weight) == Sum(bin[..|bin| - 1], Weight) + Weight(bin[0]);
  }

  lemma {:induction false} BinsKeepItems(s: seq<Item>)
    ensures multiset(Flatten(Bins(s))) == multiset(s)
  {
    if s != [] {
      var front, x := s[..|s| - 1], s[|s| - 1];
      BinsKeepItems(front);
      assert s == front + [x];
      var bins := Bins(front);
      var g := FirstFit(bins, x, 0);
      if g < |bins| {
        FlattenUpdate(bins, g, x);
      } else {
        assert (bins + [[x]])[..|bins|] == bins;
      }
    }
  }

  lemma {:induction false} BinsInvariant(s: seq<Item>)
    requires NonNegative(s)
    ensures NoSlack(Bins(s)) && WithinLimit(Bins(s))
    ensures Decreasing(s) ==> OpenedByHeaviest(Bins(s))
  {
    if s != [] {
      var front, x := s[..|s| - 1], s[|s| - 1];
      BinsInvariant(front);
      assert s == front + [x];
      NoSlackStep(Bins(front), x);
      WithinLimitStep(Bins(front), x);
      if Decreasing(s) { OpenedByHeaviestStep(front, x); }
    }
  }

  lemma NoSlackStep(bins: seq<seq<Item>>, x: Item)
    requires NoSlack(bins) && x.weight >= 0.0
    ensures NoSlack(Place(bins, x))
  {
    var after: seq<seq<Item>> := Place(bins, x);
    var g := FirstFit(bins, x, 0);
    if g < |bins| { LoadAppend(bins[g], x); }
    forall a: int, b: int, y: Item | 0 <= a < b < |after| && y in after[b]
      ensures Load(after[a]) + y.weight > TARGET_SECONDS
    {
      assert Load(after[a]) >= Load(bins[a]);
      if !(b < |bins| && y in bins[b]) { assert y == x && b == g; }
    }
  }

  lemma WithinLimitStep(bins: seq<seq<Item>>, x: Item)
    requires WithinLimit(bins)
    ensures WithinLimit(Place(bins, x))
  {
    var g := FirstFit(bins, x, 0);
    if g < |bins| { LoadAppend(bins[g], x); }
  }

  lemma OpenedByHeaviestStep(front: seq<Item>, x: Item)
    requires Decreasing(front + [x]) && OpenedByHeaviest(Bins(front))
    ensures OpenedByHeaviest(Place(Bins(front), x))
  {
    var bins := Bins(front);
    var after: seq<seq<Item>> := Place(bins, x);
    forall a: int, b: int, y: Item | 0 <= a <= b < |after| && y in after[b] ensures after[a][0].weight >= y.weight {
      if a < |bins| {
        assert after[a][0] == bins[a][0];
        if !(b < |bins| && y in bins[b]) {
          assert y == x;
          InFlatten(bins, a, bins[a][0]);
          BinsKeepItems(front);
          assert bins[a][0] in multiset(Flatten(bins));
          assert bins[a][0] in front;
          var i :| 0 <= i < |front| && front[i] == bins[a][0];
          assert (front + [x])[i] == front[i] && (front + [x])[|front|] == x;
        }
      }
    }
  }

  /** The stepping stone: two lanes opened by the packer never fit in one. */
  lemma NoTwoLanesMerge(suites: seq<Item>, a: nat, b: nat)
    requires NonNegative(suites) && a < b < |PackedBins(suites)|
    ensures Load(PackedBins(suites)[a]) + Load(PackedBins(suites)[b]) > TARGET_SECONDS
  {
    var sorted := SortedSuites(suites);
    BinsInvariant(sorted);
    var bin := PackedBins(suites)[b];
    forall x | x in bin ensures x.weight >= 0.0 {
      InFlatten(PackedBins(suites), b, x);
      BinsKeepItems(sorted);
      assert x in multiset(sorted);
    }
    SumAtLeastZero(bin[..|bin| - 1], Weight);
    assert bin[|bin| - 1] in bin;
  }

  lemma SortedSuites(suites: seq<Item>) returns (sorted: seq<Item>)
    requires NonNegative(suites)
    ensures sorted == Sort(suites, HeavierFirst) && multiset(sorted) == multiset(suites)
    ensures NonNegative(sorted) && Decreasing(sorted)
    ensures OpenedByHeaviest(Bins(sorted))
  {
    sorted := Sort(suites, HeavierFirst);
    HeavierFirstIsPreorder();
    SortSorts(suites, HeavierFirst);
    forall x | x in sorted ensures x.weight >= 0.0 {
      assert x in multiset(sorted);
    }
    forall i, j | 0 <= i < j < |sorted| ensures sorted[i].weight >= sorted[j].weight {
      assert HeavierFirst(sorted[i], sorted[j]);
    }
    BinsInvariant(sorted);
  }

  // ------------------------------------------------------------ distance from the optimum

  /** Any way at all to spread the suites over lanes within the limit. */
  ghost predicate IsPacking(lanes: seq<seq<Item>>, suites: seq<Item>) {
    && multiset(Flatten(lanes)) == multiset(suites)
    && forall k :: 0 <= k < |lanes| ==> Load(lanes[k]) <= TARGET_SECONDS
  }

  function Big(x: Item): real { if 2.0 * x.weight > TARGET_SECONDS then 1.0 else 0.0 }

  lemma {:induction false} BigItems(bin: seq<Item>) returns (n: nat)
    requires NonNegative(bin)
    ensures Sum(bin, Big) == n as real
    ensures Load(bin) >= 0.0 && (n > 0 ==> 2.0 * Load(bin) > Times(n, TARGET_SECONDS))
  {
    n := 0;
    if bin != [] {
      n := BigItems(bin[..|bin| - 1]);
      if Big(bin[|bin| - 1]) == 1.0 { n := n + 1; }
    }
  }

  lemma AtMostOneBig(bin: seq<Item>)
    requires NonNegative(bin) && Load(bin) <= TARGET_SECONDS
    ensures Sum(bin, Big) <= 1.0
  {
    var n := BigItems(bin);
    assert Times(2, TARGET_SECONDS) == Times(1, TARGET_SECONDS) + TARGET_SECONDS;
    if n > 1 { TimesMonotone(2, n, TARGET_SECONDS); }
  }

  /** Items heavier than half a lane need a lane each. */
  lemma BigItemsNeedLanes(lanes: seq<seq<Item>>, suites: seq<Item>)
    requires IsPacking(lanes, suites) && NonNegative(suites)
    ensures Sum(suites, Big) <= |lanes| as real
  {
    hide Sum, Flatten, Big;
    forall k | 0 <= k < |lanes| ensures Sum(lanes[k], Big) <= 1.0 {
      PackedNonNegative(lanes, suites, k);
      AtMostOneBig(lanes[k]);
    }
    FlattenAtMost(lanes, Big, 1.0);
    TimesOne(|lanes|);
    SumIgnoresOrder(Flatten(lanes), suites, Big);
  }

  lemma PackedNonNegative(lanes: seq<seq<Item>>, suites: seq<Item>, k: nat)
    requires IsPacking(lanes, suites) && NonNegative(suites) && k < |lanes|
    ensures NonNegative(lanes[k])
  {
    forall x | x in lanes[k] ensures x.weight >= 0.0 {
      InFlatten(lanes, k, x);
      assert x in multiset(suites);
    }
  }

  lemma OpenerIsBig(bin: seq<Item>)
    requires bin != [] && Big(bin[0]) == 1.0
    ensures Sum(bin, Big) >= 1.0
  {
    assert bin == [bin[0]] + bin[1..];
    SumConcat([bin[0]], bin[1..], Big);
    SumAtLeastZero(bin[1..], Big);
    assert [bin[0]][..0] == [];
  }

  lemma OpenersDecrease(bins: seq<seq<Item>>, k: nat, j: nat)
    requires OpenedByHeaviest(bins) && k <= j < |bins|
    ensures bins[k] != [] && bins[j] != [] && bins[k][0].weight >= bins[j][0].weight
  {
    assert bins[j][0] in bins[j];
  }

  lemma {:induction false} BigLanes(bins: seq<seq<Item>>, n: nat)
    requires n <= |bins| && forall k :: 0 <= k < n ==> bins[k] != [] && Big(bins[k][0]) == 1.0
    ensures Sum(Flatten(bins), Big) >= n as real
  {
    FlattenSplit(bins, n, Big);
    SumAtLeastZero(Flatten(bins[n..]), Big);
    OpenersAreBig(bins[..n]);
  }

  lemma {:induction false} OpenersAreBig(bins: seq<seq<Item>>)
    requires forall k :: 0 <= k < |bins| ==> bins[k] != [] && Big(bins[k][0]) == 1.0
    ensures Sum(Flatten(bins), Big) >= |bins| as real
  {
    if bins != [] {
      var front, last := bins[..|bins| - 1], bins[|bins| - 1];
      OpenersAreBig(front);
      OpenerIsBig(last);
      SumConcat(Flatten(front), last, Big);
    }
  }

  /** From lane `j` on every item is small, so each lane but the last holds at least two. */
  lemma {:induction false} SmallLanesHoldPairs(bins: seq<seq<Item>>, j: nat)
    requires NoSlack(bins) && OpenedByHeaviest(bins) && j < |bins| && Big(bins[j][0]) == 0.0
    ensures |Flatten(bins[j..])| >= 2 * (|bins| - 1 - j) + 1
    decreases |bins| - j
  {
    assert bins[j..] == [bins[j]] + bins[j + 1..];
    FlattenConcat([bins[j]], bins[j + 1..]);
    assert Flatten([bins[j]]) == bins[j] by { assert [bins[j]][..0] == []; }
    if j + 1 < |bins| {
      var y := bins[j + 1][0];
      assert y in bins[j + 1] && bins[j][0] in bins[j];
      SmallLanesHoldPairs(bins, j + 1);
      assert Load(bins[j]) > bins[j][0].weight;
      assert |bins[j]| != 1 by { if |bins[j]| == 1 { LoadOfOne(bins[j]); } }
    }
  }

  /** Pair each of the first `n` lanes with an item that did not fit in it. */
  lemma {:induction false} PairedLanes(bins: seq<seq<Item>>, late: seq<Item>, n: nat)
    requires n <= |bins| && n <= |late|
    requires forall a, x :: 0 <= a < n && x in late ==> Load(bins[a]) + x.weight > TARGET_SECONDS
    ensures Load(Flatten(bins[..n])) + Load(late[..n]) >= Times(n, TARGET_SECONDS)
    ensures n > 0 ==> Load(Flatten(bins[..n])) + Load(late[..n]) > Times(n, TARGET_SECONDS)
  {
    if n > 0 {
      PairedLanes(bins, late, n - 1);
      assert bins[..n][..n - 1] == bins[..n - 1] && late[..n][..n - 1] == late[..n - 1];
      SumConcat(Flatten(bins[..n - 1]), bins[n - 1], Weight);
      assert late[n - 1] in late;
    }
  }

  lemma LateItemsDoNotFit(bins: seq<seq<Item>>, j: nat)
    requires NoSlack(bins) && j <= |bins|
    ensures forall a, x :: 0 <= a < j && x in Flatten(bins[j..]) ==> Load(bins[a]) + x.weight > TARGET_SECONDS
  {
    forall a, x | 0 <= a < j && x in Flatten(bins[j..])
      ensures Load(bins[a]) + x.weight > TARGET_SECONDS
    {
      var k := FlattenIn(bins[j..], x);
      assert bins[j..][k] == bins[j + k];
    }
  }

  lemma SmallLanesCarryLoad(bins: seq<seq<Item>>, j: nat)
    requires NoSlack(bins) && OpenedByHeaviest(bins) && j < |bins| && Big(bins[j][0]) == 0.0
    requires NonNegative(Flatten(bins[j..])) && j <= 2 * (|bins| - 1 - j) + 1
    ensures Load(Flatten(bins)) >= Times(j, TARGET_SECONDS)
    ensures j > 0 ==> Load(Flatten(bins)) > Times(j, TARGET_SECONDS)
  {
    FlattenSplit(bins, j, Weight);
    SmallLanesHoldPairs(bins, j);
    LateItemsDoNotFit(bins, j);
    PairedLanes(bins, Flatten(bins[j..]), j);
    SumPrefix(Flatten(bins[j..]), j, Weight);
  }

  lemma PackedItemsNonNegative(suites: seq<Item>, j: nat)
    requires NonNegative(suites) && j <= |PackedBins(suites)|
    ensures NonNegative(Flatten(PackedBins(suites)[j..]))
  {
    var bins := PackedBins(suites);
    BinsKeepItems(Sort(suites, HeavierFirst));
    forall x: Item | x in Flatten(bins[j..]) ensures x.weight >= 0.0 {
      var k := FlattenIn(bins[j..], x);
      InFlatten(bins, j + k, x);
      assert x in multiset(suites);
    }
  }

  lemma LanesNeededForBig(suites: seq<Item>, lanes: seq<seq<Item>>, bins: seq<seq<Item>>, j: nat)
    requires NonNegative(suites) && IsPacking(lanes, suites)
    requires multiset(Flatten(bins)) == multiset(suites) && OpenedByHeaviest(bins)
    requires j < |bins| && Big(bins[j][0]) == 1.0
    ensures j < |lanes|
  {
    forall k | 0 <= k <= j ensures bins[k] != [] && Big(bins[k][0]) == 1.0 {
      OpenersDecrease(bins, k, j);
    }
    BigLanes(bins, j + 1);
    SumIgnoresOrder(Flatten(bins), suites, Big);
    BigItemsNeedLanes(lanes, suites);
  }

  lemma LanesNeededForLoad(suites: seq<Item>, lanes: seq<seq<Item>>, bins: seq<seq<Item>>, j: nat)
    requires NonNegative(suites) && IsPacking(lanes, suites)
    requires multiset(Flatten(bins)) == multiset(suites) && bins != []
    requires Load(Flatten(bins)) >= Times(j, TARGET_SECONDS)
    requires j > 0 ==> Load(Flatten(bins)) > Times(j, TARGET_SECONDS)
    requires bins[0] != []
    ensures j < |lanes|
  {
    SumIgnoresOrder(Flatten(bins), suites, Weight);
    SumIgnoresOrder(Flatten(lanes), suites, Weight);
    FlattenAtMost(lanes, Weight, TARGET_SECONDS);
    if |lanes| <= j { TimesMonotone(|lanes|, j, TARGET_SECONDS); }
    InFlatten(bins, 0, bins[0][0]);
    assert bins[0][0] in multiset(Flatten(lanes));
  }

  /** What the packer's `j`-th lane says about every packing of the same suites. */
  lemma LanesNeeded(suites: seq<Item>, lanes: seq<seq<Item>>, j: nat)
    requires NonNegative(suites) && IsPacking(lanes, suites)
    requires j < |PackedBins(suites)| && j <= 2 * (|PackedBins(suites)| - 1 - j) + 1
    ensures j < |lanes|
  {
    var sorted := SortedSuites(suites);
    var bins := PackedBins(suites);
    BinsInvariant(sorted);
    BinsKeepItems(sorted);
    if Big(bins[j][0]) == 1.0 {
      LanesNeededForBig(suites, lanes, bins, j);
    } else {
      PackedItemsNonNegative(suites, j);
      SmallLanesCarryLoad(bins, j);
      LanesNeededForLoad(suites, lanes, bins, j);
    }
  }

  /** First-fit decreasing opens at most 3/2 times as many lanes as any packing needs. */
  lemma AtMostThreeHalvesOfAnyPacking(suites: seq<Item>, lanes: seq<seq<Item>>)
    requires NonNegative(suites) && IsPacking(lanes, suites)
    ensures 2 * |PackedBins(suites)| <= 3 * |lanes|
  {
    var m := |PackedBins(suites)|;
    if m > 0 { LanesNeeded(suites, lanes, (2 * m + 2) / 3 - 1); }
  }
}
