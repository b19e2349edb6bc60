/** Blamed lines merged into line ranges per path (apps/ai/scripts/pr-review-eval.ts,
    `mergeLines`): the ranges are the canonical interval form of the path's set of lines. */
module MergeLines {
  import opened Grouping
  import opened Order

  datatype Line = Line(path: string, line: int)

  datatype Range = Range(first: int, last: int)

  datatype Location = Location(path: string, range: Range)

  function PathOf(l: Line): string { l.path }

  // ------------------------------------------------------------ canonical intervals

  /** Sorted, disjoint and not even adjacent. */
  ghost predicate Canonical(ranges: seq<Range>) {
    && (forall k :: 0 <= k < |ranges| ==> ranges[k].first <= ranges[k].last)
    && (forall i, j :: 0 <= i < j < |ranges| ==> ranges[i].last + 1 < ranges[j].first)
  }

  ghost predicate Covers(ranges: seq<Range>, n: int) {
    exists k :: 0 <= k < |ranges| && ranges[k].first <= n <= ranges[k].last
  }

  lemma FirstIsMinimum(ranges: seq<Range>, n: int)
    requires Canonical(ranges) && Covers(ranges, n)
    ensures ranges[0].first <= n && Covers(ranges, ranges[0].first)
  {
    assert ranges[0].first <= ranges[0].first <= ranges[0].last;
  }

  lemma GapAfterFirst(ranges: seq<Range>)
    requires Canonical(ranges) && ranges != []
    ensures !Covers(ranges, ranges[0].last + 1)
    ensures forall n :: ranges[0].first <= n <= ranges[0].last ==> Covers(ranges, n)
  {}

  lemma CoversTail(ranges: seq<Range>, n: int)
    requires Canonical(ranges) && ranges != []
    ensures Canonical(ranges[1..])
    ensures Covers(ranges[1..], n) <==> Covers(ranges, n) && n > ranges[0].last
  {
    if Covers(ranges, n) && n > ranges[0].last {
      var k :| 0 <= k < |ranges| && ranges[k].first <= n <= ranges[k].last;
      assert ranges[1..][k - 1] == ranges[k];
    }
    if Covers(ranges[1..], n) {
      var k :| 0 <= k < |ranges[1..]| && ranges[1..][k].first <= n <= ranges[1..][k].last;
      assert ranges[k + 1] == ranges[1..][k];
    }
  }

  /** A set of lines has one canonical form. */
  lemma {:induction false} CanonicalIsUnique(a: seq<Range>, b: seq<Range>)
    requires Canonical(a) && Canonical(b) && forall n :: Covers(a, n) <==> Covers(b, n)
    ensures a == b
    decreases |a|
  {
    if a == [] || b == [] {
      if a != [] { assert Covers(a, a[0].first); }
      if b != [] { assert Covers(b, b[0].first); }
    } else {
      assert Covers(a, a[0].first) && Covers(b, b[0].first);
      FirstIsMinimum(a, b[0].first);
      FirstIsMinimum(b, a[0].first);
      GapAfterFirst(a);
      GapAfterFirst(b);
      assert a[0] == b[0];
      forall n ensures Covers(a[1..], n) <==> Covers(b[1..], n) {
        CoversTail(a, n);
        CoversTail(b, n);
      }
      CanonicalIsUnique(a[1..], b[1..]);
    }
  }

  // ------------------------------------------------------------ one path

  predicate AtMost(a: int, b: int) { a <= b }

  /** The numbers without repetitions, as `new Set` keeps them. */
  method Dedup(numbers: seq<int>) returns (r: seq<int>)
    ensures forall n :: n in r <==> n in numbers
    ensures forall i, j :: 0 <= i < j < |r| ==> r[i] != r[j]
  {
    r := [];
    for k := 0 to |numbers|
      invariant forall n :: n in r <==> n in numbers[..k]
      invariant forall i, j :: 0 <= i < j < |r| ==> r[i] != r[j]
    {
      assert numbers[..k + 1] == numbers[..k] + [numbers[k]];
      if numbers[k] !in r { r := r + [numbers[k]]; }
    }
    assert numbers[..|numbers|] == numbers;
  }

  /** The distinct numbers in increasing order. */
  method SortDistinct(numbers: seq<int>) returns (sorted: seq<int>)
    ensures forall i :: 0 < i < |sorted| ==> sorted[i - 1] <= sorted[i]
    ensures forall n :: n in sorted <==> n in numbers
  {
    var distinct := Dedup(numbers);
    sorted := Sort(distinct, AtMost);
    SortSorts(distinct, AtMost);
    forall i | 0 < i < |sorted| ensures sorted[i - 1] <= sorted[i] {
      assert AtMost(sorted[i - 1], sorted[i]);
    }
    forall n ensures n in sorted <==> n in numbers {
      assert n in multiset(sorted) <==> n in multiset(distinct);
    }
  }

  method MergeNumbers(numbers: seq<int>) returns (merged: seq<Range>)
    ensures Canonical(merged)
    ensures forall n :: Covers(merged, n) <==> n in numbers
  {
    hide Canonical, Covers;
    var sorted := SortDistinct(numbers);
    merged := [];
    NothingCovered();
    for i := 0 to |sorted|
      invariant Canonical(merged)
      invariant forall n :: Covers(merged, n) <==> n in sorted[..i]
      invariant i == 0 <==> merged == []
      invariant i > 0 ==> merged[|merged| - 1].last == sorted[i - 1]
    {
      var n := sorted[i];
      assert sorted[..i + 1] == sorted[..i] + [n];
      var end := |merged| - 1;
      if merged != [] && n <= merged[end].last + 1 {
        Extended(merged, n);
        merged := merged[end := Range(merged[end].first, n)];
      } else {
        Appended(merged, n);
        merged := merged + [Range(n, n)];
      }
    }
    assert sorted[..|sorted|] == sorted;
  }

  lemma NothingCovered()
    ensures Canonical([]) && forall n :: !Covers([], n)
  {}

  /** Moving the last range's end by at most one covers at most one more line. */
  lemma Extended(ranges: seq<Range>, n: int)
    requires Canonical(ranges) && ranges != []
    requires ranges[|ranges| - 1].last <= n <= ranges[|ranges| - 1].last + 1
    ensures
      var end := |ranges| - 1;
      var after := ranges[end := Range(ranges[end].first, n)];
      Canonical(after) && forall m :: Covers(after, m) <==> Covers(ranges, m) || m == n
  {
    var end := |ranges| - 1;
    var after := ranges[end := Range(ranges[end].first, n)];
    forall m ensures Covers(after, m) <==> Covers(ranges, m) || m == n {
      if m == n { assert after[end].first <= m <= after[end].last; }
      if Covers(ranges, m) {
        var k :| 0 <= k < |ranges| && ranges[k].first <= m <= ranges[k].last;
        assert after[k].first <= m <= after[k].last;
      }
      if Covers(after, m) && m != n {
        var k :| 0 <= k < |after| && after[k].first <= m <= after[k].last;
        assert ranges[k].first <= m <= ranges[k].last;
      }
    }
  }

  lemma Appended(ranges: seq<Range>, n: int)
    requires Canonical(ranges) && (ranges != [] ==> ranges[|ranges| - 1].last + 1 < n)
    ensures Canonical(ranges + [Range(n, n)])
    ensures forall m :: Covers(ranges + [Range(n, n)], m) <==> Covers(ranges, m) || m == n
  {
    var after := ranges + [Range(n, n)];
    forall m ensures Covers(after, m) <==> Covers(ranges, m) || m == n {
      if m == n { assert after[|ranges|].first <= m <= after[|ranges|].last; }
      if Covers(ranges, m) {
        var k :| 0 <= k < |ranges| && ranges[k].first <= m <= ranges[k].last;
        assert after[k].first <= m <= after[k].last;
      }
    }
  }

  // ------------------------------------------------------------ all paths

  /** The ranges reported for a path, in order. */
  function RangesOf(locations: seq<Location>, path: string): seq<Range> {
    if locations == [] then [] else
    var l := locations[|locations| - 1];
    RangesOf(locations[..|locations| - 1], path) + (if l.path == path then [l.range] else [])
  }

  function LocationsOf(path: string, ranges: seq<Range>): seq<Location> {
    if ranges == [] then []
    else LocationsOf(path, ranges[..|ranges| - 1]) + [Location(path, ranges[|ranges| - 1])]
  }

  lemma {:induction false} RangesOfConcat(a: seq<Location>, b: seq<Location>, path: string)
    ensures RangesOf(a + b, path) == RangesOf(a, path) + RangesOf(b, path)
  {
    if b == [] {
      assert a + b == a;
    } else {
      assert (a + b)[..|a + b| - 1] == a + b[..|b| - 1];
      RangesOfConcat(a, b[..|b| - 1], path);
    }
  }

  lemma {:induction false} RangesOfOne(path: string, ranges: seq<Range>, other: string)
    ensures RangesOf(LocationsOf(path, ranges), other) == if other == path then ranges else []
  {
    if ranges != [] {
      var front := ranges[..|ranges| - 1];
      RangesOfOne(path, front, other);
      RangesOfConcat(LocationsOf(path, front), [Location(path, ranges[|ranges| - 1])], other);
      assert [Location(path, ranges[|ranges| - 1])][..0] == [];
      assert ranges == front + [ranges[|ranges| - 1]];
    }
  }

  /** The canonical form of each path's lines. */
  ghost predicate IsMerge(lines: seq<Line>, locations: seq<Location>) {
    forall path :: MergedPath(lines, locations, path)
  }

  /** The lines of each path, and the paths in order of first appearance. */
  method GroupByPath(lines: seq<Line>) returns (byPath: map<string, seq<Line>>, paths: seq<string>)
    ensures Groups(byPath, lines, PathOf)
    ensures forall p :: p in paths <==> p in byPath
    ensures forall i, j :: 0 <= i < j < |paths| ==> paths[i] != paths[j]
  {
    hide Groups, Having;
    byPath, paths := map[], [];
    NoGroups<string, Line>(PathOf);
    for i := 0 to |lines|
      invariant Groups(byPath, lines[..i], PathOf)
      invariant forall p :: p in paths <==> p in byPath
      invariant forall i, j :: 0 <= i < j < |paths| ==> paths[i] != paths[j]
    {
      PushGroups(byPath, lines[..i], PathOf, lines[i]);
      assert lines[..i + 1] == lines[..i] + [lines[i]];
      if lines[i].path !in byPath { paths := paths + [lines[i].path]; }
      byPath := Push(byPath, lines[i].path, lines[i]);
    }
    assert lines[..|lines|] == lines;
  }

  method Merge(lines: seq<Line>) returns (locations: seq<Location>)
    ensures IsMerge(lines, locations)
  {
    hide Having, RangesOf, MergedPath, Groups;
    var byPath, paths := GroupByPath(lines);
    locations := [];
    NoRanges();
    for k := 0 to |paths|
      invariant forall p :: p in paths[..k] ==> MergedPath(lines, locations, p)
      invariant forall p :: p !in paths[..k] ==> RangesOf(locations, p) == []
    {
      var path := paths[k];
      ghost var before := locations;
      PathLines(byPath, lines, path);
      locations := AppendPath(lines, path, byPath[path], locations);
      assert paths[..k + 1] == paths[..k] + [path];
      forall p | p in paths[..k] ensures MergedPath(lines, locations, p) {
        assert MergedPath(lines, before, p) && RangesOf(locations, p) == RangesOf(before, p);
        SameRanges(lines, before, locations, p);
      }
    }
    assert paths[..|paths|] == paths;
    forall p | p !in paths ensures MergedPath(lines, locations, p) { UnknownPath(byPath, lines, locations, p); }
  }

  lemma NoRanges()
    ensures forall p :: RangesOf([], p) == []
  {}

  lemma SameRanges(lines: seq<Line>, a: seq<Location>, b: seq<Location>, path: string)
    requires MergedPath(lines, a, path) && RangesOf(a, path) == RangesOf(b, path)
    ensures MergedPath(lines, b, path)
  {}

  lemma PathLines(byPath: map<string, seq<Line>>, lines: seq<Line>, path: string)
    requires Groups(byPath, lines, PathOf)
    ensures path in byPath ==> byPath[path] == Having(lines, PathOf, path)
  {
    assert Listed(byPath, path) == Having(lines, PathOf, path);
  }

  lemma UnknownPath(byPath: map<string, seq<Line>>, lines: seq<Line>, locations: seq<Location>, path: string)
    requires Groups(byPath, lines, PathOf) && path !in byPath && RangesOf(locations, path) == []
    ensures MergedPath(lines, locations, path)
  {
    assert Listed(byPath, path) == Having(lines, PathOf, path);
    forall n ensures Line(path, n) !in lines { LineIsListed(lines, path, n); }
  }

  /** Adds one path's ranges behind those already merged. */
  method AppendPath(ghost lines: seq<Line>, path: string, mine: seq<Line>, locations: seq<Location>) returns (r: seq<Location>)
    requires mine == Having(lines, PathOf, path) && RangesOf(locations, path) == []
    ensures MergedPath(lines, r, path)
    ensures forall p :: p != path ==> RangesOf(r, p) == RangesOf(locations, p)
  {
    hide RangesOf, Having;
    var merged := MergeNumbers(Numbers(mine));
    LinesOnPath(lines, path, Numbers(mine));
    r := locations + LocationsOf(path, merged);
    forall p ensures RangesOf(r, p) == RangesOf(locations, p) + (if p == path then merged else []) {
      RangesOfConcat(locations, LocationsOf(path, merged), p);
      RangesOfOne(path, merged, p);
    }
    assert RangesOf(r, path) == [] + merged;
    assert [] + merged == merged;
    forall p | p != path ensures RangesOf(r, p) == RangesOf(locations, p) {
      assert RangesOf(locations, p) + [] == RangesOf(locations, p);
    }
  }

  ghost predicate MergedPath(lines: seq<Line>, locations: seq<Location>, path: string) {
    && Canonical(RangesOf(locations, path))
    && forall n :: Covers(RangesOf(locations, path), n) <==> Line(path, n) in lines
  }

  function Numbers(lines: seq<Line>): seq<int> {
    seq(|lines|, k requires 0 <= k < |lines| => lines[k].line)
  }

  lemma LineIsListed(lines: seq<Line>, path: string, n: int)
    ensures Line(path, n) in lines <==> Line(path, n) in Having(lines, PathOf, path)
  {}

  lemma LinesOnPath(lines: seq<Line>, path: string, numbers: seq<int>)
    requires numbers == Numbers(Having(lines, PathOf, path))
    ensures forall n :: n in numbers <==> Line(path, n) in lines
  {
    var mine := Having(lines, PathOf, path);
    forall n ensures n in numbers <==> Line(path, n) in lines {
      if n in numbers {
        var k :| 0 <= k < |numbers| && numbers[k] == n;
        assert mine[k] in mine && mine[k] == Line(path, n);
      }
      if Line(path, n) in lines {
        var k :| 0 <= k < |mine| && mine[k] == Line(path, n);
        assert numbers[k] == n;
      }
    }
  }

  /** A path's ranges depend only on which of its lines were blamed: not on order, not on
      repetitions, not on other paths. */
  lemma RangesDependOnLinesOnly(lines: seq<Line>, other: seq<Line>, a: seq<Location>, b: seq<Location>, path: string)
    requires IsMerge(lines, a) && IsMerge(other, b)
    requires forall n :: Line(path, n) in lines <==> Line(path, n) in other
    ensures RangesOf(a, path) == RangesOf(b, path)
  {
    assert MergedPath(lines, a, path) && MergedPath(other, b, path);
    forall n ensures Covers(RangesOf(a, path), n) <==> Covers(RangesOf(b, path), n) {
      assert Covers(RangesOf(a, path), n) <==> Line(path, n) in lines;
      assert Covers(RangesOf(b, path), n) <==> Line(path, n) in other;
    }
    CanonicalIsUnique(RangesOf(a, path), RangesOf(b, path));
  }
}
