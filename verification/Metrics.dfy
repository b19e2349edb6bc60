/** Metrics of a generated window and their agreement with its spans
    (scripts/seed-demo/telemetry.ts, `generateWindow`, `histogramPoint`, `buildMetrics`). */
module Metrics {
  import opened CallTree
  import opened Grouping
  import opened SinkModel
  import opened Sums
  import opened Trace
  import opened TraceBuilderModel
  import opened Wrappers

  /** The histogram's explicit bounds, in seconds. */
  function LatencyBounds(): seq<real> {
    [0.005, 0.01, 0.025, 0.05, 0.075, 0.1, 0.25, 0.5, 0.75, 1.0, 2.5, 5.0, 7.5, 10.0]
  }

  // ------------------------------------------------------------ one histogram point

  datatype Point = Point(
    key: RequestKey, count: nat, sum: real, min: real, max: real, bucketCounts: seq<nat>)

  /** The bucket of a value: (lower, upper], open-ended on both sides of the bounds. */
  ghost predicate InBucket(value: real, i: nat) {
    && i <= |LatencyBounds()|
    && (i > 0 ==> LatencyBounds()[i - 1] < value)
    && (i < |LatencyBounds()| ==> value <= LatencyBounds()[i])
  }

  /** The first bound that a value does not exceed, from `i` on. */
  function FindBucket(value: real, i: nat): (r: nat)
    requires i <= |LatencyBounds()|
    ensures i <= r <= |LatencyBounds()|
    ensures r < |LatencyBounds()| ==> value <= LatencyBounds()[r]
    ensures forall k :: i <= k < r ==> LatencyBounds()[k] < value
    decreases |LatencyBounds()| - i
  {
    if i == |LatencyBounds()| || value <= LatencyBounds()[i] then i else FindBucket(value, i + 1)
  }

  function BucketOf(value: real): nat { FindBucket(value, 0) }

  lemma BoundsAscend(i: nat, j: nat)
    requires i < j < |LatencyBounds()|
    ensures LatencyBounds()[i] < LatencyBounds()[j]
  {}

  /** Every value has exactly one bucket. */
  lemma OneBucket(value: real, i: nat)
    ensures InBucket(value, i) <==> i == BucketOf(value)
  {
    var b := BucketOf(value);
    if InBucket(value, i) && b < i && b < i - 1 { BoundsAscend(b, i - 1); }
  }

  function Total(s: seq<nat>): nat { if s == [] then 0 else Total(s[..|s| - 1]) + s[|s| - 1] }

  lemma {:induction false} TotalBump(s: seq<nat>, i: nat)
    requires i < |s|
    ensures Total(s[i := s[i] + 1]) == Total(s) + 1
  {
    var n := |s| - 1;
    if i == n {
      assert s[i := s[i] + 1][..n] == s[..n];
    } else {
      assert s[i := s[i] + 1][..n] == s[..n][i := s[i] + 1];
      TotalBump(s[..n], i);
    }
  }

  lemma {:induction false} TotalZeros(n: nat)
    ensures Total(seq(n, _ => 0)) == 0
  {
    if n > 0 {
      assert seq(n, _ => 0)[..n - 1] == seq(n - 1, _ => 0);
      TotalZeros(n - 1);
    }
  }

  function Seconds(ms: seq<real>): (r: seq<real>)
    ensures |r| == |ms| && forall k :: 0 <= k < |ms| ==> r[k] == ms[k] / 1000.0
  {
    seq(|ms|, k requires 0 <= k < |ms| => ms[k] / 1000.0)
  }

  lemma HavingStep(values: seq<real>, n: nat, i: nat)
    requires n < |values|
    ensures |Having(values[..n + 1], BucketOf, i)| ==
      |Having(values[..n], BucketOf, i)| + (if BucketOf(values[n]) == i then 1 else 0)
  {
    assert values[..n + 1][..n] == values[..n];
  }

  /** How many values fall into each bucket. */
  method Tally(values: seq<real>) returns (counts: seq<nat>)
    ensures Total(counts) == |values| && |counts| == |LatencyBounds()| + 1
    ensures forall i: nat :: i < |counts| ==> counts[i] == |Having(values, BucketOf, i)|
  {
    hide LatencyBounds, Total, FindBucket, Having;
    counts := seq(|LatencyBounds()| + 1, _ => 0);
    TotalZeros(|LatencyBounds()| + 1);
    NoneHaving();
    for n := 0 to |values|
      invariant |counts| == |LatencyBounds()| + 1 && Total(counts) == n
      invariant forall i: nat :: i < |counts| ==> counts[i] == |Having(values[..n], BucketOf, i)|
    {
      var index := BucketOf(values[n]);
      ghost var before := counts;
      TotalBump(counts, index);
      counts := counts[index := counts[index] + 1];
      forall i: nat | i < |counts| ensures counts[i] == |Having(values[..n + 1], BucketOf, i)| {
        HavingStep(values, n, i);
        assert before[i] == |Having(values[..n], BucketOf, i)|;
      }
    }
    assert values[..|values|] == values;
  }

  lemma NoneHaving()
    ensures forall i: nat :: Having([], BucketOf, i) == []
  {}

  function Durations(requests: seq<Request>): seq<real> {
    seq(|requests|, k requires 0 <= k < |requests| => requests[k].durationMs)
  }

  /** What a point must say of the requests of its aggregate: how many there were, how many in each
      bucket, and the sum and the extremes of their durations. */
  ghost predicate Summarizes(p: Point, requests: seq<Request>) {
    var seconds := Seconds(Durations(requests));
    && p.count == |requests| && p.sum == Sum(seconds, Self)
    && Total(p.bucketCounts) == p.count && |p.bucketCounts| == |LatencyBounds()| + 1
    && (forall i: nat :: i < |p.bucketCounts| ==> p.bucketCounts[i] == |Having(seconds, BucketOf, i)|)
    && p.min in seconds && p.max in seconds && forall v :: v in seconds ==> p.min <= v <= p.max
  }

  /** One point for the requests of an aggregate; an aggregate exists from its first request on. */
  method HistogramPoint(key: RequestKey, requests: seq<Request>) returns (p: Point)
    requires requests != []
    ensures p.key == key && Summarizes(p, requests)
  {
    hide LatencyBounds, Total, FindBucket, Having, Sum, Seconds;
    var seconds := Seconds(Durations(requests));
    var counts := Tally(seconds);
    var sum, min, max := 0.0, seconds[0], seconds[0];
    SumOfNone(Self);
    for n := 0 to |seconds|
      invariant sum == Sum(seconds[..n], Self)
      invariant min in seconds && max in seconds && forall k :: 0 <= k < n ==> min <= seconds[k] <= max
    {
      SumOneMore(seconds, n, Self);
      sum := sum + seconds[n];
      if seconds[n] < min { min := seconds[n]; }
      if seconds[n] > max { max := seconds[n]; }
    }
    assert seconds[..|seconds|] == seconds;
    p := Point(key, |seconds|, sum, min, max, counts);
  }

  // ------------------------------------------------------------ what the points add up to

  function Counted(points: seq<Point>): nat {
    if points == [] then 0 else Counted(points[..|points| - 1]) + points[|points| - 1].count
  }

  /** What the points with a given status add up to. */
  function CountedWith(points: seq<Point>, status: nat): nat {
    if points == [] then 0 else
    var p := points[|points| - 1];
    CountedWith(points[..|points| - 1], status) + (if p.key.status == status then p.count else 0)
  }

  function Servers(spans: seq<Span>): nat {
    if spans == [] then 0
    else Servers(spans[..|spans| - 1]) + (if spans[|spans| - 1].kind.Server? then 1 else 0)
  }

  function FailedServers(spans: seq<Span>): nat {
    if spans == [] then 0 else
    var s := spans[|spans| - 1];
    FailedServers(spans[..|spans| - 1]) + (if s.kind.Server? && s.error then 1 else 0)
  }

  function GoodConsumers(spans: seq<Span>): nat {
    if spans == [] then 0 else
    var s := spans[|spans| - 1];
    GoodConsumers(spans[..|spans| - 1]) + (if s.kind.Consumer? && !s.error then 1 else 0)
  }

  function WithStatus(ks: set<RequestKey>, status: nat): set<RequestKey> {
    set k | k in ks && k.status == status
  }

  lemma {:induction false} RequestsAreServers(spans: seq<Span>)
    ensures |RequestsOf(spans)| == Servers(spans) && |OrdersOf(spans)| == GoodConsumers(spans)
  {
    if spans != [] { RequestsAreServers(spans[..|spans| - 1]); }
  }

  /** A server span is an error exactly when it answered 500. */
  ghost predicate StatusTells(s: Span) { s.kind.Server? ==> (s.error <==> s.kind.status == 500) }

  lemma {:induction false} FailedRequests(spans: seq<Span>, ks: set<RequestKey>)
    requires forall s :: s in spans ==> StatusTells(s)
    requires forall r :: r in RequestsOf(spans) ==> KeyOfRequest(r) in ks
    ensures CountIn(RequestsOf(spans), KeyOfRequest, WithStatus(ks, 500)) == FailedServers(spans)
  {
    if spans != [] {
      var front, s := spans[..|spans| - 1], spans[|spans| - 1];
      FailedRequests(front, ks);
      if s.kind.Server? {
        assert RequestsOf(spans) == RequestsOf(front) + [RequestOf(s)];
        assert RequestOf(s) in RequestsOf(spans) && StatusTells(s);
        assert (RequestsOf(front) + [RequestOf(s)])[..|RequestsOf(front)|] == RequestsOf(front);
      } else {
        assert RequestsOf(spans) == RequestsOf(front);
      }
    }
  }

  /** The requests that the server spans of an aggregate served. */
  ghost function AggregateOf(spans: seq<Span>, key: RequestKey): seq<Request> {
    Having(RequestsOf(spans), KeyOfRequest, key)
  }

  /** Every aggregate that some server span falls into has exactly one point, which summarizes it,
      and there are no other points. */
  ghost predicate OnePointEach(points: seq<Point>, spans: seq<Span>) {
    && (forall p :: p in points ==> AggregateOf(spans, p.key) != [] && Summarizes(p, AggregateOf(spans, p.key)))
    && (forall i, j :: 0 <= i < j < |points| ==> points[i].key != points[j].key)
    && (forall s :: s in spans && s.kind.Server? ==> HasPoint(points, KeyOfRequest(RequestOf(s))))
  }

  lemma {:induction false} ServedRequest(spans: seq<Span>, s: Span)
    requires s in spans && s.kind.Server?
    ensures RequestOf(s) in RequestsOf(spans)
  {
    if s != spans[|spans| - 1] { ServedRequest(spans[..|spans| - 1], s); }
  }

  /** The aggregates outside `todo` have one point each. */
  ghost predicate PointsFor(points: seq<Point>, requests: map<RequestKey, seq<Request>>, todo: set<RequestKey>) {
    && (forall p :: p in points ==> p.key in requests && p.key !in todo && Summarizes(p, requests[p.key]))
    && (forall i, j :: 0 <= i < j < |points| ==> points[i].key != points[j].key)
    && (forall key :: key in requests && key !in todo ==> HasPoint(points, key))
  }

  ghost predicate HasPoint(points: seq<Point>, key: RequestKey) { exists p :: p in points && p.key == key }

  lemma NoPoints(requests: map<RequestKey, seq<Request>>)
    ensures PointsFor([], requests, requests.Keys)
  {}

  lemma NextPoint(points: seq<Point>, requests: map<RequestKey, seq<Request>>, todo: set<RequestKey>, point: Point)
    requires PointsFor(points, requests, todo) && point.key in todo && point.key in requests
    requires Summarizes(point, requests[point.key])
    ensures PointsFor(points + [point], requests, todo - {point.key})
  {
    hide Summarizes;
    var more := points + [point];
    assert point in more && forall p :: p in points ==> p in more;
    forall key | key in requests && key !in todo - {point.key} ensures HasPoint(more, key) {
      if key != point.key {
        var p :| p in points && p.key == key;
        assert p in more;
      }
    }
  }

  /** With a point for every aggregate of the sink, every server span is covered. */
  lemma KeysCoverSpans(sink: Sink, points: seq<Point>)
    requires sink.Valid() && PointsFor(points, sink.requests, {})
    requires forall r :: r in sink.served ==> KeyOfRequest(r) in sink.requests
    ensures OnePointEach(points, sink.emitted)
  {
    hide Having, RequestsOf, OrdersOf, Summarizes;
    forall s | s in sink.emitted && s.kind.Server?
      ensures HasPoint(points, KeyOfRequest(RequestOf(s)))
    {
      ServedRequest(sink.emitted, s);
    }
    forall p | p in points
      ensures AggregateOf(sink.emitted, p.key) != [] && Summarizes(p, AggregateOf(sink.emitted, p.key))
    {
      assert Listed(sink.requests, p.key) == Having(sink.served, KeyOfRequest, p.key);
    }
  }

  /** Request metrics: a point per aggregate, and the load that the gauges scale with. */
  method BuildRequestMetrics(sink: Sink) returns (points: seq<Point>)
    requires sink.Valid()
    ensures OnePointEach(points, sink.emitted)
    ensures Counted(points) == |sink.served|
    ensures CountedWith(points, 500) == CountIn(sink.served, KeyOfRequest, WithStatus(sink.requests.Keys, 500))
    ensures forall r :: r in sink.served ==> KeyOfRequest(r) in sink.requests
  {
    hide Having, CountIn, RequestsOf, OrdersOf, Summarizes, OnePointEach, PointsFor;
    points := [];
    var todo := sink.requests.Keys;
    NoPoints(sink.requests);
    GroupsCover(sink.requests, sink.served, KeyOfRequest);
    while todo != {}
      invariant todo <= sink.requests.Keys
      invariant Counted(points) + CountIn(sink.served, KeyOfRequest, todo) == |sink.served|
      invariant CountedWith(points, 500) + CountIn(sink.served, KeyOfRequest, WithStatus(todo, 500))
        == CountIn(sink.served, KeyOfRequest, WithStatus(sink.requests.Keys, 500))
      invariant PointsFor(points, sink.requests, todo)
      decreases todo
    {
      var key :| key in todo;
      TakeKey(sink.requests, sink.served, todo, key);
      var point := HistogramPoint(key, sink.requests[key]);
      CountOf(point, sink.requests[key]);
      NextPoint(points, sink.requests, todo, point);
      todo := todo - {key};
      assert (points + [point])[..|points|] == points;
      points := points + [point];
    }
    CountInNone(sink.served, KeyOfRequest);
    assert WithStatus({}, 500) == {};
    KeysCoverSpans(sink, points);
  }

  lemma CountOf(p: Point, requests: seq<Request>)
    requires Summarizes(p, requests)
    ensures p.count == |requests|
  {}

  lemma TakeKey(requests: map<RequestKey, seq<Request>>, served: seq<Request>, todo: set<RequestKey>, key: RequestKey)
    requires Groups(requests, served, KeyOfRequest) && key in todo && key in requests
    ensures CountIn(served, KeyOfRequest, todo) == CountIn(served, KeyOfRequest, todo - {key}) + |requests[key]|
    ensures CountIn(served, KeyOfRequest, WithStatus(todo, 500)) ==
      CountIn(served, KeyOfRequest, WithStatus(todo - {key}, 500)) + (if key.status == 500 then |requests[key]| else 0)
    ensures requests[key] != []
  {
    hide Having, CountIn;
    assert Listed(requests, key) == Having(served, KeyOfRequest, key);
    CountInSplit(served, KeyOfRequest, todo, key);
    if key.status == 500 {
      CountInSplit(served, KeyOfRequest, WithStatus(todo, 500), key);
      assert WithStatus(todo, 500) - {key} == WithStatus(todo - {key}, 500);
    } else {
      assert WithStatus(todo, 500) == WithStatus(todo - {key}, 500);
    }
  }

  datatype OrderPoint = OrderPoint(key: OrderKey, count: nat)

  function Ordered(points: seq<OrderPoint>): nat {
    if points == [] then 0 else Ordered(points[..|points| - 1]) + points[|points| - 1].count
  }

  /** The pods and minutes outside `todo` have one point each, with the orders filed there. */
  ghost predicate OrderPointsFor(points: seq<OrderPoint>, orders: map<OrderKey, seq<Order>>, todo: set<OrderKey>) {
    && (forall p :: p in points ==> p.key in orders && p.key !in todo && p.count == |orders[p.key]|)
    && (forall i, j :: 0 <= i < j < |points| ==> points[i].key != points[j].key)
    && (forall key :: key in orders && key !in todo ==> exists p :: p in points && p.key == key)
  }

  /** The orders counter: one data point per pod and minute. */
  method BuildOrderMetrics(sink: Sink) returns (points: seq<OrderPoint>)
    requires sink.Valid()
    ensures Ordered(points) == |sink.created|
    ensures OrdersTold(points, sink.emitted)
  {
    hide Having, CountIn, RequestsOf, OrdersOf;
    points := [];
    var todo := sink.orders.Keys;
    GroupsCover(sink.orders, sink.created, KeyOfOrder);
    while todo != {}
      invariant todo <= sink.orders.Keys
      invariant Ordered(points) + CountIn(sink.created, KeyOfOrder, todo) == |sink.created|
      invariant OrderPointsFor(points, sink.orders, todo)
      decreases todo
    {
      var key :| key in todo;
      assert Listed(sink.orders, key) == Having(sink.created, KeyOfOrder, key);
      CountInSplit(sink.created, KeyOfOrder, todo, key);
      var point := OrderPoint(key, |sink.orders[key]|);
      NextOrderPoint(points, sink.orders, todo, point);
      todo := todo - {key};
      assert (points + [point])[..|points|] == points;
      points := points + [point];
    }
    CountInNone(sink.created, KeyOfOrder);
    OrderPointsTell(sink.orders, sink.created, sink.emitted, points);
  }

  lemma NextOrderPoint(points: seq<OrderPoint>, orders: map<OrderKey, seq<Order>>, todo: set<OrderKey>, point: OrderPoint)
    requires OrderPointsFor(points, orders, todo) && point.key in todo && point.key in orders && point.count == |orders[point.key]|
    ensures OrderPointsFor(points + [point], orders, todo - {point.key})
  {
    var more := points + [point];
    assert point in more && forall p :: p in points ==> p in more;
    forall key | key in orders && key !in todo - {point.key} ensures exists p :: p in more && p.key == key {
      if key != point.key {
        var p :| p in points && p.key == key;
        assert p in more;
      }
    }
  }

  // ------------------------------------------------------------ the points, span by span

  /** The minute that an instant lies in is the multiple of 60,000 ms at or before it. */
  lemma MinuteIs(at: real, minute: int)
    ensures MinuteOf(at) == minute <==> minute % 60000 == 0 && minute as real <= at < (minute + 60000) as real
  {
    var whole := (at / 60000.0).Floor;
    assert whole as real <= at / 60000.0 < (whole + 1) as real;
    if minute % 60000 == 0 && minute as real <= at < (minute + 60000) as real {
      var other := minute / 60000;
      assert minute == other * 60000 && other as real <= at / 60000.0 < (other + 1) as real;
    }
  }

  /** A server span of that pod, route and status, begun in that minute. */
  predicate FallsUnder(s: Span, key: RequestKey) {
    && s.kind.Server? && s.resource.key == key.pod && s.kind.verb == key.verb && s.kind.route == key.route
    && s.kind.status == key.status && key.minute as real <= s.start < (key.minute + 60000) as real
  }

  function ServersUnder(spans: seq<Span>, key: RequestKey): seq<Span> {
    if spans == [] then [] else
    var s := spans[|spans| - 1];
    ServersUnder(spans[..|spans| - 1], key) + (if FallsUnder(s, key) then [s] else [])
  }

  /** How long a span lasted, in seconds. */
  function Lasted(s: Span): real { (s.end - s.start) / 1000.0 }

  function LastedIn(spans: seq<Span>, i: nat): nat
    requires i <= |LatencyBounds()|
  {
    if spans == [] then 0 else
    var s := spans[|spans| - 1];
    LastedIn(spans[..|spans| - 1], i) +
    (if (i > 0 ==> LatencyBounds()[i - 1] < Lasted(s)) && (i < |LatencyBounds()| ==> Lasted(s) <= LatencyBounds()[i]) then 1 else 0)
  }

  /** The point counts the server spans of its pod, route, status and minute, all of them and by how
      long they lasted. */
  ghost predicate Tells(p: Point, spans: seq<Span>) {
    var under := ServersUnder(spans, p.key);
    && under != [] && p.key.minute % 60000 == 0 && p.count == |under| && p.sum == Sum(under, Lasted)
    && |p.bucketCounts| == |LatencyBounds()| + 1
    && (forall i :: 0 <= i <= |LatencyBounds()| ==> p.bucketCounts[i] == LastedIn(under, i))
    && (exists s :: s in under && Lasted(s) == p.min) && (exists s :: s in under && Lasted(s) == p.max)
    && forall s :: s in under ==> p.min <= Lasted(s) <= p.max
  }

  /** Every server span falls under exactly one point, and the points tell of nothing else. */
  ghost predicate AllTold(points: seq<Point>, spans: seq<Span>) {
    && (forall p :: p in points ==> Tells(p, spans))
    && (forall i, j :: 0 <= i < j < |points| ==> points[i].key != points[j].key)
    && (forall s :: s in spans && s.kind.Server? ==> exists p :: p in points && FallsUnder(s, p.key))
  }

  /** The points' sums together. */
  function Summed(points: seq<Point>): real {
    if points == [] then 0.0 else Summed(points[..|points| - 1]) + points[|points| - 1].sum
  }

  /** How long the server spans lasted together. */
  function ServerSeconds(spans: seq<Span>): real {
    if spans == [] then 0.0 else
    var s := spans[|spans| - 1];
    ServerSeconds(spans[..|spans| - 1]) + (if s.kind.Server? then (s.end - s.start) / 1000.0 else 0.0)
  }

  lemma KeyTells(s: Span, key: RequestKey)
    requires s.kind.Server?
    ensures KeyOfRequest(RequestOf(s)) == key <==> FallsUnder(s, key) && key.minute % 60000 == 0
  {
    MinuteIs(s.start, key.minute);
  }

  lemma {:induction false} AggregateTells(spans: seq<Span>, key: RequestKey)
    requires key.minute % 60000 == 0
    ensures |AggregateOf(spans, key)| == |ServersUnder(spans, key)|
    ensures forall k :: 0 <= k < |ServersUnder(spans, key)| ==>
      AggregateOf(spans, key)[k].durationMs / 1000.0 == Lasted(ServersUnder(spans, key)[k])
  {
    hide MinuteOf;
    if spans != [] {
      var front, s := spans[..|spans| - 1], spans[|spans| - 1];
      AggregateTells(front, key);
      if s.kind.Server? {
        KeyTells(s, key);
        assert (RequestsOf(front) + [RequestOf(s)])[..|RequestsOf(front)|] == RequestsOf(front);
      } else {
        assert RequestsOf(spans) == RequestsOf(front);
      }
    }
  }

  lemma {:induction false} BucketTells(under: seq<Span>, seconds: seq<real>, i: nat)
    requires |under| == |seconds| && i <= |LatencyBounds()| && forall k :: 0 <= k < |under| ==> seconds[k] == Lasted(under[k])
    ensures |Having(seconds, BucketOf, i)| == LastedIn(under, i)
  {
    hide FindBucket, LatencyBounds;
    if under != [] {
      BucketTells(under[..|under| - 1], seconds[..|seconds| - 1], i);
      OneBucket(seconds[|seconds| - 1], i);
    }
  }

  lemma {:induction false} SumTells(under: seq<Span>, seconds: seq<real>)
    requires |under| == |seconds| && forall k :: 0 <= k < |under| ==> seconds[k] == Lasted(under[k])
    ensures Sum(seconds, Self) == Sum(under, Lasted)
  {
    if under != [] { SumTells(under[..|under| - 1], seconds[..|seconds| - 1]); }
  }

  lemma PointTells(p: Point, spans: seq<Span>)
    requires AggregateOf(spans, p.key) != [] && Summarizes(p, AggregateOf(spans, p.key))
    ensures Tells(p, spans)
  {
    hide RequestsOf, Having, LatencyBounds, FindBucket, Total, LastedIn, Sum, MinuteOf;
    MinuteOfKey(spans, p.key);
    AggregateTells(spans, p.key);
    var under, requests := ServersUnder(spans, p.key), AggregateOf(spans, p.key);
    var seconds := Seconds(Durations(requests));
    SumTells(under, seconds);
    forall i: nat | i <= |LatencyBounds()| ensures p.bucketCounts[i] == LastedIn(under, i) { BucketTells(under, seconds, i); }
    SecondsTell(under, seconds, p.min);
    SecondsTell(under, seconds, p.max);
    forall s | s in under ensures p.min <= Lasted(s) <= p.max {
      var k :| 0 <= k < |under| && under[k] == s;
      assert seconds[k] in seconds;
    }
  }

  lemma SecondsTell(under: seq<Span>, seconds: seq<real>, x: real)
    requires |under| == |seconds| && (forall k :: 0 <= k < |under| ==> seconds[k] == Lasted(under[k])) && x in seconds
    ensures exists s :: s in under && Lasted(s) == x
  {
    var k :| 0 <= k < |seconds| && seconds[k] == x;
    assert under[k] in under;
  }

  lemma {:induction false} RequestIsServed(spans: seq<Span>, r: Request) returns (s: Span)
    requires r in RequestsOf(spans)
    ensures s in spans && s.kind.Server? && r == RequestOf(s)
  {
    s := spans[|spans| - 1];
    if !(s.kind.Server? && r == RequestOf(s)) { s := RequestIsServed(spans[..|spans| - 1], r); }
  }

  lemma MinuteOfKey(spans: seq<Span>, key: RequestKey)
    requires AggregateOf(spans, key) != []
    ensures key.minute % 60000 == 0
  {
    var r := AggregateOf(spans, key)[0];
    assert r in AggregateOf(spans, key);
    var s := RequestIsServed(spans, r);
    KeyTells(s, key);
  }

  /** One point each means that all is told. */
  lemma PointsTell(points: seq<Point>, spans: seq<Span>)
    requires OnePointEach(points, spans)
    ensures AllTold(points, spans)
  {
    hide Summarizes, AggregateOf, Tells, FallsUnder, MinuteOf;
    forall p | p in points ensures Tells(p, spans) { PointTells(p, spans); }
    forall s | s in spans && s.kind.Server? ensures exists p :: p in points && FallsUnder(s, p.key) {
      var p :| p in points && p.key == KeyOfRequest(RequestOf(s));
      KeyTells(s, p.key);
    }
  }

  /** The seconds of the server spans that fall under one of the keys. */
  ghost function SecondsAmong(spans: seq<Span>, keys: set<RequestKey>): real {
    if spans == [] then 0.0 else
    var s := spans[|spans| - 1];
    SecondsAmong(spans[..|spans| - 1], keys) + (if s.kind.Server? && KeyOfRequest(RequestOf(s)) in keys then Lasted(s) else 0.0)
  }

  lemma {:induction false} OneKeyLess(spans: seq<Span>, keys: set<RequestKey>, key: RequestKey)
    requires key !in keys && key.minute % 60000 == 0
    ensures SecondsAmong(spans, keys + {key}) == SecondsAmong(spans, keys) + Sum(ServersUnder(spans, key), Lasted)
  {
    hide MinuteOf;
    if spans != [] {
      var front, s := spans[..|spans| - 1], spans[|spans| - 1];
      OneKeyLess(front, keys, key);
      var among := keys + {key};
      if s.kind.Server? {
        KeyTells(s, key);
        assert KeyOfRequest(RequestOf(s)) in among <==> KeyOfRequest(RequestOf(s)) in keys || FallsUnder(s, key);
        assert FallsUnder(s, key) ==> KeyOfRequest(RequestOf(s)) !in keys;
      }
      assert SecondsAmong(spans, among) == SecondsAmong(front, among) + (if s.kind.Server? && KeyOfRequest(RequestOf(s)) in among then Lasted(s) else 0.0);
      OneMoreLasted(ServersUnder(front, key), s);
      assert FallsUnder(s, key) ==> ServersUnder(spans, key) == ServersUnder(front, key) + [s];
      assert !FallsUnder(s, key) ==> ServersUnder(spans, key) == ServersUnder(front, key);
    }
  }

  lemma OneMoreLasted(spans: seq<Span>, s: Span)
    ensures Sum(spans + [s], Lasted) == Sum(spans, Lasted) + Lasted(s)
  {
    assert (spans + [s])[..|spans|] == spans;
  }

  lemma {:induction false} AllAmong(spans: seq<Span>, keys: set<RequestKey>)
    requires forall s :: s in spans && s.kind.Server? ==> KeyOfRequest(RequestOf(s)) in keys
    ensures SecondsAmong(spans, keys) == ServerSeconds(spans)
  {
    if spans != [] {
      assert spans[|spans| - 1] in spans;
      AllAmong(spans[..|spans| - 1], keys);
    }
  }

  lemma {:induction false} NoneAmong(spans: seq<Span>)
    ensures SecondsAmong(spans, {}) == 0.0
  {
    if spans != [] { NoneAmong(spans[..|spans| - 1]); }
  }

  ghost function KeysOf(points: seq<Point>): set<RequestKey> { set p | p in points :: p.key }

  lemma {:induction false} SummedAmong(points: seq<Point>, spans: seq<Span>)
    requires forall p :: p in points ==> Tells(p, spans)
    requires forall i, j :: 0 <= i < j < |points| ==> points[i].key != points[j].key
    ensures Summed(points) == SecondsAmong(spans, KeysOf(points))
  {
    if points == [] {
      NoneAmong(spans);
      assert KeysOf(points) == {};
    } else {
      var front, p := points[..|points| - 1], points[|points| - 1];
      assert points == front + [p] && p in points;
      assert Tells(p, spans);
      hide Tells, SecondsAmong;
      SummedAmong(front, spans);
      assert KeysOf(points) == KeysOf(front) + {p.key};
      OneKeyLess(spans, KeysOf(front), p.key);
    }
  }

  /** The sums of all points are the seconds of all server spans. */
  lemma PointsSumUp(points: seq<Point>, spans: seq<Span>)
    requires AllTold(points, spans)
    ensures Summed(points) == ServerSeconds(spans)
  {
    hide Tells, SecondsAmong, MinuteOf, FallsUnder;
    SummedAmong(points, spans);
    forall s | s in spans && s.kind.Server? ensures KeyOfRequest(RequestOf(s)) in KeysOf(points) {
      var p :| p in points && FallsUnder(s, p.key);
      TellsWholeMinute(p, spans);
      KeyTells(s, p.key);
    }
    AllAmong(spans, KeysOf(points));
  }

  lemma TellsWholeMinute(p: Point, spans: seq<Span>)
    requires Tells(p, spans)
    ensures p.key.minute % 60000 == 0
  {}

  // The same for orders: consumers that did not fail.

  predicate OrderedUnder(s: Span, key: OrderKey) {
    && s.kind.Consumer? && !s.error && s.resource.key == key.pod
    && key.minute as real <= s.start < (key.minute + 60000) as real
  }

  function ConsumersUnder(spans: seq<Span>, key: OrderKey): seq<Span> {
    if spans == [] then [] else
    var s := spans[|spans| - 1];
    ConsumersUnder(spans[..|spans| - 1], key) + (if OrderedUnder(s, key) then [s] else [])
  }

  /** One point per pod and minute in which a consumer ended without failing, with their number. */
  ghost predicate OrdersTold(points: seq<OrderPoint>, spans: seq<Span>) {
    && (forall p :: p in points ==> p.key.minute % 60000 == 0 && p.count == |ConsumersUnder(spans, p.key)| > 0)
    && (forall i, j :: 0 <= i < j < |points| ==> points[i].key != points[j].key)
    && (forall s :: s in spans && s.kind.Consumer? && !s.error ==> exists p :: p in points && OrderedUnder(s, p.key))
  }

  function OrderOf(s: Span): Order { Order(s.resource, MinuteOf(s.start)) }

  lemma OrderKeyTells(s: Span, key: OrderKey)
    requires s.kind.Consumer? && !s.error
    ensures KeyOfOrder(OrderOf(s)) == key <==> OrderedUnder(s, key) && key.minute % 60000 == 0
  {
    MinuteIs(s.start, key.minute);
  }

  lemma {:induction false} CreatedTells(spans: seq<Span>, key: OrderKey)
    ensures Having(OrdersOf(spans), KeyOfOrder, key) != [] ==> key.minute % 60000 == 0
    ensures key.minute % 60000 == 0 ==> |Having(OrdersOf(spans), KeyOfOrder, key)| == |ConsumersUnder(spans, key)|
    ensures forall s :: s in spans && s.kind.Consumer? && !s.error ==> OrderOf(s) in OrdersOf(spans)
  {
    hide MinuteOf;
    if spans != [] {
      var front, s := spans[..|spans| - 1], spans[|spans| - 1];
      CreatedTells(front, key);
      if s.kind.Consumer? && !s.error {
        OrderKeyTells(s, key);
        assert OrdersOf(spans) == OrdersOf(front) + [OrderOf(s)];
        assert (OrdersOf(front) + [OrderOf(s)])[..|OrdersOf(front)|] == OrdersOf(front);
      } else {
        assert OrdersOf(spans) == OrdersOf(front);
      }
    }
  }

  lemma OrderPointsTell(orders: map<OrderKey, seq<Order>>, created: seq<Order>, spans: seq<Span>, points: seq<OrderPoint>)
    requires Groups(orders, created, KeyOfOrder) && created == OrdersOf(spans) && OrderPointsFor(points, orders, {})
    ensures OrdersTold(points, spans)
  {
    hide OrdersOf, Having, ConsumersUnder, OrderedUnder, MinuteOf;
    forall p | p in points ensures p.key.minute % 60000 == 0 && p.count == |ConsumersUnder(spans, p.key)| > 0 {
      assert Listed(orders, p.key) == Having(created, KeyOfOrder, p.key);
      CreatedTells(spans, p.key);
    }
    GroupsCover(orders, created, KeyOfOrder);
    forall s | s in spans && s.kind.Consumer? && !s.error ensures exists p :: p in points && OrderedUnder(s, p.key) {
      CreatedTells(spans, KeyOfOrder(OrderOf(s)));
      var p :| p in points && p.key == KeyOfOrder(OrderOf(s));
      OrderKeyTells(s, p.key);
    }
  }

  // ------------------------------------------------------------ a window

  datatype WindowOutput = WindowOutput(
    points: seq<Point>, orders: seq<OrderPoint>, traceCount: nat, errorTraceCount: nat)

  function FailedRoots(roots: seq<Tree>): nat {
    if roots == [] then 0
    else FailedRoots(roots[..|roots| - 1]) + (if Failing(roots[|roots| - 1]).Some? then 1 else 0)
  }

  /** Whole traces: well-formed trees under server spans without a parent. */
  ghost predicate Traces(roots: seq<Tree>) {
    forall t :: t in roots ==> WellFormed(t) && t.span.kind.Server? && t.span.parent.None?
  }

  /** Each trace runs one of the entry points. */
  ghost predicate Entered(entryPoints: seq<Op>, roots: seq<Tree>) {
    forall t :: t in roots ==> exists e :: e in entryPoints && e.ServerOp? && TracedServer(e, t)
  }

  /** In a well-formed trace a server span's status tells whether it failed. */
  lemma {:induction false} StatusTellsInTrace(t: Tree, s: Span)
    requires WellFormed(t) && s in Spans(t)
    ensures StatusTells(s)
    decreases t
  {
    if s == t.span {
      if s.kind.Server? { TraceFailsOnce(t); }
    } else {
      hide WellFormed, StatusTells;
      var k := SpanOwner(t.children, s);
      ChildNested(t, k);
      StatusTellsInTrace(t.children[k], s);
    }
  }

  lemma StatusTellsInAll(roots: seq<Tree>)
    requires Traces(roots)
    ensures forall s :: s in AllSpans(roots) ==> StatusTells(s)
  {
    hide WellFormed, StatusTells;
    forall s | s in AllSpans(roots) ensures StatusTells(s) {
      var k := SpanOwner(roots, s);
      StatusTellsInTrace(roots[k], s);
    }
  }

  /** One trace of a random entry point, at a random moment of the minute. */
  method GenerateTrace(builder: TraceBuilder, entryPoints: seq<Op>, minute: int) returns (failed: bool, ghost more: seq<Tree>)
    requires entryPoints != [] && builder.sink.Valid()
    modifies builder, builder.sink
    ensures builder.sink.Valid()
    ensures Wrote(old(builder.Now()), builder.Now(), more) && Traces(more) && |more| <= 1
    ensures Entered(entryPoints, more)
    ensures forall t :: t in more ==> minute as real <= t.span.start < (minute + MINUTE) as real
    ensures failed <==> more != [] && Failing(more[0]).Some?
    ensures (forall e :: e in entryPoints ==> e.ServerOp?) ==> |more| == 1
  {
    hide Wrote, WellFormed, Failing, RequestsOf, OrdersOf, ErrorIds, TracedServer;
    var offset := Next();
    var pick := Count();
    var entry := entryPoints[pick % |entryPoints|];
    var result;
    result, more := builder.Run(entry, minute as real + offset * 60000.0);
    failed := result.failed.Some?;
  }

  /** The traces of one minute; `count` of them ran, `failed` of them with a failure. */
  method GenerateMinute(builder: TraceBuilder, entryPoints: seq<Op>, minute: int)
    returns (count: nat, failures: nat, ghost roots: seq<Tree>)
    requires entryPoints != [] && builder.sink.Valid()
    modifies builder, builder.sink
    ensures builder.sink.Valid()
    ensures Wrote(old(builder.Now()), builder.Now(), roots) && Traces(roots) && Entered(entryPoints, roots)
    ensures forall t :: t in roots ==> minute as real <= t.span.start < (minute + MINUTE) as real
    ensures |roots| <= count && failures == FailedRoots(roots)
    ensures (forall e :: e in entryPoints ==> e.ServerOp?) ==> count == |roots|
  {
    hide Wrote, WellFormed, Failing, ErrorIds, RequestsOf, OrdersOf, TracedServer;
    ghost var begun := builder.Now();
    WroteNothing(begun);
    failures, roots := 0, [];
    count := Count();
    for i := 0 to count
      invariant builder.sink.Valid()
      invariant Wrote(begun, builder.Now(), roots) && Traces(roots) && Entered(entryPoints, roots)
      invariant forall t :: t in roots ==> minute as real <= t.span.start < (minute + MINUTE) as real
      invariant |roots| <= i && failures == FailedRoots(roots)
      invariant (forall e :: e in entryPoints ==> e.ServerOp?) ==> i == |roots|
    {
      ghost var before := builder.Now();
      var failed; ghost var more;
      failed, more := GenerateTrace(builder, entryPoints, minute);
      WroteMore(begun, before, builder.Now(), roots, more);
      FailedRootsMore(roots, more);
      roots := roots + more;
      if failed { failures := failures + 1; }
    }
  }

  /** Where the last minute begun before `to` ends: `to` itself for a window of whole minutes. */
  function WindowEnd(from: int, to: int): (end: int)
    ensures from <= to && (to - from) % MINUTE == 0 ==> end == to
    ensures from < to ==> to <= end < to + MINUTE
  {
    if to <= from then from else from + ((to - from - 1) / MINUTE + 1) * MINUTE
  }

  lemma MinuteInWindow(from: int, to: int, minute: int)
    requires from <= minute < to && (minute - from) % MINUTE == 0
    ensures minute + MINUTE <= WindowEnd(from, to)
  {}

  /** The traces of [from, to), one minute after the other. */
  method GenerateTraces(entryPoints: seq<Op>, from: int, to: int)
    returns (sink: Sink, traceCount: nat, errorTraceCount: nat, ghost roots: seq<Tree>)
    requires entryPoints != []
    ensures fresh(sink) && sink.Valid() && Traces(roots) && Entered(entryPoints, roots)
    ensures forall t :: t in roots ==> from as real <= t.span.start < WindowEnd(from, to) as real
    ensures sink.emitted == AllSpans(roots) && ErrorIds(sink.logged) == AllErrorLogs(roots)
    ensures exists n: nat :: Distinct(sink.emitted, 0, n)
    ensures |roots| <= traceCount && errorTraceCount == FailedRoots(roots)
    ensures (forall e :: e in entryPoints ==> e.ServerOp?) ==> traceCount == |roots|
  {
    hide Wrote, WellFormed, Failing, RequestsOf, OrdersOf, TracedServer;
    sink := new Sink();
    var builder := new TraceBuilder(sink, 0);
    traceCount, errorTraceCount, roots := 0, 0, [];
    ghost var begun := builder.Now();
    assert begun == Ledger([], [], 0);
    WroteNothing(begun);
    var minute := from;
    while minute < to
      invariant builder.sink == sink && fresh(sink) && fresh(builder) && sink.Valid()
      invariant from <= minute && (minute - from) % MINUTE == 0
      invariant Wrote(begun, builder.Now(), roots) && Traces(roots) && Entered(entryPoints, roots)
      invariant forall t :: t in roots ==> from as real <= t.span.start < WindowEnd(from, to) as real
      invariant |roots| <= traceCount && errorTraceCount == FailedRoots(roots)
      invariant (forall e :: e in entryPoints ==> e.ServerOp?) ==> traceCount == |roots|
    {
      ghost var before := builder.Now();
      var count, failures; ghost var more;
      count, failures, more := GenerateMinute(builder, entryPoints, minute);
      MinuteInWindow(from, to, minute);
      WroteMore(begun, before, builder.Now(), roots, more);
      FailedRootsMore(roots, more);
      roots := roots + more;
      traceCount, errorTraceCount := traceCount + count, errorTraceCount + failures;
      minute := minute + MINUTE;
    }
    WroteAll(builder.Now(), roots);
  }

  lemma WroteAll(b: Ledger, roots: seq<Tree>)
    requires Wrote(Ledger([], [], 0), b, roots)
    ensures b.spans == AllSpans(roots) && b.errors == AllErrorLogs(roots)
    ensures exists n: nat :: Distinct(b.spans, 0, n)
  {
    assert Distinct(b.spans, 0, b.nextId);
  }

  /** A window: its traces, and the points and counters made from them. */
  method GenerateWindow(entryPoints: seq<Op>, from: int, to: int) returns (out: WindowOutput, sink: Sink, ghost roots: seq<Tree>)
    requires entryPoints != []
    ensures fresh(sink) && sink.Valid() && Traces(roots) && Entered(entryPoints, roots)
    ensures forall t :: t in roots ==> from as real <= t.span.start < WindowEnd(from, to) as real
    ensures sink.emitted == AllSpans(roots) && ErrorIds(sink.logged) == AllErrorLogs(roots)
    ensures exists n: nat :: Distinct(sink.emitted, 0, n)
    ensures |roots| <= out.traceCount && out.errorTraceCount == FailedRoots(roots)
    ensures (forall e :: e in entryPoints ==> e.ServerOp?) ==> out.traceCount == |roots|
    ensures OnePointEach(out.points, sink.emitted)
    ensures Counted(out.points) == Servers(sink.emitted)
    ensures CountedWith(out.points, 500) == FailedServers(sink.emitted)
    ensures Ordered(out.orders) == GoodConsumers(sink.emitted)
    ensures AllTold(out.points, sink.emitted) && Summed(out.points) == ServerSeconds(sink.emitted)
    ensures OrdersTold(out.orders, sink.emitted)
  {
    hide RequestsOf, OrdersOf, ErrorIds, Traces, Distinct, StatusTells, Entered, OnePointEach, AllTold, OrdersTold;
    var traceCount, errorTraceCount;
    sink, traceCount, errorTraceCount, roots := GenerateTraces(entryPoints, from, to);
    StatusTellsInAll(roots);
    var points := BuildRequestMetrics(sink);
    var orders := BuildOrderMetrics(sink);
    PointsTell(points, sink.emitted);
    PointsSumUp(points, sink.emitted);
    RequestsAreServers(sink.emitted);
    FailedRequests(sink.emitted, sink.requests.Keys);
    out := WindowOutput(points, orders, traceCount, errorTraceCount);
  }

  lemma {:induction false} FailedRootsMore(roots: seq<Tree>, more: seq<Tree>)
    ensures FailedRoots(roots + more) == FailedRoots(roots) + FailedRoots(more)
    decreases |more|
  {
    if more == [] {
      assert roots + more == roots;
    } else {
      assert (roots + more)[..|roots + more| - 1] == roots + more[..|more| - 1];
      FailedRootsMore(roots, more[..|more| - 1]);
    }
  }
}
