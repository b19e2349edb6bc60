/** Where the simulator puts what it emits (scripts/seed-demo/telemetry.ts, `Sink`): spans and
    logs per pod, requests and orders per pod and minute. Ghost histories keep the emission order;
    `Tied` says every map distributes its history. */
module SinkModel {
  import opened Grouping
  import opened Trace
  import opened Wrappers

  const MINUTE := 60000

  function MinuteOf(at: real): int { (at / 60000.0).Floor * MINUTE }

  datatype Severity = DEBUG | INFO | WARN | ERROR

  /** A log line, with the span it belongs to if any. */
  datatype Log = Log(resource: Resource, severity: Severity, span: Option<nat>)

  /** One served request as the duration metric sees it. */
  datatype Request = Request(resource: Resource, minute: int, verb: string, route: string, status: nat, durationMs: real)

  datatype RequestKey = RequestKey(pod: string, minute: int, verb: string, route: string, status: nat)

  datatype Order = Order(resource: Resource, minute: int)

  datatype OrderKey = OrderKey(pod: string, minute: int)

  function SpanKey(s: Span): string { s.resource.key }
  function LogKey(l: Log): string { l.resource.key }
  function KeyOfRequest(r: Request): RequestKey { RequestKey(r.resource.key, r.minute, r.verb, r.route, r.status) }
  function KeyOfOrder(o: Order): OrderKey { OrderKey(o.resource.key, o.minute) }

  function RequestOf(s: Span): Request
    requires s.kind.Server?
  {
    Request(s.resource, MinuteOf(s.start), s.kind.verb, s.kind.route, s.kind.status, s.end - s.start)
  }

  /** The requests that a list of spans served. */
  function RequestsOf(spans: seq<Span>): seq<Request> {
    if spans == [] then [] else
    var s := spans[|spans| - 1];
    RequestsOf(spans[..|spans| - 1]) + (if s.kind.Server? then [RequestOf(s)] else [])
  }

  /** The orders that a list of spans created: its consumers that did not fail. */
  function OrdersOf(spans: seq<Span>): seq<Order> {
    if spans == [] then [] else
    var s := spans[|spans| - 1];
    OrdersOf(spans[..|spans| - 1]) +
    (if s.kind.Consumer? && !s.error then [Order(s.resource, MinuteOf(s.start))] else [])
  }

  /** The spans that ERROR lines were written for. */
  function ErrorIds(logs: seq<Log>): seq<nat> {
    if logs == [] then [] else
    var l := logs[|logs| - 1];
    ErrorIds(logs[..|logs| - 1]) + (if l.severity.ERROR? && l.span.Some? then [l.span.value] else [])
  }

  class Sink {
    var spans: map<string, seq<Span>>
    var logs: map<string, seq<Log>>
    var requests: map<RequestKey, seq<Request>>
    var orders: map<OrderKey, seq<Order>>

    ghost var emitted: seq<Span>
    ghost var logged: seq<Log>
    ghost var served: seq<Request>
    ghost var created: seq<Order>

    /** Each map distributes what was put in. */
    ghost predicate Tied()
      reads this
    {
      && Groups(spans, emitted, SpanKey)
      && Groups(logs, logged, LogKey)
      && Groups(requests, served, KeyOfRequest)
      && Groups(orders, created, KeyOfOrder)
    }

    /** The metrics' inputs are exactly what the emitted spans say. */
    ghost predicate Valid()
      reads this
    {
      Tied() && served == RequestsOf(emitted) && created == OrdersOf(emitted)
    }

    constructor ()
      ensures Valid() && emitted == [] && logged == [] && served == [] && created == []
    {
      spans, logs, requests, orders := map[], map[], map[], map[];
      emitted, logged, served, created := [], [], [], [];
      new;
      NoGroups<string, Span>(SpanKey);
      NoGroups<string, Log>(LogKey);
      NoGroups<RequestKey, Request>(KeyOfRequest);
      NoGroups<OrderKey, Order>(KeyOfOrder);
    }

    method PutSpan(span: Span)
      requires Tied()
      modifies `spans, `emitted
      ensures Tied() && emitted == old(emitted) + [span]
      ensures var key := span.resource.key; spans == old(spans)[key := Listed(old(spans), key) + [span]]
    {
      hide Groups;
      PushGroups(spans, emitted, SpanKey, span);
      spans := Push(spans, SpanKey(span), span);
      emitted := emitted + [span];
    }

    method PutLog(log: Log)
      requires Tied()
      modifies `logs, `logged
      ensures Tied() && logged == old(logged) + [log]
      ensures var key := log.resource.key; logs == old(logs)[key := Listed(old(logs), key) + [log]]
    {
      hide Groups;
      PushGroups(logs, logged, LogKey, log);
      logs := Push(logs, LogKey(log), log);
      logged := logged + [log];
    }

    method PutRequest(request: Request)
      requires Tied()
      modifies `requests, `served
      ensures Tied() && served == old(served) + [request]
      ensures var key := RequestKey(request.resource.key, request.minute, request.verb, request.route, request.status); requests == old(requests)[key := Listed(old(requests), key) + [request]]
    {
      hide Groups;
      PushGroups(requests, served, KeyOfRequest, request);
      requests := Push(requests, KeyOfRequest(request), request);
      served := served + [request];
    }

    method PutOrder(order: Order)
      requires Tied()
      modifies `orders, `created
      ensures Tied() && created == old(created) + [order]
      ensures var key := OrderKey(order.resource.key, order.minute); orders == old(orders)[key := Listed(old(orders), key) + [order]]
    {
      hide Groups;
      PushGroups(orders, created, KeyOfOrder, order);
      orders := Push(orders, KeyOfOrder(order), order);
      created := created + [order];
    }
  }

  lemma OneMoreSpan(spans: seq<Span>, s: Span)
    ensures RequestsOf(spans + [s]) == RequestsOf(spans) + (if s.kind.Server? then [RequestOf(s)] else [])
    ensures OrdersOf(spans + [s]) ==
      OrdersOf(spans) + (if s.kind.Consumer? && !s.error then [Order(s.resource, MinuteOf(s.start))] else [])
  {
    assert (spans + [s])[..|spans|] == spans;
  }

  lemma OneMoreLog(logs: seq<Log>, l: Log)
    ensures ErrorIds(logs + [l]) == ErrorIds(logs) + (if l.severity.ERROR? && l.span.Some? then [l.span.value] else [])
  {
    assert (logs + [l])[..|logs|] == logs;
  }
}
