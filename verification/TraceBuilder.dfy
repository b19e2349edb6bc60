/** The recursive interpreter that runs a call tree and emits its spans and logs
    (scripts/seed-demo/telemetry.ts, `TraceBuilder`). Random draws are arbitrary values in their
    ranges, identifiers come from a counter, times are exact reals in milliseconds. */
module TraceBuilderModel {
  import opened CallTree
  import opened SinkModel
  import opened Trace
  import opened Wrappers

  // ------------------------------------------------------------ draws

  /** A uniform draw. */
  method Next() returns (x: real)
    ensures 0.0 <= x < 1.0
  {
    x := *;
    if !(0.0 <= x < 1.0) { x := 0.0; }
  }

  /** A latency: log-normal in the source, at least 0.2 ms. */
  method Latency() returns (x: real)
    ensures x >= 0.2
  {
    x := *;
    if x < 0.2 { x := 0.2; }
  }

  method Count() returns (n: nat) {
    n := *;
  }

  /** What a failure rule answers: nothing, or any failure; a timeout lasts a positive time. */
  method FailRule(has: bool) returns (f: Option<Failure>)
    ensures !has ==> f == None
    ensures f.Some? && f.value.durationMs.Some? ==> f.value.durationMs.value >= 0.0
  {
    f := *;
    if !has || (f.Some? && f.value.durationMs.Some? && f.value.durationMs.value < 0.0) { f := None; }
  }

  /** Some pod of the service. */
  method PodOf(service: string) returns (r: Resource)
    ensures r.service == service
  {
    var key: string := *;
    r := Resource(key, service);
  }

  /** The time between a client span's edge and the server span it holds: more than a millisecond. */
  method NetworkHop() returns (x: real)
    ensures x >= 1.2
  {
    x := Latency();
    x := 1.0 + x;
  }

  // ------------------------------------------------------------ identifiers

  ghost predicate Distinct(spans: seq<Span>, lo: nat, hi: nat) {
    && lo <= hi
    && (forall k :: 0 <= k < |spans| ==> lo <= spans[k].id < hi)
    && (forall i, j :: 0 <= i < j < |spans| ==> spans[i].id != spans[j].id)
  }

  lemma DistinctConcat(a: seq<Span>, b: seq<Span>, lo: nat, mid: nat, hi: nat)
    requires Distinct(a, lo, mid) && Distinct(b, mid, hi)
    ensures Distinct(a + b, lo, hi)
  {}

  lemma {:induction false} ErrorLogsConcat(a: seq<Tree>, b: seq<Tree>)
    ensures AllErrorLogs(a + b) == AllErrorLogs(a) + AllErrorLogs(b)
  {
    hide ErrorLogs;
    if b == [] {
      assert a + b == a;
    } else {
      assert (a + b)[..|a + b| - 1] == a + b[..|b| - 1];
      ErrorLogsConcat(a, b[..|b| - 1]);
    }
  }

  lemma OneTree(t: Tree)
    ensures AllSpans([t]) == Spans(t) && AllErrorLogs([t]) == ErrorLogs(t)
  {
    assert [t][..0] == [];
  }

  lemma {:induction false} InOrderConcat(a: seq<Tree>, b: seq<Tree>, lo: real, mid: real, hi: real)
    requires InOrder(a, lo, mid) && InOrder(b, mid, hi)
    ensures InOrder(a + b, lo, hi)
  {
    if b == [] {
      assert a + b == a;
      InOrderLater(a, lo, mid, hi);
    } else {
      assert (a + b)[..|a + b| - 1] == a + b[..|b| - 1];
      InOrderConcat(a, b[..|b| - 1], lo, mid, b[|b| - 1].span.start);
    }
  }

  lemma {:induction false} InOrderLater(ts: seq<Tree>, lo: real, hi: real, later: real)
    requires InOrder(ts, lo, hi) && hi <= later
    ensures InOrder(ts, lo, later)
  {}

  lemma {:induction false} InOrderSooner(ts: seq<Tree>, lo: real, hi: real, sooner: real)
    requires InOrder(ts, lo, hi) && sooner <= lo
    ensures InOrder(ts, sooner, hi)
  {
    if ts != [] { InOrderSooner(ts[..|ts| - 1], lo, ts[|ts| - 1].span.start, sooner); }
  }

  /** Running some operations after others that did not fail. */
  lemma RanConcat(a: seq<Tree>, b: seq<Tree>, parent: Parent, lo: real, mid: real, next: real, hi: real)
    requires Ran(a, parent, lo, mid) && LastFailing(a).None? && Ran(b, parent, next, hi) && mid <= next
    ensures Ran(a + b, parent, lo, hi)
    ensures LastFailing(a + b) == if b == [] then None else LastFailing(b)
  {
    hide WellFormed, Failing;
    InOrderSooner(b, next, hi, mid);
    InOrderConcat(a, b, lo, mid, hi);
    forall k | 0 <= k < |a + b| - 1 ensures Failing((a + b)[k]).None? {
      if k < |a| - 1 { assert (a + b)[k] == a[k]; }
      else if k == |a| - 1 { assert (a + b)[k] == a[|a| - 1]; }
      else { assert (a + b)[k] == b[k - |a|]; }
    }
  }

  lemma DistinctOwn(a: seq<Span>, s: Span, hi: nat)
    requires Distinct(a, s.id + 1, hi)
    ensures Distinct(a + [s], s.id, hi) && Distinct([s] + a, s.id, hi)
  {}

  /** What the sink holds, as far as the tree is concerned: spans, ERROR lines, identifiers given out. */
  datatype Ledger = Ledger(spans: seq<Span>, errors: seq<nat>, nextId: nat)

  /** From `a` to `b` exactly the trees `ts` were written, under new and distinct identifiers. */
  ghost predicate Wrote(a: Ledger, b: Ledger, ts: seq<Tree>) {
    && b.spans == a.spans + AllSpans(ts)
    && b.errors == a.errors + AllErrorLogs(ts)
    && Distinct(AllSpans(ts), a.nextId, b.nextId)
  }

  lemma WroteNothing(a: Ledger)
    ensures Wrote(a, a, [])
  {}

  lemma WroteMore(a: Ledger, b: Ledger, c: Ledger, ts: seq<Tree>, more: seq<Tree>)
    requires Wrote(a, b, ts) && Wrote(b, c, more)
    ensures Wrote(a, c, ts + more)
  {
    hide Distinct;
    SpansConcat(ts, more);
    ErrorLogsConcat(ts, more);
    DistinctConcat(AllSpans(ts), AllSpans(more), a.nextId, b.nextId, c.nextId);
  }

  /** The children were written, then their parent and its line. */
  lemma WroteNode(a: Ledger, b: Ledger, t: Tree)
    requires Wrote(a.(nextId := t.span.id + 1), b, t.children) && a.nextId == t.span.id && !t.span.kind.Producer?
    ensures Wrote(a, b.(spans := b.spans + [t.span], errors := if t.logged then b.errors + [t.span.id] else b.errors), [t])
  {
    hide Distinct, AllSpans, AllErrorLogs;
    OneTree(t);
    DistinctOwn(AllSpans(t.children), t.span, b.nextId);
    assert b.spans + [t.span] == a.spans + (AllSpans(t.children) + [t.span]);
    assert b.errors + [t.span.id] == a.errors + (AllErrorLogs(t.children) + [t.span.id]);
    assert AllErrorLogs(t.children) + [] == AllErrorLogs(t.children);
  }

  /** The producer was written, then everything below it. */
  lemma WroteProducer(a: Ledger, b: Ledger, t: Tree)
    requires t.span.kind.Producer? && !t.logged && a.nextId == t.span.id
    requires Wrote(Ledger(a.spans + [t.span], a.errors, t.span.id + 1), b, t.children)
    ensures Wrote(a, b, [t])
  {
    hide Distinct, AllSpans, AllErrorLogs;
    OneTree(t);
    DistinctOwn(AllSpans(t.children), t.span, b.nextId);
    assert b.spans == a.spans + ([t.span] + AllSpans(t.children));
    assert AllErrorLogs(t.children) + [] == AllErrorLogs(t.children);
  }

  // ------------------------------------------------------------ assembling well-formed nodes

  /** A parent's interval may reach beyond its children's on both sides. */
  lemma RanWidened(ts: seq<Tree>, parent: Parent, lo: real, hi: real, lo': real, hi': real)
    requires Ran(ts, parent, lo, hi) && lo' <= lo && hi <= hi'
    ensures Ran(ts, parent, lo', hi') && lo' <= hi'
  {
    hide WellFormed, Failing;
    InOrderSooner(ts, lo, hi, lo');
    InOrderLater(ts, lo', hi, hi');
    InOrderStart(ts, lo, hi);
  }

  lemma RanNothing(parent: Parent, at: real)
    ensures Ran([], parent, at, at)
  {}

  lemma RanOne(t: Tree, parent: Parent, lo: real, hi: real)
    requires WellFormed(t) && t.span.parent == Some(parent.id) && t.span.resource == parent.resource
    requires t.span.kind.Client? || t.span.kind.Internal? || t.span.kind.Producer?
    requires t.span.start == lo <= hi && t.span.end == hi
    ensures Ran([t], parent, lo, hi) && LastFailing([t]) == Failing(t)
  {
    hide WellFormed, Failing;
    assert InOrder([], lo, lo) && [t][..0] == [];
    assert InOrder([t], lo, hi);
  }

  lemma ServerNode(span: Span, ts: seq<Tree>, lo: real, hi: real, own: Option<Failure>, logs: bool)
    requires Ran(ts, Parent(span.id, span.resource), lo, hi) && span.start <= lo && hi <= span.end && span.kind.Server?
    requires LastFailing(ts).Some? ==> own.None?
    requires span.exception == if own.Some? then own else RecordedFailure(span.resource.service, LastFailing(ts))
    requires span.error == span.exception.Some?
    requires span.kind.status == if own.Some? || LastFailing(ts).Some? then 500 else 200
    requires logs == (span.exception.Some? &&
      !(LastFailing(ts).Some? && LastFailing(ts).value.service == span.resource.service))
    ensures WellFormed(Node(span, logs, ts))
    ensures Failing(Node(span, logs, ts)) ==
      if own.Some? then Some(Failed(own.value, span.resource.service)) else LastFailing(ts)
  {
    hide Ran;
    RanWidened(ts, Parent(span.id, span.resource), lo, hi, span.start, span.end);
  }

  lemma ConsumerNode(span: Span, ts: seq<Tree>, lo: real, hi: real)
    requires Ran(ts, Parent(span.id, span.resource), lo, hi) && span.start <= lo && hi <= span.end && span.kind.Consumer?
    requires span.exception == RecordedFailure(span.resource.service, LastFailing(ts))
    requires span.error == span.exception.Some?
    ensures WellFormed(Node(span, false, ts))
  {
    hide Ran;
    RanWidened(ts, Parent(span.id, span.resource), lo, hi, span.start, span.end);
  }

  lemma InternalNode(span: Span, ts: seq<Tree>, lo: real, hi: real)
    requires Ran(ts, Parent(span.id, span.resource), lo, hi) && span.start <= lo && hi <= span.end && span.kind.Internal?
    requires span.error == LastFailing(ts).Some? && span.exception.None?
    ensures WellFormed(Node(span, false, ts)) && Failing(Node(span, false, ts)) == LastFailing(ts)
  {
    hide Ran;
    RanWidened(ts, Parent(span.id, span.resource), lo, hi, span.start, span.end);
  }

  lemma CallNode(span: Span, served: Tree)
    requires WellFormed(served) && Served(span, served.span) && span.kind.Client? && span.start <= span.end
    requires !span.error && span.exception.None?
    ensures WellFormed(Node(span, false, [served]))
    ensures Failing(Node(span, false, [served])) ==
      if Failing(served).Some? then Some(Failed(Failing(served).value.failure, served.span.resource.service)) else None
  {}

  lemma LeafNode(span: Span)
    requires span.kind.Client? && span.start <= span.end && span.error == span.exception.Some?
    ensures WellFormed(Node(span, span.exception.Some?, []))
    ensures Failing(Node(span, span.exception.Some?, [])) ==
      if span.exception.Some? then Some(Failed(span.exception.value, span.resource.service)) else None
  {}

  lemma ProducerNode(span: Span, consumed: Tree)
    requires WellFormed(consumed) && Delivered(span, consumed.span) && span.kind.Producer? && span.start <= span.end
    requires !span.error && span.exception.None?
    ensures WellFormed(Node(span, false, [consumed])) && Failing(Node(span, false, [consumed])) == None
  {}

  // ------------------------------------------------------------ the interpreter

  class TraceBuilder {
    const sink: Sink
    var nextId: nat

    constructor (sink: Sink, nextId: nat)
      ensures this.sink == sink && this.nextId == nextId
    {
      this.sink, this.nextId := sink, nextId;
    }

    ghost function Now(): Ledger
      reads this, sink
    {
      Ledger(sink.emitted, ErrorIds(sink.logged), nextId)
    }

    method FreshId() returns (id: nat)
      modifies `nextId
      ensures id == old(nextId) && nextId == id + 1
    {
      id := nextId;
      nextId := nextId + 1;
    }

    /** Emits a span that is no metric's business. */
    method Emit(span: Span)
      requires sink.Valid() && !span.kind.Server? && !(span.kind.Consumer? && !span.error)
      modifies sink
      ensures sink.Valid() && Now() == old(Now()).(spans := old(sink.emitted) + [span])
    {
      OneMoreSpan(sink.emitted, span);
      sink.PutSpan(span);
    }

    /** Emits a server span and counts it as a request. */
    method EmitServer(span: Span)
      requires sink.Valid() && span.kind.Server?
      modifies sink
      ensures sink.Valid() && Now() == old(Now()).(spans := old(sink.emitted) + [span])
    {
      OneMoreSpan(sink.emitted, span);
      sink.PutSpan(span);
      sink.PutRequest(Request(span.resource, MinuteOf(span.start), span.kind.verb, span.kind.route, span.kind.status, span.end - span.start));
    }

    /** Emits a consumer span and, when it did not fail, counts the order. */
    method EmitConsumer(span: Span, failed: bool)
      requires sink.Valid() && span.kind.Consumer? && failed == span.error
      modifies sink
      ensures sink.Valid() && Now() == old(Now()).(spans := old(sink.emitted) + [span])
    {
      OneMoreSpan(sink.emitted, span);
      sink.PutSpan(span);
      if !failed { sink.PutOrder(Order(span.resource, MinuteOf(span.start))); }
    }

    method LogFor(resource: Resource, severity: Severity, id: nat)
      requires sink.Valid()
      modifies sink
      ensures sink.Valid()
      ensures Now() == if severity.ERROR? then old(Now()).(errors := old(Now()).errors + [id]) else old(Now())
    {
      OneMoreLog(sink.logged, Log(resource, severity, Some(id)));
      sink.PutLog(Log(resource, severity, Some(id)));
    }

    method RunOp(op: Op, parent: Parent, start: real) returns (r: Result, ghost ts: seq<Tree>)
      requires sink.Valid()
      modifies this, sink
      ensures sink.Valid() && Wrote(old(Now()), Now(), ts)
      ensures Ran(ts, parent, start, r.end) && r.failed == LastFailing(ts)
      ensures Traced(op, ts)
      decreases op, 2
    {
      hide Wrote, Ran, LastFailing, Traced;
      match op
      case ServerOp(_, _, _, _, _) => r, ts := Remote(op, parent, start);
      case DbOp(_, _) => r, ts := Db(op, parent, start);
      case ExternalOp(_) => r, ts := External(op, parent, start);
      case InternalOp(_) => r, ts := RunInternal(op, parent, start);
      case PublishOp(_) => r, ts := Publish(op, parent, start);
    }

    method Children(children: seq<Op>, parent: Parent, start: real) returns (r: Result, ghost ts: seq<Tree>)
      requires sink.Valid()
      modifies this, sink
      ensures sink.Valid() && Wrote(old(Now()), Now(), ts)
      ensures Ran(ts, parent, start, r.end) && r.failed == LastFailing(ts)
      ensures TracedAll(children, ts)
      decreases children, 0
    {
      hide Wrote, Ran, RequestsOf, OrdersOf, ErrorIds, Failing, Traced, TracedAll;
      var cursor := start;
      ts := [];
      WroteNothing(Now());
      RanNothing(parent, start);
      TracedNothing(children);
      for i := 0 to |children|
        invariant sink.Valid() && Wrote(old(Now()), Now(), ts)
        invariant Ran(ts, parent, start, cursor) && LastFailing(ts).None?
        invariant TracedAll(children[..i], ts)
      {
        var gap := Next();
        ghost var before := Now();
        ghost var more;
        var result;
        result, more := RunOp(children[i], parent, cursor + gap * 0.4);
        RanConcat(ts, more, parent, start, cursor, cursor + gap * 0.4, result.end);
        WroteMore(old(Now()), before, Now(), ts, more);
        TracedMore(children[..i], children[i], ts, more);
        assert children[..i + 1] == children[..i] + [children[i]];
        ts := ts + more;
        cursor := result.end;
        if result.failed.Some? {
          TracedRest(children, i + 1, ts);
          return Result(cursor, result.failed), ts;
        }
      }
      assert children[..|children|] == children;
      r := Result(cursor, None);
    }

    method Server(op: Op, resource: Resource, parent: Option<nat>, start: real) returns (r: Result, ghost t: Tree)
      requires op.ServerOp? && resource.service == op.service
      requires sink.Valid()
      modifies this, sink
      ensures sink.Valid() && Wrote(old(Now()), Now(), [t])
      ensures WellFormed(t) && t.span.kind.Server? && r.failed == Failing(t)
      ensures t.span.parent == parent && t.span.resource == resource && t.span.start == start && t.span.end == r.end
      ensures TracedServer(op, t)
      decreases op, 0
    {
      hide Wrote, Ran, WellFormed, Failing, LastFailing, RequestsOf, OrdersOf, ErrorIds, TracedAll;
      var spanId := FreshId();
      var self := Latency();
      ghost var ts;
      var inner;
      inner, ts := Children(op.children, Parent(spanId, resource), start + self * 0.4);
      var own := None;
      if inner.failed.None? { own := FailRule(op.fails); }
      var end := inner.end + self * 0.6;
      var failed := if own.Some? then Some(Failed(own.value, op.service)) else inner.failed;
      var recorded := if own.Some? then own else RecordedFailure(op.service, inner.failed);
      var status := if failed.Some? then 500 else 200;
      var span := Span(spanId, parent, resource, Kind.Server(op.verb, op.route, status), start, end, recorded.Some?, recorded);
      ghost var ran := Now();
      EmitServer(span);

      // `RecordedFailure` hands on the inner exception only within one service.
      var logs := recorded.Some? && !(inner.failed.Some? && inner.failed.value.service == op.service);
      if logs {
        LogFor(resource, ERROR, spanId);
      } else if failed.Some? {
        // The span whose exception this is has its ERROR line already.
      } else {
        var slow, sampled := *, *;
        if slow { LogFor(resource, WARN, spanId); } else if sampled { LogFor(resource, INFO, spanId); }
      }
      r := Result(end, failed);
      t := Node(span, logs, ts);
      ServerNode(span, ts, start + self * 0.4, inner.end, own, logs);
      WroteNode(old(Now()), ran, t);
    }

    method Remote(op: Op, parent: Parent, start: real) returns (r: Result, ghost ts: seq<Tree>)
      requires op.ServerOp?
      requires sink.Valid()
      modifies this, sink
      ensures sink.Valid() && Wrote(old(Now()), Now(), ts)
      ensures Ran(ts, parent, start, r.end) && r.failed == LastFailing(ts)
      ensures Traced(op, ts)
      decreases op, 1
    {
      hide Wrote, Ran, WellFormed, Failing, LastFailing, RequestsOf, OrdersOf, ErrorIds, TracedAll;
      var spanId := FreshId();
      var target := PodOf(op.service);
      var out := NetworkHop();
      ghost var served;
      var result;
      result, served := Server(op, target, Some(spanId), start + out);
      var back := NetworkHop();
      var end := result.end + back;
      var span := Span(spanId, Some(parent.id), parent.resource, Client, start, end, false, None);
      ghost var ran := Now();
      ServerLasts(served);
      Emit(span);
      r := Result(end, if result.failed.Some? then Some(Failed(result.failed.value.failure, op.service)) else None);
      ghost var t := Node(span, false, [served]);
      ts := [t];
      CallNode(span, served);
      WroteNode(old(Now()), ran, t);
      RanOne(t, parent, start, end);
    }

    method Db(op: Op, parent: Parent, start: real) returns (r: Result, ghost ts: seq<Tree>)
      requires op.DbOp?
      requires sink.Valid()
      modifies this, sink
      ensures sink.Valid() && Wrote(old(Now()), Now(), ts)
      ensures Ran(ts, parent, start, r.end) && r.failed == LastFailing(ts)
      ensures Traced(op, ts)
      decreases op, 0
    {
      hide Wrote, Ran, WellFormed, Failing, RequestsOf, OrdersOf, ErrorIds, TracedAll;
      var repeat := 1;
      if op.repeats { repeat := Count(); }
      var cursor := start;
      ts := [];
      WroteNothing(Now());
      RanNothing(parent, start);
      for i := 0 to repeat
        invariant sink.Valid() && Wrote(old(Now()), Now(), ts)
        invariant Ran(ts, parent, start, cursor) && LastFailing(ts).None?
        invariant |ts| == i && forall t :: t in ts ==> TracedLeaf(op.fails, t)
      {
        var failure := FailRule(op.fails);
        var gap := Next();
        var begin := cursor + gap * 0.2;
        ghost var before := Now();
        ghost var one;
        var result;
        result, one := Leaf(failure, parent, begin);
        RanConcat(ts, one, parent, start, cursor, begin, result.end);
        WroteMore(old(Now()), before, Now(), ts, one);
        ts := ts + one;
        cursor := result.end;
        if failure.Some? { return result, ts; }
      }
      r := Result(cursor, None);
    }

    /** One client span without a callee in the trace: a query or an external call. */
    method Leaf(failure: Option<Failure>, parent: Parent, begin: real) returns (r: Result, ghost ts: seq<Tree>)
      requires sink.Valid()
      requires failure.Some? && failure.value.durationMs.Some? ==> failure.value.durationMs.value >= 0.0
      modifies this, sink
      ensures sink.Valid() && Wrote(old(Now()), Now(), ts)
      ensures Ran(ts, parent, begin, r.end) && r.failed == LastFailing(ts)
      ensures r.failed == if failure.Some? then Some(Failed(failure.value, parent.resource.service)) else None
      ensures |ts| == 1 && TracedLeaf(failure.Some?, ts[0])
    {
      hide Wrote, Ran, WellFormed, Failing, LastFailing, RequestsOf, OrdersOf, ErrorIds, TracedAll;
      var latency := Latency();
      var end := begin + (if failure.Some? && failure.value.durationMs.Some? then failure.value.durationMs.value else latency);
      var spanId := FreshId();
      var span := Span(spanId, Some(parent.id), parent.resource, Client, begin, end, failure.Some?, failure);
      ghost var ran := Now();
      WroteNothing(ran);
      Emit(span);
      if failure.Some? { LogFor(parent.resource, ERROR, spanId); }
      r := Result(end, if failure.Some? then Some(Failed(failure.value, parent.resource.service)) else None);
      ghost var t := Node(span, failure.Some?, []);
      ts := [t];
      LeafNode(span);
      WroteNode(old(Now()), ran, t);
      RanOne(t, parent, begin, end);
    }

    method External(op: Op, parent: Parent, start: real) returns (r: Result, ghost ts: seq<Tree>)
      requires op.ExternalOp?
      requires sink.Valid()
      modifies this, sink
      ensures sink.Valid() && Wrote(old(Now()), Now(), ts)
      ensures Ran(ts, parent, start, r.end) && r.failed == LastFailing(ts)
      ensures Traced(op, ts)
      decreases op, 0
    {
      hide Wrote, Ran, LastFailing, TracedAll;
      var failure := FailRule(op.fails);
      r, ts := Leaf(failure, parent, start);
    }

    method RunInternal(op: Op, parent: Parent, start: real) returns (r: Result, ghost ts: seq<Tree>)
      requires op.InternalOp?
      requires sink.Valid()
      modifies this, sink
      ensures sink.Valid() && Wrote(old(Now()), Now(), ts)
      ensures Ran(ts, parent, start, r.end) && r.failed == LastFailing(ts)
      ensures Traced(op, ts)
      decreases op, 1
    {
      hide Wrote, Ran, WellFormed, Failing, LastFailing, RequestsOf, OrdersOf, ErrorIds, TracedAll;
      var spanId := FreshId();
      var self := Latency();
      ghost var below;
      var inner;
      inner, below := Children(op.children, Parent(spanId, parent.resource), start + self * 0.5);
      var end := inner.end + self * 0.5;
      var span := Span(spanId, Some(parent.id), parent.resource, Internal, start, end, inner.failed.Some?, None);
      ghost var ran := Now();
      Emit(span);
      r := Result(end, inner.failed);
      ghost var t := Node(span, false, below);
      ts := [t];
      RanWidened(below, Parent(spanId, parent.resource), start + self * 0.5, inner.end, start, end);
      InternalNode(span, below, start, end);
      WroteNode(old(Now()), ran, t);
      RanOne(t, parent, start, end);
    }

    /** Emits a producer and, below it, what the consumer does with the message; answers the producer's
        end, and no failure whatever happened below. */
    method Publish(op: Op, parent: Parent, start: real) returns (r: Result, ghost ts: seq<Tree>)
      requires op.PublishOp?
      requires sink.Valid()
      modifies this, sink
      ensures sink.Valid() && Wrote(old(Now()), Now(), ts)
      ensures Ran(ts, parent, start, r.end) && r.failed == LastFailing(ts) && r.failed == None
      ensures Traced(op, ts)
      decreases op, 1
    {
      hide Wrote, Ran, WellFormed, Failing, LastFailing, RequestsOf, OrdersOf, ErrorIds, TracedAll;
      var spanId := FreshId();
      var sending := Latency();
      var end := start + sending;
      var span := Span(spanId, Some(parent.id), parent.resource, Producer, start, end, false, None);
      Emit(span);
      var lag := Latency();
      ghost var consumed := Consume(op.consumer, spanId, end + lag);
      r := Result(end, None);
      ghost var t := Node(span, false, [consumed]);
      ts := [t];
      ProducerNode(span, consumed);
      WroteProducer(old(Now()), Now(), t);
      RanOne(t, parent, start, end);
    }

    method Consume(consumer: ConsumerOp, producer: nat, begin: real) returns (ghost t: Tree)
      requires sink.Valid()
      modifies this, sink
      ensures sink.Valid() && Wrote(old(Now()), Now(), [t])
      ensures WellFormed(t) && t.span.kind.Consumer? && t.span.parent == Some(producer) && t.span.start == begin
      ensures TracedConsumer(consumer, t)
      decreases consumer, 1
    {
      hide Wrote, Ran, WellFormed, Failing, LastFailing, RequestsOf, OrdersOf, ErrorIds, TracedAll;
      var resource := PodOf(consumer.service);
      var spanId := FreshId();
      var self := Latency();
      ghost var below;
      var inner;
      inner, below := Children(consumer.children, Parent(spanId, resource), begin + self * 0.4);
      var end := inner.end + self * 0.6;
      var recorded := RecordedFailure(consumer.service, inner.failed);
      var span := Span(spanId, Some(producer), resource, Consumer, begin, end, recorded.Some?, recorded);
      ghost var ran := Now();
      EmitConsumer(span, inner.failed.Some?);
      if inner.failed.None? { LogFor(resource, INFO, spanId); }
      t := Node(span, false, below);
      ConsumerNode(span, below, begin + self * 0.4, inner.end);
      WroteNode(old(Now()), ran, t);
    }

    /** One trace: its entry point runs as the root; an entry that is no server call emits nothing. */
    method Run(entry: Op, at: real) returns (r: Result, ghost ts: seq<Tree>)
      requires sink.Valid()
      modifies this, sink
      ensures sink.Valid() && Wrote(old(Now()), Now(), ts)
      ensures |ts| == (if entry.ServerOp? then 1 else 0)
      ensures ts == [] ==> r.failed.None?
      ensures forall t :: t in ts ==>
        WellFormed(t) && t.span.kind.Server? && t.span.parent.None? && t.span.start == at && r.failed == Failing(t)
      ensures forall t :: t in ts ==> TracedServer(entry, t)
    {
      hide Wrote, Ran, WellFormed, Failing, TracedServer;
      if !entry.ServerOp? {
        WroteNothing(Now());
        return Result(at, None), [];
      }
      var resource := PodOf(entry.service);
      ghost var t;
      r, t := Server(entry, resource, None, at);
      ts := [t];
    }
  }

  lemma ServerLasts(t: Tree)
    requires WellFormed(t)
    ensures t.span.start <= t.span.end
  {}
}
