/** The trace a call tree leaves behind (scripts/seed-demo/telemetry.ts): which spans exist, how
    they nest in time, and what a failure writes on its way up. Trees are what the interpreter
    in TraceBuilder produces; the lemmas here hold of every such tree. */
module Trace {
  import opened Wrappers

  datatype Failure = Failure(kind: string, message: string, durationMs: Option<real>)

  /** A failure on its way up: what was thrown, and the service a caller saw fail. */
  datatype Failed = Failed(failure: Failure, service: string)

  datatype Resource = Resource(key: string, service: string)

  datatype Kind =
    | Server(verb: string, route: string, status: nat)
    | Client
    | Internal
    | Producer
    | Consumer

  datatype Span = Span(
    id: nat, parent: Option<nat>, resource: Resource, kind: Kind,
    start: real, end: real, error: bool, exception: Option<Failure>)

  /** A span, whether it logged an ERROR, and the spans it is the parent of. */
  datatype Tree = Node(span: Span, logged: bool, children: seq<Tree>)

  /** The parent of an operation's spans. */
  datatype Parent = Parent(id: nat, resource: Resource)

  datatype Result = Result(end: real, failed: Option<Failed>)

  // ------------------------------------------------------------ what a handler records

  function UpstreamError(callee: string): Failure {
    Failure("UpstreamError", callee + " returned 500", None)
  }

  /** The thrown exception in the throwing service, an UpstreamError naming the callee above it. */
  function RecordedFailure(service: string, failed: Option<Failed>): Option<Failure> {
    match failed
    case None => None
    case Some(f) => if f.service == service then Some(f.failure) else Some(UpstreamError(f.service))
  }

  // ------------------------------------------------------------ spans in the order they are emitted

  /** A producer is emitted before its consumer, every other span after its children. */
  function Spans(t: Tree): seq<Span>
    decreases t
  {
    if t.span.kind.Producer? then [t.span] + AllSpans(t.children) else AllSpans(t.children) + [t.span]
  }

  function AllSpans(ts: seq<Tree>): seq<Span>
    decreases ts
  {
    if ts == [] then [] else AllSpans(ts[..|ts| - 1]) + Spans(ts[|ts| - 1])
  }

  /** The spans that logged an ERROR, in order. */
  function ErrorLogs(t: Tree): seq<nat>
    decreases t
  {
    AllErrorLogs(t.children) + (if t.logged then [t.span.id] else [])
  }

  function AllErrorLogs(ts: seq<Tree>): seq<nat>
    decreases ts
  {
    if ts == [] then [] else AllErrorLogs(ts[..|ts| - 1]) + ErrorLogs(ts[|ts| - 1])
  }

  // ------------------------------------------------------------ what a caller sees

  /** The failure a span's caller sees; a producer hides what its consumer does. */
  function Failing(t: Tree): Option<Failed>
    decreases t
  {
    match t.span.kind
    case Client =>
      if t.children != [] then
        var served := Failing(t.children[0]);
        if served.Some? then Some(Failed(served.value.failure, t.children[0].span.resource.service)) else None
      else if t.span.exception.Some? then Some(Failed(t.span.exception.value, t.span.resource.service)) else None
    case Server(_, _, _) =>
      var inner := LastFailing(t.children);
      if inner.Some? || t.span.exception.None? then inner
      else Some(Failed(t.span.exception.value, t.span.resource.service))
    case Producer => None
    case _ => LastFailing(t.children)
  }

  /** Siblings run in order and stop at a failure, so only the last can fail. */
  function LastFailing(ts: seq<Tree>): Option<Failed>
    decreases ts
  {
    if ts == [] then None else Failing(ts[|ts| - 1])
  }

  // ------------------------------------------------------------ well-formed traces

  /** Siblings follow each other between `lo` and `hi` without overlapping. */
  ghost predicate InOrder(ts: seq<Tree>, lo: real, hi: real) {
    if ts == [] then lo <= hi else
    var last := ts[|ts| - 1].span;
    InOrder(ts[..|ts| - 1], lo, last.start) && last.start <= last.end <= hi
  }

  /** What running operations under `parent` from `lo` to `hi` leaves behind. */
  ghost predicate Ran(ts: seq<Tree>, parent: Parent, lo: real, hi: real)
    decreases ts
  {
    && InOrder(ts, lo, hi)
    && (forall k :: 0 <= k < |ts| ==>
          && WellFormed(ts[k])
          && ts[k].span.parent == Some(parent.id)
          && ts[k].span.resource == parent.resource
          && (ts[k].span.kind.Client? || ts[k].span.kind.Internal? || ts[k].span.kind.Producer?))
    && (forall k :: 0 <= k < |ts| - 1 ==> Failing(ts[k]).None?)
  }

  /** What a span records of a failure: its exception, its status, and whether it logs. */
  ghost predicate Recorded(t: Tree) {
    var s, inner := t.span, LastFailing(t.children);
    var service := s.resource.service;
    match s.kind
    case Server(_, _, status) =>
      && (inner.Some? ==> s.exception == RecordedFailure(service, inner))
      && s.error == s.exception.Some?
      && status == (if Failing(t).Some? then 500 else 200)
      && t.logged == (if inner.Some? then inner.value.service != service else s.exception.Some?)
    case Client =>
      && s.error == t.logged == s.exception.Some?
      && (t.children != [] ==> s.exception.None?)
    case Internal => s.error == inner.Some? && !t.logged && s.exception.None?
    case Producer => !s.error && !t.logged && s.exception.None?
    case Consumer => s.exception == RecordedFailure(service, inner) && s.error == s.exception.Some? && !t.logged
  }

  /** A server span inside the client span that called it. */
  predicate Served(call: Span, served: Span) {
    && served.kind.Server? && served.parent == Some(call.id)
    && call.start <= served.start && served.end <= call.end
  }

  /** A consumer span started once its producer is done. */
  predicate Delivered(sent: Span, consumed: Span) {
    consumed.kind.Consumer? && consumed.parent == Some(sent.id) && sent.end <= consumed.start
  }

  ghost predicate WellFormed(t: Tree)
    decreases t
  {
    var s := t.span;
    && s.start <= s.end && Recorded(t)
    && match s.kind
       case Client =>
         t.children == [] || (|t.children| == 1 && WellFormed(t.children[0]) && Served(s, t.children[0].span))
       case Producer =>
         |t.children| == 1 && WellFormed(t.children[0]) && Delivered(s, t.children[0].span)
       case _ => Ran(t.children, Parent(s.id, s.resource), s.start, s.end)
  }

  // ------------------------------------------------------------ one tree, nested in time

  /** How a span sits under its parent: inside it, or, for a consumer, after its producer. */
  ghost predicate Nested(s: Span, p: Span) {
    && s.parent == Some(p.id)
    && (if s.kind.Consumer? then p.kind.Producer? && p.end <= s.start
        else p.start <= s.start && s.end <= p.end)
    && s.start <= s.end
  }

  lemma {:induction false} InOrderBounds(ts: seq<Tree>, lo: real, hi: real, k: nat)
    requires InOrder(ts, lo, hi) && k < |ts|
    ensures lo <= ts[k].span.start <= ts[k].span.end <= hi
  {
    if k < |ts| - 1 { InOrderBounds(ts[..|ts| - 1], lo, ts[|ts| - 1].span.start, k); }
    else { InOrderStart(ts[..|ts| - 1], lo, ts[|ts| - 1].span.start); }
  }

  lemma {:induction false} InOrderStart(ts: seq<Tree>, lo: real, hi: real)
    requires InOrder(ts, lo, hi)
    ensures lo <= hi
  {
    if ts != [] { InOrderStart(ts[..|ts| - 1], lo, ts[|ts| - 1].span.start); }
  }

  lemma {:induction false} SpanOwner(ts: seq<Tree>, s: Span) returns (k: nat)
    requires s in AllSpans(ts)
    ensures k < |ts| && s in Spans(ts[k])
  {
    k := |ts| - 1;
    if s !in Spans(ts[k]) { k := SpanOwner(ts[..k], s); }
  }

  lemma {:induction false} OwnedSpan(ts: seq<Tree>, k: nat, s: Span)
    requires k < |ts| && s in Spans(ts[k])
    ensures s in AllSpans(ts)
  {
    if k < |ts| - 1 { OwnedSpan(ts[..|ts| - 1], k, s); }
  }

  /** Siblings do not overlap. */
  lemma {:induction false} SiblingsDoNotOverlap(ts: seq<Tree>, lo: real, hi: real, i: nat, j: nat)
    requires InOrder(ts, lo, hi) && i < j < |ts|
    ensures ts[i].span.end <= ts[j].span.start
  {
    var front := ts[..|ts| - 1];
    if j == |ts| - 1 { InOrderBounds(front, lo, ts[j].span.start, i); }
    else { SiblingsDoNotOverlap(front, lo, ts[|ts| - 1].span.start, i, j); }
  }

  lemma RanChild(ts: seq<Tree>, parent: Parent, lo: real, hi: real, k: nat)
    requires Ran(ts, parent, lo, hi) && k < |ts|
    ensures WellFormed(ts[k]) && ts[k].span.parent == Some(parent.id) && ts[k].span.resource == parent.resource
    ensures !ts[k].span.kind.Consumer? && !ts[k].span.kind.Server?
    ensures lo <= ts[k].span.start <= ts[k].span.end <= hi
  {
    hide WellFormed, Failing;
    InOrderBounds(ts, lo, hi, k);
  }

  /** Each child of a well-formed node is well-formed and nested under it. */
  lemma ChildNested(t: Tree, k: nat)
    requires WellFormed(t) && k < |t.children|
    ensures WellFormed(t.children[k]) && Nested(t.children[k].span, t.span)
  {
    hide Ran, Recorded;
    if t.span.kind.Client? || t.span.kind.Producer? {
      assert k == 0;
    } else {
      RanChild(t.children, Parent(t.span.id, t.span.resource), t.span.start, t.span.end, k);
    }
  }

  /** Every span of a trace but its root sits under another span of the trace. */
  lemma {:induction false} EverySpanHasItsParent(t: Tree, s: Span) returns (p: Span)
    requires WellFormed(t) && s in Spans(t) && s != t.span
    ensures p in Spans(t) && s.parent == Some(p.id) && s.start <= s.end
    ensures if s.kind.Consumer? then p.kind.Producer? && p.end <= s.start else p.start <= s.start && s.end <= p.end
    decreases t
  {
    hide WellFormed;
    var k := SpanOwner(t.children, s);
    ChildNested(t, k);
    p := t.span;
    if s != t.children[k].span {
      p := EverySpanHasItsParent(t.children[k], s);
      OwnedSpan(t.children, k, p);
    }
  }

  /** A trace has one root: no other span is without a parent. */
  lemma SingleRoot(t: Tree, s: Span)
    requires WellFormed(t) && s in Spans(t) && s.parent.None?
    ensures s == t.span
  {
    if s != t.span { var p := EverySpanHasItsParent(t, s); }
  }

  // ------------------------------------------------------------ failures

  /** How many exceptions were thrown below `t` by work its caller waits for. */
  function Throws(t: Tree): nat
    decreases t
  {
    match t.span.kind
    case Client => if t.children == [] then (if t.span.exception.Some? then 1 else 0) else AllThrows(t.children)
    case Server(_, _, _) =>
      AllThrows(t.children) + (if LastFailing(t.children).None? && t.span.exception.Some? then 1 else 0)
    case Producer => 0
    case _ => AllThrows(t.children)
  }

  function AllThrows(ts: seq<Tree>): nat
    decreases ts
  {
    if ts == [] then 0 else AllThrows(ts[..|ts| - 1]) + Throws(ts[|ts| - 1])
  }

  /** How many ERRORs that work logged. */
  function SyncLogs(t: Tree): nat
    decreases t
  {
    if t.span.kind.Producer? then 0 else AllSyncLogs(t.children) + (if t.logged then 1 else 0)
  }

  function AllSyncLogs(ts: seq<Tree>): nat
    decreases ts
  {
    if ts == [] then 0 else AllSyncLogs(ts[..|ts| - 1]) + SyncLogs(ts[|ts| - 1])
  }

  /** The server spans a failure passed through, outermost first. */
  function FailurePath(t: Tree): seq<Span>
    decreases t
  {
    match t.span.kind
    case Server(_, _, _) => [t.span] + LastPath(t.children)
    case Producer => []
    case _ => LastPath(t.children)
  }

  function LastPath(ts: seq<Tree>): seq<Span>
    decreases ts
  {
    if LastFailing(ts).None? then [] else FailurePath(ts[|ts| - 1])
  }

  /** How many times the service changes along a path: the service boundaries crossed. */
  function Boundaries(path: seq<Span>): nat {
    if |path| < 2 then 0
    else Boundaries(path[1..]) + (if path[0].resource.service != path[1].resource.service then 1 else 0)
  }

  /** At most one exception is thrown, and a failure is what came of it. */
  lemma {:induction false} ThrowsOnce(t: Tree)
    requires WellFormed(t)
    ensures Throws(t) == if t.span.kind.Consumer? then AllThrows(t.children) else if Failing(t).Some? then 1 else 0
    ensures SyncLogs(t) > 0 ==> Failing(t).Some?
    decreases t
  {
    if t.span.kind.Client? {
      if t.children != [] {
        ThrowsOnce(t.children[0]);
        assert AllSyncLogs(t.children) == AllSyncLogs([]) + SyncLogs(t.children[0]);
      }
    } else if !t.span.kind.Producer? {
      RanThrowsOnce(t.children, Parent(t.span.id, t.span.resource), t.span.start, t.span.end);
    }
  }

  lemma {:induction false} RanThrowsOnce(ts: seq<Tree>, parent: Parent, lo: real, hi: real)
    requires Ran(ts, parent, lo, hi)
    ensures AllThrows(ts) == if LastFailing(ts).Some? then 1 else 0
    ensures AllSyncLogs(ts) > 0 ==> LastFailing(ts).Some?
    decreases ts
  {
    if ts != [] {
      var front, last := ts[..|ts| - 1], ts[|ts| - 1];
      RanThrowsOnce(front, parent, lo, last.span.start);
      ThrowsOnce(last);
    }
  }

  function PathService(t: Tree): string {
    if FailurePath(t) == [] then t.span.resource.service else FailurePath(t)[0].resource.service
  }

  /** The service a caller sees fail is the outermost on the failure's path, or the caller's own. */
  lemma {:induction false} SeenService(t: Tree)
    requires WellFormed(t) && !t.span.kind.Consumer? && Failing(t).Some?
    ensures t.span.kind.Server? ==> FailurePath(t) != [] && FailurePath(t)[0] == t.span
    ensures !t.span.kind.Server? ==> Failing(t).value.service == PathService(t)
    decreases t
  {
    if t.span.kind.Client? && t.children != [] {
      SeenService(t.children[0]);
      assert FailurePath(t) == FailurePath(t.children[0]);
    } else if t.span.kind.Internal? {
      RanChild(t.children, Parent(t.span.id, t.span.resource), t.span.start, t.span.end, |t.children| - 1);
      var last := t.children[|t.children| - 1];
      SeenService(last);
      assert FailurePath(t) == FailurePath(last);
    }
  }

  /** The server span at `i` on a failure's path records the thrown exception if it threw it, or
      its callee on the path is its own service; otherwise an UpstreamError naming that callee. */
  ghost predicate RecordsAt(path: seq<Span>, i: nat, thrown: Failure)
    requires i < |path|
  {
    path[i].exception == Some(
      if i + 1 == |path| || path[i + 1].resource.service == path[i].resource.service then thrown
      else UpstreamError(path[i + 1].resource.service))
  }

  /** The whole account of one failure: one ERROR for the throw and one for every service boundary
      it crosses, and the right exception on every server span it passes. */
  lemma {:induction false} FailureAccount(t: Tree)
    requires WellFormed(t) && !t.span.kind.Consumer? && Failing(t).Some?
    ensures SyncLogs(t) == 1 + Boundaries(FailurePath(t))
    ensures forall i :: 0 <= i < |FailurePath(t)| ==> RecordsAt(FailurePath(t), i, Failing(t).value.failure)
    decreases t
  {
    var path := FailurePath(t);
    if LastFailing(t.children).None? {
      if !t.span.kind.Client? { RanThrowsOnce(t.children, Parent(t.span.id, t.span.resource), t.span.start, t.span.end); }
    } else {
      var c := t.children[|t.children| - 1];
      if !t.span.kind.Client? { FailedChild(t); }
      FailureAccount(c);
      SeenService(c);
      if t.span.kind.Client? {
        assert AllSyncLogs(t.children) == AllSyncLogs([]) + SyncLogs(c);
      } else if t.span.kind.Server? {
        assert path[1..] == FailurePath(c);
        forall i | 0 <= i < |path| ensures RecordsAt(path, i, Failing(t).value.failure) {
          if i > 0 { assert RecordsAt(FailurePath(c), i - 1, Failing(c).value.failure); }
        }
      }
    }
  }

  lemma FailedChild(t: Tree)
    requires WellFormed(t) && !t.span.kind.Client? && !t.span.kind.Producer? && LastFailing(t.children).Some?
    ensures
      var c := t.children[|t.children| - 1];
      && WellFormed(c) && !c.span.kind.Consumer? && !c.span.kind.Server? && c.span.resource == t.span.resource
      && Failing(c).Some? && AllSyncLogs(t.children) == SyncLogs(c)
  {
    var n := |t.children| - 1;
    RanChild(t.children, Parent(t.span.id, t.span.resource), t.span.start, t.span.end, n);
    RanThrowsOnce(t.children[..n], Parent(t.span.id, t.span.resource), t.span.start, t.children[n].span.start);
  }

  predicate NoSelfCall(path: seq<Span>) {
    forall i :: 0 <= i < |path| - 1 ==> path[i].resource.service != path[i + 1].resource.service
  }

  /** A path crosses a boundary at every step exactly when no service on it calls itself. */
  lemma {:induction false} BoundariesAtEveryStep(path: seq<Span>)
    ensures Boundaries(path) + 1 == |path| <==> path != [] && NoSelfCall(path)
    ensures path != [] ==> Boundaries(path) < |path|
  {
    if |path| >= 2 {
      BoundariesAtEveryStep(path[1..]);
      if NoSelfCall(path) {
        forall i | 0 <= i < |path[1..]| - 1
          ensures path[1..][i].resource.service != path[1..][i + 1].resource.service
        {
          assert path[1..][i] == path[i + 1] && path[1..][i + 1] == path[i + 2];
        }
      }
    }
  }

  /** A failure logs one ERROR per server span it passes exactly when it passes one at all and no
      service on its way calls itself; otherwise, having passed one, it logs fewer. */
  lemma OneLogPerServer(t: Tree)
    requires WellFormed(t) && !t.span.kind.Consumer? && Failing(t).Some?
    ensures SyncLogs(t) == |FailurePath(t)| <==> FailurePath(t) != [] && NoSelfCall(FailurePath(t))
    ensures FailurePath(t) != [] ==> SyncLogs(t) <= |FailurePath(t)|
  {
    hide WellFormed, Failing;
    FailureAccount(t);
    BoundariesAtEveryStep(FailurePath(t));
  }

  /** Two pods of one service, the second called by the first and throwing. */
  function SelfCallingTrace(): Tree {
    var thrown := Some(Failure("PoolTimeout", "no connection", None));
    var outer, inner := Resource("shop-1", "shop"), Resource("shop-2", "shop");
    var served := Node(Span(2, Some(1), inner, Server("GET", "/b", 500), 3.0, 5.0, true, thrown), true, []);
    var call := Node(Span(1, Some(0), outer, Client, 1.0, 8.0, false, None), false, [served]);
    Node(Span(0, None, outer, Server("GET", "/a", 500), 0.0, 10.0, true, thrown), false, [call])
  }

  /** It fails in both server spans and logs once. */
  lemma SelfCallLogsOnce()
    ensures WellFormed(SelfCallingTrace()) && Failing(SelfCallingTrace()).Some?
    ensures SyncLogs(SelfCallingTrace()) == 1 && |FailurePath(SelfCallingTrace())| == 2
  {
    var t := SelfCallingTrace();
    var call := t.children[0];
    var served := call.children[0];
    assert LastFailing([]).None? && InOrder([], 3.0, 5.0);
    assert Ran(served.children, Parent(2, served.span.resource), 3.0, 5.0);
    assert WellFormed(served) && Failing(served) == Some(Failed(served.span.exception.value, "shop"));
    assert WellFormed(call) && Failing(call) == Failing(served);
    assert t.children == [call] && [call][..0] == [];
    assert InOrder([], 0.0, 1.0) && InOrder([call], 0.0, 10.0);
    assert LastFailing(t.children) == Failing(call);
    assert Ran(t.children, Parent(0, t.span.resource), 0.0, 10.0);
    FailureAccount(t);
    assert FailurePath(served) == [served.span];
    assert LastPath(call.children) == FailurePath(served) && LastPath(t.children) == FailurePath(call);
    assert FailurePath(t) == [t.span, served.span];
    assert Boundaries(FailurePath(t)[1..]) == 0;
  }

  /** A trace that fails throws exactly once, and one that does not fail logs no ERROR of its own. */
  lemma TraceFailsOnce(t: Tree)
    requires WellFormed(t) && t.span.kind.Server?
    ensures Throws(t) == if Failing(t).Some? then 1 else 0
    ensures Failing(t).None? <==> SyncLogs(t) == 0
    ensures Failing(t).Some? <==> t.span.error
  {
    ThrowsOnce(t);
    if Failing(t).Some? { FailureAccount(t); }
  }
}
