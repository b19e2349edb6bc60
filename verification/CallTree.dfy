/** The call trees of the demo scenario (scripts/seed-demo/scenario.ts, `Op`) and which span trees
    belong to them: every call leaves its spans, in order, up to the first failure. */
module CallTree {
  import opened Trace
  import opened Wrappers

  /** A call in the scenario; `fails` says whether it has a failure rule, `repeats` whether a query
      may run any number of times instead of once. */
  datatype Op =
    | ServerOp(service: string, verb: string, route: string, children: seq<Op>, fails: bool)
    | DbOp(repeats: bool, fails: bool)
    | ExternalOp(fails: bool)
    | InternalOp(children: seq<Op>)
    | PublishOp(consumer: ConsumerOp)

  datatype ConsumerOp = ConsumerOp(service: string, children: seq<Op>)

  /** The spans under a caller that running `op` leaves. */
  ghost predicate Traced(op: Op, ts: seq<Tree>)
    decreases op, 2
  {
    match op
    case ServerOp(_, _, _, _, _) =>
      |ts| == 1 && ts[0].span.kind.Client? && |ts[0].children| == 1 && TracedServer(op, ts[0].children[0])
    case DbOp(repeats, fails) => (repeats || |ts| == 1) && forall t :: t in ts ==> TracedLeaf(fails, t)
    case ExternalOp(fails) => |ts| == 1 && TracedLeaf(fails, ts[0])
    case InternalOp(children) => |ts| == 1 && ts[0].span.kind.Internal? && TracedAll(children, ts[0].children)
    case PublishOp(consumer) =>
      |ts| == 1 && ts[0].span.kind.Producer? && |ts[0].children| == 1 && TracedConsumer(consumer, ts[0].children[0])
  }

  /** A query or an external call; only a rule makes it fail, and a timeout lasts as long as it says. */
  ghost predicate TracedLeaf(fails: bool, t: Tree) {
    var thrown := t.span.exception;
    && t.span.kind.Client? && t.children == [] && (thrown.Some? ==> fails)
    && (thrown.Some? && thrown.value.durationMs.Some? ==> t.span.end == t.span.start + thrown.value.durationMs.value)
  }

  ghost predicate TracedConsumer(consumer: ConsumerOp, t: Tree)
    decreases consumer, 1
  {
    t.span.kind.Consumer? && t.span.resource.service == consumer.service && TracedAll(consumer.children, t.children)
  }

  /** The server span of a call; only a failure rule, asked once its children succeeded, makes it throw. */
  ghost predicate TracedServer(op: Op, t: Tree)
    requires op.ServerOp?
    decreases op, 1
  {
    && t.span.kind.Server? && t.span.kind.verb == op.verb && t.span.kind.route == op.route
    && t.span.resource.service == op.service
    && TracedAll(op.children, t.children)
    && (LastFailing(t.children).None? && t.span.exception.Some? ==> op.fails)
  }

  /** Calls run one after the other; after one that failed none runs. */
  ghost predicate TracedAll(ops: seq<Op>, ts: seq<Tree>)
    decreases ops, 1
  {
    if ops == [] then ts == [] else exists cut: nat :: TracedTo(ops, ts, cut)
  }

  /** The last call's spans begin at `cut`. */
  ghost predicate TracedTo(ops: seq<Op>, ts: seq<Tree>, cut: nat)
    requires ops != []
    decreases ops, 0
  {
    && cut <= |ts| && TracedAll(ops[..|ops| - 1], ts[..cut])
    && if LastFailing(ts[..cut]).Some? then cut == |ts| else Traced(ops[|ops| - 1], ts[cut..])
  }

  lemma TracedNothing(ops: seq<Op>)
    ensures TracedAll(ops[..0], [])
  {}

  lemma TracedMore(ops: seq<Op>, op: Op, ts: seq<Tree>, more: seq<Tree>)
    requires TracedAll(ops, ts) && LastFailing(ts).None? && Traced(op, more)
    ensures TracedAll(ops + [op], ts + more)
  {
    hide Traced, LastFailing;
    assert (ops + [op])[..|ops + [op]| - 1] == ops;
    assert (ts + more)[..|ts|] == ts && (ts + more)[|ts|..] == more;
    assert TracedTo(ops + [op], ts + more, |ts|);
  }

  lemma {:induction false} TracedRest(ops: seq<Op>, j: nat, ts: seq<Tree>)
    requires j <= |ops| && TracedAll(ops[..j], ts) && LastFailing(ts).Some?
    ensures TracedAll(ops, ts)
    decreases |ops|
  {
    hide Traced, LastFailing;
    if j == |ops| {
      assert ops[..j] == ops;
    } else {
      assert ops[..|ops| - 1][..j] == ops[..j];
      TracedRest(ops[..|ops| - 1], j, ts);
      assert ts[..|ts|] == ts;
      assert TracedTo(ops, ts, |ts|);
    }
  }

  /** The trace of a service that calls itself belongs to a call tree, and its hops are as long as
      the shortest the simulator draws. */
  lemma SelfCallIsTraced()
    ensures TracedServer(ServerOp("shop", "GET", "/a", [ServerOp("shop", "GET", "/b", [], true)], false), SelfCallingTrace())
    ensures
      var call := SelfCallingTrace().children[0];
      var served := call.children[0].span;
      served.start - call.span.start >= 1.2 && call.span.end - served.end >= 1.2
  {
    var inner := ServerOp("shop", "GET", "/b", [], true);
    var t := SelfCallingTrace();
    assert TracedServer(inner, t.children[0].children[0]);
    assert [inner][..0] == [] && t.children[..0] == [] && t.children[0..] == t.children;
    assert LastFailing([]).None? && Traced(inner, t.children);
    assert TracedTo([inner], t.children, 0);
    SelfCallLogsOnce();
    assert LastFailing(t.children).Some? by { assert Failing(t.children[0].children[0]).Some?; }
  }

  // ------------------------------------------------------------ nothing lost without a failure

  datatype Call = Call(service: string, verb: string, route: string)

  /** The server calls of a call tree, each after those it makes. */
  function Calls(op: Op): seq<Call>
    decreases op
  {
    match op
    case ServerOp(service, verb, route, children, _) => AllCalls(children) + [Call(service, verb, route)]
    case DbOp(_, _) => []
    case ExternalOp(_) => []
    case InternalOp(children) => AllCalls(children)
    case PublishOp(consumer) => AllCalls(consumer.children)
  }

  function AllCalls(ops: seq<Op>): seq<Call>
    decreases ops
  {
    if ops == [] then [] else AllCalls(ops[..|ops| - 1]) + Calls(ops[|ops| - 1])
  }

  /** The calls that server spans answered, in order of emission. */
  function Answered(spans: seq<Span>): seq<Call> {
    if spans == [] then [] else
    var s := spans[|spans| - 1];
    Answered(spans[..|spans| - 1]) +
    (if s.kind.Server? then [Call(s.resource.service, s.kind.verb, s.kind.route)] else [])
  }

  ghost predicate Unfailed(spans: seq<Span>) { forall s :: s in spans ==> s.exception.None? }

  lemma {:induction false} AnsweredConcat(a: seq<Span>, b: seq<Span>)
    ensures Answered(a + b) == Answered(a) + Answered(b)
  {
    if b == [] {
      assert a + b == a;
    } else {
      assert (a + b)[..|a + b| - 1] == a + b[..|b| - 1];
      AnsweredConcat(a, b[..|b| - 1]);
    }
  }

  lemma AnsweredOne(s: Span)
    ensures Answered([s]) == if s.kind.Server? then [Call(s.resource.service, s.kind.verb, s.kind.route)] else []
  {
    assert [s][..0] == [];
  }

  /** A failure needs an exception on some span. */
  lemma {:induction false} FailureShows(t: Tree)
    requires Unfailed(Spans(t))
    ensures Failing(t).None?
    decreases t
  {
    assert t.span in Spans(t);
    if t.span.kind.Client? && t.children != [] {
      forall s | s in Spans(t.children[0]) ensures s.exception.None? { OwnedSpan(t.children, 0, s); }
      FailureShows(t.children[0]);
    } else if !t.span.kind.Producer? {
      AllFailuresShow(t.children);
    }
  }

  lemma {:induction false} AllFailuresShow(ts: seq<Tree>)
    requires Unfailed(AllSpans(ts))
    ensures LastFailing(ts).None?
    decreases ts
  {
    if ts != [] { FailureShows(ts[|ts| - 1]); }
  }

  /** When no span carries an exception, every server call of the call tree was answered exactly
      once, by the right service and route, in order. */
  lemma {:induction false} NothingIsLost(op: Op, ts: seq<Tree>)
    requires Traced(op, ts) && Unfailed(AllSpans(ts))
    ensures Answered(AllSpans(ts)) == Calls(op)
    decreases op, 1
  {
    match op
    case ServerOp(_, _, _, children, _) =>
      OneSpanTree(ts);
      ServerNotLost(op, ts[0].children[0]);
    case DbOp(_, _) => LeavesAnswerNothing(ts);
    case ExternalOp(_) => LeavesAnswerNothing(ts);
    case InternalOp(children) =>
      OneSpanTree(ts);
      AllNotLost(children, ts[0].children);
    case PublishOp(consumer) =>
      OneSpanTree(ts);
      OneSpanTree(ts[0].children);
      AllNotLost(consumer.children, ts[0].children[0].children);
  }

  lemma {:induction false} ServerNotLost(op: Op, t: Tree)
    requires op.ServerOp? && TracedServer(op, t) && Unfailed(Spans(t))
    ensures Answered(Spans(t)) == Calls(op)
    decreases op, 0
  {
    AnsweredConcat(AllSpans(t.children), [t.span]);
    AnsweredOne(t.span);
    AllNotLost(op.children, t.children);
  }

  lemma {:induction false} AllNotLost(ops: seq<Op>, ts: seq<Tree>)
    requires TracedAll(ops, ts) && Unfailed(AllSpans(ts))
    ensures Answered(AllSpans(ts)) == AllCalls(ops)
    decreases ops, 0
  {
    if ops != [] {
      var cut: nat :| TracedTo(ops, ts, cut);
      var a, b := ts[..cut], ts[cut..];
      assert ts == a + b;
      SpansConcat(a, b);
      AllFailuresShow(a);
      AllNotLost(ops[..|ops| - 1], a);
      NothingIsLost(ops[|ops| - 1], b);
      AnsweredConcat(AllSpans(a), AllSpans(b));
    }
  }

  lemma {:induction false} SpansConcat(a: seq<Tree>, b: seq<Tree>)
    ensures AllSpans(a + b) == AllSpans(a) + AllSpans(b)
  {
    hide Spans;
    if b == [] {
      assert a + b == a;
    } else {
      assert (a + b)[..|a + b| - 1] == a + b[..|b| - 1];
      SpansConcat(a, b[..|b| - 1]);
    }
  }

  /** One tree: its own span answers nothing unless it is a server. */
  lemma OneSpanTree(ts: seq<Tree>)
    requires |ts| == 1
    ensures AllSpans(ts) == Spans(ts[0])
    ensures !ts[0].span.kind.Server? ==> Answered(AllSpans(ts)) == Answered(AllSpans(ts[0].children))
    ensures |ts[0].children| == 1 ==> AllSpans(ts[0].children) == Spans(ts[0].children[0])
  {
    assert ts[..0] == [];
    var t := ts[0];
    if |t.children| == 1 { assert t.children[..0] == []; }
    AnsweredConcat(AllSpans(t.children), [t.span]);
    AnsweredConcat([t.span], AllSpans(t.children));
    AnsweredOne(t.span);
  }

  lemma {:induction false} LeavesAnswerNothing(ts: seq<Tree>)
    requires forall t :: t in ts ==> t.span.kind.Client? && t.children == []
    ensures Answered(AllSpans(ts)) == []
  {
    if ts != [] {
      var t := ts[|ts| - 1];
      LeavesAnswerNothing(ts[..|ts| - 1]);
      AnsweredConcat(AllSpans(ts[..|ts| - 1]), Spans(t));
      AnsweredOne(t.span);
      assert Spans(t) == [t.span];
    }
  }
}
