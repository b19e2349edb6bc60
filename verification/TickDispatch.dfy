/** The placed-tick hop (apps/alerting/src/tick-dispatch.ts, apps/alerting/src/worker.ts): a cron
    fire hands each lane to a second invocation over a service binding, and runs inline only what
    certainly did not run there. Both invocations may be killed at any point. */
module TickDispatch {
  import opened Wrappers

  // ------------------------------------------------------------ the schedule and the gate

  /** A fire holds one outbound connection per lane, and may hold six. */
  function LanesOf(cron: string): (r: Option<seq<string>>)
    ensures r.Some? ==> |r.value| <= 6
  {
    if cron == "* * * * *" then Some(["alert", "alert_long_query", "error", "escalation", "supabase_logs"])
    else if cron == "*/5 * * * *" then
      Some(["anomaly", "cloudflare_analytics", "gcp_metrics", "planetscale", "railway_metrics", "pr_review_post_merge"])
    else if cron == "*/15 * * * *" then Some(["digest", "supabase_insights"])
    else if cron == "0 * * * *" then Some(["service_map_rollup", "supabase_discovery", "aws_connections"])
    else None
  }

  predicate IsLaneOf(cron: string, lane: string) { LanesOf(cron).Some? && lane in LanesOf(cron).value }

  /** Every lane is on one schedule only. */
  lemma LaneHasOneCron(a: string, b: string, lane: string)
    requires IsLaneOf(a, lane) && IsLaneOf(b, lane)
    ensures a == b
  {}

  datatype Env = Env(environment: Option<string>, allowNonProd: Option<string>, binding: bool, token: Option<string>)

  predicate GateOpen(env: Env) {
    env.environment == Some("production") || env.allowNonProd in {Some("1"), Some("true")}
  }

  /** The lanes a fire dispatches. */
  function FiredLanes(env: Env, cron: string): seq<string> {
    if GateOpen(env) && LanesOf(cron).Some? then LanesOf(cron).value else []
  }

  // ------------------------------------------------------------ answers and refusals

  datatype Answer = Status(code: nat) | Thrown

  datatype Reason = NoBinding | NoToken | Refused401 | Refused404

  datatype Dispatch = Placed | Unavailable(reason: Reason) | Failed

  /** What an answer to the hop means to the caller. */
  function Classify(a: Answer): Dispatch {
    match a
    case Thrown => Failed
    case Status(code) =>
      if code == 204 then Placed
      else if code == 401 then Unavailable(Refused401)
      else if code == 404 then Unavailable(Refused404)
      else Failed
  }

  datatype Request = Request(post: bool, path: string, bearer: Option<string>, cron: Option<string>, lane: Option<string>)

  const TICK_PATH := "/internal/tick"

  datatype Verdict = Accepted(cron: string, lane: string) | Refused(status: nat)

  /** Whether the placed handler runs a request, decided before anything runs. */
  function Authorize(r: Request, env: Env): (v: Verdict)
    ensures v.Refused? ==> v.status in {400, 401, 404}
    ensures v == Refused(404) <==> !(r.post && r.path == TICK_PATH)
    ensures v == Refused(401) <==> r.post && r.path == TICK_PATH && !(env.token.Some? && r.bearer == env.token)
    ensures v.Accepted? ==> IsLaneOf(v.cron, v.lane) && env.token.Some? && r.bearer == env.token
  {
    if !r.post || r.path != TICK_PATH then Refused(404)
    else if env.token.None? || r.bearer != env.token then Refused(401)
    else if r.cron.None? || r.lane.None? || !IsLaneOf(r.cron.value, r.lane.value) then Refused(400)
    else Accepted(r.cron.value, r.lane.value)
  }

  /** The request the caller sends. */
  function RequestFor(cron: string, lane: string, token: string): Request {
    Request(true, TICK_PATH, Some(token), Some(cron), Some(lane))
  }

  /** Exactly the requests a dispatcher with the handler's own token sends for a scheduled lane are
      accepted, each for its own cron and lane. */
  lemma AcceptsExactlyDispatches(r: Request, env: Env, cron: string, lane: string)
    ensures Authorize(r, env) == Accepted(cron, lane) <==>
      IsLaneOf(cron, lane) && env.token.Some? && r == RequestFor(cron, lane, env.token.value)
  {
    hide LanesOf;
  }

  /** A lane of its own cron, sent by a caller that shares the callee's token, is never refused;
      any other token is refused as unauthorized, which the caller may run inline. */
  lemma OwnLaneIsAccepted(cron: string, lane: string, caller: Env, callee: Env)
    requires lane in FiredLanes(caller, cron) && caller.token.Some?
    ensures Authorize(RequestFor(cron, lane, caller.token.value), callee) ==
      if callee.token == caller.token then Accepted(cron, lane) else Refused(401)
  {}

  /** The version of the Worker that a hop reaches: its configuration, and whether it has the route. */
  datatype Handler = Handler(env: Env, routed: bool)

  function Respond(h: Handler, r: Request): Verdict { if h.routed then Authorize(r, h.env) else Refused(404) }

  // ------------------------------------------------------------ one fire as a transition system

  datatype Caller = Waiting | InFlight | Settled(d: Dispatch)

  /** The placed invocation of a lane; a killed one may or may not have started the lane's body. */
  datatype Callee = Absent | Requested(handler: Handler) | Declined(status: nat) | Running | Finished | Killed(started: bool)

  datatype Lane = Lane(caller: Caller, callee: Callee, placedRuns: nat, inlineRuns: nat)

  datatype State = State(cron: string, env: Env, lanes: map<string, Lane>, inlineNow: set<string>, callerAlive: bool)

  ghost predicate Init(s: State, cron: string) {
    && s.cron == cron && s.lanes.Keys == (set l | l in FiredLanes(s.env, cron))
    && (forall l :: l in s.lanes ==> s.lanes[l] == Lane(Waiting, Absent, 0, 0))
    && s.inlineNow == {} && s.callerAlive
  }

  predicate AllSettled(s: State) { forall l :: l in s.lanes ==> s.lanes[l].caller.Settled? }

  datatype Step =
    | NoHop(lane: string)
    | Send(lane: string, handler: Handler)
    | Decline(lane: string)
    | Start(lane: string)
    | Finish(lane: string)
    | KillCallee(lane: string)
    | Receive(lane: string, answer: Answer)
    | BeginInline(lane: string)
    | EndInline(lane: string)
    | KillCaller

  /** The answers a caller can see for a callee: its own once it is done, an error page once it is
      killed, and a thrown fetch at any time, even while the callee goes on. */
  predicate CanAnswer(callee: Callee, a: Answer) {
    || a.Thrown?
    || (callee.Finished? && a == Status(204))
    || (callee.Declined? && a == Status(callee.status))
    || (callee.Killed? && a.Status? && a.code !in {204, 401, 404})
  }

  /** What the handler that was reached makes of a lane's request. */
  function VerdictOn(s: State, l: string): Verdict
    requires l in s.lanes && s.lanes[l].callee.Requested? && s.env.token.Some?
  {
    Respond(s.lanes[l].callee.handler, RequestFor(s.cron, l, s.env.token.value))
  }

  predicate Enabled(s: State, step: Step) {
    if step.KillCaller? then s.callerAlive
    else step.lane in s.lanes && LaneEnabled(s, step.lane, step)
  }

  predicate IsUnavailable(lane: Lane) { lane.caller.Settled? && lane.caller.d.Unavailable? }

  predicate LaneEnabled(s: State, l: string, step: Step)
    requires l in s.lanes
  {
    var lane := s.lanes[l];
    match step
    case NoHop(_) => s.callerAlive && lane.caller.Waiting? && (!s.env.binding || s.env.token.None?)
    case Send(_, _) => s.callerAlive && lane.caller.Waiting? && s.env.binding && s.env.token.Some?
    case Decline(_) => lane.callee.Requested? && s.env.token.Some? && VerdictOn(s, l).Refused?
    case Start(_) => lane.callee.Requested? && s.env.token.Some? && VerdictOn(s, l) == Accepted(s.cron, l)
    case Finish(_) => lane.callee.Running?
    case KillCallee(_) => lane.callee.Requested? || lane.callee.Running?
    case Receive(_, a) => s.callerAlive && lane.caller.InFlight? && CanAnswer(lane.callee, a)
    case BeginInline(_) =>
      s.callerAlive && AllSettled(s) && s.inlineNow == {} && IsUnavailable(lane) && lane.inlineRuns == 0
    case EndInline(_) => s.callerAlive && l in s.inlineNow
    case KillCaller => false
  }

  function After(s: State, step: Step): State
    requires Enabled(s, step)
  {
    match step
    case KillCaller => s.(callerAlive := false, inlineNow := {})
    case BeginInline(l) =>
      s.(inlineNow := {l}, lanes := s.lanes[l := s.lanes[l].(inlineRuns := s.lanes[l].inlineRuns + 1)])
    case EndInline(l) => s.(inlineNow := s.inlineNow - {l})
    case _ => s.(lanes := s.lanes[step.lane := LaneAfter(s, step.lane, step)])
  }

  function LaneAfter(s: State, l: string, step: Step): Lane
    requires l in s.lanes && LaneEnabled(s, l, step)
  {
    var lane := s.lanes[l];
    match step
    case NoHop(_) => lane.(caller := Settled(Unavailable(if !s.env.binding then NoBinding else NoToken)))
    case Send(_, handler) => lane.(caller := InFlight, callee := Requested(handler))
    case Decline(_) => lane.(callee := Declined(VerdictOn(s, l).status))
    case Start(_) => lane.(callee := Running, placedRuns := lane.placedRuns + 1)
    case Finish(_) => lane.(callee := Finished)
    case KillCallee(_) => lane.(callee := Killed(lane.callee.Running?))
    case Receive(_, a) => lane.(caller := Settled(Classify(a)))
    case _ => lane
  }

  /** Every run of one fire, whatever the interleaving. */
  ghost predicate IsRun(cron: string, states: seq<State>, steps: seq<Step>) {
    && |states| == |steps| + 1 && Init(states[0], cron)
    && forall i :: 0 <= i < |steps| ==> Enabled(states[i], steps[i]) && states[i + 1] == After(states[i], steps[i])
  }

  // ------------------------------------------------------------ what holds in every state

  /** The placed invocation has not run the lane, and never will. */
  predicate NeverRuns(callee: Callee) { callee.Absent? || callee.Declined? }

  predicate LaneInv(lane: Lane) {
    && lane.placedRuns == (if lane.callee.Running? || lane.callee.Finished? || lane.callee == Killed(true) then 1 else 0)
    && (lane.caller.Waiting? ==> lane.callee.Absent?)
    && (lane.callee.Absent? ==> !lane.caller.InFlight?)
    && (lane.callee.Absent? && lane.caller.Settled? ==> IsUnavailable(lane))
    && (IsUnavailable(lane) ==> NeverRuns(lane.callee))
    && (lane.caller.Settled? && lane.caller.d.Placed? ==> lane.callee.Finished?)
    && (lane.callee.Declined? ==> lane.callee.status in {401, 404})
    && lane.inlineRuns <= 1
    && (lane.inlineRuns == 1 ==> IsUnavailable(lane))
  }

  ghost predicate Inv(s: State) {
    && (forall l :: l in s.lanes ==> l in FiredLanes(s.env, s.cron) && LaneInv(s.lanes[l]))
    && (forall l :: l in s.inlineNow ==> l in s.lanes && s.lanes[l].inlineRuns == 1)
    && (forall a, b :: a in s.inlineNow && b in s.inlineNow ==> a == b)
    && ((exists l :: l in s.lanes && s.lanes[l].inlineRuns > 0) ==> AllSettled(s))
  }

  /** A dispatched lane is refused only for its token or by a version without the route. */
  lemma OwnLaneIsNeverMalformed(s: State, l: string)
    requires l in s.lanes && s.lanes[l].callee.Requested? && s.env.token.Some? && l in FiredLanes(s.env, s.cron)
    ensures VerdictOn(s, l) in {Refused(401), Refused(404), Accepted(s.cron, l)}
  {
    OwnLaneIsAccepted(s.cron, l, s.env, s.lanes[l].callee.handler.env);
  }

  lemma InitInv(s: State, cron: string)
    requires Init(s, cron)
    ensures Inv(s)
  {}

  lemma StepInv(s: State, step: Step)
    requires Inv(s) && Enabled(s, step)
    ensures Inv(After(s, step))
  {
    var after := After(s, step);
    forall l | l in after.lanes ensures LaneInv(after.lanes[l]) {
      assert LaneInv(s.lanes[l]);
      if step == Decline(l) { OwnLaneIsNeverMalformed(s, l); }
    }
    if exists l :: l in after.lanes && after.lanes[l].inlineRuns > 0 {
      var l :| l in after.lanes && after.lanes[l].inlineRuns > 0;
      assert AllSettled(s);
    }
  }

  lemma {:induction false} RunInv(cron: string, states: seq<State>, steps: seq<Step>, i: nat)
    requires IsRun(cron, states, steps) && i < |states|
    ensures Inv(states[i])
  {
    if i == 0 {
      InitInv(states[0], cron);
    } else {
      RunInv(cron, states, steps, i - 1);
      assert Enabled(states[i - 1], steps[i - 1]) && states[i - 1 + 1] == After(states[i - 1], steps[i - 1]);
      StepInv(states[i - 1], steps[i - 1]);
    }
  }

  /** In every reachable state of every run a lane's body has started at most once, counting both
      invocations. */
  lemma AtMostOnce(cron: string, states: seq<State>, steps: seq<Step>, i: nat, l: string)
    requires IsRun(cron, states, steps) && i < |states| && l in states[i].lanes
    ensures states[i].lanes[l].placedRuns + states[i].lanes[l].inlineRuns <= 1
  {
    RunInv(cron, states, steps, i);
    assert LaneInv(states[i].lanes[l]);
  }

  lemma LanesStay(s: State, step: Step)
    requires Enabled(s, step)
    ensures After(s, step).lanes.Keys == s.lanes.Keys
    ensures forall l :: l in s.lanes ==> s.lanes[l].inlineRuns <= After(s, step).lanes[l].inlineRuns
  {}

  lemma {:induction false} InlineStays(cron: string, states: seq<State>, steps: seq<Step>, i: nat, j: nat, l: string)
    requires IsRun(cron, states, steps) && i <= j < |states| && l in states[i].lanes
    ensures l in states[j].lanes && states[i].lanes[l].inlineRuns <= states[j].lanes[l].inlineRuns
    decreases j
  {
    if i < j {
      InlineStays(cron, states, steps, i, j - 1, l);
      assert Enabled(states[j - 1], steps[j - 1]) && states[j - 1 + 1] == After(states[j - 1], steps[j - 1]);
      LanesStay(states[j - 1], steps[j - 1]);
    }
  }

  /** A lane that ran inline is one the placed handler has not run and will not run at any later
      point, and it started only after every dispatch had settled, with no other inline lane. */
  lemma InlineOnlyWhenCertain(cron: string, states: seq<State>, steps: seq<Step>, i: nat, j: nat, l: string)
    requires IsRun(cron, states, steps) && i <= j < |states|
    requires l in states[i].lanes && states[i].lanes[l].inlineRuns > 0
    ensures l in states[j].lanes && states[j].lanes[l].placedRuns == 0 && NeverRuns(states[j].lanes[l].callee)
    ensures AllSettled(states[i])
    ensures forall a, b :: a in states[i].inlineNow && b in states[i].inlineNow ==> a == b
  {
    InlineStays(cron, states, steps, i, j, l);
    RunInv(cron, states, steps, i);
    RunInv(cron, states, steps, j);
    assert LaneInv(states[j].lanes[l]);
  }

  /** The fire is over: the caller survived, and ran every lane it had to run inline. */
  predicate Done(s: State) {
    && AllSettled(s) && s.inlineNow == {}
    && forall l :: l in s.lanes && IsUnavailable(s.lanes[l]) ==> s.lanes[l].inlineRuns == 1
  }

  /** When the fire is over every lane has run exactly once, except where the hop itself failed:
      such a lane may have been killed halfway, and is not run again. */
  lemma ExactlyOnceUnlessFailed(cron: string, states: seq<State>, steps: seq<Step>, i: nat, l: string)
    requires IsRun(cron, states, steps) && i < |states| && l in states[i].lanes && Done(states[i])
    requires states[i].lanes[l].caller != Settled(Failed)
    ensures states[i].lanes[l].placedRuns + states[i].lanes[l].inlineRuns == 1
  {
    RunInv(cron, states, steps, i);
    assert LaneInv(states[i].lanes[l]);
  }

  /** A dispatch fails only when the fetch threw or the callee was killed; a handler that answers
      for itself either ran the lane or says that it did not. */
  lemma FailuresAreKillsOrThrows(cron: string, states: seq<State>, steps: seq<Step>, i: nat)
    requires IsRun(cron, states, steps) && i < |steps| && steps[i].Receive? && Classify(steps[i].answer) == Failed
    ensures steps[i].answer.Thrown? || states[i].lanes[steps[i].lane].callee.Killed?
  {
    RunInv(cron, states, steps, i);
    assert Enabled(states[i], steps[i]);
    assert LaneInv(states[i].lanes[steps[i].lane]);
  }

  // ------------------------------------------------------------ the isolate

  class Isolate {
    var loggedNonProdSkip: bool

    constructor ()
      ensures !loggedNonProdSkip
    {
      loggedNonProdSkip := false;
    }

    /** The head of a fire: which lanes to dispatch, and whether to log that crons are off here. */
    method BeginFire(env: Env, cron: string) returns (lanes: seq<string>, logged: bool)
      modifies this
      ensures lanes == FiredLanes(env, cron)
      ensures
        var open := env.environment == Some("production") || env.allowNonProd == Some("1") || env.allowNonProd == Some("true");
        && lanes == (if open && LanesOf(cron).Some? then LanesOf(cron).value else [])
        && (logged <==> !open && !old(loggedNonProdSkip))
        && loggedNonProdSkip == (old(loggedNonProdSkip) || !open)
    {
      lanes, logged := [], false;
      if !GateOpen(env) {
        logged := !loggedNonProdSkip;
        loggedNonProdSkip := true;
        return;
      }
      var schedule := LanesOf(cron);
      if schedule.None? { return; }
      lanes := schedule.value;
    }
  }
}
