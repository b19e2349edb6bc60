/** The orphan sweep of per-PR Workers and Queues (scripts/cloudflare-worker-orphan-sweep.ts).
    A Worker that consumes a queue cannot be deleted, and a queue that a Worker binds cannot be
    deleted either; three passes break the cycle, and nothing live is ever touched. */
module WorkerSweep {
  import opened Text
  import opened Wrappers

  datatype PreviewState = Live | Retired | Unknown

  // ------------------------------------------------------------ names

  /** Where the run of digits at the end of a name begins. */
  function DigitsFrom(name: string, end: nat): (i: nat)
    requires end <= |name|
    ensures i <= end && forall k :: i <= k < end ==> Digit(name[k])
    ensures i > 0 ==> !Digit(name[i - 1])
  {
    if end == 0 || !Digit(name[end - 1]) then end else DigitsFrom(name, end - 1)
  }

  const PREFIX := "maple-"
  const DEV := "-dev-"
  const PR := "-pr-"

  /** `maple-<base>-pr-<digits>` where no `-dev-` begins inside the base; answers the PR number. */
  function PrOf(name: string): (r: Option<string>)
    ensures r.Some? ==> PREFIX <= name && |r.value| > 0
  {
    var digits := DigitsFrom(name, |name|);
    if digits == |name| || digits < |PREFIX| + 1 + |PR| || !(PREFIX <= name) || name[digits - |PR|..digits] != PR then None
    else if exists p :: |PREFIX| <= p < digits - |PR| && DEV <= name[p..] then None
    else Some(name[digits..])
  }

  /** `maple-<base>-pr-<pr>` with a non-empty base in which no `-dev-` begins. */
  predicate IsPreviewName(name: string, base: string, pr: string) {
    && base != "" && IsNumeral(pr) && name == PREFIX + base + PR + pr
    && forall p :: |PREFIX| <= p < |PREFIX| + |base| ==> !(DEV <= name[p..])
  }

  lemma MatchIsPreviewName(name: string) returns (base: string)
    requires PrOf(name).Some?
    ensures IsPreviewName(name, base, PrOf(name).value)
  {
    var cut := DigitsFrom(name, |name|);
    base := name[|PREFIX|..cut - |PR|];
    assert name == PREFIX + base + PR + name[cut..];
    forall c | c in name[cut..] ensures Digit(c) {
      var k :| 0 <= k < |name[cut..]| && name[cut..][k] == c;
      assert c == name[cut + k];
    }
  }

  lemma NumeralIsCutOff(front: string, pr: string)
    requires IsNumeral(pr) && front != "" && !Digit(front[|front| - 1])
    ensures DigitsFrom(front + pr, |front + pr|) == |front|
  {
    var name := front + pr;
    assert forall k :: |front| <= k < |name| ==> name[k] == pr[k - |front|] && pr[k - |front|] in pr;
    assert name[|front| - 1] == front[|front| - 1];
  }

  lemma PreviewNameMatches(name: string, base: string, pr: string)
    requires IsPreviewName(name, base, pr)
    ensures PrOf(name) == Some(pr)
  {
    hide DigitsFrom;
    var front := PREFIX + base + PR;
    NumeralIsCutOff(front, pr);
    assert name == front + pr;
    assert name[|front|..] == pr && name[|front| - |PR|..|front|] == PR;
    assert |front| - |PR| == |PREFIX| + |base|;
  }

  /** The pattern matches exactly the preview names, with the PR number at their end. */
  lemma MatchesPreviewNames(name: string, pr: string)
    ensures PrOf(name) == Some(pr) <==> exists base :: IsPreviewName(name, base, pr)
  {
    hide PrOf, IsPreviewName;
    if PrOf(name) == Some(pr) { var base := MatchIsPreviewName(name); }
    if exists base :: IsPreviewName(name, base, pr) {
      var base :| IsPreviewName(name, base, pr);
      PreviewNameMatches(name, base, pr);
    }
  }

  /** A resource of a stage named like a PR under a dev prefix is never taken for a preview. */
  lemma DevStageNeverMatches(base: string, digits: string)
    requires digits != [] && forall c :: c in digits ==> Digit(c)
    ensures PrOf(PREFIX + base + DEV + "pr-" + digits) == None
  {
    var name := PREFIX + base + DEV + "pr-" + digits;
    var p := |PREFIX| + |base|;
    assert name[p..] == DEV + ("pr-" + digits);
    assert DEV <= name[p..];
    var cut := p + |DEV| + 3;
    assert name[cut..] == digits;
    assert forall k :: cut <= k < |name| ==> name[k] == digits[k - cut];
    assert name[cut - 1] == '-';
    var d := DigitsFrom(name, |name|);
    assert d == cut;
  }

  // ------------------------------------------------------------ the cloud

  /** A queue with its registered consumers, by the reference the API addresses them with. */
  type Ref = s: string | s != "" witness "consumer"

  datatype QueueState = QueueState(name: string, consumers: map<Ref, string>)

  /** Queues by id, and Workers by name with the ids of the queues they bind. */
  datatype Cloud = Cloud(queues: map<string, QueueState>, workers: map<string, set<string>>)

  /** Some queue has this Worker registered as a consumer: its deletion is refused. */
  ghost predicate Consumes(c: Cloud, worker: string) {
    exists q :: q in c.queues && worker in c.queues[q].consumers.Values
  }

  /** Some Worker binds this queue: its deletion is refused. */
  ghost predicate Bound(c: Cloud, queue: string) {
    exists w :: w in c.workers && queue in c.workers[w]
  }

  /** A row of the consumer listing; old and new rows name the consumer in different fields. */
  datatype ConsumerRow = ConsumerRow(
    consumerId: Option<string>, id: Option<string>, script: Option<string>, scriptName: Option<string>)

  /** The first of the four fields that is present, unless that is the empty string. */
  function RefOf(row: ConsumerRow): Option<Ref> {
    var ref := OrElse(row.consumerId, OrElse(row.id, OrElse(row.script, row.scriptName)));
    if ref.None? || ref.value == "" then None else Some(ref.value)
  }

  datatype QueueInfo = QueueInfo(id: string, name: string)

  /** A call that destroys something, with the name of what it is about. */
  datatype Call = Detach(name: string) | DeleteWorker(name: string) | DeleteQueue(name: string)

  /** The APIs the sweep talks to. Deletions follow the refusal rules; unless `reliable`, any call
      may also fail for any other reason, with or without effect. */
  class Api {
    const reliable: bool
    const truth: map<string, PreviewState>
    var cloud: Cloud
    ghost var calls: seq<Call>
    ghost var asked: seq<string>

    constructor (reliable: bool, truth: map<string, PreviewState>, cloud: Cloud)
      ensures this.reliable == reliable && this.truth == truth && this.cloud == cloud
      ensures calls == [] && asked == []
    {
      this.reliable, this.truth, this.cloud := reliable, truth, cloud;
      calls, asked := [], [];
    }

    function Truth(pr: string): PreviewState { if pr in truth then truth[pr] else Unknown }

    method FetchPreviewState(pr: string) returns (s: PreviewState)
      modifies `asked
      ensures asked == old(asked) + [pr]
      ensures reliable ==> s == Truth(pr)
    {
      asked := asked + [pr];
      s := *;
      if reliable { s := Truth(pr); }
    }

    /** The first page of queues: whichever the API picks, each under its own name. */
    method ListQueues() returns (r: Option<seq<QueueInfo>>)
      ensures reliable ==> r.Some? && forall i :: i in r.value ==> i.id in cloud.queues && i.name == cloud.queues[i.id].name
    {
      r := *;
      if reliable {
        var page: seq<QueueInfo> := [];
        var todo := cloud.queues.Keys;
        var full := false;
        while todo != {} && !full
          invariant todo <= cloud.queues.Keys
          invariant forall i :: i in page ==> i.id in cloud.queues && i.name == cloud.queues[i.id].name
          decreases todo
        {
          var id :| id in todo;
          todo := todo - {id};
          page := page + [QueueInfo(id, cloud.queues[id].name)];
          full := *;
        }
        r := Some(page);
      }
    }

    method ListConsumers(queue: string) returns (r: Option<seq<ConsumerRow>>)
      ensures reliable && queue in cloud.queues ==>
        && r.Some?
        && (forall row :: row in r.value ==> RefOf(row).Some?)
        && (forall ref :: ref in cloud.queues[queue].consumers ==> exists row :: row in r.value && RefOf(row) == Some(ref))
    {
      r := *;
      if reliable && queue in cloud.queues {
        var rows: seq<ConsumerRow> := [];
        var todo := cloud.queues[queue].consumers.Keys;
        while todo != {}
          invariant todo <= cloud.queues[queue].consumers.Keys
          invariant forall row :: row in rows ==> RefOf(row).Some?
          invariant forall ref :: ref in cloud.queues[queue].consumers && ref !in todo ==> exists row :: row in rows && RefOf(row) == Some(ref)
          decreases todo
        {
          var ref :| ref in todo;
          todo := todo - {ref};
          var row := ConsumerRow(Some(ref), None, None, None);
          assert RefOf(row) == Some(ref);
          rows := rows + [row];
          assert row in rows;
        }
        r := Some(rows);
      }
    }

    method DetachConsumer(queue: QueueInfo, ref: Ref) returns (ok: bool)
      modifies `cloud, `calls
      ensures calls == old(calls) + [Detach(queue.name)]
      ensures reliable ==> ok && cloud == old(DetachedOne(cloud, queue.id, ref))
    {
      calls := calls + [Detach(queue.name)];
      ok := *;
      if reliable || ok {
        ok := true;
        cloud := DetachedOne(cloud, queue.id, ref);
      }
    }

    method ListWorkers() returns (r: Option<seq<string>>)
      ensures reliable ==> r.Some? && forall w :: w in r.value <==> w in cloud.workers
    {
      r := *;
      if reliable {
        var names: seq<string> := [];
        var todo := cloud.workers.Keys;
        while todo != {}
          invariant todo <= cloud.workers.Keys && forall w :: w in names <==> w in cloud.workers && w !in todo
          decreases todo
        {
          var w :| w in todo;
          todo := todo - {w};
          names := names + [w];
        }
        r := Some(names);
      }
    }

    /** Refused while the Worker consumes a queue; deleting a missing Worker is fine. */
    method RemoveWorker(name: string) returns (ok: bool)
      modifies `cloud, `calls
      ensures calls == old(calls) + [DeleteWorker(name)]
      ensures reliable ==> (ok <==> name !in old(cloud).workers || !Consumes(old(cloud), name))
      ensures reliable ==> cloud == if ok then old(cloud).(workers := old(cloud).workers - {name}) else old(cloud)
    {
      calls := calls + [DeleteWorker(name)];
      ok := *;
      if reliable { ok := name !in cloud.workers || !(exists q :: q in cloud.queues && name in cloud.queues[q].consumers.Values); }
      if ok { cloud := cloud.(workers := cloud.workers - {name}); }
    }

    /** Refused while a Worker binds the queue; deleting a missing queue is fine. */
    method RemoveQueue(queue: QueueInfo) returns (ok: bool)
      modifies `cloud, `calls
      ensures calls == old(calls) + [DeleteQueue(queue.name)]
      ensures reliable ==> (ok <==> queue.id !in old(cloud).queues || !Bound(old(cloud), queue.id))
      ensures reliable ==> cloud == if ok then old(cloud).(queues := old(cloud).queues - {queue.id}) else old(cloud)
    {
      calls := calls + [DeleteQueue(queue.name)];
      ok := *;
      if reliable { ok := queue.id !in cloud.queues || !(exists w :: w in cloud.workers && queue.id in cloud.workers[w]); }
      if ok { cloud := cloud.(queues := cloud.queues - {queue.id}); }
    }
  }

  function DetachedOne(c: Cloud, queue: string, ref: Ref): Cloud {
    if queue !in c.queues then c
    else c.(queues := c.queues[queue := c.queues[queue].(consumers := c.queues[queue].consumers - {ref})])
  }

  /** The three stages of the cloud a faultless sweep goes through. */
  function Detached(c: Cloud, ids: set<string>): (d: Cloud)
    ensures d.queues.Keys == c.queues.Keys
  {
    c.(queues := map q | q in c.queues :: if q in ids then c.queues[q].(consumers := map[]) else c.queues[q])
  }

  ghost function WithoutWorkers(c: Cloud, names: set<string>): (d: Cloud)
    ensures d.queues == c.queues
  {
    c.(workers := map w | w in c.workers && (w !in names || Consumes(c, w)) :: c.workers[w])
  }

  ghost function WithoutQueues(c: Cloud, ids: set<string>): Cloud {
    c.(queues := map q | q in c.queues && (q !in ids || Bound(c, q)) :: c.queues[q])
  }

  lemma DetachedNothing(c: Cloud)
    ensures Detached(c, {}) == c
  {
    assert Detached(c, {}).queues == c.queues;
  }

  lemma DetachedGrows(c: Cloud, ids: set<string>, id: string)
    ensures Detached(Detached(c, ids), {id}) == Detached(c, ids + {id})
  {
    var a, b := Detached(Detached(c, ids), {id}), Detached(c, ids + {id});
    assert a.queues.Keys == b.queues.Keys;
    assert forall q :: q in a.queues ==> a.queues[q] == b.queues[q];
    assert a.queues == b.queues;
  }

  lemma WithoutNoWorkers(c: Cloud)
    ensures WithoutWorkers(c, {}) == c
  {
    assert WithoutWorkers(c, {}).workers == c.workers;
  }

  lemma WithoutNoQueues(c: Cloud)
    ensures WithoutQueues(c, {}) == c
  {
    assert WithoutQueues(c, {}).queues == c.queues;
  }

  lemma WithoutWorkersGrows(c: Cloud, names: set<string>, name: string)
    ensures Consumes(WithoutWorkers(c, names), name) == Consumes(c, name)
    ensures name in c.workers && Consumes(c, name) ==> name in WithoutWorkers(c, names).workers
    ensures WithoutWorkers(c, names + {name}) ==
            if Consumes(c, name) then WithoutWorkers(c, names)
            else WithoutWorkers(c, names).(workers := WithoutWorkers(c, names).workers - {name})
  {
    var a := WithoutWorkers(c, names);
    assert forall q :: q in a.queues <==> q in c.queues;
    assert Consumes(a, name) == Consumes(c, name);
    assert WithoutWorkers(c, names + {name}).workers == if Consumes(c, name) then a.workers else a.workers - {name};
  }

  lemma WithoutQueuesGrows(c: Cloud, ids: set<string>, id: string)
    ensures Bound(WithoutQueues(c, ids), id) == Bound(c, id)
    ensures id in c.queues && Bound(c, id) ==> id in WithoutQueues(c, ids).queues
    ensures WithoutQueues(c, ids + {id}) ==
            if Bound(c, id) then WithoutQueues(c, ids)
            else WithoutQueues(c, ids).(queues := WithoutQueues(c, ids).queues - {id})
  {
    var a := WithoutQueues(c, ids);
    assert Bound(a, id) == Bound(c, id);
    assert WithoutQueues(c, ids + {id}).queues == if Bound(c, id) then a.queues else a.queues - {id};
  }

  // ------------------------------------------------------------ the sweep

  /** Whether the pattern matches, and under which PR the verdict is looked up. */
  ghost predicate Under(states: map<string, PreviewState>, name: string, verdict: PreviewState) {
    PrOf(name).Some? && PrOf(name).value in states && states[PrOf(name).value] == verdict
  }

  function Ids(queues: seq<QueueInfo>): set<string> { set q | q in queues :: q.id }

  class Sweep {
    const api: Api
    var states: map<string, PreviewState>
    var failures: seq<string>
    var queuesToDelete: seq<QueueInfo>

    constructor (api: Api)
      requires api.calls == [] && api.asked == []
      ensures this.api == api && Safe() && failures == [] && queuesToDelete == [] && states == map[]
    {
      this.api := api;
      states, failures, queuesToDelete := map[], [], [];
    }

    /** GitHub was asked once about each PR with a verdict, and everything destroyed so far is
        named after a PR whose verdict is Retired. */
    ghost predicate Safe()
      reads this, api
    {
      && (forall i, j :: 0 <= i < j < |api.asked| ==> api.asked[i] != api.asked[j])
      && (forall p :: p in api.asked <==> p in states)
      && (forall call :: call in api.calls ==> Under(states, call.name, Retired))
      && (api.reliable ==> forall p :: p in states ==> states[p] == api.Truth(p))
    }

    /** What every pass keeps: earlier verdicts stand and earlier calls and failures stay. */
    twostate predicate Extends()
      reads this, api
    {
      && (forall p :: p in old(states) ==> p in states && states[p] == old(states[p]))
      && old(api.calls) <= api.calls
      && old(failures) <= failures
    }

    method PrState(pr: string) returns (s: PreviewState)
      requires Safe()
      modifies `states, api`asked
      ensures Safe() && Extends()
      ensures pr in states && states[pr] == s
    {
      if pr in states {
        s := states[pr];
      } else {
        s := api.FetchPreviewState(pr);
        states := states[pr := s];
        assert forall p :: p in api.asked <==> p in old(api.asked) || p == pr;
      }
    }

    /** Detaches every consumer of one retired queue. */
    method DetachConsumers(queue: QueueInfo)
      requires Safe() && Under(states, queue.name, Retired)
      modifies `failures, api`cloud, api`calls
      ensures Safe() && Extends()
      ensures api.reliable && queue.id in old(api.cloud).queues ==>
        failures == old(failures) && api.cloud == Detached(old(api.cloud), {queue.id})
    {
      var listed := api.ListConsumers(queue.id);
      if listed.None? {
        failures := failures + [queue.name];
        return;
      }
      var rows := listed.value;
      var k := 0;
      ghost var c := api.cloud;
      ghost var gone: set<Ref> := {};
      NoneDetached(c, queue.id);
      while k < |rows|
        invariant 0 <= k <= |rows|
        invariant Safe() && Extends()
        invariant gone == set r | r in rows[..k] && RefOf(r).Some? :: RefOf(r).value
        invariant api.reliable && queue.id in c.queues ==> failures == old(failures) && api.cloud == DetachedRefs(c, queue.id, gone)
      {
        var ref := RefOf(rows[k]);
        assert rows[..k + 1] == rows[..k] + [rows[k]];
        if ref.None? {
          failures := failures + [queue.name];
        } else {
          DetachedRefsGrow(c, queue.id, gone, ref.value);
          var ok := api.DetachConsumer(queue, ref.value);
          gone := gone + {ref.value};
          if !ok { failures := failures + [queue.name]; }
        }
        k := k + 1;
      }
      assert rows[..k] == rows;
      if api.reliable && queue.id in c.queues {
        AllDetached(c, queue.id, gone);
      }
    }

    /** One queue of pass 1. */
    method DetachIfRetired(queue: QueueInfo)
      requires Safe()
      modifies this, api
      ensures Safe() && Extends()
      ensures PrOf(queue.name).Some? && queue.id != "" ==> PrOf(queue.name).value in states
      ensures queuesToDelete == old(queuesToDelete) + if queue.id != "" && Under(states, queue.name, Retired) then [queue] else []
      ensures api.reliable && queue.id in old(api.cloud).queues ==>
        && failures == old(failures)
        && api.cloud == if queue.id != "" && Under(states, queue.name, Retired) then Detached(old(api.cloud), {queue.id}) else old(api.cloud)
    {
      hide PrOf, Detached;
      var pr := PrOf(queue.name);
      if pr.Some? && queue.id != "" {
        var state := PrState(pr.value);
        if state == Retired {
          queuesToDelete := queuesToDelete + [queue];
          DetachConsumers(queue);
        }
      }
    }

    /** Pass 1: frees the Workers that consume retired queues, and remembers those queues. */
    method DetachRetiredQueues(queues: seq<QueueInfo>)
      requires Safe() && queuesToDelete == []
      modifies this, api
      ensures Safe() && Extends()
      ensures forall q :: q in queuesToDelete <==> q in queues && q.id != "" && Under(states, q.name, Retired)
      ensures forall q :: q in queues && q.id != "" && PrOf(q.name).Some? ==> PrOf(q.name).value in states
      ensures api.reliable && (forall q :: q in queues ==> q.id in old(api.cloud).queues) ==>
        failures == old(failures) && api.cloud == Detached(old(api.cloud), Ids(queuesToDelete))
    {
      hide PrOf, Detached;
      var k := 0;
      ghost var c := api.cloud;
      DetachedNothing(c);
      assert Ids(queuesToDelete) == {};
      while k < |queues|
        invariant 0 <= k <= |queues|
        invariant Safe() && Extends()
        invariant forall q :: q in queuesToDelete <==> q in queues[..k] && q.id != "" && Under(states, q.name, Retired)
        invariant forall q :: q in queues[..k] && q.id != "" && PrOf(q.name).Some? ==> PrOf(q.name).value in states
        invariant api.reliable && (forall q :: q in queues ==> q.id in c.queues) ==>
          failures == old(failures) && api.cloud == Detached(c, Ids(queuesToDelete))
      {
        var queue := queues[k];
        assert queues[..k + 1] == queues[..k] + [queue];
        DetachedGrows(c, Ids(queuesToDelete), queue.id);
        assert Ids(queuesToDelete + [queue]) == Ids(queuesToDelete) + {queue.id};
        ghost var before := queuesToDelete;
        DetachIfRetired(queue);
        assert before + [] == before;
        k := k + 1;
      }
      assert queues[..k] == queues;
    }

    /** One Worker of pass 2. */
    method DeleteIfRetired(name: string)
      requires Safe()
      modifies `states, `failures, api
      ensures Safe() && Extends()
      ensures PrOf(name).Some? ==> PrOf(name).value in states
      ensures api.reliable ==> api.cloud == old(api.cloud).(workers :=
        if Under(states, name, Retired) && !Consumes(old(api.cloud), name) then old(api.cloud).workers - {name} else old(api.cloud).workers)
      ensures api.reliable ==>
        (failures == old(failures) <==> !(Under(states, name, Retired) && name in old(api.cloud).workers && Consumes(old(api.cloud), name)))
    {
      hide PrOf, Consumes;
      var pr := PrOf(name);
      if pr.Some? && name != "" {
        var state := PrState(pr.value);
        if state == Retired {
          assert name !in api.cloud.workers ==> api.cloud.workers - {name} == api.cloud.workers;
          var ok := api.RemoveWorker(name);
          if !ok { failures := failures + [name]; }
        }
      }
    }

    /** Pass 2: the Workers; what they bind is free once they are gone. */
    method DeleteRetiredWorkers(names: seq<string>)
      requires Safe()
      modifies `states, `failures, api
      ensures Safe() && Extends()
      ensures forall w :: w in names && PrOf(w).Some? ==> PrOf(w).value in states
      ensures api.reliable ==> api.cloud == WithoutWorkers(old(api.cloud), set w | w in names && Under(states, w, Retired))
      ensures api.reliable && (forall w :: w in names ==> w in old(api.cloud).workers) ==>
        (failures == old(failures) <==>
         forall w :: w in names && Under(states, w, Retired) ==> !Consumes(old(api.cloud), w))
    {
      hide PrOf, Consumes, WithoutWorkers;
      var k := 0;
      ghost var c := api.cloud;
      ghost var done: set<string> := {};
      WithoutNoWorkers(c);
      while k < |names|
        invariant 0 <= k <= |names|
        invariant Safe() && Extends()
        invariant forall w :: w in names[..k] && PrOf(w).Some? ==> PrOf(w).value in states
        invariant forall w :: w in done <==> w in names[..k] && Under(states, w, Retired)
        invariant api.reliable ==> api.cloud == WithoutWorkers(c, done)
        invariant api.reliable && (forall w :: w in names ==> w in c.workers) ==>
          (failures == old(failures) <==> forall w :: w in done ==> !Consumes(c, w))
      {
        var name := names[k];
        assert names[..k + 1] == names[..k] + [name];
        WithoutWorkersGrows(c, done, name);
        DeleteIfRetired(name);
        done := if Under(states, name, Retired) then done + {name} else done;
        k := k + 1;
      }
      assert names[..k] == names;
      assert done == set w | w in names && Under(states, w, Retired);
    }

    /** One queue of pass 3. */
    method DeleteRemembered(queue: QueueInfo)
      requires Safe() && Under(states, queue.name, Retired)
      modifies `failures, api`cloud, api`calls
      ensures Safe() && Extends()
      ensures api.reliable ==> api.cloud == old(api.cloud).(queues :=
        if Bound(old(api.cloud), queue.id) then old(api.cloud).queues else old(api.cloud).queues - {queue.id})
      ensures api.reliable ==> (failures == old(failures) <==> !(queue.id in old(api.cloud).queues && Bound(old(api.cloud), queue.id)))
    {
      hide PrOf, Bound;
      assert queue.id !in api.cloud.queues ==> api.cloud.queues - {queue.id} == api.cloud.queues;
      var ok := api.RemoveQueue(queue);
      if !ok { failures := failures + [queue.name]; }
    }

    /** Pass 3: the queues remembered by pass 1. */
    method DeleteRetiredQueues()
      requires Safe() && forall q :: q in queuesToDelete ==> Under(states, q.name, Retired)
      modifies `failures, api`cloud, api`calls
      ensures Safe() && Extends()
      ensures api.reliable ==> api.cloud == WithoutQueues(old(api.cloud), Ids(queuesToDelete))
      ensures api.reliable && (forall q :: q in queuesToDelete ==> q.id in old(api.cloud).queues) ==>
        (failures == old(failures) <==> forall q :: q in queuesToDelete ==> !Bound(old(api.cloud), q.id))
    {
      hide PrOf, Bound, WithoutQueues;
      var k := 0;
      ghost var c := api.cloud;
      WithoutNoQueues(c);
      assert Ids(queuesToDelete[..0]) == {};
      while k < |queuesToDelete|
        invariant 0 <= k <= |queuesToDelete|
        invariant Safe() && Extends()
        invariant api.reliable ==> api.cloud == WithoutQueues(c, Ids(queuesToDelete[..k]))
        invariant api.reliable && (forall q :: q in queuesToDelete ==> q.id in c.queues) ==>
          (failures == old(failures) <==> forall q :: q in queuesToDelete[..k] ==> !Bound(c, q.id))
      {
        var queue := queuesToDelete[k];
        assert queuesToDelete[..k + 1] == queuesToDelete[..k] + [queue];
        assert Ids(queuesToDelete[..k + 1]) == Ids(queuesToDelete[..k]) + {queue.id};
        WithoutQueuesGrows(c, Ids(queuesToDelete[..k]), queue.id);
        DeleteRemembered(queue);
        k := k + 1;
      }
      assert queuesToDelete[..k] == queuesToDelete;
    }

    /** The whole run; it stops at once when either listing cannot be had. `page` is what the
        queue listing showed. With APIs that obey the refusal rules and do not otherwise fail, the
        cloud ends as the three stages say, and the run reports success exactly when what it had to
        delete was used by nothing else. */
    method Run() returns (listed: bool, ghost page: seq<QueueInfo>)
      requires Safe() && failures == [] && queuesToDelete == []
      modifies this, api
      ensures Safe() && Extends()
      ensures api.reliable ==> listed && forall q :: q in page ==> q.id in old(api.cloud).queues && q.name == old(api.cloud).queues[q.id].name
      ensures api.reliable ==> api.cloud == Swept(old(api.cloud), RetiredIds(api, page), RetiredNames(api, old(api.cloud)))
      ensures api.reliable ==>
        (failures == [] <==> SelfContained(old(api.cloud), RetiredIds(api, page), RetiredNames(api, old(api.cloud))))
    {
      hide PrOf, Detached, WithoutWorkers, WithoutQueues, Consumes, Bound, SelfContained, RetiredName, RetiredIds, RetiredNames, Ids;
      listed, page := false, [];
      ghost var c := api.cloud;
      var queues := api.ListQueues();
      if queues.None? { return; }
      page := queues.value;
      DetachRetiredQueues(queues.value);
      var workers := api.ListWorkers();
      if workers.None? { return; }
      ghost var d := api.cloud;
      DeleteRetiredWorkers(workers.value);
      ghost var e, failed := api.cloud, failures;
      DeleteRetiredQueues();
      listed := true;
      if api.reliable {
        DetachedKeepsWorkers(c, Ids(queuesToDelete));
        VerdictsAreTruths(page, workers.value, c);
        FreeExactlyWhenSelfContained(c, RetiredIds(api, page), RetiredNames(api, c));
        assert failed == [] <==> forall w :: w in RetiredNames(api, c) ==> !Consumes(d, w);
        AllUnbound(queuesToDelete, e);
      }
    }

    /** With a reliable API the recorded verdicts select what the true states select. */
    lemma VerdictsAreTruths(page: seq<QueueInfo>, workers: seq<string>, c: Cloud)
      requires api.reliable && Safe()
      requires forall q :: q in queuesToDelete <==> q in page && q.id != "" && Under(states, q.name, Retired)
      requires forall q :: q in page && q.id != "" && PrOf(q.name).Some? ==> PrOf(q.name).value in states
      requires forall q :: q in page ==> q.id in c.queues
      requires forall w :: w in workers <==> w in c.workers
      requires forall w :: w in workers && PrOf(w).Some? ==> PrOf(w).value in states
      ensures Ids(queuesToDelete) == RetiredIds(api, page)
      ensures (set w | w in workers && Under(states, w, Retired)) == RetiredNames(api, c)
      ensures RetiredIds(api, page) <= c.queues.Keys && RetiredNames(api, c) <= c.workers.Keys
    {
      hide PrOf;
      assert forall q :: q in queuesToDelete <==> q in page && q.id != "" && RetiredName(api, q.name);
    }
  }

  lemma AllUnbound(queues: seq<QueueInfo>, c: Cloud)
    ensures (forall q :: q in queues ==> !Bound(c, q.id)) <==> forall id :: id in Ids(queues) ==> !Bound(c, id)
  {
    hide Bound;
    if forall q :: q in queues ==> !Bound(c, q.id) {
      forall id | id in Ids(queues) ensures !Bound(c, id) { }
    }
    if forall id :: id in Ids(queues) ==> !Bound(c, id) {
      forall q | q in queues ensures !Bound(c, q.id) { assert q.id in Ids(queues); }
    }
  }

  /** Named after a PR that GitHub reports retired. */
  ghost predicate RetiredName(api: Api, name: string) { PrOf(name).Some? && api.Truth(PrOf(name).value) == Retired }

  ghost function RetiredIds(api: Api, page: seq<QueueInfo>): set<string> {
    set q | q in page && q.id != "" && RetiredName(api, q.name) :: q.id
  }

  ghost function RetiredNames(api: Api, c: Cloud): set<string> { set w | w in c.workers && RetiredName(api, w) }

  ghost function Swept(c: Cloud, ids: set<string>, names: set<string>): Cloud {
    WithoutQueues(WithoutWorkers(Detached(c, ids), names), ids)
  }

  /** The Workers to delete consume nothing but the queues to delete, and those are bound by
      nothing but the Workers to delete. */
  ghost predicate SelfContained(c: Cloud, ids: set<string>, names: set<string>) {
    && (forall q :: q in c.queues && q !in ids ==> c.queues[q].consumers.Values !! names)
    && (forall w :: w in c.workers && w !in names ==> c.workers[w] !! ids)
  }

  lemma DetachedKeepsWorkers(c: Cloud, ids: set<string>)
    ensures Detached(c, ids).workers == c.workers && Detached(c, ids).queues.Keys == c.queues.Keys
  {
  }

  /** Once the queues to delete have no consumers, the deletions of passes 2 and 3 are all allowed
      exactly when the two sets are self-contained. */
  lemma FreeExactlyWhenSelfContained(c: Cloud, ids: set<string>, names: set<string>)
    requires ids <= c.queues.Keys && names <= c.workers.Keys
    ensures SelfContained(c, ids, names) <==>
      && (forall w :: w in names ==> !Consumes(Detached(c, ids), w))
      && (forall q :: q in ids ==> !Bound(WithoutWorkers(Detached(c, ids), names), q))
  {
    var d := Detached(c, ids);
    var e := WithoutWorkers(d, names);
    if forall w :: w in names ==> !Consumes(d, w) {
      forall q | q in c.queues && q !in ids
        ensures c.queues[q].consumers.Values !! names
      {
        forall w | w in names ensures w !in c.queues[q].consumers.Values {
          assert !Consumes(d, w) && q in d.queues && d.queues[q] == c.queues[q];
        }
      }
      assert e.workers == c.workers - names;
      if forall q :: q in ids ==> !Bound(e, q) {
        forall w | w in c.workers && w !in names
          ensures c.workers[w] !! ids
        {
          forall q | q in ids ensures q !in c.workers[w] { assert !Bound(e, q) && w in e.workers; }
        }
      }
    }
  }

  /** A self-contained sweep leaves no retired Worker and no listed retired queue, and everything
      else exactly as it was: the Workers with their bindings, the queues with their consumers. */
  lemma SelfContainedSweepIsComplete(c: Cloud, ids: set<string>, names: set<string>)
    requires ids <= c.queues.Keys && names <= c.workers.Keys && SelfContained(c, ids, names)
    ensures Swept(c, ids, names) == Cloud(c.queues - ids, c.workers - names)
  {
    FreeExactlyWhenSelfContained(c, ids, names);
    var d := Detached(c, ids);
    var e := WithoutWorkers(d, names);
    assert e.workers == c.workers - names;
    assert WithoutQueues(e, ids).queues == c.queues - ids;
  }

  /** In any case only what was to be deleted is touched. */
  lemma SweepTouchesNothingElse(c: Cloud, ids: set<string>, names: set<string>)
    ensures forall w :: w in c.workers && w !in names ==> w in Swept(c, ids, names).workers && Swept(c, ids, names).workers[w] == c.workers[w]
    ensures forall q :: q in c.queues && q !in ids ==> q in Swept(c, ids, names).queues && Swept(c, ids, names).queues[q] == c.queues[q]
    ensures Swept(c, ids, names).workers.Keys <= c.workers.Keys && Swept(c, ids, names).queues.Keys <= c.queues.Keys
  {
  }

  lemma SimpleBaseIsPreview(name: string, base: string, pr: string)
    requires base != "" && '-' !in base && IsNumeral(pr) && name == PREFIX + base + PR + pr
    ensures IsPreviewName(name, base, pr)
  {
    forall p | |PREFIX| <= p < |PREFIX| + |base| ensures !(DEV <= name[p..]) {
      assert name[p..][0] == name[p] == base[p - |PREFIX|] && base[p - |PREFIX|] in base;
    }
  }

  /** A queue of PR 1 that a Worker of the live PR 2 binds. */
  function SharedQueue(): Cloud {
    Cloud(map["q1" := QueueState("maple-jobs-pr-1", map[])], map["maple-api-pr-2" := {"q1"}])
  }

  /** A cloud the sweep cannot finish: the shared queue is still there afterwards. */
  lemma SharedQueueStays()
    ensures PrOf("maple-jobs-pr-1") == Some("1") && PrOf("maple-api-pr-2") == Some("2")
    ensures !SelfContained(SharedQueue(), {"q1"}, {}) && Swept(SharedQueue(), {"q1"}, {}) == SharedQueue()
  {
    var c := SharedQueue();
    SimpleBaseIsPreview("maple-jobs-pr-1", "jobs", "1");
    SimpleBaseIsPreview("maple-api-pr-2", "api", "2");
    PreviewNameMatches("maple-jobs-pr-1", "jobs", "1");
    PreviewNameMatches("maple-api-pr-2", "api", "2");
    assert "q1" in c.workers["maple-api-pr-2"];
    var d := WithoutWorkers(Detached(c, {"q1"}), {});
    assert d.workers == c.workers && Bound(d, "q1");
    assert Detached(c, {"q1"}).queues == c.queues;
    assert Swept(c, {"q1"}, {}).queues == c.queues;
  }

  // ------------------------------------------------------------ why pass 1 is needed

  datatype Deletion = Worker(name: string) | Queue(id: string)

  /** One deletion under the refusal rules. */
  ghost function After(c: Cloud, d: Deletion): Cloud {
    match d
    case Worker(name) => if Consumes(c, name) then c else c.(workers := c.workers - {name})
    case Queue(id) => if Bound(c, id) then c else c.(queues := c.queues - {id})
  }

  ghost function AfterAll(c: Cloud, ds: seq<Deletion>): Cloud
    decreases |ds|
  {
    if ds == [] then c else AfterAll(After(c, ds[0]), ds[1..])
  }

  /** A Worker and a queue that it both binds and consumes survive every sequence of deletions. */
  lemma {:induction false} DeletionsAloneAreDeadlocked(c: Cloud, ds: seq<Deletion>, w: string, q: string)
    requires q in c.queues && w in c.queues[q].consumers.Values && w in c.workers && q in c.workers[w]
    ensures w in AfterAll(c, ds).workers && q in AfterAll(c, ds).queues
    decreases |ds|
  {
    if ds != [] {
      assert Consumes(c, w) && Bound(c, q);
      DeletionsAloneAreDeadlocked(After(c, ds[0]), ds[1..], w, q);
    }
  }

  /** The queue's consumers except those addressed by `gone`. */
  function DetachedRefs(c: Cloud, queue: string, gone: set<Ref>): Cloud
    requires queue in c.queues
  {
    c.(queues := c.queues[queue := c.queues[queue].(consumers := c.queues[queue].consumers - gone)])
  }

  lemma DetachedRefsGrow(c: Cloud, queue: string, gone: set<Ref>, ref: Ref)
    ensures queue in c.queues ==> DetachedOne(DetachedRefs(c, queue, gone), queue, ref) == DetachedRefs(c, queue, gone + {ref})
  {
    if queue in c.queues {
      var m := c.queues[queue].consumers;
      assert (m - gone) - {ref} == m - (gone + {ref});
    }
  }

  lemma NoneDetached(c: Cloud, queue: string)
    ensures queue in c.queues ==> DetachedRefs(c, queue, {}) == c
  {
    if queue in c.queues {
      assert c.queues[queue].consumers - {} == c.queues[queue].consumers;
      assert c.queues[queue := c.queues[queue]] == c.queues;
    }
  }

  lemma AllDetached(c: Cloud, queue: string, gone: set<Ref>)
    requires queue in c.queues && c.queues[queue].consumers.Keys <= gone
    ensures DetachedRefs(c, queue, gone) == Detached(c, {queue})
  {
    assert c.queues[queue].consumers - gone == map[];
    assert DetachedRefs(c, queue, gone).queues == Detached(c, {queue}).queues;
  }
}
