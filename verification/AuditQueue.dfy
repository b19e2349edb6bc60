/** The audit-events consumer (apps/api/src/audit-events-runtime.ts) under redelivery: what
    happens to every message over any sequence of batches, write failures and interruptions. */
module AuditQueue {
  import opened Grouping
  import opened Wrappers

  /** The queue retries a message this often before it goes to the dead letter queue. */
  const MAX_RETRIES := 5

  type Id = nat

  datatype Event = Event(entryId: string, org: string, payload: string)

  datatype Fate = Pending | Written | Discarded | DeadLettered

  /** A message on the queue: its body if it decodes, and the attempt its next delivery will be. */
  datatype Message = Message(body: Option<Event>, attempts: nat, fate: Fate)

  type Queue = map<Id, Message>

  /** A row as it was inserted; redelivery may insert it again later. */
  datatype Row = Row(event: Event, at: int)

  /** How one organisation's write ended. */
  datatype Outcome = Stored | Failed | Interrupted

  // ------------------------------------------------------------ what a batch does to a message

  function Acked(m: Message, fate: Fate): Message { m.(fate := fate) }

  /** Another attempt, or, after the last one, the dead letter queue. */
  function Retried(m: Message): Message {
    if m.attempts > MAX_RETRIES then m.(fate := DeadLettered) else m.(attempts := m.attempts + 1)
  }

  function AfterOutcome(m: Message, o: Outcome): Message {
    match o
    case Stored => Acked(m, Written)
    case Failed => Retried(m)
    case Interrupted => m
  }

  /** One delivery of a batch: how each organisation's write ended, and the messages the consumer
      had acked or retried when it finished or was interrupted. */
  datatype Delivery = Delivery(batch: seq<Id>, outcomes: map<string, Outcome>, reached: set<Id>, now: int)

  /** A delivered message, given how its organisation's write ended. */
  function AfterDelivery(m: Message, id: Id, d: Delivery): Message {
    if id !in d.reached then m else
    match m.body
    case None => Acked(m, Discarded)
    case Some(e) => if e.org in d.outcomes then AfterOutcome(m, d.outcomes[e.org]) else m
  }

  /** The platform delivers pending messages, each at most once per batch. */
  ghost predicate Deliverable(q: Queue, batch: seq<Id>) {
    && (forall k :: 0 <= k < |batch| ==> batch[k] in q && q[batch[k]].fate.Pending?)
    && (forall i, j :: 0 <= i < j < |batch| ==> batch[i] != batch[j])
  }

  function AfterBatch(q: Queue, d: Delivery): Queue { map id | id in q :: AfterDelivery(q[id], id, d) }

  /** The consumer reaches messages of written groups only, and all or none of a stored one. */
  ghost predicate Proper(q: Queue, d: Delivery) {
    && (forall id :: id in d.reached ==> id in d.batch)
    && (forall id :: id in d.batch && id in q && q[id].body.Some? ==>
          && (id in d.reached ==> Tried(d.outcomes, q[id].body.value.org))
          && (StoredBy(q[id], d.outcomes) ==> id in d.reached))
  }

  /** The organisation's write ended, well or badly, before any interruption. */
  predicate Tried(outcomes: map<string, Outcome>, org: string) { org in outcomes && !outcomes[org].Interrupted? }

  /** The inserts of a batch: whole groups that were stored, and anything of the others. */
  ghost predicate Inserted(q: Queue, batch: seq<Id>, outcomes: map<string, Outcome>, now: int, before: seq<Row>, after: seq<Row>) {
    && before <= after
    && (forall id :: id in batch && id in q && StoredBy(q[id], outcomes) ==> Row(q[id].body.value, now) in after)
    && (forall r :: r in after ==> r in before || IsFrom(q, batch, r.event))
  }

  predicate StoredBy(m: Message, outcomes: map<string, Outcome>) {
    m.body.Some? && m.body.value.org in outcomes && outcomes[m.body.value.org].Stored?
  }

  ghost predicate IsFrom(q: Queue, batch: seq<Id>, e: Event) {
    exists id :: id in batch && id in q && q[id].body == Some(e)
  }

  // ------------------------------------------------------------ the consumer

  datatype Decoded = Decoded(id: Id, event: Event)

  ghost predicate DistinctIds(s: seq<Decoded>) { forall i, j :: 0 <= i < j < |s| ==> s[i].id != s[j].id }

  function OrgOf(d: Decoded): string { d.event.org }

  class Consumer {
    var queue: Queue
    var inserts: seq<Row>

    constructor (queue: Queue)
      ensures this.queue == queue && inserts == []
    {
      this.queue, inserts := queue, [];
    }

    /** Decodes a batch; what does not decode is acked, since no redelivery would change it. An
        interruption may stop this at any message. */
    method DecodeBatch(batch: seq<Id>, now: int) returns (interrupted: bool, decoded: seq<Decoded>, ghost discarded: set<Id>)
      requires Deliverable(queue, batch)
      modifies `queue
      ensures forall id :: id in discarded ==> id in batch && id in old(queue) && old(queue)[id].body.None?
      ensures queue == AfterBatch(old(queue), Delivery(batch, map[], discarded, now))
      ensures !interrupted ==> forall id :: id in batch && old(queue)[id].body.None? ==> id in discarded
      ensures !interrupted ==> DistinctIds(decoded)
      ensures !interrupted ==>
        forall d :: d in decoded <==> d.id in batch && d.id in old(queue) && old(queue)[d.id].body == Some(d.event)
    {
      decoded, discarded := [], {};
      for k := 0 to |batch|
        invariant DistinctIds(decoded)
        invariant forall d :: d in decoded <==> d.id in batch[..k] && old(queue)[d.id].body == Some(d.event)
        invariant forall id :: id in discarded <==> id in batch[..k] && old(queue)[id].body.None?
        invariant queue == AfterBatch(old(queue), Delivery(batch, map[], discarded, now))
      {
        interrupted := *;
        if interrupted { return; }
        var id := batch[k];
        assert batch[..k + 1] == batch[..k] + [id] && id !in batch[..k];
        match queue[id].body
        case None =>
          queue := queue[id := Acked(queue[id], Discarded)];
          discarded := discarded + {id};
        case Some(e) => decoded := decoded + [Decoded(id, e)];
      }
      interrupted := false;
      assert batch[..|batch|] == batch;
    }

    /** Groups the decoded messages by organisation. */
    static method GroupByOrg(decoded: seq<Decoded>) returns (byOrg: map<string, seq<Decoded>>)
      ensures Groups(byOrg, decoded, OrgOf)
    {
      hide Groups, Having;
      byOrg := map[];
      NoGroups<string, Decoded>(OrgOf);
      for k := 0 to |decoded|
        invariant Groups(byOrg, decoded[..k], OrgOf)
      {
        assert decoded[..k + 1] == decoded[..k] + [decoded[k]];
        PushGroups(byOrg, decoded[..k], OrgOf, decoded[k]);
        byOrg := Push(byOrg, OrgOf(decoded[k]), decoded[k]);
      }
      assert decoded[..|decoded|] == decoded;
    }

    /** Writes one organisation's rows. A write that fails or is interrupted may have stored some. */
    method Ingest(group: seq<Decoded>, now: int) returns (o: Outcome)
      modifies `inserts
      ensures old(inserts) <= inserts
      ensures forall r :: r in inserts ==> r in old(inserts) || exists d :: d in group && d.event == r.event
      ensures o.Stored? ==> forall d :: d in group ==> Row(d.event, now) in inserts
    {
      o := *;
      var upTo: int := *;
      if o.Stored? || !(0 <= upTo <= |group|) { upTo := |group|; }
      for k := 0 to upTo
        invariant old(inserts) <= inserts
        invariant forall r :: r in inserts ==> r in old(inserts) || exists d :: d in group && d.event == r.event
        invariant forall j :: 0 <= j < k ==> Row(group[j].event, now) in inserts
      {
        assert group[k] in group;
        inserts := inserts + [Row(group[k].event, now)];
      }
    }

    /** Acks a stored group at once, retries a failed one message by message, and leaves an
        interrupted one to be redelivered; an interruption can also stop the retries halfway. */
    method SettleGroup(group: seq<Decoded>, o: Outcome) returns (interrupted: bool, ghost reached: set<Id>)
      requires forall k :: 0 <= k < |group| ==> group[k].id in queue
      requires DistinctIds(group)
      modifies `queue
      ensures queue.Keys == old(queue).Keys && reached <= set d | d in group :: d.id
      ensures forall id :: id in queue ==> queue[id] == if id in reached then AfterOutcome(old(queue)[id], o) else old(queue)[id]
      ensures o.Stored? || (o.Failed? && !interrupted) ==> reached == set d | d in group :: d.id
      ensures o.Interrupted? ==> interrupted && reached == {}
    {
      reached := {};
      if o.Interrupted? { return true, {}; }
      for k := 0 to |group|
        invariant queue.Keys == old(queue).Keys && reached == set d | d in group[..k] :: d.id
        invariant forall id :: id in queue ==> queue[id] == if id in reached then AfterOutcome(old(queue)[id], o) else old(queue)[id]
      {
        var d := group[k];
        assert group[..k + 1] == group[..k] + [d];
        forall x | x in group[..k] ensures x.id != d.id {}
        interrupted := *;
        if o.Failed? && interrupted { return; }
        queue := queue[d.id := if o.Stored? then Acked(queue[d.id], Written) else Retried(queue[d.id])];
        reached := reached + {d.id};
      }
      interrupted := false;
      assert group[..|group|] == group;
    }

    /** One batch, decoded, grouped and written organisation by organisation, in any order. Without
        an interruption every message is acked or retried. */
    method ProcessBatch(batch: seq<Id>, now: int) returns (interrupted: bool, ghost d: Delivery)
      requires Deliverable(queue, batch)
      modifies this
      ensures d.batch == batch && d.now == now && Proper(old(queue), d)
      ensures queue == AfterBatch(old(queue), d)
      ensures Inserted(old(queue), batch, d.outcomes, now, old(inserts), inserts)
      ensures !interrupted ==> forall id :: id in batch ==> id in d.reached
    {
      hide Groups, Having, Inserted;
      ghost var reached;
      var decoded;
      NothingInserted(old(queue), batch, now, inserts);
      interrupted, decoded, reached := DecodeBatch(batch, now);
      d := Delivery(batch, map[], reached, now);
      if interrupted { return; }
      var byOrg := GroupByOrg(decoded);
      var todo := byOrg.Keys;
      while todo != {}
        invariant todo <= byOrg.Keys && d.outcomes.Keys == byOrg.Keys - todo
        invariant d.batch == batch && d.now == now && Proper(old(queue), d)
        invariant queue == AfterBatch(old(queue), d)
        invariant Inserted(old(queue), batch, d.outcomes, now, old(inserts), inserts)
        invariant !interrupted ==> AllReached(old(queue), d)
        decreases todo
      {
        var org :| org in todo;
        todo := todo - {org};
        var group := byOrg[org];
        OrgGroup(old(queue), batch, decoded, byOrg, org);
        ghost var rows := inserts;
        var o := Ingest(group, now);
        InsertedMore(old(queue), batch, d.outcomes, now, old(inserts), rows, inserts, org, o, group);
        var stopped; ghost var more;
        stopped, more := SettleGroup(group, o);
        OneOrgSettled(old(queue), d, org, o, group, stopped, more, queue);
        d := d.(outcomes := d.outcomes[org := o], reached := d.reached + more);
        interrupted := interrupted || stopped;
      }
      forall id | !interrupted && id in batch ensures id in d.reached {
        if old(queue)[id].body.Some? {
          var x := Decoded(id, old(queue)[id].body.value);
          OrgGroup(old(queue), batch, decoded, byOrg, OrgOf(x));
          assert x in decoded;
        }
      }
    }
  }

  /** Malformed messages were reached, and so was every message of a group written for. */
  ghost predicate AllReached(q: Queue, d: Delivery) {
    forall id :: id in d.batch && id in q && (q[id].body.None? || q[id].body.value.org in d.outcomes) ==> id in d.reached
  }

  lemma NothingInserted(q: Queue, batch: seq<Id>, now: int, rows: seq<Row>)
    ensures Inserted(q, batch, map[], now, rows, rows)
  {}

  /** An organisation's group: its decodable messages in the batch, each once. */
  lemma OrgGroup(q: Queue, batch: seq<Id>, decoded: seq<Decoded>, byOrg: map<string, seq<Decoded>>, org: string)
    requires Groups(byOrg, decoded, OrgOf) && Deliverable(q, batch)
    requires forall d :: d in decoded <==> d.id in batch && d.id in q && q[d.id].body == Some(d.event)
    requires DistinctIds(decoded)
    ensures forall d :: d in Listed(byOrg, org) <==> d in decoded && d.event.org == org
    ensures DistinctIds(Listed(byOrg, org))
    ensures (exists d :: d in decoded && d.event.org == org) ==> org in byOrg
  {
    assert Listed(byOrg, org) == Having(decoded, OrgOf, org);
    HavingDistinct(decoded, org);
    if exists d :: d in decoded && d.event.org == org {
      var d :| d in decoded && d.event.org == org;
      assert d in Listed(byOrg, org);
    }
  }

  /** Settling one organisation's group is what its outcome adds to the delivery. */
  lemma OneOrgSettled(q: Queue, d: Delivery, org: string, o: Outcome, group: seq<Decoded>, stopped: bool, more: set<Id>, after: Queue)
    requires org !in d.outcomes && Deliverable(q, d.batch) && after.Keys == q.Keys && Proper(q, d)
    requires forall x :: x in group <==> x.id in d.batch && x.id in q && q[x.id].body == Some(x.event) && x.event.org == org
    requires more <= set x | x in group :: x.id
    requires forall id :: id in q ==> after[id] == if id in more then AfterOutcome(AfterBatch(q, d)[id], o) else AfterBatch(q, d)[id]
    requires o.Stored? || (o.Failed? && !stopped) ==> more == set x | x in group :: x.id
    requires o.Interrupted? ==> stopped && more == {}
    ensures
      var d' := d.(outcomes := d.outcomes[org := o], reached := d.reached + more);
      after == AfterBatch(q, d') && Proper(q, d') && (!stopped && AllReached(q, d) ==> AllReached(q, d'))
  {
    var d' := d.(outcomes := d.outcomes[org := o], reached := d.reached + more);
    forall id | id in q && id in d.batch && q[id].body.Some? && q[id].body.value.org == org
      ensures id !in d.reached && Decoded(id, q[id].body.value) in group
    {
    }
    forall id | id in more ensures id in d.batch && id in q && q[id].body.Some? && q[id].body.value.org == org {
      var x :| x in group && x.id == id;
    }
    forall id | id in q ensures after[id] == AfterBatch(q, d')[id] {
      assert after[id] == if id in more then AfterOutcome(AfterBatch(q, d)[id], o) else AfterBatch(q, d)[id];
    }
  }

  lemma {:induction false} HavingDistinct(decoded: seq<Decoded>, org: string)
    requires DistinctIds(decoded)
    ensures DistinctIds(Having(decoded, OrgOf, org))
  {
    if decoded != [] {
      var front, last := decoded[..|decoded| - 1], decoded[|decoded| - 1];
      HavingDistinct(front, org);
      var group := Having(front, OrgOf, org);
      forall i | 0 <= i < |group| ensures group[i].id != last.id {
        assert group[i] in front;
        var k :| 0 <= k < |front| && front[k] == group[i];
        assert decoded[k] == front[k];
      }
    }
  }

  lemma InsertedMore(q: Queue, batch: seq<Id>, outcomes: map<string, Outcome>, now: int, start: seq<Row>, before: seq<Row>, after: seq<Row>, org: string, o: Outcome, group: seq<Decoded>)
    requires Inserted(q, batch, outcomes, now, start, before) && before <= after && org !in outcomes
    requires forall d :: d in group <==> d.id in batch && d.id in q && q[d.id].body == Some(d.event) && d.event.org == org
    requires forall r :: r in after ==> r in before || exists d :: d in group && d.event == r.event
    requires o.Stored? ==> forall d :: d in group ==> Row(d.event, now) in after
    ensures Inserted(q, batch, outcomes[org := o], now, start, after)
  {
    forall id | id in batch && id in q && StoredBy(q[id], outcomes[org := o]) ensures Row(q[id].body.value, now) in after {
      if q[id].body.value.org == org {
        assert Decoded(id, q[id].body.value) in group;
      } else {
        assert Row(q[id].body.value, now) in before;
      }
    }
    forall r | r in after ensures r in start || IsFrom(q, batch, r.event) {
      if r !in before {
        var d :| d in group && d.event == r.event;
        assert q[d.id].body == Some(r.event);
      }
    }
  }

  /** One organisation's failure never changes another organisation's messages. */
  lemma OrgsAreIndependent(q: Queue, a: Delivery, b: Delivery, org: string)
    requires org in a.outcomes && org in b.outcomes && a.outcomes[org] == b.outcomes[org]
    requires forall id :: id in q && q[id].body.Some? && q[id].body.value.org == org ==> (id in a.reached <==> id in b.reached)
    ensures forall id :: id in q && q[id].body.Some? && q[id].body.value.org == org ==> AfterBatch(q, a)[id] == AfterBatch(q, b)[id]
  {}

  // ------------------------------------------------------------ every run of the queue

  /** Besides what the consumer does, the platform may count an interrupted delivery as an attempt
      of the messages that were not reached. */
  datatype Step =
    | Enqueue(id: Id, body: Option<Event>)
    | Deliver(delivery: Delivery, charged: set<Id>)

  function Charged(q: Queue, d: Delivery, charged: set<Id>): Queue {
    map id | id in q :: if id in d.batch && id !in d.reached && id in charged then Retried(q[id]) else q[id]
  }

  datatype State = State(queue: Queue, rows: seq<Row>)

  ghost predicate Next(s: State, step: Step, s': State) {
    match step
    case Enqueue(id, body) => id !in s.queue && s' == s.(queue := s.queue[id := Message(body, 1, Pending)])
    case Deliver(d, charged) =>
      && Deliverable(s.queue, d.batch) && Proper(s.queue, d)
      && s'.queue == Charged(AfterBatch(s.queue, d), d, charged)
      && Inserted(s.queue, d.batch, d.outcomes, d.now, s.rows, s'.rows)
  }

  ghost predicate IsRun(states: seq<State>, steps: seq<Step>) {
    && |states| == |steps| + 1 && states[0] == State(map[], [])
    && forall i :: 0 <= i < |steps| ==> Next(states[i], steps[i], states[i + 1])
  }

  ghost predicate HasRow(rows: seq<Row>, e: Event) { exists r :: r in rows && r.event == e }

  /** What a message's fate says: written means its row exists, discarded that it never decoded,
      dead-lettered that every retry was used. */
  ghost predicate MessageInv(m: Message, rows: seq<Row>) {
    match m.fate
    case Pending => 1 <= m.attempts <= MAX_RETRIES + 1
    case Written => m.body.Some? && HasRow(rows, m.body.value)
    case Discarded => m.body.None?
    case DeadLettered => m.attempts == MAX_RETRIES + 1
  }

  ghost predicate Inv(s: State) {
    && (forall id :: id in s.queue ==> MessageInv(s.queue[id], s.rows))
    && (forall r :: r in s.rows ==> exists id :: id in s.queue && s.queue[id].body == Some(r.event))
  }

  lemma NextInv(s: State, step: Step, s': State)
    requires Inv(s) && Next(s, step, s')
    ensures Inv(s')
  {
    forall id | id in s'.queue ensures MessageInv(s'.queue[id], s'.rows) {
      if id in s.queue { MessageNextInv(s, step, s', id); }
    }
    forall r | r in s'.rows ensures exists id :: id in s'.queue && s'.queue[id].body == Some(r.event) {
      if r in s.rows {
        var id :| id in s.queue && s.queue[id].body == Some(r.event);
        assert s'.queue[id].body == Some(r.event);
      } else {
        assert IsFrom(s.queue, step.delivery.batch, r.event);
        var id :| id in step.delivery.batch && id in s.queue && s.queue[id].body == Some(r.event);
        assert s'.queue[id].body == Some(r.event);
      }
    }
  }

  lemma MessageNextInv(s: State, step: Step, s': State, id: Id)
    requires Inv(s) && Next(s, step, s') && id in s.queue
    ensures id in s'.queue && MessageInv(s'.queue[id], s'.rows)
  {
    var m := s.queue[id];
    assert MessageInv(m, s.rows);
    if step.Deliver? {
      if m.fate.Written? {
        var r :| r in s.rows && r.event == m.body.value;
        assert r in s'.rows;
      }
      var d := step.delivery;
      if id in d.batch && StoredBy(m, d.outcomes) {
        assert Row(m.body.value, d.now) in s'.rows;
      }
      assert id in d.batch ==> m.fate.Pending?;
    }
  }

  lemma {:induction false} RunInv(states: seq<State>, steps: seq<Step>, i: nat)
    requires IsRun(states, steps) && i < |states|
    ensures Inv(states[i])
  {
    if i > 0 {
      RunInv(states, steps, i - 1);
      assert Next(states[i - 1], steps[i - 1], states[i - 1 + 1]);
      NextInv(states[i - 1], steps[i - 1], states[i]);
    }
  }

  /** No message is lost, and a settled one never changes again. */
  lemma {:induction false} SettledForGood(states: seq<State>, steps: seq<Step>, i: nat, j: nat, id: Id)
    requires IsRun(states, steps) && i <= j < |states| && id in states[i].queue
    ensures id in states[j].queue && states[j].queue[id].body == states[i].queue[id].body
    ensures !states[i].queue[id].fate.Pending? ==> states[j].queue[id] == states[i].queue[id]
    decreases j
  {
    if i < j {
      SettledForGood(states, steps, i, j - 1, id);
      assert Next(states[j - 1], steps[j - 1], states[j - 1 + 1]);
    }
  }

  // ------------------------------------------------------------ attempts

  /** The consumer settled or retried the message in this delivery. */
  predicate Reached(step: Step, id: Id) { step.Deliver? && id in step.delivery.batch && id in step.delivery.reached }

  /** The delivery used up an attempt: the consumer reached the message, or the platform charged it. */
  predicate Used(step: Step, id: Id) {
    step.Deliver? && id in step.delivery.batch && (id in step.delivery.reached || id in step.charged)
  }

  function CountSteps(steps: seq<Step>, id: Id, counts: (Step, Id) -> bool): nat {
    if steps == [] then 0
    else CountSteps(steps[..|steps| - 1], id, counts) + (if counts(steps[|steps| - 1], id) then 1 else 0)
  }

  lemma {:induction false} ReachedIsUsed(steps: seq<Step>, id: Id)
    ensures CountSteps(steps, id, Reached) <= CountSteps(steps, id, Used)
  {
    if steps != [] { ReachedIsUsed(steps[..|steps| - 1], id); }
  }

  lemma {:induction false} NotYetDelivered(states: seq<State>, steps: seq<Step>, i: nat, id: Id)
    requires IsRun(states, steps) && i < |states| && id !in states[i].queue
    ensures CountSteps(steps[..i], id, Used) == 0
  {
    if i > 0 {
      assert Next(states[i - 1], steps[i - 1], states[i - 1 + 1]);
      assert steps[..i][..i - 1] == steps[..i - 1];
      NotYetDelivered(states, steps, i - 1, id);
    }
  }

  /** The attempt number of a pending message is one more than the deliveries that were used, by the
      consumer or by the platform; a settled one used at most six, a dead-lettered one all six. */
  lemma {:induction false} AttemptsAreCounted(states: seq<State>, steps: seq<Step>, i: nat, id: Id)
    requires IsRun(states, steps) && i < |states| && id in states[i].queue
    ensures
      var m := states[i].queue[id];
      var used := CountSteps(steps[..i], id, Used);
      if m.fate.Pending? then used + 1 == m.attempts
      else used <= 6 && (m.fate.DeadLettered? ==> used == 6)
    decreases i
  {
    hide Inserted;
    if i > 0 {
      assert Next(states[i - 1], steps[i - 1], states[i - 1 + 1]);
      assert steps[..i][..i - 1] == steps[..i - 1];
      RunInv(states, steps, i - 1);
      if id in states[i - 1].queue {
        AttemptsAreCounted(states, steps, i - 1, id);
        assert MessageInv(states[i - 1].queue[id], states[i - 1].rows);
      } else {
        NotYetDelivered(states, steps, i - 1, id);
      }
    }
  }

  /** Six deliveries in which the consumer got to a message settle it, however often others were
      interrupted before. */
  lemma SixAttemptsSettle(states: seq<State>, steps: seq<Step>, i: nat, id: Id)
    requires IsRun(states, steps) && i < |states| && id in states[i].queue
    requires CountSteps(steps[..i], id, Reached) >= 6
    ensures !states[i].queue[id].fate.Pending?
  {
    ReachedIsUsed(steps[..i], id);
    AttemptsAreCounted(states, steps, i, id);
    RunInv(states, steps, i);
    assert MessageInv(states[i].queue[id], states[i].rows);
  }

  // ------------------------------------------------------------ the table after merging

  /** The table keeps one row per entry, the one inserted last. */
  function Merged(rows: seq<Row>): map<string, Row> {
    if rows == [] then map[]
    else Merged(rows[..|rows| - 1])[rows[|rows| - 1].event.entryId := rows[|rows| - 1]]
  }

  lemma {:induction false} MergedHas(rows: seq<Row>, key: string)
    ensures key in Merged(rows) <==> exists r :: r in rows && r.event.entryId == key
    ensures key in Merged(rows) ==> Merged(rows)[key] in rows && Merged(rows)[key].event.entryId == key
  {
    if rows != [] {
      var front, last := rows[..|rows| - 1], rows[|rows| - 1];
      assert rows == front + [last];
      MergedHas(front, key);
    }
  }

  predicate SameEntry(a: Message, b: Message) {
    a.body.Some? && b.body.Some? && a.body.value.entryId == b.body.value.entryId
  }

  /** Entry identifiers are unique per event, though an event may be enqueued twice. */
  ghost predicate EntriesAgree(q: Queue) {
    forall a, b :: a in q && b in q && SameEntry(q[a], q[b]) ==> q[a].body == q[b].body
  }

  /** However often it was redelivered, a written event has one row in the merged table, its own. */
  lemma WrittenOnce(states: seq<State>, steps: seq<Step>, i: nat, id: Id)
    requires IsRun(states, steps) && i < |states| && id in states[i].queue
    requires EntriesAgree(states[i].queue) && states[i].queue[id].fate.Written?
    ensures states[i].queue[id].body.Some?
    ensures
      var e := states[i].queue[id].body.value;
      e.entryId in Merged(states[i].rows) && Merged(states[i].rows)[e.entryId].event == e
  {
    var s := states[i];
    RunInv(states, steps, i);
    assert MessageInv(s.queue[id], s.rows);
    var e := s.queue[id].body.value;
    var r :| r in s.rows && r.event == e;
    MergedHas(s.rows, e.entryId);
    var kept := Merged(s.rows)[e.entryId];
    var other :| other in s.queue && s.queue[other].body == Some(kept.event);
    assert s.queue[other].body == s.queue[id].body;
  }
}
