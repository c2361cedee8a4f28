/**
 * The transactional outbox: event rows committed with the business change, and
 * flushers that turn them into queue jobs.
 *
 * Two views of the same code. The first is a state machine in which any number
 * of flushers run at once: the row lock taken by the flush query ends with the
 * query, so two flushers may hold the same rows, queue adds may land late, and a
 * flusher may die anywhere. The second is one flush as a loop over the oldest
 * pending rows. `FlushIsARun` shows the second to be a run of the first.
 */
module Outbox {

  const BATCH: nat := 50

  datatype Queue = Notifications | Payments | Dashboard
  datatype Status = Pending | Processed
  datatype Event = Event(id: string, tenant: string, kind: string, payload: string)
  datatype Row = Row(event: Event, status: Status, attempts: nat)
  datatype Job = Job(name: string, tenant: string, payload: string, traceId: string)

  type Rows = seq<Row>
  type Jobs = map<(Queue, string), Job>

  /// ## Routing and job ids

  function QueueName(q: Queue): (r: string) {
    match q
    case Notifications => "notifications"
    case Payments => "payments"
    case Dashboard => "dashboard"
  }

  function RouteToQueues(kind: string): (r: seq<Queue>) {
    if "appointment." <= kind then [Notifications, Dashboard]
    else if "payment." <= kind then [Payments, Dashboard]
    else if "customer." <= kind then [Dashboard]
    else [Notifications]
  }

  function JobId(q: Queue, eventId: string): (r: string) {
    "outbox-" + QueueName(q) + "-" + eventId
  }

  function JobOf(e: Event): (r: Job) {
    Job(e.kind, e.tenant, e.payload, e.id)
  }

  function KeyOf(q: Queue, e: Event): (r: (Queue, string)) {
    (q, JobId(q, e.id))
  }

  /** A queue keeps the first job it is given under an id and ignores the rest. */
  function Add(jobs: Jobs, q: Queue, e: Event): (r: Jobs) {
    if KeyOf(q, e) in jobs then jobs else jobs[KeyOf(q, e) := JobOf(e)]
  }

  /** No event is routed nowhere, and none is routed to a queue twice. */
  lemma RoutesAreProper(kind: string)
    ensures RouteToQueues(kind) != []
    ensures forall i, j :: 0 <= i < j < |RouteToQueues(kind)| ==> RouteToQueues(kind)[i] != RouteToQueues(kind)[j]
    ensures Payments in RouteToQueues(kind) <==> "payment." <= kind
    ensures Dashboard in RouteToQueues(kind) <==>
            "appointment." <= kind || "payment." <= kind || "customer." <= kind
    ensures Notifications in RouteToQueues(kind) <==>
            "appointment." <= kind || !("payment." <= kind || "customer." <= kind)
  {
    assert "appointment." <= kind ==> kind[0] == 'a';
    assert "payment." <= kind ==> kind[0] == 'p';
    assert "customer." <= kind ==> kind[0] == 'c';
  }

  lemma JobIdInjective(q: Queue, a: string, b: string)
    requires JobId(q, a) == JobId(q, b)
    ensures a == b
  {
    var head := "outbox-" + QueueName(q) + "-";
    assert a == JobId(q, a)[|head|..];
    assert b == JobId(q, b)[|head|..];
  }

  /** A job id belongs to one queue and one event. */
  lemma JobIdNamesJob(q: Queue, a: string, r: Queue, b: string)
    ensures JobId(q, a) == JobId(r, b) <==> q == r && a == b
  {
    EighthLetter(q, a);
    EighthLetter(r, b);
    if JobId(q, a) == JobId(r, b) { JobIdInjective(q, a, b); }
  }

  lemma EighthLetter(q: Queue, a: string)
    ensures |JobId(q, a)| > 7
    ensures JobId(q, a)[7] == match q case Notifications => 'n' case Payments => 'p' case Dashboard => 'd'
  {
    assert |"outbox-"| == 7 && JobId(q, a)[7] == QueueName(q)[0];
  }

  /** The names that the jobs of an event go by. */
  lemma JobIdText(a: string)
    ensures JobId(Notifications, a) == "outbox-" + "notifications" + "-" + a
    ensures JobId(Payments, a) == "outbox-" + "payments" + "-" + a
    ensures JobId(Dashboard, a) == "outbox-" + "dashboard" + "-" + a
  {
  }

  /// ## The rows

  predicate UniqueIds(rows: Rows) {
    forall i: nat, j: nat :: i < j < |rows| ==> rows[i].event.id != rows[j].event.id
  }

  predicate Backed(rows: Rows, e: Event) {
    exists i: nat :: i < |rows| && rows[i].event == e
  }

  predicate IsPending(rows: Rows, e: Event) {
    exists i: nat :: i < |rows| && rows[i].event == e && rows[i].status == Pending
  }

  predicate KnownId(rows: Rows, id: string) {
    exists i: nat :: i < |rows| && rows[i].event.id == id
  }

  function MarkProcessed(rows: Rows, id: string): (r: Rows) {
    seq(|rows|, i requires 0 <= i < |rows| =>
      if rows[i].event.id == id then rows[i].(status := Processed) else rows[i])
  }

  function BumpAttempts(rows: Rows, id: string): (r: Rows) {
    seq(|rows|, i requires 0 <= i < |rows| =>
      if rows[i].event.id == id then rows[i].(attempts := rows[i].attempts + 1) else rows[i])
  }

  /// ## Any number of flushers

  /** What is left of a flusher's batch, and how far the row at its head has got. */
  datatype Flusher = Flusher(todo: seq<Event>, landed: set<Queue>, failed: bool)

  /** `late` holds the adds whose flusher no longer waits for them: those in flight when another was
      rejected, and the rejected one itself, which may be in the queue with its answer lost. */
  datatype State = State(rows: Rows, jobs: Jobs, flushers: map<nat, Flusher>, late: set<(Queue, Event)>)

  datatype Step =
    | Commit(event: Event)
    | Begin(f: nat, batch: seq<Event>)
    | Lands(f: nat, queue: Queue)
    | Rejects(f: nat, queue: Queue)
    | Marks(f: nat)
    | MarkFails(f: nat)
    | Bumps(f: nat)
    | Dies(f: nat)
    | LandsLate(queue: Queue, event: Event)

  const EMPTY := State([], map[], map[], {})

  predicate Adding(s: State, f: nat) {
    f in s.flushers && s.flushers[f].todo != [] && !s.flushers[f].failed
  }

  predicate AddPending(s: State, f: nat, q: Queue) {
    && Adding(s, f)
    && q in RouteToQueues(s.flushers[f].todo[0].kind)
    && q !in s.flushers[f].landed
  }

  predicate AllLanded(s: State, f: nat) {
    && Adding(s, f)
    && forall q <- RouteToQueues(s.flushers[f].todo[0].kind) :: q in s.flushers[f].landed
  }

  predicate CanBegin(s: State, f: nat, batch: seq<Event>) {
    && f !in s.flushers
    && |batch| <= BATCH
    && (forall i: nat, j: nat :: i < j < |batch| ==> batch[i].id != batch[j].id)
    && (forall e <- batch :: IsPending(s.rows, e))
  }

  function InFlight(s: State, f: nat): (r: set<(Queue, Event)>)
    requires Adding(s, f)
  {
    set q <- RouteToQueues(s.flushers[f].todo[0].kind) | q !in s.flushers[f].landed :: (q, s.flushers[f].todo[0])
  }

  /** One step of the system; a step that is not possible changes nothing. */
  function Next(s: State, step: Step): (r: State) {
    match step
    case Commit(e) =>
      if KnownId(s.rows, e.id) then s else s.(rows := s.rows + [Row(e, Pending, 0)])
    case Begin(f, batch) =>
      if CanBegin(s, f, batch) then s.(flushers := s.flushers[f := Flusher(batch, {}, false)]) else s
    case Lands(f, q) =>
      if AddPending(s, f, q) then
        var fl := s.flushers[f];
        s.(jobs := Add(s.jobs, q, fl.todo[0]),
        flushers := s.flushers[f := fl.(landed := fl.landed + {q})])
      else s
    case Rejects(f, q) =>
      if AddPending(s, f, q) then
        s.(late := s.late + InFlight(s, f),
        flushers := s.flushers[f := s.flushers[f].(failed := true)])
      else s
    case Marks(f) =>
      if AllLanded(s, f) then
        s.(rows := MarkProcessed(s.rows, s.flushers[f].todo[0].id),
        flushers := s.flushers[f := Flusher(s.flushers[f].todo[1..], {}, false)])
      else s
    case MarkFails(f) =>
      if AllLanded(s, f) then s.(flushers := s.flushers[f := s.flushers[f].(failed := true)]) else s
    case Bumps(f) =>
      if f in s.flushers && s.flushers[f].todo != [] && s.flushers[f].failed then
        s.(rows := BumpAttempts(s.rows, s.flushers[f].todo[0].id),
        flushers := s.flushers[f := Flusher(s.flushers[f].todo[1..], {}, false)])
      else s
    case Dies(f) =>
      s.(late := s.late + (if Adding(s, f) then InFlight(s, f) else {}), flushers := s.flushers - {f})
    case LandsLate(q, e) =>
      if (q, e) in s.late then s.(jobs := Add(s.jobs, q, e)) else s
  }

  function Run(s: State, steps: seq<Step>): (r: State)
    decreases |steps|
  {
    if steps == [] then s else Run(Next(s, steps[0]), steps[1..])
  }

  /// ## What every step keeps

  /** A processed row has a job on every queue it is routed to. */
  predicate Delivered(rows: Rows, jobs: Jobs) {
    forall i: nat :: i < |rows| && rows[i].status == Processed ==> OnEveryQueue(jobs, rows[i].event)
  }

  predicate OnEveryQueue(jobs: Jobs, e: Event) {
    forall q <- RouteToQueues(e.kind) :: KeyOf(q, e) in jobs
  }

  /** Every job comes from a committed row, on a queue that row is routed to, unaltered. */
  predicate Traced(rows: Rows, jobs: Jobs) {
    forall k <- jobs :: HasSource(rows, k, jobs[k])
  }

  predicate HasSource(rows: Rows, k: (Queue, string), job: Job) {
    exists i: nat :: i < |rows| && SourceOf(rows[i].event, k, job)
  }

  predicate SourceOf(e: Event, k: (Queue, string), job: Job) {
    k == KeyOf(k.0, e) && k.0 in RouteToQueues(e.kind) && job == JobOf(e)
  }

  predicate ClaimsBacked(s: State) {
    && (forall f <- s.flushers :: forall e <- s.flushers[f].todo :: Backed(s.rows, e))
    && (forall p <- s.late :: Backed(s.rows, p.1) && p.0 in RouteToQueues(p.1.kind))
  }

  predicate LandedAreJobs(s: State) {
    forall f <- s.flushers | s.flushers[f].todo != [] ::
      forall q <- s.flushers[f].landed :: KeyOf(q, s.flushers[f].todo[0]) in s.jobs
  }

  predicate Inv(s: State) {
    UniqueIds(s.rows) && Delivered(s.rows, s.jobs) && Traced(s.rows, s.jobs) && ClaimsBacked(s) && LandedAreJobs(s)
  }

  predicate RowEvolves(r: Row, r': Row) {
    r'.event == r.event && (r.status == Processed ==> r'.status == Processed) && r.attempts <= r'.attempts
  }

  /** Rows are never lost, changed or put back to pending; jobs are never replaced. */
  predicate Evolves(s: State, t: State) {
    && |s.rows| <= |t.rows|
    && (forall i: nat :: i < |s.rows| ==> RowEvolves(s.rows[i], t.rows[i]))
    && (forall k <- s.jobs :: k in t.jobs && t.jobs[k] == s.jobs[k])
  }

  lemma NextEvolves(s: State, step: Step)
    ensures Evolves(s, Next(s, step))
  {
  }

  lemma NextKeepsIds(s: State, step: Step)
    requires UniqueIds(s.rows)
    ensures UniqueIds(Next(s, step).rows)
  {
    if step.Commit? && !KnownId(s.rows, step.event.id) {
      forall i: nat | i < |s.rows| ensures s.rows[i].event.id != step.event.id {}
    }
  }

  lemma NextKeepsClaims(s: State, step: Step)
    requires ClaimsBacked(s)
    ensures ClaimsBacked(Next(s, step))
  {
    var t := Next(s, step);
    NextEvolves(s, step);
    forall f, e | f in t.flushers && e in t.flushers[f].todo ensures Backed(t.rows, e) {
      if f !in s.flushers || e !in s.flushers[f].todo {
        assert step.Begin? && IsPending(s.rows, e);
      }
    }
    forall p | p in t.late ensures Backed(t.rows, p.1) && p.0 in RouteToQueues(p.1.kind) {
      if p !in s.late { assert p in InFlight(s, step.f); }
    }
  }

  lemma NextKeepsLanded(s: State, step: Step)
    requires LandedAreJobs(s)
    ensures LandedAreJobs(Next(s, step))
  {
  }

  lemma NextDelivers(s: State, step: Step)
    requires UniqueIds(s.rows) && Delivered(s.rows, s.jobs) && ClaimsBacked(s) && LandedAreJobs(s)
    ensures Delivered(Next(s, step).rows, Next(s, step).jobs)
  {
    var t := Next(s, step);
    NextEvolves(s, step);
    forall i: nat | i < |t.rows| && t.rows[i].status == Processed ensures OnEveryQueue(t.jobs, t.rows[i].event) {
      if i < |s.rows| && s.rows[i].status == Pending {
        assert AllLanded(s, step.f);
        var e := s.flushers[step.f].todo[0];
        assert Backed(s.rows, e);
        assert s.rows[i].event == e;
      }
    }
  }

  lemma AddTraces(rows: Rows, jobs: Jobs, q: Queue, e: Event)
    requires Traced(rows, jobs) && Backed(rows, e) && q in RouteToQueues(e.kind)
    ensures Traced(rows, Add(jobs, q, e))
  {
    var i: nat :| i < |rows| && rows[i].event == e;
    assert SourceOf(rows[i].event, KeyOf(q, e), JobOf(e));
  }

  lemma NextTraces(s: State, step: Step)
    requires Traced(s.rows, s.jobs) && ClaimsBacked(s)
    ensures Traced(Next(s, step).rows, Next(s, step).jobs)
  {
    if step.Lands? || step.LandsLate? {
      AddsAreTraced(s, step);
    } else {
      NextEvolves(s, step);
      OnlyAddsChangeJobs(s, step);
      TracedPersists(s, Next(s, step));
    }
  }

  lemma OnlyAddsChangeJobs(s: State, step: Step)
    requires !step.Lands? && !step.LandsLate?
    ensures Next(s, step).jobs == s.jobs
  {
  }

  lemma AddsAreTraced(s: State, step: Step)
    requires Traced(s.rows, s.jobs) && ClaimsBacked(s)
    requires step.Lands? || step.LandsLate?
    ensures Traced(Next(s, step).rows, Next(s, step).jobs)
  {
    if step.Lands? && AddPending(s, step.f, step.queue) {
      var e := s.flushers[step.f].todo[0];
      assert Backed(s.rows, e);
      AddTraces(s.rows, s.jobs, step.queue, e);
    } else if step.LandsLate? && (step.queue, step.event) in s.late {
      AddTraces(s.rows, s.jobs, step.queue, step.event);
    }
  }

  lemma TracedPersists(s: State, t: State)
    requires Traced(s.rows, s.jobs) && Evolves(s, t) && t.jobs == s.jobs
    ensures Traced(t.rows, t.jobs)
  {
    forall k | k in t.jobs ensures HasSource(t.rows, k, t.jobs[k]) {
      assert HasSource(s.rows, k, s.jobs[k]);
      var i: nat :| i < |s.rows| && SourceOf(s.rows[i].event, k, s.jobs[k]);
      assert RowEvolves(s.rows[i], t.rows[i]);
    }
  }

  lemma NextKeepsInv(s: State, step: Step)
    requires Inv(s)
    ensures Inv(Next(s, step))
  {
    NextKeepsIds(s, step);
    NextKeepsClaims(s, step);
    NextKeepsLanded(s, step);
    NextDelivers(s, step);
    NextTraces(s, step);
  }

  lemma {:induction false} RunKeepsInv(s: State, steps: seq<Step>)
    requires Inv(s)
    ensures Inv(Run(s, steps))
    decreases |steps|
  {
    if steps != [] {
      NextKeepsInv(s, steps[0]);
      RunKeepsInv(Next(s, steps[0]), steps[1..]);
    }
  }

  lemma EvolvesTransitive(s: State, t: State, u: State)
    requires Evolves(s, t) && Evolves(t, u)
    ensures Evolves(s, u)
  {
    forall i: nat | i < |s.rows| ensures RowEvolves(s.rows[i], u.rows[i]) {
      assert RowEvolves(s.rows[i], t.rows[i]) && RowEvolves(t.rows[i], u.rows[i]);
    }
  }

  lemma {:induction false} RunEvolves(s: State, steps: seq<Step>)
    ensures Evolves(s, Run(s, steps))
    decreases |steps|
  {
    if steps != [] {
      NextEvolves(s, steps[0]);
      RunEvolves(Next(s, steps[0]), steps[1..]);
      EvolvesTransitive(s, Next(s, steps[0]), Run(s, steps));
    }
  }

  /// ## Main results over every interleaving

  ghost predicate Reachable(s: State) {
    exists steps :: Run(EMPTY, steps) == s
  }

  lemma ReachableIsFine(s: State)
    requires Reachable(s)
    ensures Inv(s)
  {
    var steps :| Run(EMPTY, steps) == s;
    RunKeepsInv(EMPTY, steps);
  }

  /** No committed event is lost: it is still pending, or it can be read back whole from its job on each
      queue it is routed to. */
  lemma NothingIsLost(s: State, i: nat)
    requires Reachable(s) && i < |s.rows|
    ensures s.rows[i].status == Pending || HasItsJobs(s, s.rows[i].event)
  {
    ReachableIsFine(s);
    var e := s.rows[i].event;
    if s.rows[i].status == Processed {
      forall q | q in RouteToQueues(e.kind) ensures HoldsWhole(s.jobs, q, e) {
        JobIsTheRows(s, q, i);
      }
    }
  }

  predicate HasItsJobs(s: State, e: Event) {
    forall q <- RouteToQueues(e.kind) :: HoldsWhole(s.jobs, q, e)
  }

  /** The queue has a job under the event's id, and its fields are the event's, one by one. */
  predicate HoldsWhole(jobs: Jobs, q: Queue, e: Event) {
    var k := (q, "outbox-" + QueueName(q) + "-" + e.id);
    && k in jobs
    && jobs[k].name == e.kind && jobs[k].payload == e.payload
    && jobs[k].tenant == e.tenant && jobs[k].traceId == e.id
  }

  /** A job filed under a row's key is that row's own: ignoring a repeated id never drops another event. */
  lemma JobIsTheRows(s: State, q: Queue, i: nat)
    requires Inv(s) && i < |s.rows| && KeyOf(q, s.rows[i].event) in s.jobs
    ensures HoldsWhole(s.jobs, q, s.rows[i].event)
    ensures q in RouteToQueues(s.rows[i].event.kind)
  {
    var k := KeyOf(q, s.rows[i].event);
    assert HasSource(s.rows, k, s.jobs[k]);
    var j: nat :| j < |s.rows| && SourceOf(s.rows[j].event, k, s.jobs[k]);
    JobIdInjective(q, s.rows[i].event.id, s.rows[j].event.id);
    assert i == j;
  }

  /** Row `i` is the one that the job under `k` comes from, whole. */
  predicate OnlySource(s: State, k: (Queue, string), i: nat) {
    && k in s.jobs && i < |s.rows|
    && k.0 in RouteToQueues(s.rows[i].event.kind)
    && k.1 == "outbox-" + QueueName(k.0) + "-" + s.rows[i].event.id
    && HoldsWhole(s.jobs, k.0, s.rows[i].event)
    && forall j: nat :: j < |s.rows| && KeyOf(k.0, s.rows[j].event) == k ==> j == i
  }

  /** Every job is one committed row, whole, and a queue has at most one job for a row. */
  lemma EveryJobHasOneRow(s: State, k: (Queue, string))
    requires Reachable(s) && k in s.jobs
    ensures exists i: nat :: OnlySource(s, k, i)
    ensures forall k' <- s.jobs :: k'.0 == k.0 && s.jobs[k'].traceId == s.jobs[k].traceId ==> k' == k
  {
    ReachableIsFine(s);
    assert HasSource(s.rows, k, s.jobs[k]);
    var i: nat :| i < |s.rows| && SourceOf(s.rows[i].event, k, s.jobs[k]);
    forall j: nat | j < |s.rows| && KeyOf(k.0, s.rows[j].event) == k ensures j == i {
      JobIdInjective(k.0, s.rows[i].event.id, s.rows[j].event.id);
    }
    assert OnlySource(s, k, i);
    forall k' | k' in s.jobs && k'.0 == k.0 && s.jobs[k'].traceId == s.jobs[k].traceId ensures k' == k {
      assert HasSource(s.rows, k', s.jobs[k']);
    }
  }

  /** What has been processed stays processed, and its jobs stay what they were, whatever runs next. */
  lemma ProcessedIsFinal(s: State, after: seq<Step>, i: nat)
    requires Reachable(s) && i < |s.rows| && s.rows[i].status == Processed
    ensures var t := Run(s, after);
            && i < |t.rows| && t.rows[i].status == Processed && t.rows[i].event == s.rows[i].event
            && HasItsJobs(t, s.rows[i].event)
  {
    ReachableIsFine(s);
    RunEvolves(s, after);
    RunKeepsInv(s, after);
    var t := Run(s, after);
    assert RowEvolves(s.rows[i], t.rows[i]);
    forall q | q in RouteToQueues(s.rows[i].event.kind) ensures HoldsWhole(t.jobs, q, s.rows[i].event) {
      JobIsTheRows(t, q, i);
    }
  }

  /** An event is kept as it was committed, and from then on it is pending or can be read back whole from
      its jobs, under every interleaving before and after. */
  lemma CommittedIsDelivered(s: State, e: Event, after: seq<Step>)
    requires Reachable(s) && forall i: nat :: i < |s.rows| ==> s.rows[i].event.id != e.id
    ensures var t := Run(Next(s, Commit(e)), after);
            && |s.rows| < |t.rows| && t.rows[|s.rows|].event == e
            && (t.rows[|s.rows|].status == Pending || HasItsJobs(t, e))
  {
    var steps :| Run(EMPTY, steps) == s;
    var next, t := Next(s, Commit(e)), Run(Next(s, Commit(e)), after);
    RunConcat(EMPTY, steps, [Commit(e)] + after);
    assert ([Commit(e)] + after)[1..] == after;
    assert Run(s, [Commit(e)] + after) == t;
    assert Reachable(t);
    RunEvolves(next, after);
    assert RowEvolves(next.rows[|s.rows|], t.rows[|s.rows|]);
    NothingIsLost(t, |s.rows|);
  }

  lemma {:induction false} RunConcat(s: State, a: seq<Step>, b: seq<Step>)
    ensures Run(s, a + b) == Run(Run(s, a), b)
    decreases |a|
  {
    if a == [] {
      assert a + b == b;
    } else {
      assert (a + b)[1..] == a[1..] + b;
      RunConcat(Next(s, a[0]), a[1..], b);
    }
  }

  /// ### Batches, and adds that were given up

  /** A flusher takes at most fifty different events, each pending as it takes them, and only when it is
      not at work on others. */
  lemma BeginIff(s: State, f: nat, batch: seq<Event>)
    ensures f in s.flushers ==> Next(s, Begin(f, batch)) == s
    ensures f !in s.flushers ==>
      (f in Next(s, Begin(f, batch)).flushers <==>
        && |batch| <= 50
        && (forall i, j :: 0 <= i < j < |batch| ==> batch[i].id != batch[j].id)
        && (forall e :: e in batch ==>
              exists i: nat :: i < |s.rows| && s.rows[i].event == e && s.rows[i].status == Pending))
  {
    assert forall e :: e in batch ==> (IsPending(s.rows, e) <==>
      exists i: nat :: i < |s.rows| && s.rows[i].event == e && s.rows[i].status == Pending);
  }

  /** When a flusher dies, or gives a row up after one rejected add, each of its other adds that had not
      been answered may still land. */
  lemma GivenUpMayLand(s: State, f: nat, q: Queue, late: Queue, dies: bool)
    requires AddPending(s, f, q) && AddPending(s, f, late)
    ensures var e := s.flushers[f].todo[0];
            var gone := Next(s, if dies then Dies(f) else Rejects(f, q));
            && gone.jobs == s.jobs && gone.rows == s.rows
            && (late, "outbox-" + QueueName(late) + "-" + e.id) in Next(gone, LandsLate(late, e)).jobs
  {
    assert (late, s.flushers[f].todo[0]) in InFlight(s, f);
  }

  /** Marking a row can fail after all its jobs were added. Then the row is only counted and its jobs are
      there, so that adding them again is ignored. */
  lemma MarkMayFail(s: State, f: nat)
    requires Inv(s) && AllLanded(s, f)
    ensures var e := s.flushers[f].todo[0];
            var t := Next(Next(s, MarkFails(f)), Bumps(f));
            && t.jobs == s.jobs && |t.rows| == |s.rows|
            && (forall i: nat :: i < |s.rows| ==>
                  t.rows[i] == s.rows[i].(attempts := s.rows[i].attempts + if s.rows[i].event == e then 1 else 0))
            && forall q :: q in RouteToQueues(e.kind) ==> Add(t.jobs, q, e) == t.jobs
  {
    var e := s.flushers[f].todo[0];
    assert Backed(s.rows, e);
    var k: nat :| k < |s.rows| && s.rows[k].event == e;
    forall i: nat | i < |s.rows| && s.rows[i].event.id == e.id ensures i == k {}
  }

  /// ## One flush as a loop

  /** Which adds succeed. */
  type Reach = (Queue, Event) -> bool

  predicate Healthy(e: Event, up: Reach) {
    forall q <- RouteToQueues(e.kind) :: up(q, e)
  }

  function OldestPending(rows: Rows, n: nat): (r: seq<Event>) {
    if rows == [] || n == 0 then []
    else if rows[0].status == Processed then OldestPending(rows[1..], n)
    else [rows[0].event] + OldestPending(rows[1..], n - 1)
  }

  function Attempted(r: Row, up: Reach): (result: Row) {
    if Healthy(r.event, up) then r.(status := Processed) else r.(attempts := r.attempts + 1)
  }

  /** The table, oldest row first, after a flush that takes at most `n` pending rows. */
  function Flushed(rows: Rows, n: nat, up: Reach): (r: Rows) {
    if rows == [] || n == 0 then rows
    else if rows[0].status == Processed then [rows[0]] + Flushed(rows[1..], n, up)
    else [Attempted(rows[0], up)] + Flushed(rows[1..], n - 1, up)
  }

  /** The jobs once the adds to the first `i` queues of `e` have been answered. */
  function Fanned(jobs: Jobs, e: Event, i: nat, up: Reach): (r: Jobs)
    requires i <= Fan(e)
  {
    if i == 0 then jobs
    else
      var q := RouteToQueues(e.kind)[i - 1];
      if up(q, e) then Add(Fanned(jobs, e, i - 1, up), q, e) else Fanned(jobs, e, i - 1, up)
  }

  function Fan(e: Event): (r: nat) { |RouteToQueues(e.kind)| }

  function Dispatched(jobs: Jobs, batch: seq<Event>, up: Reach): (r: Jobs) {
    if batch == [] then jobs
    else
      var e := batch[|batch| - 1];
      Fanned(Dispatched(jobs, batch[..|batch| - 1], up), e, Fan(e), up)
  }

  function Settled(rows: Rows, e: Event, up: Reach): (r: Rows) {
    if Healthy(e, up) then MarkProcessed(rows, e.id) else BumpAttempts(rows, e.id)
  }

  lemma {:induction false} BatchIsBacked(rows: Rows, n: nat, k: nat)
    requires k < |OldestPending(rows, n)|
    ensures IsPending(rows, OldestPending(rows, n)[k])
  {
    if rows[0].status == Processed {
      BatchIsBacked(rows[1..], n, k);
      var e := OldestPending(rows, n)[k];
      var i: nat :| i < |rows[1..]| && rows[1..][i].event == e && rows[1..][i].status == Pending;
      assert rows[i + 1].event == OldestPending(rows, n)[k];
    } else if k == 0 {
      assert rows[0].event == OldestPending(rows, n)[k];
    } else {
      BatchIsBacked(rows[1..], n - 1, k - 1);
      var e := OldestPending(rows, n)[k];
      var i: nat :| i < |rows[1..]| && rows[1..][i].event == e && rows[1..][i].status == Pending;
      assert rows[i + 1].event == OldestPending(rows, n)[k];
    }
  }

  lemma TailIsUnique(rows: Rows)
    requires rows != [] && UniqueIds(rows)
    ensures UniqueIds(rows[1..])
    ensures forall e :: Backed(rows[1..], e) ==> e.id != rows[0].event.id
  {
  }

  function SettledRow(r: Row, e: Event, up: Reach): (result: Row) {
    if r.event.id != e.id then r
    else if Healthy(e, up) then r.(status := Processed)
    else r.(attempts := r.attempts + 1)
  }

  lemma MarkCons(r: Row, rest: Rows, id: string)
    ensures MarkProcessed([r] + rest, id) ==
      [if r.event.id == id then r.(status := Processed) else r] + MarkProcessed(rest, id)
  {
  }

  lemma BumpCons(r: Row, rest: Rows, id: string)
    ensures BumpAttempts([r] + rest, id) ==
      [if r.event.id == id then r.(attempts := r.attempts + 1) else r] + BumpAttempts(rest, id)
  {
  }

  lemma SettledCons(r: Row, rest: Rows, e: Event, up: Reach)
    ensures Settled([r] + rest, e, up) == [SettledRow(r, e, up)] + Settled(rest, e, up)
  {
    if Healthy(e, up) { MarkCons(r, rest, e.id); } else { BumpCons(r, rest, e.id); }
  }

  lemma SettledElsewhere(rows: Rows, e: Event, up: Reach)
    requires !KnownId(rows, e.id)
    ensures Settled(rows, e, up) == rows
  {
    forall i: nat | i < |rows| ensures Settled(rows, e, up)[i] == rows[i] {}
  }

  lemma FlushSkips(rows: Rows, k: nat, up: Reach)
    requires rows != [] && rows[0].status == Processed
    ensures Flushed(rows, k, up) == [rows[0]] + Flushed(rows[1..], k, up)
  {
    if k == 0 {
      FlushOfNone(rows, up);
      FlushOfNone(rows[1..], up);
    }
  }

  /** The body of the loop on the k-th row of the batch extends the flush by one row. */
  lemma {:induction false} FlushOneMore(rows: Rows, n: nat, k: nat, up: Reach)
    requires UniqueIds(rows) && k < |OldestPending(rows, n)|
    ensures Settled(Flushed(rows, k, up), OldestPending(rows, n)[k], up) == Flushed(rows, k + 1, up)
  {
    var e := OldestPending(rows, n)[k];
    TailIsUnique(rows);
    if rows[0].status == Processed {
      FlushOneMore(rows[1..], n, k, up);
      OtherHead(rows, n, k);
      FlushSkips(rows, k, up);
      FlushSkips(rows, k + 1, up);
      SettledCons(rows[0], Flushed(rows[1..], k, up), e, up);
    } else if k == 0 {
      FlushFirst(rows, up);
    } else {
      FlushOneMore(rows[1..], n - 1, k - 1, up);
      BatchIsBacked(rows[1..], n - 1, k - 1);
      SettledCons(Attempted(rows[0], up), Flushed(rows[1..], k - 1, up), e, up);
    }
  }

  lemma FlushFirst(rows: Rows, up: Reach)
    requires rows != [] && rows[0].status == Pending && UniqueIds(rows)
    ensures Settled(Flushed(rows, 0, up), rows[0].event, up) == Flushed(rows, 1, up)
  {
    TailIsUnique(rows);
    FlushOfNone(rows, up);
    FlushOfNone(rows[1..], up);
    assert rows == [rows[0]] + rows[1..];
    SettledCons(rows[0], rows[1..], rows[0].event, up);
    SettledElsewhere(rows[1..], rows[0].event, up);
  }

  lemma FlushOfNone(rows: Rows, up: Reach)
    ensures Flushed(rows, 0, up) == rows
  {
  }

  lemma OtherHead(rows: Rows, n: nat, k: nat)
    requires rows != [] && rows[0].status == Processed && UniqueIds(rows) && k < |OldestPending(rows, n)|
    ensures OldestPending(rows, n)[k].id != rows[0].event.id
  {
    TailIsUnique(rows);
    BatchIsBacked(rows[1..], n, k);
  }

  lemma {:induction false} WholeBatch(rows: Rows, n: nat, up: Reach)
    ensures |OldestPending(rows, n)| <= n
    ensures Flushed(rows, |OldestPending(rows, n)|, up) == Flushed(rows, n, up)
  {
    if rows != [] && n > 0 {
      if rows[0].status == Processed { WholeBatch(rows[1..], n, up); } else { WholeBatch(rows[1..], n - 1, up); }
      if OldestPending(rows, n) == [] { assert rows == [rows[0]] + rows[1..]; }
    }
  }

  /** The table and the queues, with the operations as they run. */
  class OutboxService {
    var rows: Rows  // oldest first
    var jobs: Jobs

    constructor ()
      ensures rows == [] && jobs == map[]
    {
      rows, jobs := [], map[];
    }

    method Enqueue(e: Event)
      requires !KnownId(rows, e.id)
      modifies this`rows
      ensures rows == old(rows) + [Row(e, Pending, 0)]
      ensures old(UniqueIds(rows)) ==> UniqueIds(rows)
    {
      assert forall i: nat :: i < |rows| ==> rows[i].event.id != e.id;
      rows := rows + [Row(e, Pending, 0)];
    }

    method FlushPending(up: Reach)
      requires UniqueIds(rows)
      modifies this
      ensures rows == Flushed(old(rows), BATCH, up)
      ensures jobs == Dispatched(old(jobs), OldestPending(old(rows), BATCH), up)
      ensures UniqueIds(rows)
    {
      var batch := OldestPending(rows, BATCH);
      for k := 0 to |batch|
        invariant rows == Flushed(old(rows), k, up)
        invariant jobs == Dispatched(old(jobs), batch[..k], up)
      {
        var e := batch[k];
        var ok := FanOut(e, up);
        FlushOneMore(old(rows), BATCH, k, up);
        assert batch[..k + 1][..k] == batch[..k];
        if ok {
          rows := MarkProcessed(rows, e.id);
        } else {
          rows := BumpAttempts(rows, e.id);
        }
      }
      assert batch[..|batch|] == batch;
      WholeBatch(old(rows), BATCH, up);
      FlushedEvents(old(rows), BATCH, up);
    }

    /** Adds one job per routed queue; `ok` when all of them were taken. */
    method FanOut(e: Event, up: Reach) returns (ok: bool)
      modifies this`jobs
      ensures ok == Healthy(e, up)
      ensures jobs == Fanned(old(jobs), e, Fan(e), up)
    {
      var queues := RouteToQueues(e.kind);
      ok := true;
      for i := 0 to |queues|
        invariant ok == forall q <- queues[..i] :: up(q, e)
        invariant jobs == Fanned(old(jobs), e, i, up)
      {
        assert queues[..i + 1] == queues[..i] + [queues[i]];
        if up(queues[i], e) {
          jobs := Add(jobs, queues[i], e);
        } else {
          ok := false;
        }
      }
      assert queues[..|queues|] == queues;
    }
  }

  /// ## A flush is a run of the state machine

  /** The adds that succeed among the first `i` queues of event `e`. */
  function LandSteps(f: nat, e: Event, i: nat, up: Reach): (r: seq<Step>)
    requires i <= Fan(e)
  {
    if i == 0 then []
    else
      var q := RouteToQueues(e.kind)[i - 1];
      LandSteps(f, e, i - 1, up) + (if up(q, e) then [Lands(f, q)] else [])
  }

  function LandedSoFar(e: Event, i: nat, up: Reach): (r: set<Queue>)
    requires i <= Fan(e)
  {
    if i == 0 then {}
    else
      var q := RouteToQueues(e.kind)[i - 1];
      LandedSoFar(e, i - 1, up) + (if up(q, e) then {q} else {})
  }

  lemma {:induction false} LandedIff(e: Event, i: nat, up: Reach, q: Queue)
    requires i <= Fan(e)
    ensures q in LandedSoFar(e, i, up) <==> q in RouteToQueues(e.kind)[..i] && up(q, e)
  {
    if i > 0 {
      LandedIff(e, i - 1, up, q);
      var qs := RouteToQueues(e.kind);
      assert qs[..i] == qs[..i - 1] + [qs[i - 1]];
    }
  }

  /** The state once the first `i` adds of the head row have been answered. */
  function LandState(s: State, f: nat, i: nat, up: Reach): (r: State)
    requires f in s.flushers && s.flushers[f].todo != [] && i <= Fan(s.flushers[f].todo[0])
  {
    var e := s.flushers[f].todo[0];
    s.(jobs := Fanned(s.jobs, e, i, up),
    flushers := s.flushers[f := s.flushers[f].(landed := LandedSoFar(e, i, up))])
  }

  lemma NotYetLanded(e: Event, i: nat, up: Reach)
    requires 0 < i <= Fan(e)
    ensures RouteToQueues(e.kind)[i - 1] !in LandedSoFar(e, i - 1, up)
  {
    RoutesAreProper(e.kind);
    LandedIff(e, i - 1, up, RouteToQueues(e.kind)[i - 1]);
  }

  lemma LandOneMore(s: State, f: nat, i: nat, up: Reach)
    requires f in s.flushers && s.flushers[f].todo != [] && !s.flushers[f].failed
    requires 0 < i <= Fan(s.flushers[f].todo[0])
    requires var e := s.flushers[f].todo[0]; up(RouteToQueues(e.kind)[i - 1], e)
    ensures var q := RouteToQueues(s.flushers[f].todo[0].kind)[i - 1];
            Next(LandState(s, f, i - 1, up), Lands(f, q)) == LandState(s, f, i, up)
  {
    var e := s.flushers[f].todo[0];
    var q := RouteToQueues(e.kind)[i - 1];
    NotYetLanded(e, i, up);
    var before := LandState(s, f, i - 1, up);
    assert AddPending(before, f, q);
    var after := s.flushers[f].(landed := LandedSoFar(e, i, up));
    assert before.flushers[f := after] == s.flushers[f := after];
  }

  lemma {:induction false} LandRun(s: State, f: nat, i: nat, up: Reach)
    requires f in s.flushers && s.flushers[f].todo != [] && !s.flushers[f].failed && s.flushers[f].landed == {}
    requires i <= Fan(s.flushers[f].todo[0])
    ensures Run(s, LandSteps(f, s.flushers[f].todo[0], i, up)) == LandState(s, f, i, up)
  {
    var e := s.flushers[f].todo[0];
    if i == 0 {
      assert s.flushers[f := s.flushers[f].(landed := LandedSoFar(e, 0, up))] == s.flushers;
    } else {
      LandRun(s, f, i - 1, up);
      var q := RouteToQueues(e.kind)[i - 1];
      if up(q, e) {
        RunConcat(s, LandSteps(f, e, i - 1, up), [Lands(f, q)]);
        LandOneMore(s, f, i, up);
      } else {
        assert LandSteps(f, e, i, up) == LandSteps(f, e, i - 1, up);
        assert LandedSoFar(e, i, up) == LandedSoFar(e, i - 1, up);
      }
    }
  }

  /** State `t` in everything but its late adds. */
  predicate Reached(t: State, rows: Rows, jobs: Jobs, flushers: map<nat, Flusher>) {
    t.rows == rows && t.jobs == jobs && t.flushers == flushers
  }

  /** A row whose adds have all been answered is marked or bumped. */
  lemma RowEnds(s: State, f: nat, up: Reach) returns (steps: seq<Step>)
    requires f in s.flushers && s.flushers[f].todo != [] && !s.flushers[f].failed
    requires var e := s.flushers[f].todo[0];
             forall q <- RouteToQueues(e.kind) :: up(q, e) <==> q in s.flushers[f].landed
    ensures var e := s.flushers[f].todo[0];
            Reached(Run(s, steps), Settled(s.rows, e, up), s.jobs,
                    s.flushers[f := Flusher(s.flushers[f].todo[1..], {}, false)])
  {
    var e := s.flushers[f].todo[0];
    if Healthy(e, up) {
      assert AllLanded(s, f);
      steps := [Marks(f)];
      assert Run(s, steps) == Next(s, Marks(f));
    } else {
      var q :| q in RouteToQueues(e.kind) && !up(q, e);
      assert AddPending(s, f, q);
      steps := [Rejects(f, q), Bumps(f)];
      var t := Next(s, Rejects(f, q));
      assert Run(s, steps) == Run(t, [Bumps(f)]) == Next(t, Bumps(f));
    }
  }

  lemma RowRun(s: State, f: nat, up: Reach) returns (steps: seq<Step>)
    requires f in s.flushers && s.flushers[f].todo != [] && !s.flushers[f].failed && s.flushers[f].landed == {}
    ensures var e := s.flushers[f].todo[0];
            Reached(Run(s, steps), Settled(s.rows, e, up), Fanned(s.jobs, e, Fan(e), up),
                    s.flushers[f := Flusher(s.flushers[f].todo[1..], {}, false)])
  {
    var e := s.flushers[f].todo[0];
    var lands := LandSteps(f, e, Fan(e), up);
    LandRun(s, f, Fan(e), up);
    var t := Run(s, lands);
    forall q | q in RouteToQueues(e.kind) ensures up(q, e) <==> q in t.flushers[f].landed {
      LandedIff(e, Fan(e), up, q);
    }
    var last := RowEnds(t, f, up);
    steps := lands + last;
    RunConcat(s, lands, last);
    assert t.flushers[f := Flusher(s.flushers[f].todo[1..], {}, false)]
        == s.flushers[f := Flusher(s.flushers[f].todo[1..], {}, false)];
  }

  /** Dispatching a batch front to back, as the machine does. */
  function Worked(rows: Rows, batch: seq<Event>, up: Reach): (r: Rows) {
    if batch == [] then rows else Settled(Worked(rows, batch[..|batch| - 1], up), batch[|batch| - 1], up)
  }

  lemma {:induction false} BatchRun(s: State, f: nat, batch: seq<Event>, n: nat, up: Reach) returns (steps: seq<Step>)
    requires f in s.flushers && s.flushers[f] == Flusher(batch, {}, false) && n <= |batch|
    ensures Reached(Run(s, steps), Worked(s.rows, batch[..n], up), Dispatched(s.jobs, batch[..n], up),
                    s.flushers[f := Flusher(batch[n..], {}, false)])
  {
    if n == 0 {
      steps := [];
      assert s.flushers[f := Flusher(batch[0..], {}, false)] == s.flushers;
    } else {
      var before := BatchRun(s, f, batch, n - 1, up);
      var row := RowRun(Run(s, before), f, up);
      steps := before + row;
      RunConcat(s, before, row);
      assert batch[..n][..n - 1] == batch[..n - 1];
      assert batch[n - 1..][1..] == batch[n..];
      assert s.flushers[f := Flusher(batch[n - 1..], {}, false)][f := Flusher(batch[n..], {}, false)]
          == s.flushers[f := Flusher(batch[n..], {}, false)];
    }
  }

  lemma {:induction false} WorkedIsFlushed(rows: Rows, k: nat, up: Reach)
    requires UniqueIds(rows) && k <= |OldestPending(rows, BATCH)|
    ensures Worked(rows, OldestPending(rows, BATCH)[..k], up) == Flushed(rows, k, up)
  {
    if k > 0 {
      WorkedIsFlushed(rows, k - 1, up);
      FlushOneMore(rows, BATCH, k - 1, up);
      assert OldestPending(rows, BATCH)[..k][..k - 1] == OldestPending(rows, BATCH)[..k - 1];
    }
  }

  lemma {:induction false} BatchIsDistinct(rows: Rows, n: nat)
    requires UniqueIds(rows)
    ensures forall i: nat, j: nat :: i < j < |OldestPending(rows, n)| ==>
              OldestPending(rows, n)[i].id != OldestPending(rows, n)[j].id
  {
    if rows != [] && n > 0 {
      TailIsUnique(rows);
      if rows[0].status == Processed {
        BatchIsDistinct(rows[1..], n);
      } else {
        BatchIsDistinct(rows[1..], n - 1);
        var rest := OldestPending(rows[1..], n - 1);
        forall k: nat | k < |rest| ensures rest[k].id != rows[0].event.id {
          BatchIsBacked(rows[1..], n - 1, k);
        }
      }
    }
  }

  lemma BatchCanBegin(s: State, f: nat)
    requires UniqueIds(s.rows) && f !in s.flushers
    ensures CanBegin(s, f, OldestPending(s.rows, BATCH))
  {
    var batch := OldestPending(s.rows, BATCH);
    BatchIsDistinct(s.rows, BATCH);
    WholeBatch(s.rows, BATCH, (q, e) => true);
    forall e | e in batch ensures IsPending(s.rows, e) {
      var k: nat :| k < |batch| && batch[k] == e;
      BatchIsBacked(s.rows, BATCH, k);
    }
  }

  /** What `FlushPending` does to the table and the queues, the state machine can do. */
  lemma FlushIsARun(s: State, f: nat, up: Reach)
    requires UniqueIds(s.rows) && f !in s.flushers
    ensures exists steps ::
              && Run(s, steps).rows == Flushed(s.rows, BATCH, up)
              && Run(s, steps).jobs == Dispatched(s.jobs, OldestPending(s.rows, BATCH), up)
  {
    var batch := OldestPending(s.rows, BATCH);
    BatchCanBegin(s, f);
    var t := Next(s, Begin(f, batch));
    var rest := BatchRun(t, f, batch, |batch|, up);
    assert batch[..|batch|] == batch;
    WorkedIsFlushed(s.rows, |batch|, up);
    WholeBatch(s.rows, BATCH, up);
    var steps := [Begin(f, batch)] + rest;
    assert steps[1..] == rest;
    assert Run(s, steps) == Run(t, rest);
  }

  lemma {:induction false} FlushedEvents(rows: Rows, n: nat, up: Reach)
    ensures |Flushed(rows, n, up)| == |rows|
    ensures forall i: nat :: i < |rows| ==> RowEvolves(rows[i], Flushed(rows, n, up)[i])
  {
    if rows != [] && n > 0 {
      if rows[0].status == Processed { FlushedEvents(rows[1..], n, up); } else { FlushedEvents(rows[1..], n - 1, up); }
    }
  }
}
