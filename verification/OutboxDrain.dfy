/**
 * How fast the outbox drains, and when it does not: flushes one after the other over
 * the 50 oldest pending rows. Rows committed in between may be older than rows that are
 * already there, because a row is as old as the transaction that wrote it.
 */
module OutboxDrain {
  import opened Outbox

  /// ## Counting

  function One(b: bool): (n: nat) { if b then 1 else 0 }

  /** The row is pending, and some queue keeps refusing it. */
  predicate IsFailing(r: Row, up: Reach) {
    r.status == Pending && !Healthy(r.event, up)
  }

  /** The row is pending, and its every add would succeed. */
  predicate IsWaiting(r: Row, up: Reach) {
    r.status == Pending && Healthy(r.event, up)
  }

  function Failing(rows: Rows, up: Reach): (n: nat) {
    if rows == [] then 0 else One(IsFailing(rows[0], up)) + Failing(rows[1..], up)
  }

  function Waiting(rows: Rows, up: Reach): (n: nat) {
    if rows == [] then 0 else One(IsWaiting(rows[0], up)) + Waiting(rows[1..], up)
  }

  function PendingIn(rows: Rows): (n: nat) {
    if rows == [] then 0 else One(rows[0].status == Pending) + PendingIn(rows[1..])
  }

  lemma {:induction false} CountsAdd(a: Rows, b: Rows, up: Reach)
    ensures Failing(a + b, up) == Failing(a, up) + Failing(b, up)
    ensures Waiting(a + b, up) == Waiting(a, up) + Waiting(b, up)
  {
    if a == [] {
      assert a + b == b;
    } else {
      assert (a + b)[1..] == a[1..] + b;
      CountsAdd(a[1..], b, up);
    }
  }

  lemma CountsOfOne(r: Row, up: Reach)
    ensures Failing([r], up) == One(IsFailing(r, up))
    ensures Waiting([r], up) == One(IsWaiting(r, up))
  {
    assert [r][1..] == [];
  }

  function Min(a: int, b: int): (m: int) { if a <= b then a else b }
  function Max(a: int, b: int): (m: int) { if a <= b then b else a }

  /// ## One flush

  /** One flush processes at least min(waiting, n - failing) healthy rows and no failing one. */
  lemma {:induction false} FlushMeasure(rows: Rows, n: nat, up: Reach)
    ensures Failing(Flushed(rows, n, up), up) == Failing(rows, up)
    ensures Waiting(rows, up) - Waiting(Flushed(rows, n, up), up) >= Min(Waiting(rows, up), n - Failing(rows, up))
    ensures Waiting(Flushed(rows, n, up), up) <= Waiting(rows, up)
  {
    if rows != [] && n > 0 {
      FlushMeasure(rows[1..], if rows[0].status == Processed then n else n - 1, up);
    }
  }

  /** What a flush does to the older rows does not depend on the younger ones. */
  lemma {:induction false} FlushOfPrefix(rows: Rows, n: nat, k: nat, up: Reach)
    requires k <= |rows|
    ensures |Flushed(rows, n, up)| == |rows|
    ensures Flushed(rows, n, up)[..k] == Flushed(rows[..k], n, up)
  {
    FlushedEvents(rows, n, up);
    if k > 0 && n > 0 {
      assert rows[..k][1..] == rows[1..][..k - 1];
      FlushOfPrefix(rows[1..], if rows[0].status == Processed then n else n - 1, k - 1, up);
    }
  }

  /** The row after an attempt to add its jobs: processed when every queue took one, else counted. */
  predicate IsAttempted(r: Row, r': Row, up: Reach) {
    && r'.event == r.event
    && (r'.status == Processed <==> forall q <- RouteToQueues(r.event.kind) :: up(q, r.event))
    && r'.attempts == r.attempts + if r'.status == Processed then 0 else 1
  }

  /** What one flush does to one row: an attempt, if fewer than `n` older rows are pending. */
  lemma {:induction false} FlushedAt(rows: Rows, n: nat, i: nat, up: Reach)
    requires i < |rows|
    ensures |Flushed(rows, n, up)| == |rows|
    ensures if rows[i].status == Pending && PendingIn(rows[..i]) < n
      then IsAttempted(rows[i], Flushed(rows, n, up)[i], up) else Flushed(rows, n, up)[i] == rows[i]
  {
    FlushedEvents(rows, n, up);
    if i > 0 && n > 0 {
      assert rows[..i][1..] == rows[1..][..i - 1];
      FlushedAt(rows[1..], if rows[0].status == Processed then n else n - 1, i - 1, up);
    }
  }

  /// ## The jobs of one flush

  lemma {:induction false} InBatch(rows: Rows, n: nat, i: nat)
    requires i < |rows| && rows[i].status == Pending && PendingIn(rows[..i]) < n
    ensures rows[i].event in OldestPending(rows, n)
  {
    if i > 0 {
      assert rows[..i][1..] == rows[1..][..i - 1];
      InBatch(rows[1..], if rows[0].status == Processed then n else n - 1, i - 1);
    }
  }

  /** The add of `e` to `q` is one of those that a batch makes, and succeeds. */
  predicate Lands(batch: seq<Event>, up: Reach, q: Queue, e: Event) {
    e in batch && q in RouteToQueues(e.kind) && up(q, e)
  }

  lemma {:induction false} FannedKeys(jobs: Jobs, e: Event, i: nat, up: Reach, k: (Queue, string))
    requires i <= Fan(e)
    ensures k in Fanned(jobs, e, i, up) <==>
      k in jobs || (k.0 in RouteToQueues(e.kind)[..i] && up(k.0, e) && k == KeyOf(k.0, e))
    ensures k in Fanned(jobs, e, i, up) ==>
      Fanned(jobs, e, i, up)[k] == if k in jobs then jobs[k] else JobOf(e)
  {
    if i > 0 {
      FannedKeys(jobs, e, i - 1, up, k);
      var qs := RouteToQueues(e.kind);
      assert qs[..i] == qs[..i - 1] + [qs[i - 1]];
    }
  }

  /** A batch leaves the jobs there were as they are, and adds one for each add that succeeds. */
  lemma {:induction false} DispatchedKeys(jobs: Jobs, batch: seq<Event>, up: Reach, k: (Queue, string))
    ensures k in Dispatched(jobs, batch, up) <==>
      k in jobs || exists e :: Lands(batch, up, k.0, e) && k == KeyOf(k.0, e)
    ensures k in jobs ==> Dispatched(jobs, batch, up)[k] == jobs[k]
    ensures k in Dispatched(jobs, batch, up) && k !in jobs ==>
      exists e :: Lands(batch, up, k.0, e) && k == KeyOf(k.0, e) && Dispatched(jobs, batch, up)[k] == JobOf(e)
  {
    if batch != [] {
      var init, last := batch[..|batch| - 1], batch[|batch| - 1];
      assert batch == init + [last];
      DispatchedKeys(jobs, init, up, k);
      FannedKeys(Dispatched(jobs, init, up), last, Fan(last), up, k);
      assert RouteToQueues(last.kind)[..Fan(last)] == RouteToQueues(last.kind);
      assert forall e :: Lands(batch, up, k.0, e) <==>
        Lands(init, up, k.0, e) || (e == last && k.0 in RouteToQueues(e.kind) && up(k.0, e));
    }
  }

  /** One flush and one of the fifty oldest pending rows: each routed queue that takes the add has the whole
      event afterwards, and one that does not has a job of it only if it had one before. */
  lemma FlushDelivers(rows: Rows, jobs: Jobs, i: nat, q: Queue, up: Reach)
    requires UniqueIds(rows) && Traced(rows, jobs)
    requires i < |rows| && rows[i].status == Pending && PendingIn(rows[..i]) < 50
    requires q in RouteToQueues(rows[i].event.kind)
    ensures var after := Dispatched(jobs, OldestPending(rows, BATCH), up);
            HoldsWhole(after, q, rows[i].event) <==> up(q, rows[i].event) || HoldsWhole(jobs, q, rows[i].event)
  {
    var batch, e := OldestPending(rows, BATCH), rows[i].event;
    var k := KeyOf(q, e);
    InBatch(rows, BATCH, i);
    DispatchedKeys(jobs, batch, up, k);
    if k in jobs {
      assert HasSource(rows, k, jobs[k]);
      var j: nat :| j < |rows| && SourceOf(rows[j].event, k, jobs[k]);
      JobIdInjective(q, e.id, rows[j].event.id);
    } else {
      assert up(q, e) ==> Lands(batch, up, q, e);
      forall e' | Lands(batch, up, q, e') && k == KeyOf(q, e') ensures e' == e {
        JobIdInjective(q, e.id, e'.id);
        BatchFrom(rows, BATCH, e');
      }
    }
  }

  lemma BatchFrom(rows: Rows, n: nat, e: Event)
    requires e in OldestPending(rows, n)
    ensures Backed(rows, e)
  {
    var k: nat :| k < |OldestPending(rows, n)| && OldestPending(rows, n)[k] == e;
    BatchIsBacked(rows, n, k);
  }

  /// ## Flushes with nothing committed in between

  function Repeated(rows: Rows, m: nat, up: Reach): (r: Rows)
    decreases m
  {
    if m == 0 then rows else Repeated(Flushed(rows, BATCH, up), m - 1, up)
  }

  /** After m flushes at most waiting - m * (50 - failing) healthy rows are left. */
  lemma {:induction false} Drains(rows: Rows, m: nat, up: Reach)
    requires Failing(rows, up) < BATCH
    ensures Failing(Repeated(rows, m, up), up) == Failing(rows, up)
    ensures Waiting(Repeated(rows, m, up), up) <= Max(0, Waiting(rows, up) - m * (BATCH - Failing(rows, up)))
    ensures m >= Waiting(rows, up) ==> Waiting(Repeated(rows, m, up), up) == 0
    decreases m
  {
    if m > 0 {
      var next := Flushed(rows, BATCH, up);
      FlushMeasure(rows, BATCH, up);
      Drains(next, m - 1, up);
      assert m * (BATCH - Failing(rows, up)) == (m - 1) * (BATCH - Failing(rows, up)) + (BATCH - Failing(rows, up));
    }
  }

  /// ## Flushes with rows committed in between

  /** A row that takes its place, by age, after the `at` oldest rows. */
  datatype Arrival = Arrival(at: nat, row: Row)

  /** A flush with its own failures, and what is committed after it. */
  datatype Round = Round(up: Reach, arrivals: seq<Arrival>)

  function Arrive(rows: Rows, a: Arrival): (r: Rows) {
    if a.at <= |rows| then rows[..a.at] + [a.row] + rows[a.at..] else rows + [a.row]
  }

  function ArriveAll(rows: Rows, arrivals: seq<Arrival>): (r: Rows)
    decreases |arrivals|
  {
    if arrivals == [] then rows else ArriveAll(Arrive(rows, arrivals[0]), arrivals[1..])
  }

  /** Where row `i` is once `a` has arrived. */
  function Shifted(i: nat, a: Arrival): (j: nat) { if a.at <= i then i + 1 else i }

  function ShiftedAll(i: nat, arrivals: seq<Arrival>): (j: nat)
    decreases |arrivals|
  {
    if arrivals == [] then i else ShiftedAll(Shifted(i, arrivals[0]), arrivals[1..])
  }

  function Rounds(rows: Rows, rounds: seq<Round>): (r: Rows)
    decreases |rounds|
  {
    if rounds == [] then rows
    else Rounds(ArriveAll(Flushed(rows, BATCH, rounds[0].up), rounds[0].arrivals), rounds[1..])
  }

  /** Where row `i` is at the end of the run. */
  function Place(i: nat, rounds: seq<Round>): (j: nat)
    decreases |rounds|
  {
    if rounds == [] then i else Place(ShiftedAll(i, rounds[0].arrivals), rounds[1..])
  }

  lemma ArriveKeeps(rows: Rows, a: Arrival, i: nat)
    requires i < |rows|
    ensures Shifted(i, a) < |Arrive(rows, a)| && Arrive(rows, a)[Shifted(i, a)] == rows[i]
    ensures Arrive(rows, a)[..Shifted(i, a)] == if a.at <= i then Arrive(rows[..i], a) else rows[..i]
  {
    if a.at <= i {
      ArriveOlder(rows[..a.at], a.row, rows[a.at..], i - a.at);
      assert rows[..i][..a.at] == rows[..a.at];
      assert rows[..i][a.at..] == rows[a.at..][..i - a.at];
    }
  }

  lemma ArriveOlder(before: Rows, r: Row, after: Rows, k: nat)
    requires k < |after|
    ensures (before + [r] + after)[|before| + 1 + k] == after[k]
    ensures (before + [r] + after)[..|before| + 1 + k] == before + [r] + after[..k]
  {
  }

  lemma {:induction false} ArriveAllKeeps(rows: Rows, arrivals: seq<Arrival>, i: nat)
    requires i < |rows|
    ensures ShiftedAll(i, arrivals) < |ArriveAll(rows, arrivals)|
    ensures ArriveAll(rows, arrivals)[ShiftedAll(i, arrivals)] == rows[i]
    decreases |arrivals|
  {
    if arrivals != [] {
      ArriveKeeps(rows, arrivals[0], i);
      ArriveAllKeeps(Arrive(rows, arrivals[0]), arrivals[1..], Shifted(i, arrivals[0]));
    }
  }

  /** Some flush of the run finds row `i` among the 50 oldest pending rows and all its queues reachable. */
  predicate GetsChance(rows: Rows, rounds: seq<Round>, i: nat)
    decreases |rounds|
  {
    i < |rows| && rounds != [] &&
    (|| (PendingIn(rows[..i]) < BATCH && Healthy(rows[i].event, rounds[0].up))
     || GetsChance(ArriveAll(Flushed(rows, BATCH, rounds[0].up), rounds[0].arrivals), rounds[1..],
                   ShiftedAll(i, rounds[0].arrivals)))
  }

  lemma {:induction false} ProcessedStays(rows: Rows, rounds: seq<Round>, i: nat)
    requires i < |rows| && rows[i].status == Processed
    ensures Place(i, rounds) < |Rounds(rows, rounds)| && Rounds(rows, rounds)[Place(i, rounds)] == rows[i]
    decreases |rounds|
  {
    if rounds != [] {
      var flushed := Flushed(rows, BATCH, rounds[0].up);
      FlushedAt(rows, BATCH, i, rounds[0].up);
      ArriveAllKeeps(flushed, rounds[0].arrivals, i);
      ProcessedStays(ArriveAll(flushed, rounds[0].arrivals), rounds[1..], ShiftedAll(i, rounds[0].arrivals));
    }
  }

  /** Whatever fails when, and whatever is committed in between, older or younger: an event is delivered
      exactly when some flush gives it its chance. */
  lemma {:induction false} DeliveredIffChance(rows: Rows, rounds: seq<Round>, i: nat)
    requires i < |rows| && rows[i].status == Pending
    ensures Place(i, rounds) < |Rounds(rows, rounds)|
    ensures Rounds(rows, rounds)[Place(i, rounds)].event == rows[i].event
    ensures Rounds(rows, rounds)[Place(i, rounds)].status == Processed <==> GetsChance(rows, rounds, i)
    decreases |rounds|
  {
    if rounds != [] {
      var flushed, j := Flushed(rows, BATCH, rounds[0].up), ShiftedAll(i, rounds[0].arrivals);
      var next := ArriveAll(flushed, rounds[0].arrivals);
      FlushedAt(rows, BATCH, i, rounds[0].up);
      ArriveAllKeeps(flushed, rounds[0].arrivals, i);
      if next[j].status == Processed {
        ProcessedStays(next, rounds[1..], j);
      } else {
        DeliveredIffChance(next, rounds[1..], j);
      }
    }
  }

  /** How many flushes of the run try row `i` and find one of its queues out of reach. */
  function Failures(rows: Rows, rounds: seq<Round>, i: nat): (n: nat)
    decreases |rounds|
  {
    if rounds == [] || i >= |rows| || rows[i].status == Processed then 0
    else
      One(PendingIn(rows[..i]) < 50 && !Healthy(rows[i].event, rounds[0].up))
      + Failures(ArriveAll(Flushed(rows, BATCH, rounds[0].up), rounds[0].arrivals), rounds[1..],
                 ShiftedAll(i, rounds[0].arrivals))
  }

  /** The attempts on a row count exactly the flushes that tried it in vain. */
  lemma {:induction false} AttemptsAreFailures(rows: Rows, rounds: seq<Round>, i: nat)
    requires i < |rows|
    ensures Place(i, rounds) < |Rounds(rows, rounds)|
    ensures Rounds(rows, rounds)[Place(i, rounds)].attempts == rows[i].attempts + Failures(rows, rounds, i)
    decreases |rounds|
  {
    if rows[i].status == Processed {
      ProcessedStays(rows, rounds, i);
    } else if rounds != [] {
      var flushed, j := Flushed(rows, BATCH, rounds[0].up), ShiftedAll(i, rounds[0].arrivals);
      FlushedAt(rows, BATCH, i, rounds[0].up);
      ArriveAllKeeps(flushed, rounds[0].arrivals, i);
      AttemptsAreFailures(ArriveAll(flushed, rounds[0].arrivals), rounds[1..], j);
    }
  }

  /// ## Steady failures

  /** A run in which the same adds keep failing, with what is committed after each flush. */
  function Steadily(up: Reach, batches: seq<seq<Arrival>>): (rounds: seq<Round>)
    ensures |rounds| == |batches|
  {
    if batches == [] then [] else [Round(up, batches[0])] + Steadily(up, batches[1..])
  }

  function OlderFailingIn(arrivals: seq<Arrival>, i: nat, up: Reach): (n: nat)
    decreases |arrivals|
  {
    if arrivals == [] then 0
    else
      One(arrivals[0].at <= i && IsFailing(arrivals[0].row, up))
      + OlderFailingIn(arrivals[1..], Shifted(i, arrivals[0]), up)
  }

  function OlderWaitingIn(arrivals: seq<Arrival>, i: nat, up: Reach): (n: nat)
    decreases |arrivals|
  {
    if arrivals == [] then 0
    else
      One(arrivals[0].at <= i && IsWaiting(arrivals[0].row, up))
      + OlderWaitingIn(arrivals[1..], Shifted(i, arrivals[0]), up)
  }

  /** The failing rows that are committed during the run and are older than row `i`. */
  function OlderFailing(batches: seq<seq<Arrival>>, i: nat, up: Reach): (n: nat)
    decreases |batches|
  {
    if batches == [] then 0
    else OlderFailingIn(batches[0], i, up) + OlderFailing(batches[1..], ShiftedAll(i, batches[0]), up)
  }

  /** The healthy ones. */
  function OlderWaiting(batches: seq<seq<Arrival>>, i: nat, up: Reach): (n: nat)
    decreases |batches|
  {
    if batches == [] then 0
    else OlderWaitingIn(batches[0], i, up) + OlderWaiting(batches[1..], ShiftedAll(i, batches[0]), up)
  }

  lemma ArrivalCounts(rows: Rows, a: Arrival, i: nat, up: Reach)
    requires i < |rows|
    ensures Shifted(i, a) < |Arrive(rows, a)|
    ensures Failing(Arrive(rows, a)[..Shifted(i, a)], up) ==
            Failing(rows[..i], up) + One(a.at <= i && IsFailing(a.row, up))
    ensures Waiting(Arrive(rows, a)[..Shifted(i, a)], up) ==
            Waiting(rows[..i], up) + One(a.at <= i && IsWaiting(a.row, up))
  {
    ArriveKeeps(rows, a, i);
    if a.at <= i {
      InsertedCounts(rows[..i][..a.at], a.row, rows[..i][a.at..], up);
      assert rows[..i][..a.at] + rows[..i][a.at..] == rows[..i];
    }
  }

  lemma InsertedCounts(before: Rows, r: Row, after: Rows, up: Reach)
    ensures Failing(before + [r] + after, up) == Failing(before + after, up) + One(IsFailing(r, up))
    ensures Waiting(before + [r] + after, up) == Waiting(before + after, up) + One(IsWaiting(r, up))
  {
    CountsAdd(before + [r], after, up);
    CountsAdd(before, [r], up);
    CountsAdd(before, after, up);
    CountsOfOne(r, up);
  }

  lemma {:induction false} ArrivalsCount(rows: Rows, arrivals: seq<Arrival>, i: nat, up: Reach)
    requires i < |rows|
    ensures ShiftedAll(i, arrivals) < |ArriveAll(rows, arrivals)|
    ensures Failing(ArriveAll(rows, arrivals)[..ShiftedAll(i, arrivals)], up) ==
            Failing(rows[..i], up) + OlderFailingIn(arrivals, i, up)
    ensures Waiting(ArriveAll(rows, arrivals)[..ShiftedAll(i, arrivals)], up) ==
            Waiting(rows[..i], up) + OlderWaitingIn(arrivals, i, up)
    decreases |arrivals|
  {
    if arrivals != [] {
      ArrivalCounts(rows, arrivals[0], i, up);
      ArrivalsCount(Arrive(rows, arrivals[0]), arrivals[1..], Shifted(i, arrivals[0]), up);
    }
  }

  lemma {:induction false} PendingSplits(rows: Rows, up: Reach)
    ensures PendingIn(rows) == Failing(rows, up) + Waiting(rows, up)
  {
    if rows != [] { PendingSplits(rows[1..], up); }
  }

  /** One round of a steady run: what becomes of row `i` and of the rows before it. */
  lemma OneRound(rows: Rows, arrivals: seq<Arrival>, i: nat, up: Reach)
    requires i < |rows| && IsWaiting(rows[i], up)
    ensures var next, j := ArriveAll(Flushed(rows, BATCH, up), arrivals), ShiftedAll(i, arrivals);
            && j < |next|
            && next[j] == (if PendingIn(rows[..i]) < BATCH then rows[i].(status := Processed) else rows[i])
            && Failing(next[..j], up) == Failing(rows[..i], up) + OlderFailingIn(arrivals, i, up)
            && Waiting(next[..j], up) <= Waiting(rows[..i], up) + OlderWaitingIn(arrivals, i, up)
               - Min(Waiting(rows[..i], up), BATCH - Failing(rows[..i], up))
  {
    var flushed := Flushed(rows, BATCH, up);
    FlushedAt(rows, BATCH, i, up);
    FlushOfPrefix(rows, BATCH, i, up);
    FlushMeasure(rows[..i], BATCH, up);
    ArriveAllKeeps(flushed, arrivals, i);
    ArrivalsCount(flushed, arrivals, i, up);
  }

  /** Fewer than 50 older failing rows, counting those that are yet to be committed: then as many flushes
      as healthy rows are due up to and including this one are enough. */
  lemma {:induction false} ServedWithin(rows: Rows, batches: seq<seq<Arrival>>, i: nat, up: Reach)
    requires i < |rows| && IsWaiting(rows[i], up)
    requires Failing(rows[..i], up) + OlderFailing(batches, i, up) < BATCH
    requires |batches| > Waiting(rows[..i], up) + OlderWaiting(batches, i, up)
    ensures var rounds := Steadily(up, batches);
            && Place(i, rounds) < |Rounds(rows, rounds)|
            && Rounds(rows, rounds)[Place(i, rounds)].status == Processed
    decreases |batches|
  {
    var next, j := ArriveAll(Flushed(rows, BATCH, up), batches[0]), ShiftedAll(i, batches[0]);
    var rest := Steadily(up, batches[1..]);
    OneRound(rows, batches[0], i, up);
    PendingSplits(rows[..i], up);
    assert Steadily(up, batches)[1..] == rest;
    if next[j].status == Processed {
      ProcessedStays(next, rest, j);
    } else {
      ServedWithin(next, batches[1..], j, up);
    }
  }

  /** Fifty older failing rows: no number of flushes is enough, whatever is committed meanwhile. */
  lemma {:induction false} Starves(rows: Rows, batches: seq<seq<Arrival>>, i: nat, up: Reach)
    requires i < |rows| && IsWaiting(rows[i], up) && BATCH <= Failing(rows[..i], up)
    ensures var rounds := Steadily(up, batches);
            && Place(i, rounds) < |Rounds(rows, rounds)|
            && Rounds(rows, rounds)[Place(i, rounds)] == rows[i]
    decreases |batches|
  {
    if batches != [] {
      var next, j := ArriveAll(Flushed(rows, BATCH, up), batches[0]), ShiftedAll(i, batches[0]);
      OneRound(rows, batches[0], i, up);
      PendingSplits(rows[..i], up);
      assert Steadily(up, batches)[1..] == Steadily(up, batches[1..]);
      Starves(next, batches[1..], j, up);
    }
  }

  /**
   * Exactly when an event that could be delivered is, while the same adds keep failing and no failing
   * row older than it is committed late: when fewer than 50 older pending rows keep failing.
   */
  lemma ServedIff(rows: Rows, batches: seq<seq<Arrival>>, i: nat, up: Reach)
    requires i < |rows| && IsWaiting(rows[i], up) && OlderFailing(batches, i, up) == 0
    requires |batches| > Waiting(rows[..i], up) + OlderWaiting(batches, i, up)
    ensures var rounds := Steadily(up, batches);
            && Place(i, rounds) < |Rounds(rows, rounds)|
            && (Rounds(rows, rounds)[Place(i, rounds)].status == Processed <==> Failing(rows[..i], up) < BATCH)
  {
    if Failing(rows[..i], up) < BATCH {
      ServedWithin(rows, batches, i, up);
    } else {
      Starves(rows, batches, i, up);
    }
  }
}
