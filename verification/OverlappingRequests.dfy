/**
 * Appointment requests that overlap. A request checks what it has read, and its writes
 * are committed later, over whatever the rows have become; no isolation level is asked
 * for. What the database itself guards, at every write, is the exclusion constraint and
 * the unique index on reschedule links; the transition table it does not.
 */
module OverlappingRequests {
  import opened Options
  import opened SlotBoundary
  import opened Appointments
  import opened RequestAnswers

  /// ## The machine

  /** A request that has passed its checks; `seen` is the row it read, `count` the bookings it counted. */
  datatype Intent = Intent(env: Env, request: Request, seen: Option<Appointment>, count: nat)

  datatype Event = Read(n: nat, env: Env, request: Request) | Write(n: nat) | Abort(n: nat)

  datatype State = State(store: Store, open: map<nat, Intent>)

  /** The checks of a booking, but for the one the database makes. */
  predicate MayBook(store: Store, env: Env, staffId: string, serviceId: string, start: int)
    requires WellFormedCatalog(env.catalog)
  {
    && StaffAvailable(store, env, staffId)
    && serviceId in env.catalog.services
    && (staffId, serviceId) in env.catalog.offers
    && start > env.now - CLOCK_SKEW_TOLERANCE_MS
    && Verdict(env.calendar, env.hours, start, env.catalog.services[serviceId].slotIntervalMin) == None
  }

  /** Whether a request goes on to write, by what it reads. */
  predicate Passes(store: Store, env: Env, r: Request)
    requires WellFormedCatalog(env.catalog)
  {
    match r
    case Create(_, staffId, serviceId, start, _) => MayBook(store, env, staffId, serviceId, start)
    case Move(id, to) =>
      && Found(store, env, id)
      && store.rows[id].status != TargetStatus(to)
      && CanTransition(store.rows[id].status, TargetStatus(to))
    case Cancel(id, byCustomer) =>
      && Found(store, env, id)
      && CanTransition(store.rows[id].status, Cancelled)
      && !(byCustomer && TooLate(env, store.rows[id].start))
    case Reschedule(id, newStaffId, newStart) =>
      && Found(store, env, id)
      && CanTransition(store.rows[id].status, Cancelled)
      && MayBook(store, env, TargetStaff(store.rows[id], newStaffId), store.rows[id].serviceId, newStart)
    case Remove(id) => Found(store, env, id)
    case RemoveStaff(staffId, force) =>
      && (env.caller.businessId, staffId) in store.staff
      && !store.staff[(env.caller.businessId, staffId)].isDeleted
      && (force || CountUpcoming(store.rows, env, staffId) == 0)
  }

  function RowId(r: Request): (result: Option<nat>) {
    match r
    case Move(id, _) => Some(id)
    case Cancel(id, _) => Some(id)
    case Reschedule(id, _, _) => Some(id)
    case Remove(id) => Some(id)
    case _ => None
  }

  function IntentOf(store: Store, env: Env, r: Request): (result: Intent) {
    var id := RowId(r);
    Intent(env, r, if id.Some? && id.value < |store.rows| then Some(store.rows[id.value]) else None,
      if r.RemoveStaff? then CountUpcoming(store.rows, env, r.staffId) else 0)
  }

  /** The exclusion constraint at an update: it compares the new row with all the others. */
  predicate UpdateExcluded(rows: seq<Appointment>, id: nat, a: Appointment) {
    exists k :: 0 <= k < |rows| && k != id && Conflict(rows[k], a)
  }

  predicate LinkTaken(rows: seq<Appointment>, id: nat) {
    exists k :: 0 <= k < |rows| && rows[k].rescheduledFrom == Some(id)
  }

  /** The row a reschedule inserts, made from what it read. */
  function Replacement(o: Intent, newStart: int, newStaffId: Option<string>, id: nat): (r: Appointment)
    requires o.seen.Some? && o.seen.value.serviceId in o.env.catalog.services
    requires (TargetStaff(o.seen.value, newStaffId), o.seen.value.serviceId) in o.env.catalog.offers
  {
    var from := o.seen.value;
    NewRow(o.env, from.customerId, TargetStaff(from, newStaffId), from.serviceId, newStart, from.status == Confirmed)
      .(rescheduledFrom := Some(id))
  }

  /** What an intent still knows of itself. */
  predicate IntentFits(store: Store, o: Intent) {
    && WellFormedCatalog(o.env.catalog)
    && (RowId(o.request).Some? ==>
          var id := RowId(o.request).value;
          && id < |store.rows| && o.seen.Some?
          && store.rows[id] == o.seen.value.(status := store.rows[id].status,
                                             cancelledAt := store.rows[id].cancelledAt,
                                             deletedAt := store.rows[id].deletedAt)
          && Visible(o.env.caller, o.seen.value))
    && (match o.request
        case Create(_, staffId, serviceId, _, _) =>
          serviceId in o.env.catalog.services && (staffId, serviceId) in o.env.catalog.offers
        case Reschedule(_, newStaffId, _) =>
          var from := o.seen.value;
          && from.serviceId in o.env.catalog.services
          && (TargetStaff(from, newStaffId), from.serviceId) in o.env.catalog.offers
        case _ => true)
  }

  /** What the writes of an intent make of the store; a write that the database refuses is undone. */
  function Written(store: Store, o: Intent): (r: Store)
    requires IntentFits(store, o)
  {
    match o.request
    case Create(customerId, staffId, serviceId, start, autoConfirm) =>
      var row := NewRow(o.env, customerId, staffId, serviceId, start, autoConfirm);
      if Excluded(store.rows, row) then store else store.(rows := store.rows + [row])
    case Move(id, to) =>
      var row := store.rows[id].(status := TargetStatus(to));
      if UpdateExcluded(store.rows, id, row) then store else store.(rows := store.rows[id := row])
    case Cancel(id, _) => store.(rows := store.rows[id := CancelRow(store.rows[id], o.env.now)])
    case Reschedule(id, newStaffId, newStart) =>
      var row := Replacement(o, newStart, newStaffId, id);
      if Excluded(store.rows, row) || LinkTaken(store.rows, id) then store
      else store.(rows := store.rows[id := CancelRow(store.rows[id], o.env.now)] + [row])
    case Remove(id) => store.(rows := store.rows[id := store.rows[id].(deletedAt := Some(o.env.now))])
    case RemoveStaff(staffId, _) =>
      var key := (o.env.caller.businessId, staffId);
      Store(if o.count > 0 then CancelUpcoming(store.rows, o.env, staffId) else store.rows,
        store.staff[key := StaffRow(false, true)], LoginClosed(store.logins, key))
  }

  ghost function Next(s: State, e: Event): (r: State) {
    match e
    case Read(n, env, r) =>
      if n !in s.open && WellFormedCatalog(env.catalog) && Passes(s.store, env, r)
      then s.(open := s.open[n := IntentOf(s.store, env, r)]) else s
    case Write(n) =>
      if n in s.open && IntentFits(s.store, s.open[n]) then State(Written(s.store, s.open[n]), s.open - {n}) else s
    case Abort(n) => s.(open := s.open - {n})
  }

  ghost function Run(s: State, events: seq<Event>): (r: State)
    decreases |events|
  {
    if events == [] then s else Run(Next(s, events[0]), events[1..])
  }

  /// ## What every interleaving keeps

  /** Rows keep who they are for, where and when; only the three marks change. */
  predicate SameBooking(a: Appointment, b: Appointment) {
    b == a.(status := b.status, cancelledAt := b.cancelledAt, deletedAt := b.deletedAt)
  }

  ghost predicate Grows(s: Store, t: Store) {
    |s.rows| <= |t.rows| && forall i :: 0 <= i < |s.rows| ==> SameBooking(s.rows[i], t.rows[i])
  }

  /** No booking is the origin of two others, and a link leads back within tenant, customer and service. */
  ghost predicate LinksSound(rows: seq<Appointment>) {
    && (forall i :: 0 <= i < |rows| ==> LinkFits(rows, i))
    && (forall i, j :: 0 <= i < j < |rows| && rows[i].rescheduledFrom.Some? ==>
          rows[i].rescheduledFrom != rows[j].rescheduledFrom)
  }

  predicate LinkFits(rows: seq<Appointment>, i: nat)
    requires i < |rows|
  {
    rows[i].rescheduledFrom.Some? ==>
      var p := rows[i].rescheduledFrom.value;
      && p < i
      && rows[p].businessId == rows[i].businessId && rows[p].isTest == rows[i].isTest
      && rows[p].customerId == rows[i].customerId && rows[p].serviceId == rows[i].serviceId
  }

  ghost predicate Guarded(s: State) {
    && NoDoubleBooking(s.store.rows) && LinksSound(s.store.rows)
    && forall n <- s.open :: IntentFits(s.store, s.open[n])
  }

  lemma WrittenGrows(store: Store, o: Intent)
    requires IntentFits(store, o)
    ensures Grows(store, Written(store, o))
    ensures |Written(store, o).rows| <= |store.rows| + 1
  {
    if o.request.RemoveStaff? {
      CancelUpcomingExact(store.rows, o.env, o.request.staffId);
    }
  }

  lemma FitsStays(s: Store, t: Store, o: Intent)
    requires IntentFits(s, o) && Grows(s, t)
    ensures IntentFits(t, o)
  {
  }

  /** A row that stays as it is or leaves the way. */
  predicate Clears(a: Appointment, b: Appointment) {
    b == a || !Live(b)
  }

  lemma ClearingKeepsApart(rows: seq<Appointment>, t: seq<Appointment>)
    requires NoDoubleBooking(rows) && |t| == |rows| && forall i :: 0 <= i < |t| ==> Clears(rows[i], t[i])
    ensures NoDoubleBooking(t)
  {
    forall i, j | 0 <= i < j < |t| ensures !Conflict(t[i], t[j]) {
      assert Clears(rows[i], t[i]) && Clears(rows[j], t[j]);
    }
  }

  lemma ReplacementIsClear(store: Store, o: Intent, id: nat)
    requires IntentFits(store, o) && o.request.Reschedule? && o.request.id == id
    requires !Excluded(store.rows, Replacement(o, o.request.newStart, o.request.newStaffId, id))
    ensures var row := Replacement(o, o.request.newStart, o.request.newStaffId, id);
      !Excluded(store.rows[id := CancelRow(store.rows[id], o.env.now)], row)
  {
    var row := Replacement(o, o.request.newStart, o.request.newStaffId, id);
    var t := store.rows[id := CancelRow(store.rows[id], o.env.now)];
    forall k | 0 <= k < |t| ensures !Conflict(t[k], row) {
      assert !Conflict(store.rows[k], row);
    }
  }

  lemma WrittenKeepsApart(store: Store, o: Intent)
    requires IntentFits(store, o) && NoDoubleBooking(store.rows)
    ensures NoDoubleBooking(Written(store, o).rows)
  {
    var rows := store.rows;
    match o.request
    case Create(_, _, _, _, _) =>
    case Move(_, _) =>
    case Cancel(id, _) => ClearingKeepsApart(rows, rows[id := CancelRow(rows[id], o.env.now)]);
    case Reschedule(id, newStaffId, newStart) =>
      var row := Replacement(o, newStart, newStaffId, id);
      if !Excluded(rows, row) && !LinkTaken(rows, id) {
        var cancelled := rows[id := CancelRow(rows[id], o.env.now)];
        ClearingKeepsApart(rows, cancelled);
        ReplacementIsClear(store, o, id);
      }
    case Remove(id) => ClearingKeepsApart(rows, rows[id := rows[id].(deletedAt := Some(o.env.now))]);
    case RemoveStaff(staffId, _) =>
      CancelUpcomingExact(rows, o.env, staffId);
      ClearingKeepsApart(rows, Written(store, o).rows);
  }

  /** A row may be added if its own link is sound and new. */
  lemma LinksCarryOver(s: Store, t: Store)
    requires LinksSound(s.rows) && Grows(s, t) && |t.rows| <= |s.rows| + 1
    requires |t.rows| > |s.rows| ==>
      && LinkFits(t.rows, |s.rows|)
      && (t.rows[|s.rows|].rescheduledFrom.Some? ==> !LinkTaken(s.rows, t.rows[|s.rows|].rescheduledFrom.value))
    ensures LinksSound(t.rows)
  {
    forall i: nat | i < |s.rows| ensures LinkFits(t.rows, i) && t.rows[i].rescheduledFrom == s.rows[i].rescheduledFrom {
      assert LinkFits(s.rows, i) && SameBooking(s.rows[i], t.rows[i]);
      if s.rows[i].rescheduledFrom.Some? {
        var p := s.rows[i].rescheduledFrom.value;
        assert SameBooking(s.rows[p], t.rows[p]);
      }
    }
  }

  lemma ReplacementLinks(store: Store, o: Intent)
    requires IntentFits(store, o) && o.request.Reschedule? && |Written(store, o).rows| > |store.rows|
    ensures LinkFits(Written(store, o).rows, |store.rows|)
  {
  }

  /** Rows that were there keep their links; only a reschedule adds one, to a row that has none. */
  lemma WrittenKeepsLinks(store: Store, o: Intent)
    requires IntentFits(store, o) && LinksSound(store.rows)
    ensures LinksSound(Written(store, o).rows)
  {
    WrittenGrows(store, o);
    if o.request.Reschedule? && |Written(store, o).rows| > |store.rows| { ReplacementLinks(store, o); }
    if o.request.RemoveStaff? { CancelUpcomingExact(store.rows, o.env, o.request.staffId); }
    LinksCarryOver(store, Written(store, o));
  }

  lemma NextKeepsGuarded(s: State, e: Event)
    requires Guarded(s)
    ensures Guarded(Next(s, e))
  {
    if e.Write? && e.n in s.open {
      var o := s.open[e.n];
      var t := Written(s.store, o);
      WrittenGrows(s.store, o);
      WrittenKeepsApart(s.store, o);
      WrittenKeepsLinks(s.store, o);
      forall k | k in s.open && k != e.n ensures IntentFits(t, s.open[k]) { FitsStays(s.store, t, s.open[k]); }
    }
  }

  /** However requests overlap, no staff member is ever double-booked and no booking is rescheduled
      twice: the constraint and the index hold the line at every write. */
  lemma {:induction false} RunKeepsGuarded(s: State, events: seq<Event>)
    requires Guarded(s)
    ensures Guarded(Run(s, events))
    decreases |events|
  {
    if events != [] {
      NextKeepsGuarded(s, events[0]);
      RunKeepsGuarded(Next(s, events[0]), events[1..]);
    }
  }

  lemma EmptyIsGuarded(staff: map<(string, string), StaffRow>, logins: map<(string, string), bool>, events: seq<Event>)
    ensures Guarded(Run(State(Store([], staff, logins), map[]), events))
  {
    RunKeepsGuarded(State(Store([], staff, logins), map[]), events);
  }

  /// ## Requests that nothing came between

  /** What the request checked still holds, on the row it read. */
  ghost predicate Undisturbed(store: Store, o: Intent)
    requires WellFormedCatalog(o.env.catalog)
  {
    Passes(store, o.env, o.request) && o == IntentOf(store, o.env, o.request)
  }

  /** Then its writes do exactly what the request would do as one step. */
  lemma UndisturbedIsOneStep(store: Store, o: Intent)
    requires IntentFits(store, o) && Undisturbed(store, o) && NoDoubleBooking(store.rows) && Linked(store.rows)
    ensures Written(store, o) == Apply(store, o.env, o.request).0
  {
    match o.request
    case Reschedule(_, _, _) => RescheduleIsOneStep(store, o);
    case _ =>
  }

  lemma RescheduleIsOneStep(store: Store, o: Intent)
    requires IntentFits(store, o) && Undisturbed(store, o) && o.request.Reschedule? && Linked(store.rows)
    ensures Written(store, o) == Apply(store, o.env, o.request).0
  {
    var id, from := o.request.id, o.seen.value;
    var row := Replacement(o, o.request.newStart, o.request.newStaffId, id);
    var plain := row.(rescheduledFrom := None);
    assert plain == NewRow(o.env, from.customerId, TargetStaff(from, o.request.newStaffId), from.serviceId,
      o.request.newStart, from.status == Confirmed);
    assert forall k :: 0 <= k < |store.rows| ==> (Conflict(store.rows[k], row) <==> Conflict(store.rows[k], plain));
    assert Excluded(store.rows, row) <==> Excluded(store.rows, plain);
    forall k | 0 <= k < |store.rows| ensures store.rows[k].rescheduledFrom != Some(id) {
      assert LinksBack(store.rows, k);
    }
  }

  /** A request goes on to write exactly when, as one step, it would change the store or be stopped by the
      exclusion constraint: nothing else is left to the database, and what answers at once writes nothing. */
  lemma PassesIff(store: Store, env: Env, r: Request)
    requires WellFormedCatalog(env.catalog)
    ensures Passes(store, env, r) <==>
      Apply(store, env, r).0 != store || Apply(store, env, r).1 == Err(SlotTaken)
  {
    var after := Apply(store, env, r).0;
    match r
    case Create(_, _, _, _, _) => assert after != store ==> |after.rows| > |store.rows|;
    case Move(id, to) => assert Passes(store, env, r) ==> after.rows[id].status != store.rows[id].status;
    case Cancel(id, _) => assert Passes(store, env, r) ==> after.rows[id].status != store.rows[id].status;
    case Reschedule(id, _, _) => assert after != store ==> |after.rows| > |store.rows|;
    case Remove(id) => assert Passes(store, env, r) ==> after.rows[id].deletedAt != store.rows[id].deletedAt;
    case RemoveStaff(staffId, _) =>
      assert Passes(store, env, r) ==> after.staff[(env.caller.businessId, staffId)].isDeleted;
  }

  /** A booking that is deleted stays so, however requests overlap: a write that was checked before puts
      its own marks on the row and leaves the deletion. */
  lemma {:induction false} DeletedStays(s: State, events: seq<Event>, id: nat)
    requires Guarded(s) && id < |s.store.rows| && s.store.rows[id].deletedAt.Some?
    ensures id < |Run(s, events).store.rows| && Run(s, events).store.rows[id].deletedAt.Some?
    decreases |events|
  {
    if events != [] {
      NextKeepsGuarded(s, events[0]);
      if events[0].Write? && events[0].n in s.open {
        WriteKeepsDeleted(s.store, s.open[events[0].n], id);
      }
      DeletedStays(Next(s, events[0]), events[1..], id);
    }
  }

  lemma WriteKeepsDeleted(store: Store, o: Intent, id: nat)
    requires IntentFits(store, o) && id < |store.rows| && store.rows[id].deletedAt.Some?
    ensures id < |Written(store, o).rows| && Written(store, o).rows[id].deletedAt.Some?
  {
    if o.request.RemoveStaff? {
      CancelUpcomingExact(store.rows, o.env, o.request.staffId);
    }
  }

  /** A request that dies writes nothing: not then, and not later under its number. */
  lemma DeadWritesNothing(s: State, n: nat)
    ensures Next(s, Abort(n)).store == s.store
    ensures Next(Next(s, Abort(n)), Write(n)) == Next(s, Abort(n))
    ensures forall k :: k != n ==>
      (k in Next(s, Abort(n)).open <==> k in s.open) && (k in s.open ==> Next(s, Abort(n)).open[k] == s.open[k])
  {
  }

  /// ## Tenants and modes keep apart

  /** Nobody of the partition takes part: no request of theirs is in flight, and none is read. */
  ghost predicate Absent(s: State, events: seq<Event>, p: Caller) {
    && (forall n <- s.open :: s.open[n].env.caller != p)
    && (forall k :: 0 <= k < |events| && events[k].Read? ==> events[k].env.caller != p)
  }

  lemma WriteKeepsPartition(store: Store, o: Intent, p: Caller)
    requires IntentFits(store, o) && o.env.caller != p
    ensures SamePartition(store, Written(store, o), p)
  {
    if o.request.RemoveStaff? {
      CancelUpcomingExact(store.rows, o.env, o.request.staffId);
    }
  }

  /** However the requests of others overlap, a partition's bookings stay as they are. */
  lemma {:induction false} AbsentUntouched(s: State, events: seq<Event>, p: Caller)
    requires Guarded(s) && Absent(s, events, p)
    ensures SamePartition(s.store, Run(s, events).store, p)
    decreases |events|
  {
    if events != [] {
      var next := Next(s, events[0]);
      NextKeepsGuarded(s, events[0]);
      if events[0].Write? && events[0].n in s.open {
        WriteKeepsPartition(s.store, s.open[events[0].n], p);
      }
      AbsentUntouched(next, events[1..], p);
      SamePartitionTransitive(s.store, next.store, Run(next, events[1..]).store, p);
    }
  }

  /// ## Runs of requests that nothing came between

  /** Every write of the run is undisturbed. */
  ghost predicate Serial(s: State, events: seq<Event>)
    decreases |events|
  {
    events == [] ||
    (&& (events[0].Write? && events[0].n in s.open && IntentFits(s.store, s.open[events[0].n]) ==>
           Undisturbed(s.store, s.open[events[0].n]))
     && Serial(Next(s, events[0]), events[1..]))
  }

  /** With requests that do not disturb one another, the serial invariant holds throughout. */
  lemma {:induction false} SerialKeepsInv(s: State, events: seq<Event>)
    requires Guarded(s) && Inv(s.store) && Serial(s, events)
    ensures Inv(Run(s, events).store)
    decreases |events|
  {
    if events != [] {
      var e := events[0];
      NextKeepsGuarded(s, e);
      if e.Write? && e.n in s.open {
        UndisturbedIsOneStep(s.store, s.open[e.n]);
        StepKeepsInvariant(s.store, s.open[e.n].env, s.open[e.n].request);
      }
      SerialKeepsInv(Next(s, e), events[1..]);
    }
  }
}
