/**
 * What a caller can tell of the appointment requests without knowing how they are
 * worked out: every answer with its exact condition, and the whole store afterwards,
 * in terms of rows, minutes and instants only. Then what one request means for the next.
 */
module RequestAnswers {
  import opened Options
  import opened Availability
  import opened SlotBoundary
  import opened Appointments

  /// ## What a caller sees

  /** Row `id` exists, is of the caller's tenant and mode, and has not been deleted. */
  predicate Sees(store: Store, env: Env, id: nat) {
    && id < |store.rows|
    && store.rows[id].businessId == env.caller.businessId && store.rows[id].isTest == env.caller.isTest
    && store.rows[id].deletedAt == None
  }

  /** The appointment is still ahead or under way. */
  predicate Unfinished(a: Appointment) {
    a.status in {Pending, Confirmed, InProgress}
  }

  /** A visit of this service with this staff member takes so many minutes: their own number where the
      offer has one, and the service's otherwise. */
  predicate Takes(c: Catalog, staffId: string, serviceId: string, minutes: int) {
    && serviceId in c.services && (staffId, serviceId) in c.offers
    && (c.offers[(staffId, serviceId)] == Some(minutes)
        || (c.offers[(staffId, serviceId)] == None && c.services[serviceId].durationMin == minutes))
  }

  /** The row stands in the way of a visit of the staff member during [start, end). */
  predicate InTheWay(a: Appointment, businessId: string, staffId: string, start: int, end: int) {
    && a.deletedAt == None && a.status !in {Cancelled, NoShow}
    && a.businessId == businessId && a.staffId == staffId
    && a.start < a.end && a.start < end && start < a.end
  }

  predicate Taken(rows: seq<Appointment>, businessId: string, staffId: string, start: int, end: int) {
    exists k :: 0 <= k < |rows| && InTheWay(rows[k], businessId, staffId, start, end)
  }

  lemma TakenIsExcluded(rows: seq<Appointment>, a: Appointment)
    requires a.deletedAt == None && a.status in {Pending, Confirmed} && a.start < a.end
    ensures Excluded(rows, a) <==> Taken(rows, a.businessId, a.staffId, a.start, a.end)
  {
    forall k | 0 <= k < |rows|
      ensures Conflict(rows[k], a) <==> InTheWay(rows[k], a.businessId, a.staffId, a.start, a.end)
    {
    }
  }

  /// ## Booking

  /** The staff member is employed, switched on, and not deleted. */
  predicate Bookable(store: Store, env: Env, staffId: string) {
    && (env.caller.businessId, staffId) in store.staff
    && store.staff[(env.caller.businessId, staffId)] == StaffRow(true, false)
  }

  /** The checks of a booking that do not depend on other bookings. */
  predicate MayStart(store: Store, env: Env, staffId: string, serviceId: string, start: int)
    requires WellFormedCatalog(env.catalog)
  {
    && Bookable(store, env, staffId)
    && serviceId in env.catalog.services && (staffId, serviceId) in env.catalog.offers
    && start > env.now - 30_000
    && Verdict(env.calendar, env.hours, start, env.catalog.services[serviceId].slotIntervalMin) == None
  }

  /** Every answer to a booking, exactly when it comes. */
  lemma CreateAnswers(store: Store, env: Env, customerId: string, staffId: string, serviceId: string,
                      start: int, autoConfirm: bool, minutes: int)
    requires WellFormedCatalog(env.catalog)
    requires serviceId in env.catalog.services && (staffId, serviceId) in env.catalog.offers ==>
      Takes(env.catalog, staffId, serviceId, minutes)
    ensures var answer := Apply(store, env, Create(customerId, staffId, serviceId, start, autoConfirm)).1;
      var may := MayStart(store, env, staffId, serviceId, start);
      var taken := Taken(store.rows, env.caller.businessId, staffId, start, start + minutes * 60_000);
      && (answer == Err(StaffNotFound) <==> !Bookable(store, env, staffId))
      && (answer == Err(ServiceNotFound) <==>
            Bookable(store, env, staffId) && serviceId !in env.catalog.services)
      && (answer == Err(ServiceNotOffered) <==>
            Bookable(store, env, staffId) && serviceId in env.catalog.services
            && (staffId, serviceId) !in env.catalog.offers)
      && (answer == Err(InPast) <==>
            Bookable(store, env, staffId) && serviceId in env.catalog.services
            && (staffId, serviceId) in env.catalog.offers && start <= env.now - 30_000)
      && (answer == Err(SlotTaken) <==> may && taken)
      && (answer.Ok? <==> may && !taken)
      && (answer.Ok? ==> answer.value == |store.rows|)
  {
    if serviceId in env.catalog.services && (staffId, serviceId) in env.catalog.offers {
      TakenIsExcluded(store.rows, NewRow(env, customerId, staffId, serviceId, start, autoConfirm));
    }
  }

  /** What an accepted booking leaves: the rows there were, and one that lasts exactly its minutes. */
  lemma CreatedRow(store: Store, env: Env, customerId: string, staffId: string, serviceId: string,
                   start: int, autoConfirm: bool, minutes: int)
    requires WellFormedCatalog(env.catalog) && Takes(env.catalog, staffId, serviceId, minutes)
    requires Apply(store, env, Create(customerId, staffId, serviceId, start, autoConfirm)).1.Ok?
    ensures Apply(store, env, Create(customerId, staffId, serviceId, start, autoConfirm)).0 ==
      store.(rows := store.rows + [Appointment(
        env.caller.businessId, env.caller.isTest, customerId, staffId, serviceId,
        if autoConfirm then Confirmed else Pending, start, start + minutes * 60_000, None, None, None)])
  {
  }

  /** Two bookings of one staff member, of whatever partitions of the tenant, one after the other: the
      second is refused as taken if it was before, or if the two visits share an instant, and only then. */
  lemma SecondBooking(store: Store, env: Env, customerId: string, staffId: string, serviceId: string,
                      start: int, autoConfirm: bool, minutes: int,
                      env': Env, customerId': string, serviceId': string,
                      start': int, autoConfirm': bool, minutes': int)
    requires WellFormedCatalog(env.catalog) && WellFormedCatalog(env'.catalog)
    requires env'.caller.businessId == env.caller.businessId
    requires Takes(env.catalog, staffId, serviceId, minutes) && Takes(env'.catalog, staffId, serviceId', minutes')
    requires Apply(store, env, Create(customerId, staffId, serviceId, start, autoConfirm)).1.Ok?
    requires MayStart(store, env', staffId, serviceId', start')
    ensures var second := Create(customerId', staffId, serviceId', start', autoConfirm');
      var booked := Apply(store, env, Create(customerId, staffId, serviceId, start, autoConfirm)).0;
      && Apply(booked, env', second).1.Ok? == (Apply(booked, env', second).1 != Err(SlotTaken))
      && (Apply(booked, env', second).1 == Err(SlotTaken) <==>
            Apply(store, env', second).1 == Err(SlotTaken)
            || (start' < start + minutes * 60_000 && start < start' + minutes' * 60_000))
  {
    var booked := Apply(store, env, Create(customerId, staffId, serviceId, start, autoConfirm)).0;
    CreatedRow(store, env, customerId, staffId, serviceId, start, autoConfirm, minutes);
    CreateAnswers(store, env', customerId', staffId, serviceId', start', autoConfirm', minutes');
    CreateAnswers(booked, env', customerId', staffId, serviceId', start', autoConfirm', minutes');
    var row := booked.rows[|store.rows|];
    OneMoreInTheWay(store.rows, row, env.caller.businessId, staffId, start', start' + minutes' * 60_000);
  }

  lemma OneMoreInTheWay(rows: seq<Appointment>, a: Appointment, businessId: string, staffId: string,
                        start: int, end: int)
    ensures Taken(rows + [a], businessId, staffId, start, end) <==>
      Taken(rows, businessId, staffId, start, end) || InTheWay(a, businessId, staffId, start, end)
  {
    var t := rows + [a];
    if k :| 0 <= k < |rows| && InTheWay(rows[k], businessId, staffId, start, end) {
      assert t[k] == rows[k];
    }
    assert t[|rows|] == a;
  }

  /// ## Cancelling

  function CancelledRow(a: Appointment, now: int): (b: Appointment) {
    Appointment(a.businessId, a.isTest, a.customerId, a.staffId, a.serviceId, Cancelled, a.start, a.end,
      Some(now), a.deletedAt, a.rescheduledFrom)
  }

  /** A customer may cancel up to the notice period before the start, that instant included, and not
      later. The period is the configured number of hours, and a day where none is. The business may
      cancel at any time. */
  lemma CancelAnswers(store: Store, env: Env, id: nat, byCustomer: bool)
    requires Sees(store, env, id) && Unfinished(store.rows[id])
    ensures var hours := if env.cancellationHours.Some? then env.cancellationHours.value else 24;
      var last := store.rows[id].start - hours * 3_600_000;
      CancelledBy(store, env, id, byCustomer) ==
        if byCustomer && env.now > last then (store, Err(TooLateToCancel))
        else (store.(rows := store.rows[id := CancelledRow(store.rows[id], env.now)]), Ok(id))
  {
  }

  /** The same over time: exactly up to which instant a customer succeeds, whatever the clock says. */
  lemma LastInstantToCancel(store: Store, env: Env, id: nat)
    requires WellFormedCatalog(env.catalog) && Sees(store, env, id) && Unfinished(store.rows[id])
    ensures var hours := if env.cancellationHours.Some? then env.cancellationHours.value else 24;
      forall now: int ::
        var after := Apply(store, env.(now := now), Cancel(id, true));
        && (after.1 == Ok(id) <==> now + hours * 3_600_000 <= store.rows[id].start)
        && (after.1 == Ok(id) ==> after.0.rows == store.rows[id := CancelledRow(store.rows[id], now)])
        && (after.1 != Ok(id) ==> after == (store, Err(TooLateToCancel)))
  {
    forall now: int
      ensures var hours := if env.cancellationHours.Some? then env.cancellationHours.value else 24;
        var after := Apply(store, env.(now := now), Cancel(id, true));
        && (after.1 == Ok(id) <==> now + hours * 3_600_000 <= store.rows[id].start)
        && (after.1 == Ok(id) ==> after.0.rows == store.rows[id := CancelledRow(store.rows[id], now)])
        && (after.1 != Ok(id) ==> after == (store, Err(TooLateToCancel)))
    {
      CancelAnswers(store, env.(now := now), id, true);
    }
  }

  /** The other answers to a cancellation, each exactly then. */
  lemma CancelRefusals(store: Store, env: Env, id: nat, byCustomer: bool)
    requires WellFormedCatalog(env.catalog)
    ensures var after := Apply(store, env, Cancel(id, byCustomer));
      && (after.1 == Err(NotFound) <==> !Sees(store, env, id))
      && (after.1 == Err(InvalidTransition) <==> Sees(store, env, id) && store.rows[id].status in {Completed, NoShow})
      && (Sees(store, env, id) && store.rows[id].status == Cancelled ==> after == (store, Ok(id)))
      && (after.1 == Err(TooLateToCancel) ==> byCustomer && Sees(store, env, id) && Unfinished(store.rows[id]))
      && (after.1.Err? ==> after.0 == store)
  {
  }

  /// ## Status moves

  /** The statuses from which a request brings a booking to its own. */
  function ComesFrom(to: Target): (r: set<Status>) {
    match to
    case ToConfirmed => {Pending}
    case ToInProgress => {Confirmed}
    case ToCompleted => {InProgress}
    case ToNoShow => {Pending, Confirmed}
  }

  function Reaching(to: Target): (r: Status) {
    match to
    case ToConfirmed => Confirmed
    case ToInProgress => InProgress
    case ToCompleted => Completed
    case ToNoShow => NoShow
  }

  /** Every answer to a status move and what it leaves, each exactly then. */
  lemma MoveAnswers(store: Store, env: Env, id: nat, to: Target)
    requires WellFormedCatalog(env.catalog)
    ensures var after := Apply(store, env, Move(id, to));
      && (after.1 == Err(NotFound) <==> !Sees(store, env, id))
      && (after.1.Ok? <==> Sees(store, env, id) && store.rows[id].status in ComesFrom(to) + {Reaching(to)})
      && (after.1.Ok? ==> after.1.value == id)
      && (after.1.Ok? || after.1 == Err(NotFound) || after.1 == Err(InvalidTransition))
      && after.0 == if after.1.Err? then store
                    else store.(rows := store.rows[id := store.rows[id].(status := Reaching(to))])
  {
    if Sees(store, env, id) {
      assert CanTransition(store.rows[id].status, Reaching(to)) <==> store.rows[id].status in ComesFrom(to);
    }
  }

  /** A status move or a cancellation that went through can be sent again at any later time, by the same
      caller: it answers the same and changes nothing more. */
  lemma RetryIsHarmless(store: Store, env: Env, env': Env, r: Request)
    requires WellFormedCatalog(env.catalog) && WellFormedCatalog(env'.catalog) && env'.caller == env.caller
    requires (r.Move? || r.Cancel?) && Apply(store, env, r).1.Ok?
    ensures Apply(Apply(store, env, r).0, env', r) == Apply(store, env, r)
  {
  }

  /// ## Rescheduling

  /** Every answer to a reschedule: its own two refusals, and otherwise that of the booking it makes. */
  lemma RescheduleAnswers(store: Store, env: Env, id: nat, newStaffId: Option<string>, newStart: int)
    requires WellFormedCatalog(env.catalog)
    ensures var after := Apply(store, env, Reschedule(id, newStaffId, newStart));
      && (after.1 == Err(NotFound) <==> !Sees(store, env, id))
      && (after.1 == Err(InvalidTransition) <==> Sees(store, env, id) && !Unfinished(store.rows[id]))
      && (Sees(store, env, id) && Unfinished(store.rows[id]) ==>
            var from := store.rows[id];
            var staffId := if newStaffId.Some? then newStaffId.value else from.staffId;
            after.1 == Apply(store, env, Create(from.customerId, staffId, from.serviceId, newStart, false)).1)
      && (after.1.Err? ==> after.0 == store)
  {
  }

  /** What a reschedule leaves: the old booking cancelled, and a new one of the same customer and service,
      confirmed exactly when the old one was. */
  lemma RescheduledRows(store: Store, env: Env, id: nat, newStaffId: Option<string>, newStart: int, minutes: int)
    requires WellFormedCatalog(env.catalog) && Apply(store, env, Reschedule(id, newStaffId, newStart)).1.Ok?
    requires Sees(store, env, id) ==>
      Takes(env.catalog, if newStaffId.Some? then newStaffId.value else store.rows[id].staffId,
        store.rows[id].serviceId, minutes)
    ensures Sees(store, env, id)
    ensures var from := store.rows[id];
      Apply(store, env, Reschedule(id, newStaffId, newStart)).0 ==
      store.(rows := store.rows[id := CancelledRow(from, env.now)] + [Appointment(
        from.businessId, from.isTest, from.customerId, if newStaffId.Some? then newStaffId.value else from.staffId,
        from.serviceId, if from.status == Confirmed then Confirmed else Pending,
        newStart, newStart + minutes * 60_000, None, None, Some(id))])
  {
  }

  /// ## Deleting

  lemma RemoveAnswers(store: Store, env: Env, id: nat)
    requires WellFormedCatalog(env.catalog)
    ensures var after := Apply(store, env, Remove(id));
      && (after.1 == Err(NotFound) <==> !Sees(store, env, id))
      && (after.1 != Err(NotFound) ==> after.1 == Ok(id))
      && (after.1 == Ok(id) ==>
            after.0 == store.(rows := store.rows[id := store.rows[id].(deletedAt := Some(env.now))]))
  {
  }

  predicate About(r: Request, id: nat) {
    match r
    case Move(i, _) => i == id
    case Cancel(i, _) => i == id
    case Reschedule(i, _, _) => i == id
    case Remove(i) => i == id
    case _ => false
  }

  /** A deleted booking is gone: whatever is requested later and by whom, nobody finds it again. */
  lemma DeletedIsGone(store: Store, env: Env, id: nat, steps: seq<Step>, env': Env, r: Request)
    requires WellFormedCatalog(env.catalog) && WellFormedSteps(steps) && WellFormedCatalog(env'.catalog)
    requires Apply(store, env, Remove(id)).1.Ok? && About(r, id)
    ensures Apply(Run(Apply(store, env, Remove(id)).0, steps), env', r).1 == Err(NotFound)
  {
    var removed := Apply(store, env, Remove(id)).0;
    RunHistory(removed, steps);
    assert RowHistory(removed.rows[id], Run(removed, steps).rows[id]);
  }

  /// ## Removing a staff member

  /** The booking is due: active, not begun, of this staff member and the caller's tenant and mode. */
  predicate Due(env: Env, staffId: string, a: Appointment) {
    && a.businessId == env.caller.businessId && a.isTest == env.caller.isTest && a.staffId == staffId
    && env.now <= a.start && Unfinished(a)
  }

  function DueRows(rows: seq<Appointment>, env: Env, staffId: string): (r: set<int>) {
    set i | 0 <= i < |rows| && Due(env, staffId, rows[i])
  }

  lemma {:induction false} CountIsDue(rows: seq<Appointment>, env: Env, staffId: string)
    ensures CountUpcoming(rows, env, staffId) == |DueRows(rows, env, staffId)|
  {
    if rows != [] {
      var n := |rows| - 1;
      CountIsDue(rows[..n], env, staffId);
      var before := DueRows(rows[..n], env, staffId);
      assert DueRows(rows, env, staffId) == if Due(env, staffId, rows[n]) then before + {n} else before;
    }
  }

  /** Every answer to a staff removal, and what it leaves: each due booking cancelled at that moment and
      no other row touched, the staff member retired, their login closed. */
  lemma StaffRemovalAnswers(store: Store, env: Env, staffId: string, force: bool)
    requires WellFormedCatalog(env.catalog)
    ensures var key := (env.caller.businessId, staffId);
      var after := Apply(store, env, RemoveStaff(staffId, force));
      var due := DueRows(store.rows, env, staffId);
      && (after.1 == Err(NotFound) <==> key !in store.staff || store.staff[key].isDeleted)
      && (after.1 == Err(StaffHasAppointments) <==>
            key in store.staff && !store.staff[key].isDeleted && due != {} && !force)
      && (after.1.Err? ==> after.0 == store && after.1 in {Err(NotFound), Err(StaffHasAppointments)})
      && (after.1.Ok? ==>
            && after.1.value == |due|
            && |after.0.rows| == |store.rows|
            && (forall i :: 0 <= i < |store.rows| ==>
                  (after.0.rows[i] ==
                    if Due(env, staffId, store.rows[i]) then CancelledRow(store.rows[i], env.now) else store.rows[i]))
            && after.0.staff == store.staff[key := StaffRow(false, true)]
            && after.0.logins == map k | k in store.logins :: store.logins[k] && k != key)
  {
    CountIsDue(store.rows, env, staffId);
    CancelUpcomingExact(store.rows, env, staffId);
    forall i | 0 <= i < |store.rows| && Due(env, staffId, store.rows[i])
      ensures i in DueRows(store.rows, env, staffId)
    {
    }
  }

  /** A removed staff member takes no more bookings: whatever is requested later, a booking with them
      finds no such staff member. */
  lemma RemovedIsNotBookable(store: Store, env: Env, staffId: string, force: bool, steps: seq<Step>,
                             env': Env, customerId: string, serviceId: string, start: int, autoConfirm: bool)
    requires WellFormedCatalog(env.catalog) && WellFormedSteps(steps) && WellFormedCatalog(env'.catalog)
    requires Apply(store, env, RemoveStaff(staffId, force)).1.Ok?
    requires env'.caller.businessId == env.caller.businessId
    ensures var later := Run(Apply(store, env, RemoveStaff(staffId, force)).0, steps);
      Apply(later, env', Create(customerId, staffId, serviceId, start, autoConfirm)).1 == Err(StaffNotFound)
  {
    RunHistory(Apply(store, env, RemoveStaff(staffId, force)).0, steps);
  }

  /// ## Tenants and modes keep apart

  predicate OfPartition(a: Appointment, p: Caller) {
    a.businessId == p.businessId && a.isTest == p.isTest
  }

  /** The rows of a partition, as they are, where they are. */
  ghost predicate SamePartition(s: Store, t: Store, p: Caller) {
    && |s.rows| <= |t.rows|
    && (forall i :: 0 <= i < |t.rows| ==>
          if i < |s.rows| then OfPartition(s.rows[i], p) || OfPartition(t.rows[i], p) ==> t.rows[i] == s.rows[i]
          else !OfPartition(t.rows[i], p))
  }

  lemma SamePartitionTransitive(s: Store, t: Store, u: Store, p: Caller)
    requires SamePartition(s, t, p) && SamePartition(t, u, p)
    ensures SamePartition(s, u, p)
  {
  }

  lemma StepKeepsPartition(store: Store, env: Env, r: Request, p: Caller)
    requires WellFormedCatalog(env.catalog) && env.caller != p
    ensures SamePartition(store, Apply(store, env, r).0, p)
  {
    if r.RemoveStaff? {
      StaffRemovalAnswers(store, env, r.staffId, r.force);
    }
  }

  /** Whatever the callers of other tenants and modes request, a partition's bookings stay as they are. */
  lemma {:induction false} OtherPartitionsUntouched(store: Store, steps: seq<Step>, p: Caller)
    requires WellFormedSteps(steps) && forall k :: 0 <= k < |steps| ==> steps[k].env.caller != p
    ensures SamePartition(store, Run(store, steps), p)
    decreases |steps|
  {
    if steps != [] {
      var next := Apply(store, steps[0].env, steps[0].request).0;
      StepKeepsPartition(store, steps[0].env, steps[0].request, p);
      OtherPartitionsUntouched(next, steps[1..], p);
      SamePartitionTransitive(store, next, Run(next, steps[1..]), p);
    }
  }
}
