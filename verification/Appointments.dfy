/**
 * The appointment store. Each request is one atomic step that either commits or
 * leaves the store as it was. A row's id is its position in order of insertion,
 * which stands for the fresh identifiers the database hands out.
 *
 * This is the store as requests that do not overlap see it; `OverlappingRequests`
 * says what is left of it, and when all of it is, for requests that do.
 */
module Appointments {
  import opened Options
  import opened Availability
  import opened SlotBoundary

  /// ## Statuses

  datatype Status = Pending | Confirmed | InProgress | Completed | Cancelled | NoShow

  function Transitions(from: Status): (r: set<Status>) {
    match from
    case Pending => {Confirmed, Cancelled, NoShow}
    case Confirmed => {InProgress, Cancelled, NoShow}
    case InProgress => {Completed, Cancelled}
    case Completed => {}
    case Cancelled => {}
    case NoShow => {}
  }

  predicate CanTransition(from: Status, to: Status) {
    to in Transitions(from)
  }

  predicate IsActiveStatus(s: Status) {
    s == Pending || s == Confirmed || s == InProgress
  }

  /** The active statuses are those with a way out, and every one of them can still be cancelled. */
  lemma ActiveIsCancellable(s: Status)
    ensures IsActiveStatus(s) <==> CanTransition(s, Cancelled)
    ensures IsActiveStatus(s) <==> Transitions(s) != {}
  {
    assert Cancelled in Transitions(s) <==> IsActiveStatus(s);
  }

  /// ## Rows and requests

  datatype Appointment = Appointment(
    businessId: string, isTest: bool, customerId: string, staffId: string, serviceId: string,
    status: Status, start: int, end: int,
    cancelledAt: Option<int>, deletedAt: Option<int>, rescheduledFrom: Option<nat>)

  datatype StaffRow = StaffRow(isActive: bool, isDeleted: bool)

  /** `logins` says of the dashboard user linked to a staff member, if there is one, whether it is active. */
  datatype Store = Store(
    rows: seq<Appointment>, staff: map<(string, string), StaffRow>, logins: map<(string, string), bool>)

  /** The tenant and mode partition the request runs in. */
  datatype Caller = Caller(businessId: string, isTest: bool)

  datatype OfferedService = OfferedService(durationMin: int, slotIntervalMin: int)

  /** `offers` maps a (staff, service) pair to the staff member's own duration, if any. */
  datatype Catalog = Catalog(services: map<string, OfferedService>, offers: map<(string, string), Option<int>>)

  datatype Env = Env(
    caller: Caller, now: int, catalog: Catalog, calendar: Calendar, hours: seq<WeeklyWindow>,
    cancellationHours: Option<int>)

  /** Confirm, check in, complete, and mark as no-show. */
  datatype Target = ToConfirmed | ToInProgress | ToCompleted | ToNoShow

  function TargetStatus(t: Target): (r: Status) {
    match t
    case ToConfirmed => Confirmed
    case ToInProgress => InProgress
    case ToCompleted => Completed
    case ToNoShow => NoShow
  }

  datatype Request =
    | Create(customerId: string, staffId: string, serviceId: string, start: int, autoConfirm: bool)
    | Move(id: nat, to: Target)
    | Cancel(id: nat, byCustomer: bool)
    | Reschedule(id: nat, newStaffId: Option<string>, newStart: int)
    | Remove(id: nat)
    | RemoveStaff(staffId: string, force: bool)

  datatype Error =
    | NotFound | StaffNotFound | ServiceNotFound | ServiceNotOffered | InPast | OffHours(why: BoundaryError)
    | SlotTaken | InvalidTransition | TooLateToCancel | StaffHasAppointments

  const CLOCK_SKEW_TOLERANCE_MS := 30_000
  const DEFAULT_CANCELLATION_HOURS := 24

  /** What the request validators guarantee about the catalog. */
  predicate WellFormedCatalog(c: Catalog) {
    && (forall s :: s in c.services ==> c.services[s].durationMin > 0 && c.services[s].slotIntervalMin > 0)
    && (forall p :: p in c.offers && c.offers[p].Some? ==> c.offers[p].value > 0)
  }

  predicate Visible(caller: Caller, a: Appointment) {
    a.businessId == caller.businessId && a.isTest == caller.isTest
  }

  /** Rows the exclusion constraint of the database looks at. */
  predicate Live(a: Appointment) {
    a.deletedAt == None && a.status != Cancelled && a.status != NoShow
  }

  predicate RangesOverlap(a: Appointment, b: Appointment) {
    a.start < a.end && b.start < b.end && a.start < b.end && b.start < a.end
  }

  /** The exclusion constraint compares tenant, staff and range, not the mode partition. */
  predicate Conflict(a: Appointment, b: Appointment) {
    && Live(a) && Live(b)
    && a.businessId == b.businessId && a.staffId == b.staffId
    && RangesOverlap(a, b)
  }

  predicate Excluded(rows: seq<Appointment>, a: Appointment) {
    exists k :: 0 <= k < |rows| && Conflict(rows[k], a)
  }

  predicate Found(store: Store, env: Env, id: nat) {
    id < |store.rows| && Visible(env.caller, store.rows[id]) && store.rows[id].deletedAt == None
  }

  /// ## What each request does

  function Duration(c: Catalog, staffId: string, serviceId: string): (r: int)
    requires serviceId in c.services && (staffId, serviceId) in c.offers
  {
    match c.offers[(staffId, serviceId)]
    case Some(minutes) => minutes
    case None => c.services[serviceId].durationMin
  }

  predicate StaffAvailable(store: Store, env: Env, staffId: string) {
    var key := (env.caller.businessId, staffId);
    key in store.staff && store.staff[key].isActive && !store.staff[key].isDeleted
  }

  function NewRow(env: Env, customerId: string, staffId: string, serviceId: string,
                  start: int, autoConfirm: bool): (r: Appointment)
    requires serviceId in env.catalog.services && (staffId, serviceId) in env.catalog.offers
  {
    Appointment(env.caller.businessId, env.caller.isTest, customerId, staffId, serviceId,
      if autoConfirm then Confirmed else Pending,
      start, start + Duration(env.catalog, staffId, serviceId) * MINUTE_MS, None, None, None)
  }

  /** Why a booking is refused, if it is. */
  function CreateRefusal(store: Store, env: Env, customerId: string, staffId: string, serviceId: string,
                         start: int, autoConfirm: bool): (r: Option<Error>)
    requires WellFormedCatalog(env.catalog)
  {
    if !StaffAvailable(store, env, staffId) then Some(StaffNotFound)
    else if serviceId !in env.catalog.services then Some(ServiceNotFound)
    else if (staffId, serviceId) !in env.catalog.offers then Some(ServiceNotOffered)
    else if start <= env.now - CLOCK_SKEW_TOLERANCE_MS then Some(InPast)
    else
      match Verdict(env.calendar, env.hours, start, env.catalog.services[serviceId].slotIntervalMin)
      case Some(why) => Some(OffHours(why))
      case None =>
        if Excluded(store.rows, NewRow(env, customerId, staffId, serviceId, start, autoConfirm)) then Some(SlotTaken)
        else None
  }

  function Created(store: Store, env: Env, customerId: string, staffId: string, serviceId: string,
                   start: int, autoConfirm: bool): (r: (Store, Result<nat, Error>))
    requires WellFormedCatalog(env.catalog)
  {
    match CreateRefusal(store, env, customerId, staffId, serviceId, start, autoConfirm)
    case Some(e) => (store, Err(e))
    case None =>
      (store.(rows := store.rows + [NewRow(env, customerId, staffId, serviceId, start, autoConfirm)]), Ok(|store.rows|))
  }

  function Moved(store: Store, env: Env, id: nat, to: Status): (r: (Store, Result<nat, Error>)) {
    if !Found(store, env, id) then (store, Err(NotFound))
    else if store.rows[id].status == to then (store, Ok(id))
    else if !CanTransition(store.rows[id].status, to) then (store, Err(InvalidTransition))
    else (store.(rows := store.rows[id := store.rows[id].(status := to)]), Ok(id))
  }

  function CancelRow(a: Appointment, now: int): (r: Appointment) {
    a.(status := Cancelled, cancelledAt := Some(now))
  }

  predicate TooLate(env: Env, start: int) {
    var hours := if env.cancellationHours.Some? then env.cancellationHours.value else DEFAULT_CANCELLATION_HOURS;
    start - env.now < hours * HOUR_MS
  }

  function CancelledBy(store: Store, env: Env, id: nat, byCustomer: bool): (r: (Store, Result<nat, Error>)) {
    if !Found(store, env, id) then (store, Err(NotFound))
    else if store.rows[id].status == Cancelled then (store, Ok(id))
    else if !CanTransition(store.rows[id].status, Cancelled) then (store, Err(InvalidTransition))
    else if byCustomer && TooLate(env, store.rows[id].start) then (store, Err(TooLateToCancel))
    else (store.(rows := store.rows[id := CancelRow(store.rows[id], env.now)]), Ok(id))
  }

  /** A new linked row is inserted while the old one still holds its slot; then the old one is cancelled. */
  function Rescheduled(store: Store, env: Env, id: nat, newStaffId: Option<string>, newStart: int)
    : (r: (Store, Result<nat, Error>))
    requires WellFormedCatalog(env.catalog)
  {
    if !Found(store, env, id) then (store, Err(NotFound))
    else if !CanTransition(store.rows[id].status, Cancelled) then (store, Err(InvalidTransition))
    else
      var from := store.rows[id];
      var (created, answer) := Created(store, env, from.customerId, TargetStaff(from, newStaffId), from.serviceId,
        newStart, from.status == Confirmed);
      match answer
      case Err(e) => (store, Err(e))
      case Ok(n) =>
        var linked := created.rows[|store.rows|].(rescheduledFrom := Some(id));
        (store.(rows := store.rows[id := CancelRow(from, env.now)] + [linked]), Ok(n))
  }

  function TargetStaff(from: Appointment, newStaffId: Option<string>): (r: string) {
    if newStaffId.Some? then newStaffId.value else from.staffId
  }

  function Removed(store: Store, env: Env, id: nat): (r: (Store, Result<nat, Error>)) {
    if !Found(store, env, id) then (store, Err(NotFound))
    else (store.(rows := store.rows[id := store.rows[id].(deletedAt := Some(env.now))]), Ok(id))
  }

  /** The rows a staff removal cancels: not filtered by soft deletion, but only the caller's partition. */
  predicate Upcoming(env: Env, staffId: string, a: Appointment) {
    Visible(env.caller, a) && a.staffId == staffId && a.start >= env.now && IsActiveStatus(a.status)
  }

  function CountUpcoming(rows: seq<Appointment>, env: Env, staffId: string): (r: nat) {
    if rows == [] then 0
    else CountUpcoming(rows[..|rows| - 1], env, staffId) + if Upcoming(env, staffId, rows[|rows| - 1]) then 1 else 0
  }

  function CancelUpcoming(rows: seq<Appointment>, env: Env, staffId: string): (r: seq<Appointment>) {
    if rows == [] then []
    else
      var last := rows[|rows| - 1];
      CancelUpcoming(rows[..|rows| - 1], env, staffId) +
      [if Upcoming(env, staffId, last) then CancelRow(last, env.now) else last]
  }

  function LoginClosed(logins: map<(string, string), bool>, key: (string, string)): (r: map<(string, string), bool>) {
    if key in logins then logins[key := false] else logins
  }

  function StaffRemoved(store: Store, env: Env, staffId: string, force: bool): (r: (Store, Result<nat, Error>)) {
    var key := (env.caller.businessId, staffId);
    if key !in store.staff || store.staff[key].isDeleted then (store, Err(NotFound))
    else
      var n := CountUpcoming(store.rows, env, staffId);
      if n > 0 && !force then (store, Err(StaffHasAppointments))
      else
        var rows := if n > 0 then CancelUpcoming(store.rows, env, staffId) else store.rows;
        (Store(rows, store.staff[key := StaffRow(false, true)], LoginClosed(store.logins, key)), Ok(n))
  }

  function Apply(store: Store, env: Env, r: Request): (result: (Store, Result<nat, Error>))
    requires WellFormedCatalog(env.catalog)
  {
    match r
    case Create(customerId, staffId, serviceId, start, autoConfirm) =>
      Created(store, env, customerId, staffId, serviceId, start, autoConfirm)
    case Move(id, to) => Moved(store, env, id, TargetStatus(to))
    case Cancel(id, byCustomer) => CancelledBy(store, env, id, byCustomer)
    case Reschedule(id, newStaffId, newStart) => Rescheduled(store, env, id, newStaffId, newStart)
    case Remove(id) => Removed(store, env, id)
    case RemoveStaff(staffId, force) => StaffRemoved(store, env, staffId, force)
  }

  /// ## The service

  class AppointmentService {
    var rows: seq<Appointment>
    var staff: map<(string, string), StaffRow>
    var logins: map<(string, string), bool>

    ghost function State(): (r: Store)
      reads this
    {
      Store(rows, staff, logins)
    }

    constructor (staff: map<(string, string), StaffRow>, logins: map<(string, string), bool>)
      ensures State() == Store([], staff, logins)
    {
      this.rows := [];
      this.staff := staff;
      this.logins := logins;
    }

    predicate FindOne(env: Env, id: nat)
      reads this
      ensures FindOne(env, id) == Found(State(), env, id)
    {
      id < |rows| && Visible(env.caller, rows[id]) && rows[id].deletedAt == None
    }

    /** The insert as the database performs it: refused when the exclusion constraint objects. */
    method Insert(a: Appointment) returns (r: Result<nat, Error>)
      modifies this`rows
      ensures if Excluded(old(rows), a) then rows == old(rows) && r == Err(SlotTaken)
        else rows == old(rows) + [a] && r == Ok(|old(rows)|)
    {
      for n := 0 to |rows|
        invariant forall k :: 0 <= k < n ==> !Conflict(rows[k], a)
        invariant rows == old(rows)
      {
        if Conflict(rows[n], a) {
          return Err(SlotTaken);
        }
      }
      rows := rows + [a];
      return Ok(|rows| - 1);
    }

    method Create(env: Env, customerId: string, staffId: string, serviceId: string, start: int, autoConfirm: bool)
      returns (r: Result<nat, Error>)
      requires WellFormedCatalog(env.catalog)
      modifies this
      ensures (State(), r) == Created(old(State()), env, customerId, staffId, serviceId, start, autoConfirm)
    {
      var key := (env.caller.businessId, staffId);
      if key !in staff || !staff[key].isActive || staff[key].isDeleted {
        return Err(StaffNotFound);
      }
      if serviceId !in env.catalog.services {
        return Err(ServiceNotFound);
      }
      if (staffId, serviceId) !in env.catalog.offers {
        return Err(ServiceNotOffered);
      }
      if start <= env.now - CLOCK_SKEW_TOLERANCE_MS {
        return Err(InPast);
      }
      var why := AssertOnSlotBoundary(env.calendar, env.hours, start, env.catalog.services[serviceId].slotIntervalMin);
      if why.Some? {
        return Err(OffHours(why.value));
      }
      r := Insert(NewRow(env, customerId, staffId, serviceId, start, autoConfirm));
    }

    method Transition(env: Env, id: nat, to: Target) returns (r: Result<nat, Error>)
      modifies this
      ensures (State(), r) == Moved(old(State()), env, id, TargetStatus(to))
    {
      if !FindOne(env, id) {
        return Err(NotFound);
      }
      var status := TargetStatus(to);
      if rows[id].status == status {
        return Ok(id);
      }
      if !CanTransition(rows[id].status, status) {
        return Err(InvalidTransition);
      }
      rows := rows[id := rows[id].(status := status)];
      return Ok(id);
    }

    method Cancel(env: Env, id: nat, byCustomer: bool) returns (r: Result<nat, Error>)
      modifies this
      ensures (State(), r) == CancelledBy(old(State()), env, id, byCustomer)
    {
      if !FindOne(env, id) {
        return Err(NotFound);
      }
      if rows[id].status == Cancelled {
        return Ok(id);
      }
      if !CanTransition(rows[id].status, Cancelled) {
        return Err(InvalidTransition);
      }
      if byCustomer && TooLate(env, rows[id].start) {
        return Err(TooLateToCancel);
      }
      rows := rows[id := rows[id].(status := Cancelled, cancelledAt := Some(env.now))];
      return Ok(id);
    }

    method Reschedule(env: Env, id: nat, newStaffId: Option<string>, newStart: int) returns (r: Result<nat, Error>)
      requires WellFormedCatalog(env.catalog)
      modifies this
      ensures (State(), r) == Rescheduled(old(State()), env, id, newStaffId, newStart)
    {
      if !FindOne(env, id) {
        return Err(NotFound);
      }
      var from := rows[id];
      if !CanTransition(from.status, Cancelled) {
        return Err(InvalidTransition);
      }
      var staffId := TargetStaff(from, newStaffId);
      r := Create(env, from.customerId, staffId, from.serviceId, newStart, from.status == Confirmed);
      if r.Err? {
        return;
      }
      rows := rows[r.value := rows[r.value].(rescheduledFrom := Some(id))];
      rows := rows[id := rows[id].(status := Cancelled, cancelledAt := Some(env.now))];
      assert rows == old(rows)[id := CancelRow(from, env.now)] + [rows[|old(rows)|]];
    }

    method Remove(env: Env, id: nat) returns (r: Result<nat, Error>)
      modifies this
      ensures (State(), r) == Removed(old(State()), env, id)
    {
      if !FindOne(env, id) {
        return Err(NotFound);
      }
      rows := rows[id := rows[id].(deletedAt := Some(env.now))];
      return Ok(id);
    }

    method RemoveStaff(env: Env, staffId: string, force: bool) returns (r: Result<nat, Error>)
      modifies this
      ensures (State(), r) == StaffRemoved(old(State()), env, staffId, force)
    {
      var key := (env.caller.businessId, staffId);
      if key !in staff || staff[key].isDeleted {
        return Err(NotFound);
      }
      var count := 0;
      for n := 0 to |rows|
        invariant rows == old(rows)
        invariant count == CountUpcoming(rows[..n], env, staffId)
      {
        assert rows[..n + 1][..n] == rows[..n];
        if Upcoming(env, staffId, rows[n]) {
          count := count + 1;
        }
      }
      assert rows[..|rows|] == rows;
      if count > 0 && !force {
        return Err(StaffHasAppointments);
      }
      if count > 0 {
        var updated: seq<Appointment> := [];
        for n := 0 to |rows|
          invariant rows == old(rows)
          invariant updated == CancelUpcoming(rows[..n], env, staffId)
        {
          assert rows[..n + 1][..n] == rows[..n];
          updated := updated + [if Upcoming(env, staffId, rows[n]) then CancelRow(rows[n], env.now) else rows[n]];
        }
        assert rows[..|rows|] == rows;
        rows := updated;
      }
      staff := staff[key := StaffRow(false, true)];
      if key in logins {
        logins := logins[key := false];
      }
      return Ok(count);
    }
  }

  /// ## What every step keeps

  ghost predicate NoDoubleBooking(rows: seq<Appointment>) {
    forall i, j :: 0 <= i < j < |rows| ==> !Conflict(rows[i], rows[j])
  }

  ghost predicate Stamped(rows: seq<Appointment>) {
    forall i :: 0 <= i < |rows| ==> (rows[i].status == Cancelled <==> rows[i].cancelledAt.Some?)
  }

  /** A rescheduled row points back at an earlier, cancelled booking of the same customer and service. */
  predicate LinksBack(rows: seq<Appointment>, i: nat)
    requires i < |rows|
  {
    rows[i].rescheduledFrom.Some? ==>
      var p := rows[i].rescheduledFrom.value;
      && p < i
      && rows[p].status == Cancelled
      && rows[p].businessId == rows[i].businessId
      && rows[p].isTest == rows[i].isTest
      && rows[p].customerId == rows[i].customerId
      && rows[p].serviceId == rows[i].serviceId
  }

  ghost predicate Linked(rows: seq<Appointment>) {
    && (forall i :: 0 <= i < |rows| ==> LinksBack(rows, i))
    && (forall i, j :: 0 <= i < j < |rows| && rows[i].rescheduledFrom.Some? ==>
          rows[i].rescheduledFrom != rows[j].rescheduledFrom)
  }

  ghost predicate Inv(store: Store) {
    NoDoubleBooking(store.rows) && Stamped(store.rows) && Linked(store.rows)
  }

  /** A row keeps its identity, range and link; its status stays or takes one allowed transition;
      a soft-deleted row stays deleted. */
  predicate RowEvolves(a: Appointment, b: Appointment) {
    && b == a.(status := b.status, cancelledAt := b.cancelledAt, deletedAt := b.deletedAt)
    && (b.status == a.status || CanTransition(a.status, b.status))
    && (b.status == a.status ==> b.cancelledAt == a.cancelledAt)
    && (a.deletedAt.Some? ==> b.deletedAt == a.deletedAt)
  }

  /** A row as it may enter the store. */
  predicate EntersFree(rows: seq<Appointment>, a: Appointment) {
    && (a.status == Pending || a.status == Confirmed)
    && a.cancelledAt == None && a.deletedAt == None
    && !Excluded(rows, a)
  }

  ghost predicate Evolves(s: Store, t: Store) {
    && |s.rows| <= |t.rows| <= |s.rows| + 1
    && (forall i :: 0 <= i < |s.rows| ==> RowEvolves(s.rows[i], t.rows[i]))
    && (|t.rows| > |s.rows| ==> EntersFree(s.rows, t.rows[|s.rows|]))
    && (forall k :: k in s.staff ==> k in t.staff && (s.staff[k].isDeleted ==> t.staff[k].isDeleted))
  }

  lemma {:induction false} CancelUpcomingExact(rows: seq<Appointment>, env: Env, staffId: string)
    ensures |CancelUpcoming(rows, env, staffId)| == |rows|
    ensures forall i :: 0 <= i < |rows| ==>
      CancelUpcoming(rows, env, staffId)[i] ==
        if Upcoming(env, staffId, rows[i]) then CancelRow(rows[i], env.now) else rows[i]
    ensures CountUpcoming(rows, env, staffId) == 0 ==> forall i :: 0 <= i < |rows| ==> !Upcoming(env, staffId, rows[i])
  {
    if rows != [] {
      CancelUpcomingExact(rows[..|rows| - 1], env, staffId);
    }
  }

  lemma StepEvolves(store: Store, env: Env, r: Request)
    requires WellFormedCatalog(env.catalog)
    ensures Evolves(store, Apply(store, env, r).0)
  {
    match r
    case Create(customerId, staffId, serviceId, start, autoConfirm) =>
      CreateEvolves(store, env, customerId, staffId, serviceId, start, autoConfirm);
    case Reschedule(id, newStaffId, newStart) => RescheduleEvolves(store, env, id, newStaffId, newStart);
    case RemoveStaff(staffId, force) => RemoveStaffEvolves(store, env, staffId, force);
    case Move(id, to) => MovedEvolves(store, env, id, TargetStatus(to));
    case Cancel(id, byCustomer) => CancelledEvolves(store, env, id, byCustomer);
    case Remove(_) =>
  }

  lemma CreateEvolves(store: Store, env: Env, customerId: string, staffId: string, serviceId: string,
                      start: int, autoConfirm: bool)
    requires WellFormedCatalog(env.catalog)
    ensures Evolves(store, Created(store, env, customerId, staffId, serviceId, start, autoConfirm).0)
  {
  }

  lemma MovedEvolves(store: Store, env: Env, id: nat, to: Status)
    ensures Evolves(store, Moved(store, env, id, to).0)
  {
  }

  lemma CancelledEvolves(store: Store, env: Env, id: nat, byCustomer: bool)
    ensures Evolves(store, CancelledBy(store, env, id, byCustomer).0)
  {
  }

  lemma RemoveStaffEvolves(store: Store, env: Env, staffId: string, force: bool)
    ensures Evolves(store, StaffRemoved(store, env, staffId, force).0)
  {
    CancelUpcomingExact(store.rows, env, staffId);
  }

  lemma RescheduleEvolves(store: Store, env: Env, id: nat, newStaffId: Option<string>, newStart: int)
    requires WellFormedCatalog(env.catalog)
    ensures Evolves(store, Rescheduled(store, env, id, newStaffId, newStart).0)
  {
    var (t, answer) := Rescheduled(store, env, id, newStaffId, newStart);
    if answer.Ok? {
      var a := t.rows[|store.rows|];
      var row := a.(rescheduledFrom := None);
      assert !Excluded(store.rows, row);
      forall k | 0 <= k < |store.rows| ensures !Conflict(store.rows[k], a) {
        assert !Conflict(store.rows[k], row);
      }
    }
  }

  /** Updates can only take rows out of the way, so the overlap check is needed at insertion alone. */
  lemma EvolvingKeepsSlotsApart(s: Store, t: Store)
    requires NoDoubleBooking(s.rows) && Evolves(s, t)
    ensures NoDoubleBooking(t.rows)
  {
    forall i, j | 0 <= i < j < |t.rows| ensures !Conflict(t.rows[i], t.rows[j]) {
      LiveOnlyShrinks(s.rows[i], t.rows[i]);
      if j < |s.rows| {
        LiveOnlyShrinks(s.rows[j], t.rows[j]);
        assert !Conflict(s.rows[i], s.rows[j]);
      } else {
        assert !Conflict(s.rows[i], t.rows[j]);
      }
    }
  }

  lemma LiveOnlyShrinks(a: Appointment, b: Appointment)
    requires RowEvolves(a, b)
    ensures Live(b) ==> Live(a)
  {
  }

  lemma StepKeepsStamps(store: Store, env: Env, r: Request)
    requires WellFormedCatalog(env.catalog) && Stamped(store.rows)
    ensures Stamped(Apply(store, env, r).0.rows)
  {
    match r
    case RemoveStaff(staffId, _) => CancelUpcomingExact(store.rows, env, staffId);
    case Reschedule(id, newStaffId, newStart) => RescheduleStamps(store, env, id, newStaffId, newStart);
    case _ =>
  }

  lemma RescheduleStamps(store: Store, env: Env, id: nat, newStaffId: Option<string>, newStart: int)
    requires WellFormedCatalog(env.catalog) && Stamped(store.rows)
    ensures Stamped(Rescheduled(store, env, id, newStaffId, newStart).0.rows)
  {
  }

  lemma OldLinksHold(s: Store, t: Store)
    requires Linked(s.rows) && Evolves(s, t)
    ensures forall i :: 0 <= i < |s.rows| ==>
      LinksBack(t.rows, i) && t.rows[i].rescheduledFrom == s.rows[i].rescheduledFrom
  {
    forall i | 0 <= i < |s.rows| ensures LinksBack(t.rows, i) {
      assert LinksBack(s.rows, i);
      if s.rows[i].rescheduledFrom.Some? {
        var p := s.rows[i].rescheduledFrom.value;
        assert RowEvolves(s.rows[p], t.rows[p]) && RowEvolves(s.rows[i], t.rows[i]);
      }
    }
  }

  /** Only a reschedule adds a link, and it links to a row that was not cancelled until now. As long
      as requests do not overlap, the unique index on the link has nothing to refuse. */
  lemma RescheduleKeepsLinks(store: Store, env: Env, id: nat, newStaffId: Option<string>, newStart: int)
    requires WellFormedCatalog(env.catalog) && Linked(store.rows)
    ensures Linked(Rescheduled(store, env, id, newStaffId, newStart).0.rows)
  {
    var (t, answer) := Rescheduled(store, env, id, newStaffId, newStart);
    RescheduleEvolves(store, env, id, newStaffId, newStart);
    OldLinksHold(store, t);
    if answer.Ok? {
      var n := |store.rows|;
      assert LinksBack(t.rows, n);
      forall i | 0 <= i < n ensures t.rows[i].rescheduledFrom != t.rows[n].rescheduledFrom {
        assert LinksBack(store.rows, i);
      }
    }
  }

  lemma StepKeepsLinks(store: Store, env: Env, r: Request)
    requires WellFormedCatalog(env.catalog) && Linked(store.rows)
    ensures Linked(Apply(store, env, r).0.rows)
  {
    if r.Reschedule? {
      RescheduleKeepsLinks(store, env, r.id, r.newStaffId, r.newStart);
    } else {
      StepEvolves(store, env, r);
      NoNewLink(store, env, r);
      var t := Apply(store, env, r).0;
      OldLinksHold(store, t);
      forall i | 0 <= i < |t.rows| ensures LinksBack(t.rows, i) {
      }
    }
  }

  lemma NoNewLink(store: Store, env: Env, r: Request)
    requires WellFormedCatalog(env.catalog) && !r.Reschedule?
    ensures var t := Apply(store, env, r).0;
      |t.rows| > |store.rows| ==> t.rows[|store.rows|].rescheduledFrom == None
  {
    if r.RemoveStaff? {
      CancelUpcomingExact(store.rows, env, r.staffId);
    }
  }

  lemma StepKeepsInvariant(store: Store, env: Env, r: Request)
    requires WellFormedCatalog(env.catalog) && Inv(store)
    ensures Inv(Apply(store, env, r).0)
  {
    StepEvolves(store, env, r);
    EvolvingKeepsSlotsApart(store, Apply(store, env, r).0);
    StepKeepsStamps(store, env, r);
    StepKeepsLinks(store, env, r);
  }

  /** A request that is refused changes nothing. */
  lemma RefusalChangesNothing(store: Store, env: Env, r: Request)
    requires WellFormedCatalog(env.catalog) && Apply(store, env, r).1.Err?
    ensures Apply(store, env, r).0 == store
  {
  }

  /** A reschedule that stays with the same staff member must clear its own old slot, because the
      old row still holds it when the new one is inserted. */
  lemma RescheduleLandsElsewhere(store: Store, env: Env, id: nat, newStaffId: Option<string>, newStart: int)
    requires WellFormedCatalog(env.catalog)
    requires Rescheduled(store, env, id, newStaffId, newStart).1.Ok?
    requires TargetStaff(store.rows[id], newStaffId) == store.rows[id].staffId
    ensures var t := Rescheduled(store, env, id, newStaffId, newStart).0;
      var n := Rescheduled(store, env, id, newStaffId, newStart).1.value;
      && n == |store.rows| && |t.rows| == n + 1
      && !RangesOverlap(t.rows[id], t.rows[n])
      && t.rows[n].rescheduledFrom == Some(id)
      && t.rows[id].status == Cancelled
  {
    var t := Rescheduled(store, env, id, newStaffId, newStart).0;
    var row := t.rows[|store.rows|].(rescheduledFrom := None);
    assert !Excluded(store.rows, row);
    assert !Conflict(store.rows[id], row);
  }

  /// ## Runs

  datatype Step = Step(env: Env, request: Request)

  ghost predicate WellFormedSteps(steps: seq<Step>) {
    forall k :: 0 <= k < |steps| ==> WellFormedCatalog(steps[k].env.catalog)
  }

  ghost function Run(store: Store, steps: seq<Step>): (r: Store)
    requires WellFormedSteps(steps)
    decreases |steps|
  {
    if steps == [] then store
    else Run(Apply(store, steps[0].env, steps[0].request).0, steps[1..])
  }

  /** Every state any sequence of requests can reach keeps staff free of double bookings, stamps
      exactly the cancelled rows, and links reschedules into unbranched chains. */
  lemma {:induction false} RunKeepsInvariant(store: Store, steps: seq<Step>)
    requires WellFormedSteps(steps) && Inv(store)
    ensures Inv(Run(store, steps))
    decreases |steps|
  {
    if steps != [] {
      StepKeepsInvariant(store, steps[0].env, steps[0].request);
      RunKeepsInvariant(Apply(store, steps[0].env, steps[0].request).0, steps[1..]);
    }
  }

  lemma EmptyStoreIsFine(staff: map<(string, string), StaffRow>, logins: map<(string, string), bool>, steps: seq<Step>)
    requires WellFormedSteps(steps)
    ensures Inv(Run(Store([], staff, logins), steps))
  {
    RunKeepsInvariant(Store([], staff, logins), steps);
  }

  function Rank(s: Status): (r: nat) {
    match s
    case Pending => 3
    case Confirmed => 2
    case InProgress => 1
    case Completed => 0
    case Cancelled => 0
    case NoShow => 0
  }

  /** `b` can be reached from `a` along the transition table. */
  ghost predicate StatusReaches(a: Status, b: Status)
    decreases Rank(a)
  {
    a == b || exists m :: m in Transitions(a) && Rank(m) < Rank(a) && StatusReaches(m, b)
  }

  /** What a whole run may do to a row. */
  ghost predicate RowHistory(a: Appointment, b: Appointment) {
    && b == a.(status := b.status, cancelledAt := b.cancelledAt, deletedAt := b.deletedAt)
    && StatusReaches(a.status, b.status)
    && (b.status == a.status ==> b.cancelledAt == a.cancelledAt)
    && (a.deletedAt.Some? ==> b.deletedAt == a.deletedAt)
  }

  ghost predicate History(s: Store, t: Store) {
    && |s.rows| <= |t.rows|
    && (forall i :: 0 <= i < |s.rows| ==> RowHistory(s.rows[i], t.rows[i]))
    && (forall k :: k in s.staff && s.staff[k].isDeleted ==> k in t.staff && t.staff[k].isDeleted)
  }

  lemma RowStepThenHistory(a: Appointment, b: Appointment, c: Appointment)
    requires RowEvolves(a, b) && RowHistory(b, c)
    ensures RowHistory(a, c)
  {
    if c.status == a.status {
      assert b.status == a.status by {
        ReachDrops(b.status, c.status);
      }
    }
  }

  lemma {:induction false} ReachDrops(a: Status, b: Status)
    requires StatusReaches(a, b)
    ensures a == b || Rank(b) < Rank(a)
    decreases Rank(a)
  {
    if a != b {
      var m :| m in Transitions(a) && Rank(m) < Rank(a) && StatusReaches(m, b);
      ReachDrops(m, b);
    }
  }

  /** Over any run no row disappears, moves, changes hands or leaves the transition table. */
  lemma {:induction false} RunHistory(store: Store, steps: seq<Step>)
    requires WellFormedSteps(steps)
    ensures History(store, Run(store, steps))
    decreases |steps|
  {
    if steps != [] {
      var next := Apply(store, steps[0].env, steps[0].request).0;
      StepEvolves(store, steps[0].env, steps[0].request);
      RunHistory(next, steps[1..]);
      var last := Run(next, steps[1..]);
      forall i | 0 <= i < |store.rows| ensures RowHistory(store.rows[i], last.rows[i]) {
        RowStepThenHistory(store.rows[i], next.rows[i], last.rows[i]);
      }
    }
  }

  /// ## Reschedule chains

  /** `i` is reached from `j` by following reschedule links back. */
  ghost predicate Follows(rows: seq<Appointment>, j: nat, i: nat)
    requires Linked(rows) && j < |rows|
    decreases j
  {
    j == i || (rows[j].rescheduledFrom.Some? && LinksBack(rows, j) && Follows(rows, rows[j].rescheduledFrom.value, i))
  }

  /** Links never cycle, never change customer or service, and leave only the last row uncancelled. */
  lemma {:induction false} ChainFacts(rows: seq<Appointment>, j: nat, i: nat)
    requires Linked(rows) && j < |rows| && Follows(rows, j, i)
    ensures i <= j
    ensures rows[i].customerId == rows[j].customerId && rows[i].serviceId == rows[j].serviceId
    ensures i != j ==> rows[i].status == Cancelled
    decreases j
  {
    if i != j {
      ChainFacts(rows, rows[j].rescheduledFrom.value, i);
    }
  }

  lemma {:induction false} DirectSuccessor(rows: seq<Appointment>, j: nat, i: nat) returns (c: nat)
    requires Linked(rows) && j < |rows| && Follows(rows, j, i) && i != j
    ensures c <= j && rows[c].rescheduledFrom == Some(i) && Follows(rows, j, c)
    decreases j
  {
    var p := rows[j].rescheduledFrom.value;
    if p == i {
      c := j;
    } else {
      c := DirectSuccessor(rows, p, i);
    }
  }

  /** Two rows that go back to the same booking lie on one line. */
  lemma {:induction false} ChainsDoNotBranch(rows: seq<Appointment>, j: nat, k: nat, i: nat)
    requires Linked(rows) && j < |rows| && k < |rows| && Follows(rows, j, i) && Follows(rows, k, i)
    ensures Follows(rows, j, k) || Follows(rows, k, j)
    decreases j + k, if j < k then 1 else 0
  {
    if j < k {
      ChainsDoNotBranch(rows, k, j, i);
    } else if j != k {
      ChainFacts(rows, k, i);
      var p := rows[j].rescheduledFrom.value;
      assert LinksBack(rows, j);
      ChainsDoNotBranch(rows, p, k, i);
      if Follows(rows, k, p) && k != p {
        var c := DirectSuccessor(rows, k, p);
      }
    }
  }

  /// ## Removing a staff member

  /** A removal that goes through leaves no upcoming active booking in the caller's partition, closes
      the linked login, and touches nothing but what it cancels. */
  lemma RemovalClearsUpcoming(store: Store, env: Env, staffId: string, force: bool)
    requires StaffRemoved(store, env, staffId, force).1.Ok?
    ensures var t := StaffRemoved(store, env, staffId, force).0;
      && |t.rows| == |store.rows|
      && (forall i :: 0 <= i < |t.rows| ==> !Upcoming(env, staffId, t.rows[i]))
      && (forall i :: 0 <= i < |t.rows| && !Upcoming(env, staffId, store.rows[i]) ==> t.rows[i] == store.rows[i])
      && var key := (env.caller.businessId, staffId);
      && key in t.staff && t.staff[key].isDeleted && !t.staff[key].isActive
      && (forall k :: k != key ==>
            (k in t.staff <==> k in store.staff) && (k in t.staff ==> t.staff[k] == store.staff[k]))
      && t.logins.Keys == store.logins.Keys
      && (forall k :: k in t.logins ==> t.logins[k] == (store.logins[k] && k != key))
  {
    CancelUpcomingExact(store.rows, env, staffId);
  }

  /** An upcoming active booking of the staff member, of whichever mode partition. */
  predicate AnyUpcoming(env: Env, staffId: string, a: Appointment) {
    a.businessId == env.caller.businessId && a.staffId == staffId && a.start >= env.now && IsActiveStatus(a.status)
  }

  /** Exactly which upcoming bookings of a removed staff member stay active: those of the tenant's
      other mode partition. */
  lemma RemovalSpares(store: Store, env: Env, staffId: string, force: bool, i: nat)
    requires StaffRemoved(store, env, staffId, force).1.Ok? && i < |store.rows|
    ensures var t := StaffRemoved(store, env, staffId, force).0;
      && i < |t.rows|
      && (AnyUpcoming(env, staffId, t.rows[i]) <==>
            AnyUpcoming(env, staffId, store.rows[i]) && store.rows[i].isTest != env.caller.isTest)
  {
    CancelUpcomingExact(store.rows, env, staffId);
  }

  ghost predicate NoneUpcoming(store: Store, env: Env, staffId: string) {
    && (env.caller.businessId, staffId) in store.staff
    && store.staff[(env.caller.businessId, staffId)].isDeleted
    && forall i :: 0 <= i < |store.rows| ==> !Upcoming(env, staffId, store.rows[i])
  }

  lemma StepKeepsNoneUpcoming(store: Store, env: Env, staffId: string, actor: Env, r: Request)
    requires WellFormedCatalog(actor.catalog) && NoneUpcoming(store, env, staffId)
    ensures NoneUpcoming(Apply(store, actor, r).0, env, staffId)
  {
    StepEvolves(store, actor, r);
    var t := Apply(store, actor, r).0;
    forall i | 0 <= i < |t.rows| ensures !Upcoming(env, staffId, t.rows[i]) {
      if i < |store.rows| {
        assert !Upcoming(env, staffId, store.rows[i]);
        assert RowEvolves(store.rows[i], t.rows[i]);
      }
    }
  }

  /** Once removed, a staff member never again holds an upcoming active booking of that partition. */
  lemma {:induction false} RemovedStaffStaysFree(store: Store, env: Env, staffId: string, steps: seq<Step>)
    requires WellFormedSteps(steps) && NoneUpcoming(store, env, staffId)
    ensures NoneUpcoming(Run(store, steps), env, staffId)
    decreases |steps|
  {
    if steps != [] {
      StepKeepsNoneUpcoming(store, env, staffId, steps[0].env, steps[0].request);
      RemovedStaffStaysFree(Apply(store, steps[0].env, steps[0].request).0, env, staffId, steps[1..]);
    }
  }
}
