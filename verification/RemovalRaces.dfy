/**
 * A staff removal among overlapping requests. The removal counts the upcoming bookings
 * when it reads, skips its bulk cancel when it counted none, and anything may be booked
 * before it writes or be in flight when it does.
 */
module RemovalRaces {
  import opened Options
  import opened Appointments
  import opened OverlappingRequests

  /// ## What the removal leaves

  /** Exactly when a removal leaves no upcoming booking of its staff member: when it had counted one,
      and so cancels them all, or when there is none as it writes. */
  lemma RemovalLeavesNoneIff(store: Store, o: Intent)
    requires IntentFits(store, o) && o.request.RemoveStaff?
    ensures NoneUpcoming(Written(store, o), o.env, o.request.staffId) <==>
      o.count > 0 || forall i :: 0 <= i < |store.rows| ==> !Upcoming(o.env, o.request.staffId, store.rows[i])
  {
    CancelUpcomingExact(store.rows, o.env, o.request.staffId);
  }

  /// ## Bookings in flight

  /** The row an intent would leave behind as an upcoming active booking of a staff member. */
  predicate Places(o: Intent, env: Env, staffId: string) {
    match o.request
    case Create(_, id, _, start, _) => o.env.caller == env.caller && id == staffId && start >= env.now
    case Reschedule(_, newStaffId, newStart) =>
      && o.env.caller == env.caller && newStart >= env.now
      && o.seen.Some? && TargetStaff(o.seen.value, newStaffId) == staffId
    case Move(_, to) =>
      && o.seen.Some? && IsActiveStatus(TargetStatus(to))
      && Visible(env.caller, o.seen.value) && o.seen.value.staffId == staffId && o.seen.value.start >= env.now
    case _ => false
  }

  /** A booking, a reschedule or a status write in flight that would place such a row, and that goes
      through after the removal, leaves exactly that. */
  lemma BookingOvertakesRemoval(store: Store, o: Intent, env: Env, staffId: string)
    requires IntentFits(store, o) && Places(o, env, staffId) && NoneUpcoming(store, env, staffId)
    ensures NoneUpcoming(Written(store, o), env, staffId) <==> Written(store, o) == store
  {
    var t := Written(store, o).rows;
    if |t| > |store.rows| {
      assert Upcoming(env, staffId, t[|store.rows|]);
    } else if o.request.Move? && t != store.rows {
      assert Upcoming(env, staffId, t[o.request.id]);
    }
  }

  lemma WrittenPlacesNothing(store: Store, o: Intent, env: Env, staffId: string)
    requires IntentFits(store, o) && NoneUpcoming(store, env, staffId) && !Places(o, env, staffId)
    ensures NoneUpcoming(Written(store, o), env, staffId)
  {
    if o.request.RemoveStaff? {
      RemovalPlacesNothing(store, o, env, staffId);
    } else {
      var t := Written(store, o);
      WrittenGrows(store, o);
      forall i | 0 <= i < |t.rows| ensures !Upcoming(env, staffId, t.rows[i]) {
        if i < |store.rows| {
          assert !Upcoming(env, staffId, store.rows[i]) && SameBooking(store.rows[i], t.rows[i]);
        }
      }
    }
  }

  lemma RemovalPlacesNothing(store: Store, o: Intent, env: Env, staffId: string)
    requires IntentFits(store, o) && o.request.RemoveStaff? && NoneUpcoming(store, env, staffId)
    ensures NoneUpcoming(Written(store, o), env, staffId)
  {
    CancelUpcomingExact(store.rows, o.env, o.request.staffId);
    var t := Written(store, o);
    forall i | 0 <= i < |t.rows| ensures !Upcoming(env, staffId, t.rows[i]) {
      assert !Upcoming(env, staffId, store.rows[i]);
    }
  }

  lemma ReadPlacesNothing(store: Store, env: Env, staffId: string, actor: Env, r: Request)
    requires WellFormedCatalog(actor.catalog) && Passes(store, actor, r) && NoneUpcoming(store, env, staffId)
    ensures !Places(IntentOf(store, actor, r), env, staffId)
  {
    if r.Move? { assert !Upcoming(env, staffId, store.rows[r.id]); }
  }

  /** The intent can still place its row: a reschedule can not once its booking has been rescheduled. */
  predicate CanPlace(store: Store, o: Intent, env: Env, staffId: string) {
    Places(o, env, staffId) && (o.request.Reschedule? ==> !LinkTaken(store.rows, o.request.id))
  }

  ghost predicate NoneCanPlace(s: State, env: Env, staffId: string) {
    forall n <- s.open :: !CanPlace(s.store, s.open[n], env, staffId)
  }

  lemma TakenStays(s: Store, t: Store, id: nat)
    requires Grows(s, t) && LinkTaken(s.rows, id)
    ensures LinkTaken(t.rows, id)
  {
    var k :| 0 <= k < |s.rows| && s.rows[k].rescheduledFrom == Some(id);
    assert SameBooking(s.rows[k], t.rows[k]);
  }

  lemma WriteKeepsFree(s: State, n: nat, env: Env, staffId: string)
    requires Guarded(s) && NoneUpcoming(s.store, env, staffId) && NoneCanPlace(s, env, staffId) && n in s.open
    ensures NoneUpcoming(Next(s, Write(n)).store, env, staffId) && NoneCanPlace(Next(s, Write(n)), env, staffId)
  {
    var o, t := s.open[n], Next(s, Write(n));
    if !Places(o, env, staffId) { WrittenPlacesNothing(s.store, o, env, staffId); }
    WrittenGrows(s.store, o);
    forall k | k in t.open ensures !CanPlace(t.store, t.open[k], env, staffId) {
      var other := s.open[k];
      if Places(other, env, staffId) { TakenStays(s.store, t.store, other.request.id); }
    }
  }

  lemma NextKeepsFree(s: State, e: Event, env: Env, staffId: string)
    requires Guarded(s) && NoneUpcoming(s.store, env, staffId) && NoneCanPlace(s, env, staffId)
    ensures NoneUpcoming(Next(s, e).store, env, staffId) && NoneCanPlace(Next(s, e), env, staffId)
  {
    match e
    case Read(n, actor, r) =>
      if n !in s.open && WellFormedCatalog(actor.catalog) && Passes(s.store, actor, r) {
        ReadPlacesNothing(s.store, env, staffId, actor, r);
      }
    case Write(n) =>
      if n in s.open { WriteKeepsFree(s, n, env, staffId); }
    case Abort(_) =>
  }

  lemma {:induction false} RemovedStaffStaysFree(s: State, env: Env, staffId: string, events: seq<Event>)
    requires Guarded(s) && NoneUpcoming(s.store, env, staffId) && NoneCanPlace(s, env, staffId)
    ensures NoneUpcoming(OverlappingRequests.Run(s, events).store, env, staffId)
    decreases |events|
  {
    if events != [] {
      NextKeepsGuarded(s, events[0]);
      NextKeepsFree(s, events[0], env, staffId);
      RemovedStaffStaysFree(Next(s, events[0]), env, staffId, events[1..]);
    }
  }

  /// ## Every booking in flight can get through

  lemma RunConcat(s: State, a: seq<Event>, b: seq<Event>)
    ensures OverlappingRequests.Run(s, a + b) == OverlappingRequests.Run(OverlappingRequests.Run(s, a), b)
    decreases |a|
  {
    if a == [] {
      assert a + b == b;
    } else {
      assert (a + b)[1..] == a[1..] + b;
      RunConcat(Next(s, a[0]), a[1..], b);
    }
  }

  lemma OneStep(s: State, e: Event)
    ensures OverlappingRequests.Run(s, [e]) == Next(s, e)
  {
    assert [e][1..] == [];
  }

  /** Some request number is not taken. */
  lemma {:induction false} FreshNumber(taken: set<nat>) returns (n: nat)
    ensures forall m :: m in taken ==> m < n
  {
    if taken == {} {
      n := 0;
    } else {
      var m :| m in taken;
      var rest := FreshNumber(taken - {m});
      n := if rest <= m then m + 1 else rest;
      assert forall k :: k in taken ==> k == m || k in taken - {m};
    }
  }

  function Deleted(a: Appointment, now: int): (b: Appointment) {
    a.(deletedAt := Some(now))
  }

  /** Somebody of the row's own partition, with nothing to offer. */
  function OwnerOf(a: Appointment, env: Env): (owner: Env) {
    Env(Caller(a.businessId, a.isTest), env.now, Catalog(map[], map[]), env.calendar, [], None)
  }

  /** A row that has not been deleted can be, whatever else is in flight. */
  lemma DeleteRow(s: State, env: Env, k: nat) returns (events: seq<Event>)
    requires k < |s.store.rows| && s.store.rows[k].deletedAt == None
    ensures OverlappingRequests.Run(s, events) ==
      s.(store := s.store.(rows := s.store.rows[k := Deleted(s.store.rows[k], env.now)]))
  {
    var n := FreshNumber(s.open.Keys);
    assert n !in s.open;
    var owner := OwnerOf(s.store.rows[k], env);
    var read := Read(n, owner, Remove(k));
    var mid := Next(s, read);
    var o := IntentOf(s.store, owner, Remove(k));
    assert mid == s.(open := s.open[n := o]);
    assert IntentFits(s.store, o);
    assert mid.open - {n} == s.open;
    events := [read] + [Write(n)];
    RunConcat(s, [read], [Write(n)]);
    OneStep(s, read);
    OneStep(mid, Write(n));
  }

  /** The rows with the first `k` deleted. */
  ghost predicate DeletedUpTo(s: Store, t: Store, k: nat) {
    && Grows(s, t) && |t.rows| == |s.rows| && t.staff == s.staff
    && (forall i :: 0 <= i < |t.rows| ==> t.rows[i].status == s.rows[i].status)
    && (forall i :: 0 <= i < k && i < |t.rows| ==> t.rows[i].deletedAt.Some?)
  }

  lemma {:induction false} DeleteRows(s: State, env: Env, k: nat) returns (events: seq<Event>)
    requires k <= |s.store.rows|
    ensures OverlappingRequests.Run(s, events).open == s.open
    ensures DeletedUpTo(s.store, OverlappingRequests.Run(s, events).store, k)
  {
    if k == 0 {
      events := [];
    } else {
      var before := DeleteRows(s, env, k - 1);
      var mid := OverlappingRequests.Run(s, before);
      if mid.store.rows[k - 1].deletedAt.Some? {
        events := before;
      } else {
        assert SameBooking(s.store.rows[k - 1], mid.store.rows[k - 1]);
        var last := DeleteRow(mid, env, k - 1);
        RunConcat(s, before, last);
        events := before + last;
      }
    }
  }

  /** With nothing left in the way, an intent that can place its row does. */
  lemma NothingInTheWay(store: Store, o: Intent, env: Env, staffId: string)
    requires IntentFits(store, o) && CanPlace(store, o, env, staffId) && NoneUpcoming(store, env, staffId)
    requires forall i :: 0 <= i < |store.rows| ==> store.rows[i].deletedAt.Some?
    ensures !NoneUpcoming(Written(store, o), env, staffId)
  {
    BookingOvertakesRemoval(store, o, env, staffId);
    if o.request.Move? {
      assert !Upcoming(env, staffId, store.rows[o.request.id]);
    }
  }

  lemma StillTaken(s: Store, t: Store, k: nat, id: nat)
    requires DeletedUpTo(s, t, k) && LinkTaken(t.rows, id)
    ensures LinkTaken(s.rows, id)
  {
    var j :| 0 <= j < |t.rows| && t.rows[j].rescheduledFrom == Some(id);
    assert SameBooking(s.rows[j], t.rows[j]);
  }

  lemma StillNone(s: Store, t: Store, k: nat, env: Env, staffId: string)
    requires DeletedUpTo(s, t, k) && NoneUpcoming(s, env, staffId)
    ensures NoneUpcoming(t, env, staffId)
  {
    forall i | 0 <= i < |t.rows| ensures !Upcoming(env, staffId, t.rows[i]) {
      assert SameBooking(s.rows[i], t.rows[i]) && !Upcoming(env, staffId, s.rows[i]);
    }
  }

  /** A run in which an intent that can place its row does so. */
  lemma IntentGetsThrough(s: State, n: nat, env: Env, staffId: string) returns (events: seq<Event>)
    requires Guarded(s) && NoneUpcoming(s.store, env, staffId)
    requires n in s.open && CanPlace(s.store, s.open[n], env, staffId)
    ensures !NoneUpcoming(OverlappingRequests.Run(s, events).store, env, staffId)
  {
    var o, k := s.open[n], |s.store.rows|;
    var clear := DeleteRows(s, env, k);
    var mid := OverlappingRequests.Run(s, clear);
    FitsStays(s.store, mid.store, o);
    StillNone(s.store, mid.store, k, env, staffId);
    if o.request.Reschedule? && LinkTaken(mid.store.rows, o.request.id) {
      StillTaken(s.store, mid.store, k, o.request.id);
    }
    NothingInTheWay(mid.store, o, env, staffId);
    events := clear + [Write(n)];
    RunConcat(s, clear, [Write(n)]);
    OneStep(mid, Write(n));
  }

  /** Exactly when a removed staff member without upcoming bookings never gets one again, however
      requests overlap: when no intent in flight can still place one. */
  lemma StaysFreeIff(s: State, env: Env, staffId: string)
    requires Guarded(s) && NoneUpcoming(s.store, env, staffId)
    ensures (forall events :: NoneUpcoming(OverlappingRequests.Run(s, events).store, env, staffId)) <==>
      NoneCanPlace(s, env, staffId)
  {
    if NoneCanPlace(s, env, staffId) {
      forall events ensures NoneUpcoming(OverlappingRequests.Run(s, events).store, env, staffId) {
        RemovedStaffStaysFree(s, env, staffId, events);
      }
    } else {
      var n :| n in s.open && CanPlace(s.store, s.open[n], env, staffId);
      var events := IntentGetsThrough(s, n, env, staffId);
      assert !NoneUpcoming(OverlappingRequests.Run(s, events).store, env, staffId);
    }
  }

  /** Exactly when a removal is clean: no upcoming booking of the staff member at its write nor at any
      later moment of any run. It must have counted one or found none as it wrote, and nothing that
      was in flight then may still be able to place one. */
  lemma RemovalIsCleanIff(s: State, n: nat)
    requires Guarded(s) && n in s.open && s.open[n].request.RemoveStaff?
    ensures var o, t := s.open[n], Next(s, Write(n));
      (forall events :: NoneUpcoming(OverlappingRequests.Run(t, events).store, o.env, o.request.staffId)) <==>
        && (o.count > 0 || forall i :: 0 <= i < |s.store.rows| ==> !Upcoming(o.env, o.request.staffId, s.store.rows[i]))
        && NoneCanPlace(t, o.env, o.request.staffId)
  {
    var o, t := s.open[n], Next(s, Write(n));
    NextKeepsGuarded(s, Write(n));
    RemovalLeavesNoneIff(s.store, o);
    assert OverlappingRequests.Run(t, []) == t;
    if NoneUpcoming(t.store, o.env, o.request.staffId) {
      StaysFreeIff(t, o.env, o.request.staffId);
    }
  }
}
