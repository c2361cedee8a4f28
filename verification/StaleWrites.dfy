/**
 * What overlapping appointment requests do to the transition table and to the rest of
 * the serial invariant, which the database does not guard: a write is checked against
 * the row as it was read and lands on the row as it is.
 */
module StaleWrites {
  import opened Options
  import opened Appointments
  import opened OverlappingRequests

  /// ## One write

  /** The status a request gives to the row it is about. */
  function TargetOf(r: Request): (to: Option<Status>) {
    match r
    case Move(_, to) => Some(TargetStatus(to))
    case Cancel(_, _) => Some(Cancelled)
    case Reschedule(_, _, _) => Some(Cancelled)
    case _ => None
  }

  /** The database takes the writes of an intent. */
  predicate Accepted(store: Store, o: Intent)
    requires IntentFits(store, o)
  {
    match o.request
    case Create(customerId, staffId, serviceId, start, autoConfirm) =>
      !Excluded(store.rows, NewRow(o.env, customerId, staffId, serviceId, start, autoConfirm))
    case Move(id, to) => !UpdateExcluded(store.rows, id, store.rows[id].(status := TargetStatus(to)))
    case Reschedule(id, newStaffId, newStart) =>
      !Excluded(store.rows, Replacement(o, newStart, newStaffId, id)) && !LinkTaken(store.rows, id)
    case _ => true
  }

  lemma RefusedChangesNothing(store: Store, o: Intent)
    requires IntentFits(store, o) && !Accepted(store, o)
    ensures Written(store, o) == store
  {
  }

  predicate StatusFollows(a: Status, b: Status) {
    b == a || CanTransition(a, b)
  }

  /** Every row keeps its status or takes one allowed transition. */
  ghost predicate FollowsTable(s: Store, t: Store) {
    |s.rows| <= |t.rows| && forall i :: 0 <= i < |s.rows| ==> StatusFollows(s.rows[i].status, t.rows[i].status)
  }

  /** The row, as it is by now, leads to the status that the request gives it. */
  predicate LeadsOn(store: Store, o: Intent)
    requires IntentFits(store, o)
  {
    TargetOf(o.request).Some? && Accepted(store, o) ==>
      StatusFollows(store.rows[RowId(o.request).value].status, TargetOf(o.request).value)
  }

  /** What an accepted write does to the row it is about, and that it leaves the others' statuses alone. */
  lemma TargetIsWritten(store: Store, o: Intent)
    requires IntentFits(store, o) && TargetOf(o.request).Some? && Accepted(store, o)
    ensures var t, id := Written(store, o), RowId(o.request).value;
      && |store.rows| <= |t.rows|
      && t.rows[id].status == TargetOf(o.request).value
      && forall i :: 0 <= i < |store.rows| && i != id ==> t.rows[i] == store.rows[i]
  {
  }

  /** Writes about no row only cancel active rows, or leave every status alone. */
  lemma OthersFollowTable(store: Store, o: Intent)
    requires IntentFits(store, o) && (TargetOf(o.request).None? || !Accepted(store, o))
    ensures FollowsTable(store, Written(store, o))
  {
    if o.request.RemoveStaff? {
      CancelUpcomingExact(store.rows, o.env, o.request.staffId);
    }
  }

  /** Exactly when the writes of a request, of whichever kind, keep to the transition table: when the
      database refuses them, or the row they are about leads to its new status or has it. */
  lemma WriteFollowsTableIff(store: Store, o: Intent)
    requires IntentFits(store, o)
    ensures FollowsTable(store, Written(store, o)) <==> LeadsOn(store, o)
  {
    if TargetOf(o.request).Some? && Accepted(store, o) {
      TargetIsWritten(store, o);
      var id, t := RowId(o.request).value, Written(store, o);
      assert StatusFollows(store.rows[id].status, t.rows[id].status) <==> LeadsOn(store, o);
    } else {
      OthersFollowTable(store, o);
    }
  }

  /// ## Statuses over a run

  /** The state after the first `k` events. */
  ghost function After(s: State, events: seq<Event>, k: nat): (t: State)
    requires k <= |events|
  {
    OverlappingRequests.Run(s, events[..k])
  }

  /** The event writes a status that the row, by then, does not lead to. */
  predicate Stray(s: State, e: Event) {
    e.Write? && e.n in s.open && IntentFits(s.store, s.open[e.n]) && !LeadsOn(s.store, s.open[e.n])
  }

  ghost predicate NoStray(s: State, events: seq<Event>)
    decreases |events|
  {
    events == [] || (!Stray(s, events[0]) && NoStray(Next(s, events[0]), events[1..]))
  }

  /** The statuses that the table reaches from another one. */
  function Later(a: Status): (later: set<Status>) {
    match a
    case Pending => {Confirmed, InProgress, Completed, Cancelled, NoShow}
    case Confirmed => {InProgress, Completed, Cancelled, NoShow}
    case InProgress => {Completed, Cancelled}
    case _ => {}
  }

  predicate Onward(a: Status, b: Status) {
    b == a || b in Later(a)
  }

  /** Onward is where the transition table leads, step after step. */
  lemma OnwardIsReached(a: Status, b: Status)
    ensures Onward(a, b) <==> StatusReaches(a, b)
  {
    match a
    case InProgress => InProgressReaches(b);
    case Confirmed => ConfirmedReaches(b);
    case Pending => PendingReaches(b);
    case _ =>
  }

  lemma EndReaches(a: Status, b: Status)
    requires Transitions(a) == {}
    ensures StatusReaches(a, b) <==> a == b
  {
  }

  lemma InProgressReaches(b: Status)
    ensures StatusReaches(InProgress, b) <==> b in {InProgress, Completed, Cancelled}
  {
    EndReaches(Completed, b);
    EndReaches(Cancelled, b);
    assert Completed in Transitions(InProgress) && Cancelled in Transitions(InProgress);
  }

  lemma ConfirmedReaches(b: Status)
    ensures StatusReaches(Confirmed, b) <==> b == Confirmed || b in Later(Confirmed)
  {
    InProgressReaches(b);
    EndReaches(Cancelled, b);
    EndReaches(NoShow, b);
    assert Transitions(Confirmed) == {InProgress, Cancelled, NoShow};
    assert InProgress in Transitions(Confirmed) && Cancelled in Transitions(Confirmed);
    assert NoShow in Transitions(Confirmed);
  }

  lemma PendingReaches(b: Status)
    ensures StatusReaches(Pending, b) <==> b == Pending || b in Later(Pending)
  {
    ConfirmedReaches(b);
    EndReaches(Cancelled, b);
    EndReaches(NoShow, b);
    assert Confirmed in Transitions(Pending) && Cancelled in Transitions(Pending) && NoShow in Transitions(Pending);
  }

  /** Every row's status is one that the table reaches from its earlier one. */
  ghost predicate Advances(s: Store, t: Store) {
    |s.rows| <= |t.rows| && forall i :: 0 <= i < |s.rows| ==> Onward(s.rows[i].status, t.rows[i].status)
  }

  /** Between any two moments of the run. */
  ghost predicate AlwaysAdvances(s: State, events: seq<Event>) {
    forall j: nat, k: nat :: j <= k <= |events| ==> Advances(After(s, events, j).store, After(s, events, k).store)
  }

  /** An intent was checked on a status that led to its target and leads to where the row is now. */
  ghost predicate SeenReaches(store: Store, o: Intent) {
    TargetOf(o.request).Some? ==>
      && o.seen.Some? && RowId(o.request).Some? && RowId(o.request).value < |store.rows|
      && CanTransition(o.seen.value.status, TargetOf(o.request).value)
      && Onward(o.seen.value.status, store.rows[RowId(o.request).value].status)
  }

  ghost predicate SeenFits(s: State) {
    forall n <- s.open :: SeenReaches(s.store, s.open[n])
  }

  lemma OnwardTransitive(a: Status, b: Status, c: Status)
    requires Onward(a, b) && Onward(b, c)
    ensures Onward(a, c)
  {
  }

  /** From a status that `a` has since moved on to, the target that `a` led to is either one allowed
      step away or out of reach for good. */
  lemma NearOrGone(a: Status, now: Status, to: Status)
    requires CanTransition(a, to) && Onward(a, now)
    ensures Onward(now, to) <==> StatusFollows(now, to)
  {
  }

  lemma AdvancesTransitive(s: Store, t: Store, u: Store)
    requires Advances(s, t) && Advances(t, u)
    ensures Advances(s, u)
  {
    forall i | 0 <= i < |s.rows| ensures Onward(s.rows[i].status, u.rows[i].status) {
      OnwardTransitive(s.rows[i].status, t.rows[i].status, u.rows[i].status);
    }
  }

  lemma FollowingAdvances(s: Store, t: Store)
    requires FollowsTable(s, t)
    ensures Advances(s, t)
  {
    forall i | 0 <= i < |s.rows| ensures Onward(s.rows[i].status, t.rows[i].status) {
      assert StatusFollows(s.rows[i].status, t.rows[i].status);
    }
  }

  lemma StepAdvancesIff(s: State, e: Event)
    requires Guarded(s) && SeenFits(s)
    ensures Advances(s.store, Next(s, e).store) <==> !Stray(s, e)
  {
    if e.Write? && e.n in s.open {
      var o := s.open[e.n];
      WriteFollowsTableIff(s.store, o);
      if LeadsOn(s.store, o) {
        FollowingAdvances(s.store, Written(s.store, o));
      } else {
        TargetIsWritten(s.store, o);
        var id := RowId(o.request).value;
        assert SeenReaches(s.store, o);
        NearOrGone(o.seen.value.status, s.store.rows[id].status, TargetOf(o.request).value);
      }
    } else {
      FollowingAdvances(s.store, s.store);
    }
  }

  lemma NextKeepsSeen(s: State, e: Event)
    requires Guarded(s) && SeenFits(s) && !Stray(s, e)
    ensures SeenFits(Next(s, e))
  {
    var t := Next(s, e);
    StepAdvancesIff(s, e);
    forall n | n in t.open ensures SeenReaches(t.store, t.open[n]) {
      var o := t.open[n];
      if n in s.open {
        assert SeenReaches(s.store, o);
        if TargetOf(o.request).Some? {
          var id := RowId(o.request).value;
          OnwardTransitive(o.seen.value.status, s.store.rows[id].status, t.store.rows[id].status);
        }
      }
    }
  }

  lemma AfterFirst(s: State, events: seq<Event>, k: nat)
    requires 0 < k <= |events|
    ensures After(s, events, k) == After(Next(s, events[0]), events[1..], k - 1)
  {
    assert events[..k][1..] == events[1..][..k - 1];
  }

  /** Exactly which interleavings only ever move statuses onward: those in which no status is written
      to a row that, by then, does not lead to it. */
  lemma {:induction false} AlwaysAdvancesIff(s: State, events: seq<Event>)
    requires Guarded(s) && SeenFits(s)
    ensures AlwaysAdvances(s, events) <==> NoStray(s, events)
    decreases |events|
  {
    if events == [] {
      FollowingAdvances(s.store, s.store);
    } else {
      var next := Next(s, events[0]);
      StepAdvancesIff(s, events[0]);
      if Stray(s, events[0]) {
        AfterFirst(s, events, 1);
        assert !Advances(After(s, events, 0).store, After(s, events, 1).store);
      } else {
        NextKeepsGuarded(s, events[0]);
        NextKeepsSeen(s, events[0]);
        AlwaysAdvancesIff(next, events[1..]);
        OneMoreMoment(s, events);
      }
    }
  }

  lemma OneMoreMoment(s: State, events: seq<Event>)
    requires events != [] && Advances(s.store, Next(s, events[0]).store)
    ensures AlwaysAdvances(s, events) <==> AlwaysAdvances(Next(s, events[0]), events[1..])
  {
    var next, rest := Next(s, events[0]), events[1..];
    if AlwaysAdvances(s, events) {
      forall j: nat, k: nat | j <= k <= |rest|
        ensures Advances(After(next, rest, j).store, After(next, rest, k).store)
      {
        AfterFirst(s, events, j + 1);
        AfterFirst(s, events, k + 1);
      }
    }
    if AlwaysAdvances(next, rest) {
      FollowingAdvances(s.store, s.store);
      forall j: nat, k: nat | j <= k <= |events|
        ensures Advances(After(s, events, j).store, After(s, events, k).store)
      {
        if k > 0 {
          AfterFirst(s, events, k);
          if j > 0 {
            AfterFirst(s, events, j);
          } else {
            assert After(next, rest, 0).store == next.store;
            AdvancesTransitive(s.store, next.store, After(next, rest, k - 1).store);
          }
        }
      }
    }
  }

  /// ## The serial invariant over a run

  /** The event writes a status over a cancellation. */
  predicate Revives(s: State, e: Event) {
    e.Write? && e.n in s.open && IntentFits(s.store, s.open[e.n]) && RevivesRow(s.store, s.open[e.n])
  }

  predicate RevivesRow(store: Store, o: Intent)
    requires IntentFits(store, o)
  {
    o.request.Move? && Accepted(store, o) && store.rows[o.request.id].status == Cancelled
  }

  ghost predicate NoRevival(s: State, events: seq<Event>)
    decreases |events|
  {
    events == [] || (!Revives(s, events[0]) && NoRevival(Next(s, events[0]), events[1..]))
  }

  /** Exactly when a status write leaves a stamped row that is not cancelled: when it overwrites a
      cancellation. */
  lemma MoveKeepsStampsIff(store: Store, o: Intent)
    requires IntentFits(store, o) && o.request.Move? && Stamped(store.rows)
    requires Accepted(store, o)
    ensures Stamped(Written(store, o).rows) <==> store.rows[o.request.id].status != Cancelled
  {
    var id := o.request.id;
    var t := Written(store, o).rows;
    assert t[id].status == TargetStatus(o.request.to) != Cancelled && t[id].cancelledAt == store.rows[id].cancelledAt;
    assert forall i :: 0 <= i < |t| && i != id ==> t[i] == store.rows[i];
  }

  /** Every other write keeps the stamps, whatever it overwrites. */
  lemma OtherWritesKeepStamps(store: Store, o: Intent)
    requires IntentFits(store, o) && !o.request.Move? && Stamped(store.rows)
    ensures Stamped(Written(store, o).rows)
  {
    if o.request.RemoveStaff? {
      CancelUpcomingExact(store.rows, o.env, o.request.staffId);
    }
  }

  /** The row each link leads back to is cancelled. */
  ghost predicate OriginsCancelled(rows: seq<Appointment>) {
    forall i :: 0 <= i < |rows| ==> OriginCancelled(rows, rows[i].rescheduledFrom)
  }

  predicate OriginCancelled(rows: seq<Appointment>, link: Option<nat>) {
    link.Some? ==> link.value < |rows| && rows[link.value].status == Cancelled
  }

  /** The serial links are the sound links whose origins are cancelled. */
  lemma LinkedIff(rows: seq<Appointment>)
    ensures Linked(rows) <==> LinksSound(rows) && OriginsCancelled(rows)
  {
    if Linked(rows) {
      forall i: nat | i < |rows| ensures LinkFits(rows, i) && OriginCancelled(rows, rows[i].rescheduledFrom) {
        assert LinksBack(rows, i);
      }
    }
    if LinksSound(rows) && OriginsCancelled(rows) {
      forall i: nat | i < |rows| ensures LinksBack(rows, i) {
        assert LinkFits(rows, i) && OriginCancelled(rows, rows[i].rescheduledFrom);
      }
    }
  }

  /** Only a status write over the origin of a reschedule leaves a chain with an uncancelled row before
      its last. */
  predicate RevivesOrigin(store: Store, o: Intent)
    requires IntentFits(store, o)
  {
    o.request.Move? && Accepted(store, o) && LinkTaken(store.rows, o.request.id)
  }

  lemma WriteKeepsOriginsIff(store: Store, o: Intent)
    requires IntentFits(store, o) && LinksSound(store.rows) && OriginsCancelled(store.rows)
    ensures OriginsCancelled(Written(store, o).rows) <==> !RevivesOrigin(store, o)
  {
    var t := Written(store, o).rows;
    WrittenGrows(store, o);
    if RevivesOrigin(store, o) {
      var k :| 0 <= k < |store.rows| && store.rows[k].rescheduledFrom == Some(o.request.id);
      assert SameBooking(store.rows[k], t[k]);
      assert !OriginCancelled(t, t[k].rescheduledFrom);
    } else {
      forall i | 0 <= i < |t| ensures OriginCancelled(t, t[i].rescheduledFrom) {
        if i < |store.rows| {
          OriginStays(store, o, i);
        } else {
          NewOriginIsCancelled(store, o);
        }
      }
    }
  }

  lemma OriginStays(store: Store, o: Intent, i: nat)
    requires IntentFits(store, o) && OriginsCancelled(store.rows) && !RevivesOrigin(store, o) && i < |store.rows|
    ensures i < |Written(store, o).rows|
    ensures OriginCancelled(Written(store, o).rows, Written(store, o).rows[i].rescheduledFrom)
  {
    var t := Written(store, o).rows;
    WrittenGrows(store, o);
    assert SameBooking(store.rows[i], t[i]) && OriginCancelled(store.rows, store.rows[i].rescheduledFrom);
    if t[i].rescheduledFrom.Some? {
      CancelledStays(store, o, t[i].rescheduledFrom.value);
    }
  }

  lemma CancelledStays(store: Store, o: Intent, p: nat)
    requires IntentFits(store, o) && p < |store.rows| && store.rows[p].status == Cancelled
    ensures p < |Written(store, o).rows|
    ensures Written(store, o).rows[p].status == Cancelled || (RevivesRow(store, o) && o.request.id == p)
  {
    if o.request.RemoveStaff? {
      CancelUpcomingExact(store.rows, o.env, o.request.staffId);
    }
  }

  lemma NewOriginIsCancelled(store: Store, o: Intent)
    requires IntentFits(store, o) && |Written(store, o).rows| > |store.rows|
    ensures OriginCancelled(Written(store, o).rows, Written(store, o).rows[|store.rows|].rescheduledFrom)
  {
    if o.request.RemoveStaff? {
      CancelUpcomingExact(store.rows, o.env, o.request.staffId);
    }
  }

  /** Exactly which write breaks the serial invariant: a status write over a cancellation. */
  lemma WriteKeepsInvIff(store: Store, o: Intent)
    requires IntentFits(store, o) && Inv(store)
    ensures Inv(Written(store, o)) <==> !RevivesRow(store, o)
  {
    LinkedIff(store.rows);
    LinkedIff(Written(store, o).rows);
    WrittenKeepsApart(store, o);
    WrittenKeepsLinks(store, o);
    WriteKeepsOriginsIff(store, o);
    if o.request.Move? {
      if Accepted(store, o) { MoveKeepsStampsIff(store, o); } else { RefusedChangesNothing(store, o); }
    } else {
      OtherWritesKeepStamps(store, o);
    }
    if RevivesOrigin(store, o) { OriginIsCancelled(store, o.request.id); }
  }

  lemma OriginIsCancelled(store: Store, id: nat)
    requires OriginsCancelled(store.rows) && LinkTaken(store.rows, id)
    ensures id < |store.rows| && store.rows[id].status == Cancelled
  {
    var k :| 0 <= k < |store.rows| && store.rows[k].rescheduledFrom == Some(id);
    assert OriginCancelled(store.rows, store.rows[k].rescheduledFrom);
  }

  ghost predicate AlwaysInv(s: State, events: seq<Event>) {
    forall k: nat :: k <= |events| ==> Inv(After(s, events, k).store)
  }

  lemma NextKeepsInvIff(s: State, e: Event)
    requires Guarded(s) && Inv(s.store)
    ensures Inv(Next(s, e).store) <==> !Revives(s, e)
  {
    if e.Write? && e.n in s.open { WriteKeepsInvIff(s.store, s.open[e.n]); }
  }

  /** Exactly which interleavings keep the whole serial invariant at every moment: those in which no
      status is written over a cancellation. */
  lemma {:induction false} AlwaysInvIff(s: State, events: seq<Event>)
    requires Guarded(s) && Inv(s.store)
    ensures AlwaysInv(s, events) <==> NoRevival(s, events)
    decreases |events|
  {
    if events != [] {
      var next, rest := Next(s, events[0]), events[1..];
      NextKeepsInvIff(s, events[0]);
      NextKeepsGuarded(s, events[0]);
      AfterFirst(s, events, 1);
      assert After(next, rest, 0) == next;
      if !Revives(s, events[0]) {
        AlwaysInvIff(next, rest);
        forall k: nat | k <= |rest| ensures After(next, rest, k) == After(s, events, k + 1) {
          AfterFirst(s, events, k + 1);
        }
        if AlwaysInv(next, rest) {
          forall k: nat | k <= |events| ensures Inv(After(s, events, k).store) {
            if k > 0 { AfterFirst(s, events, k); }
          }
        }
      }
    }
  }

  ghost predicate OriginsAlwaysCancelled(s: State, events: seq<Event>) {
    forall k: nat :: k <= |events| ==> OriginsCancelled(After(s, events, k).store.rows)
  }

  predicate BreaksChain(s: State, e: Event) {
    e.Write? && e.n in s.open && IntentFits(s.store, s.open[e.n]) && RevivesOrigin(s.store, s.open[e.n])
  }

  ghost predicate NoBrokenChain(s: State, events: seq<Event>)
    decreases |events|
  {
    events == [] || (!BreaksChain(s, events[0]) && NoBrokenChain(Next(s, events[0]), events[1..]))
  }

  /** Exactly when every row of a reschedule chain but its last is cancelled at every moment: when no
      status is written over a row that has been rescheduled. */
  lemma {:induction false} ChainsStayCancelledIff(s: State, events: seq<Event>)
    requires Guarded(s) && OriginsCancelled(s.store.rows)
    ensures OriginsAlwaysCancelled(s, events) <==> NoBrokenChain(s, events)
    decreases |events|
  {
    if events != [] {
      var next, rest := Next(s, events[0]), events[1..];
      if events[0].Write? && events[0].n in s.open { WriteKeepsOriginsIff(s.store, s.open[events[0].n]); }
      NextKeepsGuarded(s, events[0]);
      AfterFirst(s, events, 1);
      assert After(next, rest, 0) == next;
      if !BreaksChain(s, events[0]) {
        ChainsStayCancelledIff(next, rest);
        forall k: nat | k <= |rest| ensures After(next, rest, k) == After(s, events, k + 1) {
          AfterFirst(s, events, k + 1);
        }
        if OriginsAlwaysCancelled(next, rest) {
          forall k: nat | k <= |events| ensures OriginsCancelled(After(s, events, k).store.rows) {
            if k > 0 { AfterFirst(s, events, k); }
          }
        }
      }
    }
  }

  /** Statuses that only move onward keep everything else: a cancellation leads nowhere. */
  lemma {:induction false} NoStrayNoRevival(s: State, events: seq<Event>)
    requires NoStray(s, events)
    ensures NoRevival(s, events)
    decreases |events|
  {
    if events != [] {
      NoStrayNoRevival(Next(s, events[0]), events[1..]);
    }
  }

  /** From an empty store: exactly which interleavings move statuses only onward, keep the serial
      invariant, and keep reschedule chains cancelled up to their last row. */
  lemma FromEmptyStore(staff: map<(string, string), StaffRow>, logins: map<(string, string), bool>,
                       events: seq<Event>)
    ensures var start := State(Store([], staff, logins), map[]);
      && (AlwaysAdvances(start, events) <==> NoStray(start, events))
      && (AlwaysInv(start, events) <==> NoRevival(start, events))
      && (OriginsAlwaysCancelled(start, events) <==> NoBrokenChain(start, events))
  {
    var start := State(Store([], staff, logins), map[]);
    AlwaysAdvancesIff(start, events);
    AlwaysInvIff(start, events);
    ChainsStayCancelledIff(start, events);
  }
}
