/**
 * Inputs for which the parts of the system disagree, one lemma each. The day is Monday
 * 20 April 2026, in UTC.
 */
module Witnesses {
  import opened Options
  import opened Intervals
  import opened Availability
  import opened SlotBoundary
  import opened Appointments
  import opened Agreement
  import Overlapping = OverlappingRequests
  import Stale = StaleWrites
  import Outbox
  import Drain = OutboxDrain

  /// ## The calendar of UTC

  const DAY_LENGTH_MS := 86_400_000
  const SAMPLE_DATE := Date(2026, 4, 20)
  const MIDNIGHT := 20563 * DAY_LENGTH_MS

  /** Days from 1 January 1970 to a date of the Gregorian calendar; years are counted from March. */
  function DayNumber(d: Date): (n: int) {
    var year := if d.month <= 2 then d.year - 1 else d.year;
    var era := year / 400;
    var yearOfEra := year - era * 400;
    var dayOfYear := (153 * (if d.month > 2 then d.month - 3 else d.month + 9) + 2) / 5 + d.day - 1;
    era * 146097 + yearOfEra * 365 + yearOfEra / 4 - yearOfEra / 100 + dayOfYear - 719468
  }

  function DateOfDay(n: int): (d: Date) {
    var z := n + 719468;
    var era := z / 146097;
    var dayOfEra := z - era * 146097;
    var yearOfEra := (dayOfEra - dayOfEra / 1460 + dayOfEra / 36524 - dayOfEra / 146096) / 365;
    var dayOfYear := dayOfEra - (365 * yearOfEra + yearOfEra / 4 - yearOfEra / 100);
    var monthFromMarch := (5 * dayOfYear + 2) / 153;
    var month := if monthFromMarch < 10 then monthFromMarch + 3 else monthFromMarch - 9;
    Date(yearOfEra + era * 400 + (if month <= 2 then 1 else 0), month, dayOfYear - (153 * monthFromMarch + 2) / 5 + 1)
  }

  function WeekdayOfDay(n: int): (day: Weekday) {
    match n % 7
    case 0 => Thursday
    case 1 => Friday
    case 2 => Saturday
    case 3 => Sunday
    case 4 => Monday
    case 5 => Tuesday
    case _ => Wednesday
  }

  const UTC := Calendar(
    (d: Date, time: TimeOfDay) => Some(DayNumber(d) * DAY_LENGTH_MS + time.hour * HOUR_MS + time.minute * MINUTE_MS),
    (d: Date) => WeekdayOfDay(DayNumber(d)),
    (t: int) => Some(DateOfDay(t / DAY_LENGTH_MS)))

  lemma SampleDateOfDay()
    ensures DateOfDay(20563) == SAMPLE_DATE
  {
    assert 740031 / 146097 == 5;
    assert 9546 / 1460 == 6 && 9546 / 36524 == 0 && 9546 / 146096 == 0 && 9540 / 365 == 26;
    assert 26 / 4 == 6 && 26 / 100 == 0;
    assert (5 * 50 + 2) / 153 == 1 && (153 * 1 + 2) / 5 == 31;
  }

  lemma SampleDay()
    ensures UTC.weekday(SAMPLE_DATE) == Monday
    ensures forall time: TimeOfDay ::
      UTC.toUtc(SAMPLE_DATE, time) == Some(MIDNIGHT + time.hour * HOUR_MS + time.minute * MINUTE_MS)
  {
    assert 20563 % 7 == 4;
  }

  lemma SampleDate(t: int)
    requires MIDNIGHT <= t < MIDNIGHT + DAY_LENGTH_MS
    ensures UTC.dateOf(t) == Some(SAMPLE_DATE)
  {
    assert t / DAY_LENGTH_MS == 20563;
    SampleDateOfDay();
  }

  /// ## One business, one staff member, one service of 30 minutes

  function At(fromHour: int, fromMinute: int, toHour: int, toMinute: int): (w: WeeklyWindow) {
    WeeklyWindow(Monday, TimeOfDay(fromHour, fromMinute), TimeOfDay(toHour, toMinute), true)
  }

  const ONE_WINDOW := [At(0, 0, 2, 0)]
  const TOUCHING_WINDOWS := [At(0, 0, 0, 50), At(0, 50, 2, 0)]
  const ANA := Staff("ana", true, None, [At(0, 0, 2, 0)])
  const NOW := MIDNIGHT - HOUR_MS

  ghost function SampleContext(hours: seq<WeeklyWindow>, bookings: seq<Booking>): (ctx: Context) {
    Context(UTC, 0, Service("svc", 30, LOADED_SLOT_INTERVAL_MIN, 0, 0), hours, [ANA], [], [], bookings, NOW)
  }

  ghost function SampleEnv(hours: seq<WeeklyWindow>, stepMin: int, isTest: bool): (env: Env) {
    Env(Caller("shop", isTest), NOW,
      Catalog(map["svc" := OfferedService(30, stepMin)], map[("ana", "svc") := None]), UTC, hours, None)
  }

  const NO_BOOKINGS := Store([], map[("shop", "ana") := StaffRow(true, false)], map[])

  lemma OneWindowOpens(bookings: seq<Booking>, u: int)
    ensures OpenAt(SampleContext(ONE_WINDOW, bookings), SAMPLE_DATE, u) <==> MIDNIGHT <= u < MIDNIGHT + 2 * HOUR_MS
  {
    var ctx := SampleContext(ONE_WINDOW, bookings);
    SampleDay();
    assert WindowCovers(UTC, SAMPLE_DATE, ctx.businessHours[0], u) <==> MIDNIGHT <= u < MIDNIGHT + 2 * HOUR_MS;
  }

  lemma TouchingWindowsOpen(u: int)
    ensures OpenAt(SampleContext(TOUCHING_WINDOWS, []), SAMPLE_DATE, u) <==> MIDNIGHT <= u < MIDNIGHT + 2 * HOUR_MS
  {
    var ctx := SampleContext(TOUCHING_WINDOWS, []);
    SampleDay();
    assert WindowCovers(UTC, SAMPLE_DATE, ctx.businessHours[0], u) <==> MIDNIGHT <= u < MIDNIGHT + 50 * MINUTE_MS;
    assert WindowCovers(UTC, SAMPLE_DATE, ctx.businessHours[1], u) <==>
      MIDNIGHT + 50 * MINUTE_MS <= u < MIDNIGHT + 2 * HOUR_MS;
  }

  /** On a day open from midnight to two, a grid point nothing is booked at is offered. */
  lemma OfferedWhenUnbooked(ctx: Context, stepMin: int, t: int)
    requires ctx == SampleContext(ctx.businessHours, ctx.appointments) && stepMin > 0
    requires forall u :: OpenAt(ctx, SAMPLE_DATE, u) <==> MIDNIGHT <= u < MIDNIGHT + 2 * HOUR_MS
    requires MIDNIGHT <= t && Multiple(t - MIDNIGHT, stepMin * MINUTE_MS)
    requires t + stepMin * MINUTE_MS <= MIDNIGHT + 2 * HOUR_MS && t + 30 * MINUTE_MS <= MIDNIGHT + 2 * HOUR_MS
    requires forall u :: t <= u < t + 30 * MINUTE_MS ==> !BookedAt(ctx, SAMPLE_DATE, ANA, u)
    ensures Offerable(ctx, Params(None, stepMin, false), SAMPLE_DATE, ANA, t)
  {
    SampleDay();
    forall u | t <= u < t + 30 * MINUTE_MS ensures FreeAt(ctx, SAMPLE_DATE, ANA, u) {
      assert WindowCovers(UTC, SAMPLE_DATE, ANA.availabilities[0], u);
      assert !BlockedAt(ctx, ANA, u);
    }
    assert OfferableIn(ctx, Params(None, stepMin, false), SAMPLE_DATE, ANA,
      Interval(MIDNIGHT, MIDNIGHT + 2 * HOUR_MS), t);
  }

  /// ## Listed, and refused

  lemma TouchingAnchor()
    ensures Containing(UTC, SAMPLE_DATE, RowsOf(TOUCHING_WINDOWS, Monday), MIDNIGHT + HOUR_MS) ==
      Some(Interval(MIDNIGHT + 50 * MINUTE_MS, MIDNIGHT + 2 * HOUR_MS))
  {
    SampleDay();
    var rows := RowsOf(TOUCHING_WINDOWS, Monday);
    var later := TOUCHING_WINDOWS[1..];
    assert RowsOf(later, Monday) == InsertByTime(later[0], RowsOf(later[1..], Monday));
    assert rows == TOUCHING_WINDOWS;
    assert WindowAt(UTC, SAMPLE_DATE, rows[0], MIDNIGHT + HOUR_MS) == None;
    assert rows[1..][0] == rows[1];
  }

  lemma OneIsOffTouchingGrid()
    ensures Verdict(UTC, TOUCHING_WINDOWS, MIDNIGHT + HOUR_MS, 30) ==
      Some(OffGrid(MIDNIGHT + 50 * MINUTE_MS, MIDNIGHT + 80 * MINUTE_MS))
  {
    SampleDay();
    SampleDate(MIDNIGHT + HOUR_MS);
    TouchingAnchor();
    assert !Multiple(10 * MINUTE_MS, 30 * MINUTE_MS);
    assert 10 * MINUTE_MS / (30 * MINUTE_MS) == 0;
  }

  /** Windows 00:00-00:50 and 00:50-02:00, both steps 30 minutes: 01:00 is offered, and refused with
      00:50 and 01:20 named as the nearest. */
  lemma TouchingWindowsDisagree()
    ensures var env := SampleEnv(TOUCHING_WINDOWS, 30, false);
      var t := MIDNIGHT + HOUR_MS;
      && Offerable(SampleContext(TOUCHING_WINDOWS, []), Params(None, 30, false), SAMPLE_DATE, ANA, t)
      && Apply(NO_BOOKINGS, env, Create("bo", "ana", "svc", t, false)).1 ==
           Err(OffHours(OffGrid(MIDNIGHT + 50 * MINUTE_MS, MIDNIGHT + 80 * MINUTE_MS)))
  {
    var t := MIDNIGHT + HOUR_MS;
    forall u { TouchingWindowsOpen(u); }
    assert Multiple(0, 30 * MINUTE_MS);
    assert Multiple(30 * MINUTE_MS, 30 * MINUTE_MS);
    assert Multiple(60 * MINUTE_MS, 30 * MINUTE_MS);
    OfferedWhenUnbooked(SampleContext(TOUCHING_WINDOWS, []), 30, t);
    OneIsOffTouchingGrid();
  }

  lemma OnTheGrid(minutes: int, steps: nat)
    requires minutes == 15 * steps && minutes < 120
    ensures Verdict(UTC, ONE_WINDOW, MIDNIGHT + minutes * MINUTE_MS, 15) == None
  {
    var t := MIDNIGHT + minutes * MINUTE_MS;
    SampleDay();
    SampleDate(t);
    ProductIsMultiple(steps, 15 * MINUTE_MS);
  }

  lemma QuarterPastIsOffHalfHours()
    ensures Verdict(UTC, ONE_WINDOW, MIDNIGHT + 15 * MINUTE_MS, 30) ==
      Some(OffGrid(MIDNIGHT, MIDNIGHT + 30 * MINUTE_MS))
  {
    var t := MIDNIGHT + 15 * MINUTE_MS;
    SampleDay();
    SampleDate(t);
    assert !Multiple(15 * MINUTE_MS, 30 * MINUTE_MS);
    assert 15 * MINUTE_MS / (30 * MINUTE_MS) == 0;
  }

  /** One window and a service whose step is 30 minutes: the default listing offers 00:15, and the
      booking refuses it. */
  lemma StepsDisagree()
    ensures var ctx := SampleContext(ONE_WINDOW, []);
      var t := MIDNIGHT + 15 * MINUTE_MS;
      && WindowsApart(ctx, SAMPLE_DATE)
      && Offerable(ctx, Params(None, ListingStep(None), false), SAMPLE_DATE, ANA, t)
      && Apply(NO_BOOKINGS, SampleEnv(ONE_WINDOW, 30, false), Create("bo", "ana", "svc", t, false)).1 ==
           Err(OffHours(OffGrid(MIDNIGHT, MIDNIGHT + 30 * MINUTE_MS)))
  {
    QuarterPastIsOffered();
    QuarterPastIsOffHalfHours();
  }

  lemma QuarterPastIsOffered()
    ensures var ctx := SampleContext(ONE_WINDOW, []);
      && WindowsApart(ctx, SAMPLE_DATE)
      && Offerable(ctx, Params(None, ListingStep(None), false), SAMPLE_DATE, ANA, MIDNIGHT + 15 * MINUTE_MS)
  {
    var ctx := SampleContext(ONE_WINDOW, []);
    forall u { OneWindowOpens([], u); }
    assert Multiple(0, 15 * MINUTE_MS);
    assert Multiple(15 * MINUTE_MS, 15 * MINUTE_MS);
    OfferedWhenUnbooked(ctx, 15, MIDNIGHT + 15 * MINUTE_MS);
    SampleDay();
    assert RowsOf(ONE_WINDOW, Monday) == ONE_WINDOW;
  }

  ghost function SampleSteps(requests: seq<Request>): (steps: seq<Step>)
    ensures |steps| == |requests|
    ensures WellFormedSteps(steps)
  {
    if requests == [] then []
    else [Step(SampleEnv(ONE_WINDOW, 15, false), requests[0])] + SampleSteps(requests[1..])
  }

  ghost function AfterRequest(store: Store, r: Request): (next: Store) {
    Apply(store, SampleEnv(ONE_WINDOW, 15, false), r).0
  }

  lemma RunFirst(store: Store, r: Request, rest: seq<Request>)
    ensures Run(store, SampleSteps([r] + rest)) == Run(AfterRequest(store, r), SampleSteps(rest))
  {
    assert ([r] + rest)[1..] == rest;
    assert SampleSteps([r] + rest)[1..] == SampleSteps(rest);
  }

  /** A visit at 00:15 that took place early and is already completed. */
  const COMPLETED_VISIT := [
    Create("bo", "ana", "svc", MIDNIGHT + 15 * MINUTE_MS, false), Move(0, ToConfirmed), Move(0, ToInProgress),
    Move(0, ToCompleted)]

  const VISIT := Appointment("shop", false, "bo", "ana", "svc", Pending,
    MIDNIGHT + 15 * MINUTE_MS, MIDNIGHT + 45 * MINUTE_MS, None, None, None)

  lemma QuarterPastIsBooked(store: Store)
    requires store.staff == NO_BOOKINGS.staff && store.rows == []
    ensures var create := Create("bo", "ana", "svc", MIDNIGHT + 15 * MINUTE_MS, false);
      Apply(store, SampleEnv(ONE_WINDOW, 15, false), create) == (store.(rows := [VISIT]), Ok(0))
  {
    OnTheGrid(15, 1);
    assert NewRow(SampleEnv(ONE_WINDOW, 15, false), "bo", "ana", "svc", VISIT.start, false) == VISIT;
    assert !Excluded([], VISIT);
    assert store.rows + [VISIT] == [VISIT];
  }

  lemma VisitMoves(from: Status, to: Target)
    requires CanTransition(from, TargetStatus(to))
    ensures AfterRequest(NO_BOOKINGS.(rows := [VISIT.(status := from)]), Move(0, to)) ==
      NO_BOOKINGS.(rows := [VISIT.(status := TargetStatus(to))])
  {
    assert from != TargetStatus(to);
  }

  lemma CompletedVisitRun()
    ensures Run(NO_BOOKINGS, SampleSteps(COMPLETED_VISIT)).rows == [VISIT.(status := Completed)]
    ensures Run(NO_BOOKINGS, SampleSteps(COMPLETED_VISIT)).staff == NO_BOOKINGS.staff
  {
    var moves := COMPLETED_VISIT[1..];
    var s1 := NO_BOOKINGS.(rows := [VISIT]);
    var s2 := NO_BOOKINGS.(rows := [VISIT.(status := Confirmed)]);
    var s3 := NO_BOOKINGS.(rows := [VISIT.(status := InProgress)]);
    var s4 := NO_BOOKINGS.(rows := [VISIT.(status := Completed)]);
    QuarterPastIsBooked(NO_BOOKINGS);
    assert COMPLETED_VISIT == [COMPLETED_VISIT[0]] + moves;
    RunFirst(NO_BOOKINGS, COMPLETED_VISIT[0], moves);
    assert moves == [moves[0]] + [Move(0, ToInProgress), Move(0, ToCompleted)];
    RunFirst(s1, Move(0, ToConfirmed), [Move(0, ToInProgress), Move(0, ToCompleted)]);
    VisitMoves(Pending, ToConfirmed);
    assert [Move(0, ToInProgress), Move(0, ToCompleted)] == [Move(0, ToInProgress)] + [Move(0, ToCompleted)];
    RunFirst(s2, Move(0, ToInProgress), [Move(0, ToCompleted)]);
    VisitMoves(Confirmed, ToInProgress);
    assert [Move(0, ToCompleted)] == [Move(0, ToCompleted)] + [];
    RunFirst(s3, Move(0, ToCompleted), []);
    VisitMoves(InProgress, ToCompleted);
  }

  lemma QuarterPastIsTaken(store: Store)
    requires store.rows == [VISIT.(status := Completed)] && store.staff == NO_BOOKINGS.staff
    ensures var create := Create("cy", "ana", "svc", MIDNIGHT + 15 * MINUTE_MS, false);
      Apply(store, SampleEnv(ONE_WINDOW, 15, false), create).1 == Err(SlotTaken)
  {
    OnTheGrid(15, 1);
    var row := NewRow(SampleEnv(ONE_WINDOW, 15, false), "cy", "ana", "svc", MIDNIGHT + 15 * MINUTE_MS, false);
    assert Conflict(store.rows[0], row);
  }

  /** After that run the loader shows the engine nothing, the engine offers 00:15, and the booking
      finds the slot taken. */
  lemma CompletedVisitIsHidden()
    ensures var store := Run(NO_BOOKINGS, SampleSteps(COMPLETED_VISIT));
      var ctx := SampleContext(ONE_WINDOW, []);
      var t := MIDNIGHT + 15 * MINUTE_MS;
      && Snapshot(ctx, store, Caller("shop", false), "ana", MIDNIGHT, MIDNIGHT + DAY_LENGTH_MS)
      && Offerable(ctx, Params(None, ListingStep(None), false), SAMPLE_DATE, ANA, t)
      && Apply(store, SampleEnv(ONE_WINDOW, 15, false), Create("cy", "ana", "svc", t, false)).1 == Err(SlotTaken)
  {
    CompletedVisitRun();
    QuarterPastIsOffered();
    QuarterPastIsTaken(Run(NO_BOOKINGS, SampleSteps(COMPLETED_VISIT)));
  }

  /// ## A buffer that reaches into the day

  /** A booking that ends as the day opens, with 30 minutes to clear up: midnight is offered all the
      same, within those 30 minutes. */
  lemma BufferOutsideDayIsIgnored()
    ensures var before := Booking("ana", MIDNIGHT - HOUR_MS, MIDNIGHT, 0, 30);
      && Offerable(SampleContext(ONE_WINDOW, [before]), Params(None, 15, false), SAMPLE_DATE, ANA, MIDNIGHT)
      && before.start - before.bufferBeforeMin * MINUTE_MS <= MIDNIGHT < before.end + before.bufferAfterMin * MINUTE_MS
      && !BookedAt(SampleContext(ONE_WINDOW, [before]), SAMPLE_DATE, ANA, MIDNIGHT)
  {
    var ctx := SampleContext(ONE_WINDOW, [Booking("ana", MIDNIGHT - HOUR_MS, MIDNIGHT, 0, 30)]);
    forall u { OneWindowOpens(ctx.appointments, u); }
    forall u ensures !BookedAt(ctx, SAMPLE_DATE, ANA, u) {
      assert !MeetsDay(ctx, SAMPLE_DATE, MIDNIGHT - HOUR_MS, MIDNIGHT);
      assert !HoldsAt(ctx, SAMPLE_DATE, ANA, ctx.appointments[0], u);
    }
    assert Multiple(0, 15 * MINUTE_MS);
    OfferedWhenUnbooked(ctx, 15, MIDNIGHT);
  }

  /// ## A staff removal across modes

  /** A forced removal from live mode: the staff member is gone, and the booking made in test mode
      is still due. */
  lemma OtherModeSurvivesRemoval()
    ensures var store := NO_BOOKINGS.(rows := [VISIT.(isTest := true)]);
      var (t, answer) := Apply(store, SampleEnv(ONE_WINDOW, 15, false), RemoveStaff("ana", true));
      && Apply(NO_BOOKINGS, SampleEnv(ONE_WINDOW, 15, true), Create("bo", "ana", "svc", VISIT.start, false)).0 == store
      && answer == Ok(0)
      && t.staff[("shop", "ana")].isDeleted
      && AnyUpcoming(SampleEnv(ONE_WINDOW, 15, false), "ana", t.rows[0])
  {
    var env := SampleEnv(ONE_WINDOW, 15, false);
    var row := VISIT.(isTest := true);
    OnTheGrid(15, 1);
    assert [row][..0] == [];
    assert CountUpcoming([row], env, "ana") == 0;
  }

  /// ## Requests that overlap

  /** A confirmation that was checked before a cancellation commits over it: the booking is confirmed
      again, with the stamp of its cancellation. */
  lemma ConfirmOverwritesCancel()
    ensures var env := SampleEnv(ONE_WINDOW, 15, false);
      var booked := NO_BOOKINGS.(rows := [VISIT]);
      var confirm := Overlapping.IntentOf(booked, env, Move(0, ToConfirmed));
      var cancelled := Apply(booked, env, Cancel(0, false)).0;
      && Overlapping.Passes(booked, env, Move(0, ToConfirmed))
      && cancelled.rows == [VISIT.(status := Cancelled, cancelledAt := Some(NOW))]
      && Overlapping.IntentFits(cancelled, confirm)
      && Overlapping.Written(cancelled, confirm).rows == [VISIT.(status := Confirmed, cancelledAt := Some(NOW))]
      && !Stamped(Overlapping.Written(cancelled, confirm).rows)
  {
    var env := SampleEnv(ONE_WINDOW, 15, false);
    var booked := NO_BOOKINGS.(rows := [VISIT]);
    var confirm := Overlapping.IntentOf(booked, env, Move(0, ToConfirmed));
    var cancelled := Apply(booked, env, Cancel(0, false)).0;
    var end := Overlapping.Written(cancelled, confirm).rows;
    assert end[0].status == Confirmed && end[0].cancelledAt == Some(NOW);
  }

  /** Two reschedules of one booking that were both checked before either wrote: the unique index
      refuses the second. */
  lemma SecondRescheduleIsRefused()
    ensures var env := SampleEnv(ONE_WINDOW, 15, false);
      var booked := NO_BOOKINGS.(rows := [VISIT]);
      var first := Overlapping.IntentOf(booked, env, Reschedule(0, None, MIDNIGHT + 60 * MINUTE_MS));
      var second := Overlapping.IntentOf(booked, env, Reschedule(0, None, MIDNIGHT + 90 * MINUTE_MS));
      && Overlapping.Passes(booked, env, first.request) && Overlapping.Passes(booked, env, second.request)
      && Overlapping.IntentFits(booked, first)
      && var once := Overlapping.Written(booked, first);
         && |once.rows| == 2 && once.rows[1].rescheduledFrom == Some(0) && once.rows[0].status == Cancelled
         && Overlapping.IntentFits(once, second)
         && Overlapping.Written(once, second) == once
  {
    RescheduleChecked(60, 4);
    RescheduleChecked(90, 6);
    var env := SampleEnv(ONE_WINDOW, 15, false);
    var booked := NO_BOOKINGS.(rows := [VISIT]);
    var first := Overlapping.IntentOf(booked, env, Reschedule(0, None, MIDNIGHT + 60 * MINUTE_MS));
    var once := Overlapping.Written(booked, first);
    assert once.rows[1].rescheduledFrom == Some(0);
    assert Overlapping.LinkTaken(once.rows, 0);
  }

  lemma RescheduleChecked(minutes: int, steps: nat)
    requires minutes == 15 * steps && minutes < 120
    ensures var booked := NO_BOOKINGS.(rows := [VISIT]);
      var r := Reschedule(0, None, MIDNIGHT + minutes * MINUTE_MS);
      && Overlapping.Passes(booked, SampleEnv(ONE_WINDOW, 15, false), r)
      && Overlapping.IntentFits(booked, Overlapping.IntentOf(booked, SampleEnv(ONE_WINDOW, 15, false), r))
  {
    OnTheGrid(minutes, steps);
  }

  lemma FirstEvent(s: Overlapping.State, e: Overlapping.Event, rest: seq<Overlapping.Event>)
    ensures Overlapping.Run(s, [e] + rest) == Overlapping.Run(Overlapping.Next(s, e), rest)
  {
    assert ([e] + rest)[1..] == rest;
  }

  /** Four events, by way of the states after each of them. */
  lemma FourEvents(s: Overlapping.State, s1: Overlapping.State, s2: Overlapping.State, s3: Overlapping.State,
                   e: Overlapping.Event, e1: Overlapping.Event, e2: Overlapping.Event, e3: Overlapping.Event)
    requires Overlapping.Next(s, e) == s1 && Overlapping.Next(s1, e1) == s2 && Overlapping.Next(s2, e2) == s3
    ensures Overlapping.Run(s, [e, e1, e2, e3]) == Overlapping.Next(s3, e3)
  {
    assert [e, e1, e2, e3] == [e] + [e1, e2, e3] && [e1, e2, e3] == [e1] + [e2, e3] && [e2, e3] == [e2] + [e3];
    FirstEvent(s, e, [e1, e2, e3]);
    FirstEvent(s1, e1, [e2, e3]);
    FirstEvent(s2, e2, [e3]);
    assert [e3] == [e3] + [];
    FirstEvent(s3, e3, []);
  }

  const ONGOING := NO_BOOKINGS.(rows := [VISIT.(status := InProgress)])

  /** A cancellation that was checked before a completion commits over it: the row was completed, which
      leads nowhere, and ends cancelled. */
  lemma CancelOverwritesCompletion()
    ensures var env := SampleEnv(ONE_WINDOW, 15, false);
      var start := Overlapping.State(ONGOING, map[]);
      var events := [Overlapping.Read(0, env, Cancel(0, false)), Overlapping.Read(1, env, Move(0, ToCompleted)),
                     Overlapping.Write(1), Overlapping.Write(0)];
      && Stale.After(start, events, 3).store.rows == [VISIT.(status := Completed)]
      && Stale.After(start, events, 4).store.rows == [VISIT.(status := Cancelled, cancelledAt := Some(NOW))]
      && !Stale.AlwaysAdvances(start, events)
  {
    var env := SampleEnv(ONE_WINDOW, 15, false);
    var start := Overlapping.State(ONGOING, map[]);
    var cancel := Overlapping.IntentOf(ONGOING, env, Cancel(0, false));
    var complete := Overlapping.IntentOf(ONGOING, env, Move(0, ToCompleted));
    var r0, r1 := Overlapping.Read(0, env, Cancel(0, false)), Overlapping.Read(1, env, Move(0, ToCompleted));
    var events := [r0, r1, Overlapping.Write(1), Overlapping.Write(0)];
    var done := NO_BOOKINGS.(rows := [VISIT.(status := Completed)]);
    CompletionGoesThrough();
    var s1 := Overlapping.State(ONGOING, map[0 := cancel]);
    var s2 := Overlapping.State(ONGOING, map[0 := cancel, 1 := complete]);
    var s3 := Overlapping.State(done, map[0 := cancel]);
    assert s2.open - {1} == s3.open;
    assert start.open[0 := cancel] == s1.open && s1.open[1 := complete] == s2.open;
    FourEvents(start, s1, s2, s3, r0, r1, Overlapping.Write(1), Overlapping.Write(0));
    ThreeEvents(start, s1, s2, r0, r1, Overlapping.Write(1));
    assert events[..3] == [r0, r1, Overlapping.Write(1)] && events[..4] == events;
    Stale.OnwardIsReached(Completed, Cancelled);
    assert !Stale.Advances(Stale.After(start, events, 3).store, Stale.After(start, events, 4).store);
  }

  lemma ThreeEvents(s: Overlapping.State, s1: Overlapping.State, s2: Overlapping.State,
                    e: Overlapping.Event, e1: Overlapping.Event, e2: Overlapping.Event)
    requires Overlapping.Next(s, e) == s1 && Overlapping.Next(s1, e1) == s2
    ensures Overlapping.Run(s, [e, e1, e2]) == Overlapping.Next(s2, e2)
  {
    assert [e, e1, e2] == [e] + [e1, e2] && [e1, e2] == [e1] + [e2];
    FirstEvent(s, e, [e1, e2]);
    FirstEvent(s1, e1, [e2]);
    assert [e2] == [e2] + [];
    FirstEvent(s2, e2, []);
  }

  lemma CompletionGoesThrough()
    ensures var env := SampleEnv(ONE_WINDOW, 15, false);
      var complete := Overlapping.IntentOf(ONGOING, env, Move(0, ToCompleted));
      var cancel := Overlapping.IntentOf(ONGOING, env, Cancel(0, false));
      var done := NO_BOOKINGS.(rows := [VISIT.(status := Completed)]);
      && Overlapping.Passes(ONGOING, env, Move(0, ToCompleted)) && Overlapping.Passes(ONGOING, env, Cancel(0, false))
      && Overlapping.IntentFits(ONGOING, complete) && Overlapping.Written(ONGOING, complete) == done
      && Overlapping.IntentFits(done, cancel)
      && Overlapping.Written(done, cancel).rows == [VISIT.(status := Cancelled, cancelledAt := Some(NOW))]
  {
  }

  /** A removal that counted no upcoming booking, and a booking that commits before the removal writes:
      the removal skips its bulk cancel, and the booking is still due with its staff member gone. */
  lemma RemovalMissesBooking()
    ensures var env := SampleEnv(ONE_WINDOW, 15, false);
      var start := Overlapping.State(NO_BOOKINGS, map[]);
      var end := Overlapping.Run(start, [
        Overlapping.Read(0, env, RemoveStaff("ana", false)),
        Overlapping.Read(1, env, Create("bo", "ana", "svc", VISIT.start, false)),
        Overlapping.Write(1), Overlapping.Write(0)]).store;
      && ("shop", "ana") in end.staff && end.staff[("shop", "ana")].isDeleted
      && end.rows == [VISIT] && Upcoming(env, "ana", VISIT)
  {
    var env := SampleEnv(ONE_WINDOW, 15, false);
    var create := Create("bo", "ana", "svc", VISIT.start, false);
    var remove := Overlapping.IntentOf(NO_BOOKINGS, env, RemoveStaff("ana", false));
    var book := Overlapping.IntentOf(NO_BOOKINGS, env, create);
    var r0, r1 := Overlapping.Read(0, env, RemoveStaff("ana", false)), Overlapping.Read(1, env, create);
    var booked := NO_BOOKINGS.(rows := [VISIT]);
    BookingComesFirst();
    var start := Overlapping.State(NO_BOOKINGS, map[]);
    var s1 := Overlapping.State(NO_BOOKINGS, map[0 := remove]);
    var s2 := Overlapping.State(NO_BOOKINGS, map[0 := remove, 1 := book]);
    var s3 := Overlapping.State(booked, map[0 := remove]);
    assert s2.open - {1} == s3.open;
    assert start.open[0 := remove] == s1.open && s1.open[1 := book] == s2.open;
    FourEvents(start, s1, s2, s3, r0, r1, Overlapping.Write(1), Overlapping.Write(0));
  }

  lemma BookingComesFirst()
    ensures var env := SampleEnv(ONE_WINDOW, 15, false);
      var create := Create("bo", "ana", "svc", VISIT.start, false);
      var remove := Overlapping.IntentOf(NO_BOOKINGS, env, RemoveStaff("ana", false));
      var book := Overlapping.IntentOf(NO_BOOKINGS, env, create);
      var booked := NO_BOOKINGS.(rows := [VISIT]);
      && Overlapping.Passes(NO_BOOKINGS, env, create) && Overlapping.Passes(NO_BOOKINGS, env, RemoveStaff("ana", false))
      && remove.count == 0
      && Overlapping.IntentFits(NO_BOOKINGS, book) && Overlapping.Written(NO_BOOKINGS, book) == booked
      && Overlapping.IntentFits(booked, remove)
      && Overlapping.Written(booked, remove).rows == [VISIT]
      && Overlapping.Written(booked, remove).staff[("shop", "ana")].isDeleted
  {
    OnTheGrid(15, 1);
    QuarterPastIsBooked(NO_BOOKINGS);
  }

  /// ## What the booking does not ask

  /** The sample day declared a holiday: the listing shows nothing, and 00:15 can be booked. */
  lemma HolidayIsBookable(day: Day)
    requires var ctx := SampleContext(ONE_WINDOW, []).(holidays := [Holiday(SAMPLE_DATE, false)]);
      IsDay(ctx, Params(None, 15, false), SAMPLE_DATE, day)
    ensures day.slots == []
    ensures var create := Create("bo", "ana", "svc", VISIT.start, false);
      Apply(NO_BOOKINGS, SampleEnv(ONE_WINDOW, 15, false), create).1 == Ok(0)
  {
    QuarterPastIsBooked(NO_BOOKINGS);
    var ctx := SampleContext(ONE_WINDOW, []).(holidays := [Holiday(SAMPLE_DATE, false)]);
    assert ctx.holidays[0].date == SAMPLE_DATE;
    assert IsHoliday(ctx, SAMPLE_DATE);
  }

  /** Open until 02:00, steps of 50 minutes: 01:45 is refused with 01:40 and 02:30 named as the nearest,
      and 02:30 would be refused as outside the hours. */
  lemma LateNeighbourIsOutside()
    ensures Verdict(UTC, ONE_WINDOW, MIDNIGHT + 105 * MINUTE_MS, 50) ==
      Some(OffGrid(MIDNIGHT + 100 * MINUTE_MS, MIDNIGHT + 150 * MINUTE_MS))
    ensures Verdict(UTC, ONE_WINDOW, MIDNIGHT + 150 * MINUTE_MS, 50) == Some(OutsideHours)
  {
    SampleDate(MIDNIGHT + 105 * MINUTE_MS);
    SampleDate(MIDNIGHT + 150 * MINUTE_MS);
    OnlyRow();
    AnchorOfSample();
    assert !Multiple(5 * MINUTE_MS, 50 * MINUTE_MS);
    assert !Multiple(55 * MINUTE_MS, 50 * MINUTE_MS);
    assert !Multiple(105 * MINUTE_MS, 50 * MINUTE_MS);
    assert 105 * MINUTE_MS / (50 * MINUTE_MS) == 2;
  }

  lemma OnlyRow()
    ensures UTC.weekday(SAMPLE_DATE) == Monday && RowsOf(ONE_WINDOW, Monday) == ONE_WINDOW
  {
    SampleDay();
    assert RowsOf(ONE_WINDOW, Monday) == InsertByTime(ONE_WINDOW[0], RowsOf(ONE_WINDOW[1..], Monday));
  }

  lemma AnchorOfSample()
    ensures Containing(UTC, SAMPLE_DATE, ONE_WINDOW, MIDNIGHT + 105 * MINUTE_MS) ==
      Some(Interval(MIDNIGHT, MIDNIGHT + 2 * HOUR_MS))
    ensures Containing(UTC, SAMPLE_DATE, ONE_WINDOW, MIDNIGHT + 150 * MINUTE_MS) == None
  {
    SampleDay();
    var late := MIDNIGHT + 150 * MINUTE_MS;
    assert WindowAt(UTC, SAMPLE_DATE, ONE_WINDOW[0], late) == None;
    assert Containing(UTC, SAMPLE_DATE, ONE_WINDOW, late) == Containing(UTC, SAMPLE_DATE, ONE_WINDOW[1..], late);
  }

  /// ## Events that block an event

  /** The notifications queue is down. */
  const NO_NOTIFICATIONS := (q: Outbox.Queue, e: Outbox.Event) => q != Outbox.Notifications

  const CUSTOMER_EVENT := Outbox.Row(Outbox.Event("c", "shop", "customer.created", ""), Outbox.Pending, 0)

  /** Pending events of new appointments only. */
  predicate AllAppointments(rows: Outbox.Rows) {
    forall i :: 0 <= i < |rows| ==> rows[i].status == Outbox.Pending && rows[i].event.kind == "appointment.created"
  }

  lemma AppointmentFails(e: Outbox.Event)
    requires e.kind == "appointment.created"
    ensures !Outbox.Healthy(e, NO_NOTIFICATIONS)
  {
    assert "appointment." <= e.kind;
    assert Outbox.Notifications in Outbox.RouteToQueues(e.kind);
  }

  lemma {:induction false} AllAppointmentsFail(rows: Outbox.Rows)
    requires AllAppointments(rows)
    ensures Drain.Failing(rows, NO_NOTIFICATIONS) == |rows| && Drain.Waiting(rows, NO_NOTIFICATIONS) == 0
  {
    if rows != [] {
      AppointmentFails(rows[0].event);
      AllAppointmentsFail(rows[1..]);
    }
  }

  lemma CustomerEventIsHealthy()
    ensures Outbox.Healthy(CUSTOMER_EVENT.event, NO_NOTIFICATIONS)
  {
    var kind := CUSTOMER_EVENT.event.kind;
    assert kind[0] == 'c' && "appointment."[0] == 'a' && "payment."[0] == 'p';
    assert "customer." <= kind;
    assert Outbox.RouteToQueues(kind) == [Outbox.Dashboard];
  }

  /** Fifty events of new appointments stuck behind a queue that is down: a customer event, whose own
      queue takes everything, is not delivered while that lasts, however often the outbox is flushed
      and whatever is committed meanwhile. */
  lemma FiftyStuckEventsBlock(stuck: Outbox.Rows, batches: seq<seq<Drain.Arrival>>)
    requires AllAppointments(stuck) && |stuck| == Outbox.BATCH
    ensures var rounds := Drain.Steadily(NO_NOTIFICATIONS, batches);
      var end, i := Drain.Rounds(stuck + [CUSTOMER_EVENT], rounds), Drain.Place(|stuck|, rounds);
      && Outbox.Healthy(CUSTOMER_EVENT.event, NO_NOTIFICATIONS)
      && i < |end| && end[i] == CUSTOMER_EVENT
  {
    var rows := stuck + [CUSTOMER_EVENT];
    AllAppointmentsFail(stuck);
    CustomerEventIsHealthy();
    assert rows[..|stuck|] == stuck;
    Drain.Starves(rows, batches, |stuck|, NO_NOTIFICATIONS);
  }
}
