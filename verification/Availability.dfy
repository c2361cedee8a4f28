/**
 * The availability engine: which staff can take a slot, and when.
 *
 * The specification is point by point (`Offerable`): it speaks of single
 * instants being open, worked, blocked or booked, never of merged or subtracted
 * lists. `ComputeDay` runs the sweeps of `Intervals` and is proved to list
 * exactly the offerable slots.
 */
module Availability {
  import opened Options
  import opened Intervals

  /// ## The calendar, and the engine's inputs

  datatype Date = Date(year: int, month: int, day: int)
  datatype Weekday = Monday | Tuesday | Wednesday | Thursday | Friday | Saturday | Sunday
  datatype TimeOfDay = TimeOfDay(hour: int, minute: int)

  /** What the time-zone library answers: the instant of a local wall-clock time (`None` inside
      a daylight-saving gap), the weekday of a date, and the local date of an instant. */
  datatype Calendar = Calendar(
    toUtc: (Date, TimeOfDay) -> Option<int>, weekday: Date -> Weekday, dateOf: int -> Option<Date>)

  /** A row of business hours, or of one staff member's weekly availability. */
  datatype WeeklyWindow = WeeklyWindow(dayOfWeek: Weekday, startTime: TimeOfDay, endTime: TimeOfDay, enabled: bool)

  datatype Staff = Staff(id: string, isActive: bool, customDuration: Option<int>, availabilities: seq<WeeklyWindow>)

  /** `staffId` is `None` for a block that concerns the whole business. */
  datatype BlockedTime = BlockedTime(staffId: Option<string>, start: int, end: int)

  datatype Holiday = Holiday(date: Date, isRecurring: bool)

  datatype Booking = Booking(staffId: string, start: int, end: int, bufferBeforeMin: int, bufferAfterMin: int)

  datatype Service = Service(
    id: string, durationMin: int, slotIntervalMin: int, bufferBeforeMin: int, bufferAfterMin: int)

  datatype Context = Context(
    calendar: Calendar,
    cancellationHours: int,
    service: Service,
    businessHours: seq<WeeklyWindow>,
    staff: seq<Staff>,
    blockedTimes: seq<BlockedTime>,
    holidays: seq<Holiday>,
    appointments: seq<Booking>,
    nowMs: int)

  datatype Params = Params(staffIdFilter: Option<string>, granularityMin: int, showRange: bool)

  datatype DayStatus = Past | OnHoliday | Closed | Open
  datatype Slot = Slot(start: int, staffIds: seq<string>, end: Option<int>)
  datatype Day = Day(status: DayStatus, slots: seq<Slot>)

  const MINUTE_MS := 60_000
  const HOUR_MS := 3_600_000
  const LAST_MINUTE := TimeOfDay(23, 59)

  function EffectiveDuration(ctx: Context, staff: Staff): (r: int) {
    match staff.customDuration
    case Some(minutes) => minutes
    case None => ctx.service.durationMin
  }

  /** What the request validators guarantee: positive steps and durations, no negative buffer. */
  predicate WellFormed(ctx: Context, params: Params) {
    && params.granularityMin > 0
    && ctx.service.durationMin > 0
    && ctx.service.bufferBeforeMin >= 0
    && ctx.service.bufferAfterMin >= 0
    && forall k :: 0 <= k < |ctx.staff| ==> EffectiveDuration(ctx, ctx.staff[k]) > 0
  }

  function WindowToUtc(cal: Calendar, date: Date, startTime: TimeOfDay, endTime: TimeOfDay): (r: Option<Interval>) {
    match (cal.toUtc(date, startTime), cal.toUtc(date, endTime))
    case (Some(start), Some(end)) => if end <= start then None else Some(Interval(start, end))
    case _ => None
  }

  function EarliestAllowed(ctx: Context): (r: int) {
    ctx.nowMs + ctx.cancellationHours * HOUR_MS
  }

  predicate IsCandidate(params: Params, staff: Staff) {
    staff.isActive &&
    match params.staffIdFilter
    case Some(id) => id == "" || staff.id == id
    case None => true
  }

  /// ## Point-by-point specification

  predicate WindowCovers(cal: Calendar, date: Date, w: WeeklyWindow, u: int) {
    && w.enabled
    && w.dayOfWeek == cal.weekday(date)
    && var iv := WindowToUtc(cal, date, w.startTime, w.endTime);
       iv.Some? && In(u, iv.value)
  }

  predicate AnyCovers(cal: Calendar, date: Date, windows: seq<WeeklyWindow>, u: int) {
    exists k :: 0 <= k < |windows| && WindowCovers(cal, date, windows[k], u)
  }

  predicate OpenAt(ctx: Context, date: Date, u: int) {
    AnyCovers(ctx.calendar, date, ctx.businessHours, u)
  }

  predicate WorksAt(ctx: Context, date: Date, staff: Staff, u: int) {
    AnyCovers(ctx.calendar, date, staff.availabilities, u)
  }

  predicate BlockedAt(ctx: Context, staff: Staff, u: int) {
    exists k :: 0 <= k < |ctx.blockedTimes| && BlockHolds(ctx.blockedTimes[k], staff, u)
  }

  predicate BlockHolds(b: BlockedTime, staff: Staff, u: int) {
    (b.staffId == None || b.staffId == Some(staff.id)) && b.start <= u < b.end
  }

  /** Some open instant of the day is before `end`, and some is at or after `start`. */
  ghost predicate MeetsDay(ctx: Context, date: Date, start: int, end: int) {
    && (exists u :: OpenAt(ctx, date, u) && u < end)
    && (exists u :: OpenAt(ctx, date, u) && start <= u)
  }

  /** `u` lies in a booking widened by its own buffers; a booking whose unwidened range misses the
      day's span is not looked at, even where its buffers reach into the day. */
  ghost predicate BookedAt(ctx: Context, date: Date, staff: Staff, u: int) {
    exists k :: 0 <= k < |ctx.appointments| && HoldsAt(ctx, date, staff, ctx.appointments[k], u)
  }

  ghost predicate HoldsAt(ctx: Context, date: Date, staff: Staff, a: Booking, u: int) {
    && a.staffId == staff.id
    && MeetsDay(ctx, date, a.start, a.end)
    && a.start - a.bufferBeforeMin * MINUTE_MS <= u < a.end + a.bufferAfterMin * MINUTE_MS
  }

  ghost predicate FreeAt(ctx: Context, date: Date, staff: Staff, u: int) {
    && OpenAt(ctx, date, u)
    && WorksAt(ctx, date, staff, u)
    && !BlockedAt(ctx, staff, u)
    && !BookedAt(ctx, date, staff, u)
  }

  /** A longest uninterrupted stretch of open instants. */
  ghost predicate OpenRun(ctx: Context, date: Date, w: Interval) {
    && IsNonEmpty(w)
    && (forall u :: In(u, w) ==> OpenAt(ctx, date, u))
    && !OpenAt(ctx, date, w.start - 1)
    && !OpenAt(ctx, date, w.end)
  }

  /** `x` is zero or a positive multiple of `m`, reached by steps of `m` as the slot walk does. */
  predicate Multiple(x: int, m: int)
    requires m > 0
    decreases x
  {
    x == 0 || (x >= m && Multiple(x - m, m))
  }

  /** The grid of a window starts at its start; the last step may end one millisecond late. */
  predicate OnGrid(w: Interval, stepMs: int, t: int)
    requires stepMs > 0
  {
    w.start <= t && Multiple(t - w.start, stepMs) && t + stepMs <= w.end + 1
  }

  ghost predicate NeededIsFree(ctx: Context, date: Date, staff: Staff, t: int) {
    forall u ::
      t - ctx.service.bufferBeforeMin * MINUTE_MS <= u
        < t + EffectiveDuration(ctx, staff) * MINUTE_MS + ctx.service.bufferAfterMin * MINUTE_MS
      ==> FreeAt(ctx, date, staff, u)
  }

  ghost predicate OfferableIn(ctx: Context, params: Params, date: Date, staff: Staff, w: Interval, t: int)
    requires params.granularityMin > 0
  {
    && OpenRun(ctx, date, w)
    && OnGrid(w, params.granularityMin * MINUTE_MS, t)
    && t + EffectiveDuration(ctx, staff) * MINUTE_MS <= w.end
    && EarliestAllowed(ctx) <= t
    && NeededIsFree(ctx, date, staff, t)
  }

  /** Staff member `staff` may be offered a slot starting at `t`. */
  ghost predicate Offerable(ctx: Context, params: Params, date: Date, staff: Staff, t: int)
    requires params.granularityMin > 0
  {
    exists w :: OfferableIn(ctx, params, date, staff, w, t)
  }

  /** The candidates who can take `t`, in the order the candidates come. */
  ghost function OfferedStaff(ctx: Context, params: Params, date: Date, staff: seq<Staff>, t: int): (r: seq<string>)
    requires params.granularityMin > 0
  {
    if staff == [] then []
    else
      var last := staff[|staff| - 1];
      OfferedStaff(ctx, params, date, staff[..|staff| - 1], t) +
      if Offerable(ctx, params, date, last, t) then [last.id] else []
  }

  function Candidates(params: Params, staff: seq<Staff>): (r: seq<Staff>) {
    if staff == [] then []
    else
      Candidates(params, staff[..|staff| - 1]) +
      if IsCandidate(params, staff[|staff| - 1]) then [staff[|staff| - 1]] else []
  }

  /** The whole slot list, with nothing left open: ascending, every offerable start present, each
      with exactly the staff who can take it. */
  ghost predicate ListsExactly(ctx: Context, params: Params, date: Date, staff: seq<Staff>, slots: seq<Slot>)
    requires params.granularityMin > 0
  {
    && (forall j, k :: 0 <= j < k < |slots| ==> slots[j].start < slots[k].start)
    && (forall k :: 0 <= k < |slots| ==> IsSlot(ctx, params, date, staff, slots[k]))
    && (forall t :: OfferedStaff(ctx, params, date, staff, t) != [] ==> Lists(slots, t))
  }

  ghost predicate IsSlot(ctx: Context, params: Params, date: Date, staff: seq<Staff>, slot: Slot)
    requires params.granularityMin > 0
  {
    && slot.staffIds == OfferedStaff(ctx, params, date, staff, slot.start)
    && slot.staffIds != []
    && slot.end == SlotEnd(ctx, params, slot.start)
  }

  predicate Lists(slots: seq<Slot>, t: int) {
    exists k :: 0 <= k < |slots| && slots[k].start == t
  }

  function SlotEnd(ctx: Context, params: Params, t: int): (r: Option<int>) {
    if params.showRange then Some(t + ctx.service.durationMin * MINUTE_MS) else None
  }

  predicate IsPast(ctx: Context, date: Date) {
    var lastMinute := ctx.calendar.toUtc(date, LAST_MINUTE);
    lastMinute.Some? && lastMinute.value < ctx.nowMs
  }

  predicate IsHoliday(ctx: Context, date: Date) {
    exists k :: 0 <= k < |ctx.holidays| &&
      (ctx.holidays[k].date == date ||
       (ctx.holidays[k].isRecurring
        && ctx.holidays[k].date.month == date.month && ctx.holidays[k].date.day == date.day))
  }

  /** What `ComputeDay` must return for a date. */
  ghost predicate IsDay(ctx: Context, params: Params, date: Date, day: Day)
    requires params.granularityMin > 0
  {
    if IsPast(ctx, date) then day == Day(Past, [])
    else if IsHoliday(ctx, date) then day == Day(OnHoliday, [])
    else if forall u :: !OpenAt(ctx, date, u) then day == Day(Closed, [])
    else day.status == Open && ListsExactly(ctx, params, date, Candidates(params, ctx.staff), day.slots)
  }

  /// ## The engine

  datatype StaffFree = StaffFree(staffId: string, free: seq<Interval>, effectiveDurationMin: int)

  method ResolveWindows(cal: Calendar, date: Date, windows: seq<WeeklyWindow>) returns (out: seq<Interval>)
    ensures forall u :: Covered(u, out) <==> AnyCovers(cal, date, windows, u)
  {
    out := [];
    for n := 0 to |windows|
      invariant forall u :: Covered(u, out) <==> exists k :: 0 <= k < n && WindowCovers(cal, date, windows[k], u)
    {
      var w := windows[n];
      if w.enabled && w.dayOfWeek == cal.weekday(date) {
        var iv := WindowToUtc(cal, date, w.startTime, w.endTime);
        if iv.Some? {
          Snoc(out, iv.value);
          out := out + [iv.value];
        }
      }
    }
  }

  method BlocksOf(ctx: Context, staff: Staff, dayStart: int, dayEnd: int) returns (out: seq<Interval>)
    ensures forall u :: dayStart <= u < dayEnd ==> (Covered(u, out) <==> BlockedAt(ctx, staff, u))
  {
    out := [];
    for n := 0 to |ctx.blockedTimes|
      invariant forall u :: dayStart <= u < dayEnd ==>
        (Covered(u, out) <==> exists k :: 0 <= k < n && BlockHolds(ctx.blockedTimes[k], staff, u))
    {
      var b := ctx.blockedTimes[n];
      if (b.staffId == None || b.staffId == Some(staff.id)) && b.end > dayStart && b.start < dayEnd {
        Snoc(out, Interval(b.start, b.end));
        out := out + [Interval(b.start, b.end)];
      }
    }
  }

  /** `dayStart` and `dayEnd` bound the open instants of the day, both ends attained. */
  ghost predicate DaySpan(ctx: Context, date: Date, dayStart: int, dayEnd: int) {
    && OpenAt(ctx, date, dayStart)
    && OpenAt(ctx, date, dayEnd - 1)
    && forall u :: OpenAt(ctx, date, u) ==> dayStart <= u < dayEnd
  }

  method BookingsOf(ctx: Context, date: Date, staff: Staff, dayStart: int, dayEnd: int) returns (out: seq<Interval>)
    requires DaySpan(ctx, date, dayStart, dayEnd)
    ensures forall u :: Covered(u, out) <==> BookedAt(ctx, date, staff, u)
  {
    out := [];
    for n := 0 to |ctx.appointments|
      invariant forall u :: Covered(u, out) <==>
        exists k :: 0 <= k < n && HoldsAt(ctx, date, staff, ctx.appointments[k], u)
    {
      var a := ctx.appointments[n];
      SpanMeets(ctx, date, dayStart, dayEnd, a.start, a.end);
      if a.staffId == staff.id && a.end > dayStart && a.start < dayEnd {
        var iv := Interval(a.start - a.bufferBeforeMin * MINUTE_MS, a.end + a.bufferAfterMin * MINUTE_MS);
        Snoc(out, iv);
        out := out + [iv];
      }
    }
  }

  lemma SpanMeets(ctx: Context, date: Date, dayStart: int, dayEnd: int, start: int, end: int)
    requires DaySpan(ctx, date, dayStart, dayEnd)
    ensures MeetsDay(ctx, date, start, end) <==> end > dayStart && start < dayEnd
  {
  }

  /** The free intervals of one staff member on an open day. */
  method FreeIntervals(ctx: Context, date: Date, staff: Staff, windows: seq<Interval>) returns (free: seq<Interval>)
    requires Canonical(windows) && windows != []
    requires forall u :: Covered(u, windows) <==> OpenAt(ctx, date, u)
    ensures Canonical(free)
    ensures forall u :: Covered(u, free) <==> FreeAt(ctx, date, staff, u)
  {
    var dayStart, dayEnd := windows[0].start, windows[|windows| - 1].end;
    SpanOfWindows(ctx, date, windows);
    var avail := ResolveWindows(ctx.calendar, date, staff.availabilities);
    var work := Intersect(windows, avail);
    var blocks := BlocksOf(ctx, staff, dayStart, dayEnd);
    var bookings := BookingsOf(ctx, date, staff, dayStart, dayEnd);
    var busy := Merge(blocks + bookings);
    forall u ensures Covered(u, busy) <==> Covered(u, blocks) || Covered(u, bookings) {
      Concat(blocks, bookings, u);
    }
    free := Subtract(work, busy);
  }

  lemma SpanOfWindows(ctx: Context, date: Date, windows: seq<Interval>)
    requires Canonical(windows) && windows != []
    requires forall u :: Covered(u, windows) <==> OpenAt(ctx, date, u)
    ensures DaySpan(ctx, date, windows[0].start, windows[|windows| - 1].end)
  {
    var last := |windows| - 1;
    assert In(windows[0].start, windows[0]) && In(windows[last].end - 1, windows[last]);
    CoveredIndex(windows[0].start, windows);
    CoveredIndex(windows[last].end - 1, windows);
    forall u | OpenAt(ctx, date, u) ensures windows[0].start <= u < windows[last].end {
      CoveredIndex(u, windows);
    }
  }

  predicate Fits(p: StaffFree, ctx: Context, w: Interval, t: int) {
    var end := t + p.effectiveDurationMin * MINUTE_MS;
    var needed := Interval(t - ctx.service.bufferBeforeMin * MINUTE_MS, end + ctx.service.bufferAfterMin * MINUTE_MS);
    && end <= w.end
    && EarliestAllowed(ctx) <= t
    && exists k :: 0 <= k < |p.free| && Contains(p.free[k], needed)
  }

  function FittingIds(perStaff: seq<StaffFree>, ctx: Context, w: Interval, t: int): (r: seq<string>) {
    if perStaff == [] then []
    else
      var last := perStaff[|perStaff| - 1];
      FittingIds(perStaff[..|perStaff| - 1], ctx, w, t) + if Fits(last, ctx, w, t) then [last.staffId] else []
  }

  method FittingStaff(perStaff: seq<StaffFree>, ctx: Context, w: Interval, start: int) returns (ids: seq<string>)
    ensures ids == FittingIds(perStaff, ctx, w, start)
  {
    ids := [];
    for n := 0 to |perStaff|
      invariant ids == FittingIds(perStaff[..n], ctx, w, start)
    {
      var p := perStaff[n];
      assert perStaff[..n + 1][..n] == perStaff[..n];
      var end := start + p.effectiveDurationMin * MINUTE_MS;
      if end > w.end {
        continue;
      }
      if start < EarliestAllowed(ctx) {
        continue;
      }
      var fits := FitsIn(p.free,
        Interval(start - ctx.service.bufferBeforeMin * MINUTE_MS, end + ctx.service.bufferAfterMin * MINUTE_MS));
      if fits {
        ids := ids + [p.staffId];
      }
    }
    assert perStaff[..|perStaff|] == perStaff;
  }

  /** One staff member's free list answers `Offerable` inside a window. */
  lemma FitsIsOfferable(ctx: Context, params: Params, date: Date, staff: Staff, p: StaffFree, w: Interval, t: int)
    requires params.granularityMin > 0 && EffectiveDuration(ctx, staff) > 0
    requires ctx.service.bufferBeforeMin >= 0 && ctx.service.bufferAfterMin >= 0
    requires EntryFor(ctx, date, staff, p)
    requires OpenRun(ctx, date, w) && OnGrid(w, params.granularityMin * MINUTE_MS, t)
    ensures Fits(p, ctx, w, t) <==> Offerable(ctx, params, date, staff, t)
  {
    var needed := Interval(t - ctx.service.bufferBeforeMin * MINUTE_MS,
      t + p.effectiveDurationMin * MINUTE_MS + ctx.service.bufferAfterMin * MINUTE_MS);
    FitsIsCovered(p.free, needed);
    assert (forall u :: In(u, needed) ==> Covered(u, p.free)) <==> NeededIsFree(ctx, date, staff, t) by {
      assert forall u :: In(u, needed) ==> (Covered(u, p.free) <==> FreeAt(ctx, date, staff, u));
      if NeededIsFree(ctx, date, staff, t) {
        assert forall u :: In(u, needed) ==> FreeAt(ctx, date, staff, u);
      }
      if forall u :: In(u, needed) ==> Covered(u, p.free) {
        forall u | needed.start <= u < needed.end ensures FreeAt(ctx, date, staff, u) {
          assert In(u, needed);
        }
      }
    }
    assert Fits(p, ctx, w, t) <==> OfferableIn(ctx, params, date, staff, w, t);
    if Offerable(ctx, params, date, staff, t) {
      var w' :| OfferableIn(ctx, params, date, staff, w', t);
      OneRun(ctx, date, w, w', t);
    }
  }

  /** Two open runs that share an instant are the same run. */
  lemma OneRun(ctx: Context, date: Date, a: Interval, b: Interval, t: int)
    requires OpenRun(ctx, date, a) && OpenRun(ctx, date, b) && In(t, a) && In(t, b)
    ensures a == b
  {
    assert !In(a.start - 1, b) && !In(b.start - 1, a) && !In(a.end, b) && !In(b.end, a);
  }

  ghost predicate FreeTable(ctx: Context, params: Params, date: Date, windows: seq<Interval>,
                            staff: seq<Staff>, perStaff: seq<StaffFree>)
    requires params.granularityMin > 0
  {
    forall w, t :: w in windows && OnGrid(w, params.granularityMin * MINUTE_MS, t) ==>
      FittingIds(perStaff, ctx, w, t) == OfferedStaff(ctx, params, date, staff, t)
  }

  method StaffEntry(ctx: Context, date: Date, staff: Staff, windows: seq<Interval>) returns (entry: StaffFree)
    requires Canonical(windows) && windows != []
    requires forall u :: Covered(u, windows) <==> OpenAt(ctx, date, u)
    ensures EntryFor(ctx, date, staff, entry)
  {
    var free := FreeIntervals(ctx, date, staff, windows);
    entry := StaffFree(staff.id, free, EffectiveDuration(ctx, staff));
  }

  method FreePerStaff(ctx: Context, params: Params, date: Date, staff: seq<Staff>, windows: seq<Interval>)
    returns (perStaff: seq<StaffFree>)
    requires params.granularityMin > 0
    requires ctx.service.bufferBeforeMin >= 0 && ctx.service.bufferAfterMin >= 0
    requires forall k :: 0 <= k < |staff| ==> EffectiveDuration(ctx, staff[k]) > 0
    requires Canonical(windows) && windows != []
    requires forall u :: Covered(u, windows) <==> OpenAt(ctx, date, u)
    ensures FreeTable(ctx, params, date, windows, staff, perStaff)
  {
    perStaff := [];
    for n := 0 to |staff|
      invariant FreeTableUpTo(ctx, params, date, windows, staff, n, perStaff)
    {
      var entry := StaffEntry(ctx, date, staff[n], windows);
      NextEntry(ctx, params, date, windows, staff, n, perStaff, entry);
      if entry.free != [] {
        perStaff := perStaff + [entry];
      }
    }
    assert staff[..|staff|] == staff;
  }

  ghost predicate FreeTableUpTo(ctx: Context, params: Params, date: Date, windows: seq<Interval>,
                                staff: seq<Staff>, n: nat, perStaff: seq<StaffFree>)
    requires params.granularityMin > 0 && n <= |staff|
  {
    FreeTable(ctx, params, date, windows, staff[..n], perStaff)
  }

  lemma NextEntry(ctx: Context, params: Params, date: Date, windows: seq<Interval>,
                  staff: seq<Staff>, n: nat, perStaff: seq<StaffFree>, entry: StaffFree)
    requires params.granularityMin > 0 && n < |staff| && EffectiveDuration(ctx, staff[n]) > 0
    requires ctx.service.bufferBeforeMin >= 0 && ctx.service.bufferAfterMin >= 0
    requires Canonical(windows) && forall u :: Covered(u, windows) <==> OpenAt(ctx, date, u)
    requires EntryFor(ctx, date, staff[n], entry)
    requires FreeTableUpTo(ctx, params, date, windows, staff, n, perStaff)
    ensures FreeTableUpTo(ctx, params, date, windows, staff, n + 1,
                          if entry.free != [] then perStaff + [entry] else perStaff)
  {
    GrowTable(ctx, params, date, windows, staff[..n], staff[n], perStaff, entry);
    assert staff[..n + 1] == staff[..n] + [staff[n]];
  }

  /** `entry` is what the engine works out for `s`. */
  ghost predicate EntryFor(ctx: Context, date: Date, s: Staff, entry: StaffFree) {
    && entry.staffId == s.id
    && entry.effectiveDurationMin == EffectiveDuration(ctx, s)
    && Canonical(entry.free)
    && forall u :: Covered(u, entry.free) <==> FreeAt(ctx, date, s, u)
  }

  lemma GrowTable(ctx: Context, params: Params, date: Date, windows: seq<Interval>,
                  staff: seq<Staff>, s: Staff, perStaff: seq<StaffFree>, entry: StaffFree)
    requires params.granularityMin > 0 && EffectiveDuration(ctx, s) > 0
    requires ctx.service.bufferBeforeMin >= 0 && ctx.service.bufferAfterMin >= 0
    requires Canonical(windows) && forall u :: Covered(u, windows) <==> OpenAt(ctx, date, u)
    requires EntryFor(ctx, date, s, entry)
    requires FreeTable(ctx, params, date, windows, staff, perStaff)
    ensures FreeTable(ctx, params, date, windows, staff + [s],
                      if entry.free != [] then perStaff + [entry] else perStaff)
  {
    forall w, t | w in windows && OnGrid(w, params.granularityMin * MINUTE_MS, t)
      ensures FittingIds(if entry.free != [] then perStaff + [entry] else perStaff, ctx, w, t)
           == OfferedStaff(ctx, params, date, staff + [s], t)
    {
      RunIsMember(ctx, date, windows, w);
      FitsIsOfferable(ctx, params, date, s, entry, w, t);
      assert (staff + [s])[..|staff|] == staff;
      assert (perStaff + [entry])[..|perStaff|] == perStaff;
    }
  }

  /** The grid of `w` before `limit` is listed, each start with exactly the staff who can take it. */
  ghost predicate WindowListed(ctx: Context, params: Params, date: Date, staff: seq<Staff>,
                               w: Interval, limit: int, slots: seq<Slot>)
    requires params.granularityMin > 0
  {
    && SlotsBefore(ctx, params, date, staff, w, limit, slots)
    && (forall t :: OfferedOnGrid(ctx, params, date, staff, w, t) && t < limit ==> Lists(slots, t))
  }

  ghost predicate SlotsBefore(ctx: Context, params: Params, date: Date, staff: seq<Staff>,
                              w: Interval, limit: int, slots: seq<Slot>)
    requires params.granularityMin > 0
  {
    && (forall j, k :: 0 <= j < k < |slots| ==> slots[j].start < slots[k].start)
    && (forall k :: 0 <= k < |slots| ==> w.start <= slots[k].start < w.end && slots[k].start < limit)
    && (forall k :: 0 <= k < |slots| ==> IsSlot(ctx, params, date, staff, slots[k]))
  }

  ghost predicate OfferedOnGrid(ctx: Context, params: Params, date: Date, staff: seq<Staff>, w: Interval, t: int)
    requires params.granularityMin > 0
  {
    OnGrid(w, params.granularityMin * MINUTE_MS, t) && OfferedStaff(ctx, params, date, staff, t) != []
  }

  method StaffAt(ctx: Context, params: Params, date: Date, staff: seq<Staff>, windows: seq<Interval>,
                 w: Interval, perStaff: seq<StaffFree>, start: int)
    returns (ids: seq<string>)
    requires params.granularityMin > 0 && w in windows && OnGrid(w, params.granularityMin * MINUTE_MS, start)
    requires FreeTable(ctx, params, date, windows, staff, perStaff)
    ensures ids == OfferedStaff(ctx, params, date, staff, start)
  {
    ids := FittingStaff(perStaff, ctx, w, start);
    TableGives(ctx, params, date, windows, staff, perStaff, w, start);
  }

  /** The slots of one open window. */
  method SlotsInWindow(ctx: Context, params: Params, date: Date, staff: seq<Staff>, windows: seq<Interval>,
                       w: Interval, perStaff: seq<StaffFree>)
    returns (slots: seq<Slot>)
    requires params.granularityMin > 0 && w in windows
    requires FreeTable(ctx, params, date, windows, staff, perStaff)
    ensures WindowListed(ctx, params, date, staff, w, w.end, slots)
  {
    var stepMs := params.granularityMin * MINUTE_MS;
    slots := [];
    var start := w.start;
    EmptyWindow(ctx, params, date, staff, w);
    while start + stepMs <= w.end + 1
      invariant w.start <= start && Multiple(start - w.start, stepMs)
      invariant WindowListed(ctx, params, date, staff, w, start, slots)
      decreases w.end - start
    {
      var ids := StaffAt(ctx, params, date, staff, windows, w, perStaff, start);
      WindowStep(ctx, params, date, staff, w, start, ids, slots);
      if |ids| > 0 {
        slots := slots + [Slot(start, ids, SlotEnd(ctx, params, start))];
      }
      start := start + stepMs;
    }
    WindowDone(ctx, params, date, staff, w, start, slots);
  }

  lemma TableGives(ctx: Context, params: Params, date: Date, windows: seq<Interval>,
                   staff: seq<Staff>, perStaff: seq<StaffFree>, w: Interval, t: int)
    requires params.granularityMin > 0 && w in windows && OnGrid(w, params.granularityMin * MINUTE_MS, t)
    requires FreeTable(ctx, params, date, windows, staff, perStaff)
    ensures FittingIds(perStaff, ctx, w, t) == OfferedStaff(ctx, params, date, staff, t)
  {
  }

  lemma EmptyWindow(ctx: Context, params: Params, date: Date, staff: seq<Staff>, w: Interval)
    requires params.granularityMin > 0
    ensures WindowListed(ctx, params, date, staff, w, w.start, [])
  {
  }

  lemma WindowDone(ctx: Context, params: Params, date: Date, staff: seq<Staff>, w: Interval,
                   start: int, slots: seq<Slot>)
    requires params.granularityMin > 0 && start + params.granularityMin * MINUTE_MS > w.end + 1
    requires WindowListed(ctx, params, date, staff, w, start, slots)
    ensures WindowListed(ctx, params, date, staff, w, w.end, slots)
  {
  }

  function WithSlot(ctx: Context, params: Params, start: int, ids: seq<string>, slots: seq<Slot>): (r: seq<Slot>) {
    if ids == [] then slots else slots + [Slot(start, ids, SlotEnd(ctx, params, start))]
  }

  lemma WindowStep(ctx: Context, params: Params, date: Date, staff: seq<Staff>, w: Interval,
                   start: int, ids: seq<string>, slots: seq<Slot>)
    requires params.granularityMin > 0
    requires var stepMs := params.granularityMin * MINUTE_MS;
      OnGrid(w, stepMs, start) && WindowListed(ctx, params, date, staff, w, start, slots)
    requires ids == OfferedStaff(ctx, params, date, staff, start)
    ensures var stepMs := params.granularityMin * MINUTE_MS;
      && Multiple(start + stepMs - w.start, stepMs)
      && WindowListed(ctx, params, date, staff, w, start + stepMs, WithSlot(ctx, params, start, ids, slots))
  {
    var stepMs := params.granularityMin * MINUTE_MS;
    var more := WithSlot(ctx, params, start, ids, slots);
    NextMultiple(start - w.start, stepMs);
    ListsOneMore(slots, start, ids, SlotEnd(ctx, params, start), more);
    OneMoreSlot(ctx, params, date, staff, w, start, ids, slots, more);
    forall t | OfferedOnGrid(ctx, params, date, staff, w, t) && t < start + stepMs ensures Lists(more, t) {
      OnlyOneStep(w, stepMs, start, t);
    }
  }

  lemma OneMoreSlot(ctx: Context, params: Params, date: Date, staff: seq<Staff>, w: Interval,
                    start: int, ids: seq<string>, before: seq<Slot>, slots: seq<Slot>)
    requires params.granularityMin > 0 && OnGrid(w, params.granularityMin * MINUTE_MS, start)
    requires SlotsBefore(ctx, params, date, staff, w, start, before)
    requires ids == OfferedStaff(ctx, params, date, staff, start)
    requires slots == if ids == [] then before else before + [Slot(start, ids, SlotEnd(ctx, params, start))]
    ensures SlotsBefore(ctx, params, date, staff, w, start + params.granularityMin * MINUTE_MS, slots)
  {
  }

  lemma ListsOneMore(before: seq<Slot>, start: int, ids: seq<string>, end: Option<int>, slots: seq<Slot>)
    requires slots == if ids == [] then before else before + [Slot(start, ids, end)]
    ensures forall t :: Lists(slots, t) <==> Lists(before, t) || (ids != [] && t == start)
  {
    var one := if ids == [] then [] else [Slot(start, ids, end)];
    assert slots == before + one;
    ListsAppend(before, one);
    assert ids != [] ==> one[0].start == start && Lists(one, start);
  }

  lemma OnlyOneStep(w: Interval, stepMs: int, start: int, t: int)
    requires stepMs > 0 && OnGrid(w, stepMs, start) && OnGrid(w, stepMs, t) && t < start + stepMs
    ensures t < start || t == start
  {
    NextMultiple(start - w.start, stepMs);
    assert Multiple(t - w.start, stepMs);
  }

  /** After one multiple of `m` the next is `m` further on. */
  lemma NextMultiple(a: int, m: int)
    requires m > 0 && Multiple(a, m)
    ensures a >= 0 && Multiple(a + m, m)
    ensures forall b :: a <= b < a + m && Multiple(b, m) ==> b == a
  {
    forall b | a <= b < a + m && Multiple(b, m) ensures b == a {
      NoMultipleBetween(a, b, m);
    }
  }

  lemma {:induction false} NoMultipleBetween(a: int, b: int, m: int)
    requires m > 0 && Multiple(a, m) && Multiple(b, m) && a <= b < a + m
    ensures a == b && a >= 0
    decreases a
  {
    if a > 0 {
      NoMultipleBetween(a - m, b - m, m);
    }
  }

  method ComputeDay(ctx: Context, params: Params, date: Date, candidates: seq<Staff>) returns (day: Day)
    requires WellFormed(ctx, params)
    requires candidates == Candidates(params, ctx.staff)
    ensures IsDay(ctx, params, date, day)
  {
    if IsPast(ctx, date) {
      return Day(Past, []);
    }
    if IsHoliday(ctx, date) {
      return Day(OnHoliday, []);
    }
    var resolved := ResolveWindows(ctx.calendar, date, ctx.businessHours);
    var windows := Merge(resolved);
    if windows == [] {
      assert forall u :: !Covered(u, windows);
      return Day(Closed, []);
    }
    SpanOfWindows(ctx, date, windows);
    CandidatesAreStaff(params, ctx.staff);
    assert forall k :: 0 <= k < |candidates| ==> candidates[k] in ctx.staff;
    var slots := OpenSlots(ctx, params, date, candidates, windows);
    return Day(Open, slots);
  }

  method OpenSlots(ctx: Context, params: Params, date: Date, staff: seq<Staff>, windows: seq<Interval>)
    returns (slots: seq<Slot>)
    requires params.granularityMin > 0
    requires ctx.service.bufferBeforeMin >= 0 && ctx.service.bufferAfterMin >= 0
    requires forall k :: 0 <= k < |staff| ==> EffectiveDuration(ctx, staff[k]) > 0
    requires Canonical(windows) && windows != []
    requires forall u :: Covered(u, windows) <==> OpenAt(ctx, date, u)
    ensures ListsExactly(ctx, params, date, staff, slots)
  {
    var perStaff := FreePerStaff(ctx, params, date, staff, windows);
    slots := [];
    for n := 0 to |windows|
      invariant WindowsListed(ctx, params, date, staff, windows, n, slots)
    {
      var more := SlotsInWindow(ctx, params, date, staff, windows, windows[n], perStaff);
      NextWindow(ctx, params, date, staff, windows, n, slots, more);
      slots := slots + more;
    }
    forall t | OfferedStaff(ctx, params, date, staff, t) != [] ensures Lists(slots, t) {
      OfferedOnSomeGrid(ctx, params, date, staff, windows, t);
    }
  }

  ghost predicate WindowsListed(ctx: Context, params: Params, date: Date, staff: seq<Staff>,
                                windows: seq<Interval>, n: nat, slots: seq<Slot>)
    requires params.granularityMin > 0 && n <= |windows|
  {
    && (forall j, k :: 0 <= j < k < |slots| ==> slots[j].start < slots[k].start)
    && (forall k :: 0 <= k < |slots| ==> IsSlot(ctx, params, date, staff, slots[k]))
    && (n == 0 ==> slots == [])
    && (n > 0 ==> forall k :: 0 <= k < |slots| ==> slots[k].start < windows[n - 1].end)
    && (forall i, t :: 0 <= i < n && OfferedOnGrid(ctx, params, date, staff, windows[i], t) ==> Lists(slots, t))
  }

  lemma NextWindow(ctx: Context, params: Params, date: Date, staff: seq<Staff>,
                   windows: seq<Interval>, n: nat, slots: seq<Slot>, more: seq<Slot>)
    requires params.granularityMin > 0 && n < |windows| && Canonical(windows)
    requires WindowsListed(ctx, params, date, staff, windows, n, slots)
    requires WindowListed(ctx, params, date, staff, windows[n], windows[n].end, more)
    ensures WindowsListed(ctx, params, date, staff, windows, n + 1, slots + more)
  {
    ListsAppend(slots, more);
    forall i, t | 0 <= i < n + 1 && OfferedOnGrid(ctx, params, date, staff, windows[i], t)
      ensures Lists(slots + more, t)
    {
      assert i == n ==> t < windows[n].end;
    }
  }

  lemma ListsAppend(a: seq<Slot>, b: seq<Slot>)
    ensures forall t :: Lists(a + b, t) <==> Lists(a, t) || Lists(b, t)
  {
    forall t ensures Lists(a + b, t) <==> Lists(a, t) || Lists(b, t) {
      if Lists(a, t) {
        var k :| 0 <= k < |a| && a[k].start == t;
        assert (a + b)[k].start == t;
      }
      if Lists(b, t) {
        var k :| 0 <= k < |b| && b[k].start == t;
        assert (a + b)[|a| + k].start == t;
      }
    }
  }

  lemma {:induction false} CandidatesAreStaff(params: Params, staff: seq<Staff>)
    ensures forall s :: s in Candidates(params, staff) <==> s in staff && IsCandidate(params, s)
  {
    if staff != [] {
      CandidatesAreStaff(params, staff[..|staff| - 1]);
      assert staff == staff[..|staff| - 1] + [staff[|staff| - 1]];
    }
  }

  lemma {:induction false} OfferedHasWitness(ctx: Context, params: Params, date: Date, staff: seq<Staff>,
                                             t: int, id: string)
    requires params.granularityMin > 0
    ensures id in OfferedStaff(ctx, params, date, staff, t) <==>
      exists s :: s in staff && s.id == id && Offerable(ctx, params, date, s, t)
  {
    if staff != [] {
      var init, last := staff[..|staff| - 1], staff[|staff| - 1];
      OfferedHasWitness(ctx, params, date, init, t, id);
      assert staff == init + [last];
      if s :| s in staff && s.id == id && Offerable(ctx, params, date, s, t) {
        assert s in init || s == last;
      }
    }
  }

  lemma OfferedOnSomeGrid(ctx: Context, params: Params, date: Date, staff: seq<Staff>, windows: seq<Interval>, t: int)
    requires params.granularityMin > 0 && OfferedStaff(ctx, params, date, staff, t) != []
    requires Canonical(windows) && forall u :: Covered(u, windows) <==> OpenAt(ctx, date, u)
    ensures exists i :: 0 <= i < |windows| && OfferedOnGrid(ctx, params, date, staff, windows[i], t)
  {
    var id := OfferedStaff(ctx, params, date, staff, t)[0];
    OfferedHasWitness(ctx, params, date, staff, t, id);
    var s :| s in staff && s.id == id && Offerable(ctx, params, date, s, t);
    var w :| OfferableIn(ctx, params, date, s, w, t);
    RunIsMember(ctx, date, windows, w);
    var i :| 0 <= i < |windows| && windows[i] == w;
    assert OfferedOnGrid(ctx, params, date, staff, windows[i], t);
  }

  lemma RunIsMember(ctx: Context, date: Date, windows: seq<Interval>, w: Interval)
    requires Canonical(windows) && forall u :: Covered(u, windows) <==> OpenAt(ctx, date, u)
    ensures w in windows <==> OpenRun(ctx, date, w)
  {
    CanonicalMembers(windows, w);
  }

  /// ## What a caller reads off the listing

  predicate Listed(day: Day, t: int, id: string) {
    exists k :: 0 <= k < |day.slots| && day.slots[k].start == t && id in day.slots[k].staffIds
  }

  /** A listed (start, staff) pair is a candidate who can be offered that start, and every such
      pair is listed. */
  lemma ListedIffOfferable(ctx: Context, params: Params, date: Date, day: Day, t: int, id: string)
    requires params.granularityMin > 0
    requires IsDay(ctx, params, date, day) && day.status == Open
    ensures Listed(day, t, id) <==>
      (exists s :: s in ctx.staff && IsCandidate(params, s) && s.id == id && Offerable(ctx, params, date, s, t))
  {
    var cands := Candidates(params, ctx.staff);
    CandidatesAreStaff(params, ctx.staff);
    OfferedHasWitness(ctx, params, date, cands, t, id);
    if s :| s in ctx.staff && IsCandidate(params, s) && s.id == id && Offerable(ctx, params, date, s, t) {
      assert id in OfferedStaff(ctx, params, date, cands, t);
      assert Lists(day.slots, t);
    }
  }

  /** `IsDay` leaves one answer: two results for the same question are equal. */
  lemma DayIsDetermined(ctx: Context, params: Params, date: Date, a: Day, b: Day)
    requires params.granularityMin > 0
    requires IsDay(ctx, params, date, a) && IsDay(ctx, params, date, b)
    ensures a == b
  {
    if a.status == Open {
      var cands := Candidates(params, ctx.staff);
      SlotsDetermined(ctx, params, date, cands, a.slots, b.slots);
    }
  }

  lemma SlotsDetermined(ctx: Context, params: Params, date: Date, staff: seq<Staff>, a: seq<Slot>, b: seq<Slot>)
    requires params.granularityMin > 0
    requires ListsExactly(ctx, params, date, staff, a) && ListsExactly(ctx, params, date, staff, b)
    ensures a == b
  {
    forall i | 0 <= i < |a| ensures Lists(b, a[i].start) {
      assert IsSlot(ctx, params, date, staff, a[i]);
    }
    forall i | 0 <= i < |b| ensures Lists(a, b[i].start) {
      assert IsSlot(ctx, params, date, staff, b[i]);
    }
    StartsAgree(a, b, |a|);
    StartsAgree(b, a, |b|);
    forall i | 0 <= i < |a| ensures a[i] == b[i] {
      assert IsSlot(ctx, params, date, staff, a[i]) && IsSlot(ctx, params, date, staff, b[i]);
    }
  }

  ghost predicate SameStartsSoFar(a: seq<Slot>, b: seq<Slot>, n: nat) {
    n <= |a| && n <= |b| && forall i :: 0 <= i < n ==> a[i].start == b[i].start
  }

  ghost predicate StartsWithin(a: seq<Slot>, b: seq<Slot>) {
    && (forall j, k :: 0 <= j < k < |a| ==> a[j].start < a[k].start)
    && (forall i :: 0 <= i < |a| ==> Lists(b, a[i].start))
  }

  lemma {:induction false} StartsAgree(a: seq<Slot>, b: seq<Slot>, n: nat)
    requires StartsWithin(a, b) && StartsWithin(b, a) && n <= |a|
    ensures SameStartsSoFar(a, b, n)
  {
    if n > 0 {
      StartsAgree(a, b, n - 1);
      SameStartAt(a, b, n - 1);
    }
  }

  lemma SameStartAt(a: seq<Slot>, b: seq<Slot>, k: nat)
    requires StartsWithin(a, b) && StartsWithin(b, a) && SameStartsSoFar(a, b, k) && k < |a|
    ensures SameStartsSoFar(a, b, k + 1)
  {
    NextIsNoLater(a, b, k);
    NextIsNoLater(b, a, k);
  }

  lemma NextIsNoLater(a: seq<Slot>, b: seq<Slot>, k: nat)
    requires StartsWithin(a, b) && StartsWithin(b, a) && SameStartsSoFar(a, b, k) && k < |a|
    ensures k < |b| && b[k].start <= a[k].start
  {
    var i :| 0 <= i < |b| && b[i].start == a[k].start;
    assert i >= k;
  }

  /// ## Ranges of days

  method ComputeAvailability(ctx: Context, params: Params, dates: seq<Date>) returns (days: map<Date, Day>)
    requires WellFormed(ctx, params)
    ensures days.Keys == set d | d in dates
    ensures forall d :: d in dates ==> IsDay(ctx, params, d, days[d])
  {
    days := map[];
    var candidates := Candidates(params, ctx.staff);
    for n := 0 to |dates|
      invariant days.Keys == set d | d in dates[..n]
      invariant forall d :: d in dates[..n] ==> IsDay(ctx, params, d, days[d])
    {
      var day := ComputeDay(ctx, params, dates[n], candidates);
      days := days[dates[n] := day];
      assert dates[..n + 1] == dates[..n] + [dates[n]];
    }
    assert dates[..|dates|] == dates;
  }

  ghost function AllSlots(days: map<Date, Day>, dates: seq<Date>): (r: seq<Slot>)
    requires forall d :: d in dates ==> d in days
  {
    if dates == [] then []
    else
      assert forall d :: d in dates[..|dates| - 1] ==> d in dates;
      AllSlots(days, dates[..|dates| - 1]) +
      if days[dates[|dates| - 1]].status == Open then days[dates[|dates| - 1]].slots else []
  }

  predicate EarlierDate(a: Date, b: Date) {
    || a.year < b.year
    || (a.year == b.year && a.month < b.month)
    || (a.year == b.year && a.month == b.month && a.day < b.day)
  }

  ghost predicate Ascending(dates: seq<Date>) {
    forall i, j :: 0 <= i < j < |dates| ==> EarlierDate(dates[i], dates[j])
  }

  function InsertDate(d: Date, keys: seq<Date>): (r: seq<Date>)
    ensures forall x :: x in r <==> x == d || x in keys
  {
    if keys == [] || EarlierDate(d, keys[0]) then [d] + keys
    else if d == keys[0] then keys
    else [keys[0]] + InsertDate(d, keys[1..])
  }

  /** The keys of the answer's days, sorted; a date that is asked for twice is one key. */
  function DayKeys(dates: seq<Date>): (keys: seq<Date>)
    ensures forall x :: x in keys <==> x in dates
  {
    if dates == [] then [] else InsertDate(dates[0], DayKeys(dates[1..]))
  }

  lemma {:induction false} InsertDateAscends(d: Date, keys: seq<Date>)
    requires Ascending(keys)
    ensures Ascending(InsertDate(d, keys))
  {
    if keys != [] && !EarlierDate(d, keys[0]) && d != keys[0] {
      InsertDateAscends(d, keys[1..]);
      var rest := InsertDate(d, keys[1..]);
      forall j | 0 <= j < |rest| ensures EarlierDate(keys[0], rest[j]) { assert rest[j] in rest; }
    }
  }

  /** The keys come in strictly ascending order, each asked-for date once. */
  lemma {:induction false} DayKeysAscend(dates: seq<Date>)
    ensures Ascending(DayKeys(dates))
  {
    if dates != [] {
      DayKeysAscend(dates[1..]);
      InsertDateAscends(dates[0], DayKeys(dates[1..]));
    }
  }

  /** The first `limit` slots of the range, day after day (at least one when there is one). */
  method ComputeNextSlots(ctx: Context, dates: seq<Date>, staffIdFilter: Option<string>, limit: int)
    returns (flat: seq<Slot>, days: map<Date, Day>)
    requires WellFormed(ctx, Params(staffIdFilter, ctx.service.slotIntervalMin, false))
    ensures days.Keys == set d | d in dates
    ensures forall d :: d in dates ==> IsDay(ctx, Params(staffIdFilter, ctx.service.slotIntervalMin, false), d, days[d])
    ensures Ascending(DayKeys(dates))
    ensures var all := AllSlots(days, DayKeys(dates));
      var wanted := if limit < 1 then 1 else limit;
      flat == if |all| <= wanted then all else all[..wanted]
  {
    days := ComputeAvailability(ctx, Params(staffIdFilter, ctx.service.slotIntervalMin, false), dates);
    DayKeysAscend(dates);
    flat := FirstSlots(days, DayKeys(dates), limit);
  }

  lemma AllSlotsNext(days: map<Date, Day>, dates: seq<Date>, n: nat)
    requires (forall d :: d in dates ==> d in days) && n < |dates|
    ensures AllSlots(days, dates[..n + 1]) ==
      AllSlots(days, dates[..n]) + if days[dates[n]].status == Open then days[dates[n]].slots else []
  {
    assert dates[..n + 1][..n] == dates[..n];
  }

  method FirstSlots(days: map<Date, Day>, dates: seq<Date>, limit: int) returns (flat: seq<Slot>)
    requires forall d :: d in dates ==> d in days
    ensures var all := AllSlots(days, dates);
      var wanted := if limit < 1 then 1 else limit;
      flat == if |all| <= wanted then all else all[..wanted]
  {
    ghost var wanted := if limit < 1 then 1 else limit;
    flat := [];
    for n := 0 to |dates|
      invariant flat == AllSlots(days, dates[..n])
      invariant |flat| < wanted
    {
      var day := days[dates[n]];
      AllSlotsNext(days, dates, n);
      if day.status != Open {
        continue;
      }
      ghost var before := flat;
      for k := 0 to |day.slots|
        invariant flat == before + day.slots[..k]
        invariant |flat| < wanted
      {
        flat := flat + [day.slots[k]];
        assert day.slots[..k + 1] == day.slots[..k] + [day.slots[k]];
        if |flat| >= limit {
          assert |flat| == wanted;
          assert before + day.slots == flat + day.slots[k + 1..];
          PrefixOfAll(days, dates, n + 1, wanted);
          return;
        }
      }
      assert day.slots[..|day.slots|] == day.slots;
    }
    assert dates[..|dates|] == dates;
  }

  lemma {:induction false} PrefixOfAll(days: map<Date, Day>, dates: seq<Date>, n: nat, wanted: nat)
    requires forall d :: d in dates ==> d in days
    requires n <= |dates| && wanted <= |AllSlots(days, dates[..n])|
    ensures |AllSlots(days, dates)| >= wanted && AllSlots(days, dates)[..wanted] == AllSlots(days, dates[..n])[..wanted]
  {
    if n == |dates| {
      assert dates[..n] == dates;
    } else {
      var init := dates[..|dates| - 1];
      assert init[..n] == dates[..n];
      PrefixOfAll(days, init, n, wanted);
    }
  }
}
