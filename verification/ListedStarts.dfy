/**
 * What a listing says, in terms of clock, calendar and minutes only: when a day is
 * past, a holiday, closed or open, and which starts of an open day are listed for whom.
 * Nothing here is said through the functions that the engine itself computes with.
 */
module ListedStarts {
  import opened Options
  import opened Intervals
  import opened Availability
  import opened SlotBoundary

  /// ## Days

  predicate ClockTime(c: TimeOfDay) {
    0 <= c.hour < 24 && 0 <= c.minute < 60
  }

  predicate ClockNoLater(a: TimeOfDay, b: TimeOfDay) {
    ClockTime(a) && ClockTime(b) && 60 * a.hour + a.minute <= 60 * b.hour + b.minute
  }

  /** Later clock times of the date have later instants. */
  ghost predicate ClockAdvances(cal: Calendar, date: Date) {
    forall a, b | ClockNoLater(a, b) && cal.toUtc(date, a).Some? && cal.toUtc(date, b).Some? ::
      cal.toUtc(date, a).value <= cal.toUtc(date, b).value
  }

  /** The last minute of the date has an instant, and every minute that has one is over. */
  ghost predicate Over(ctx: Context, date: Date) {
    && ctx.calendar.toUtc(date, TimeOfDay(23, 59)).Some?
    && forall c :: ClockTime(c) && ctx.calendar.toUtc(date, c).Some? ==> ctx.calendar.toUtc(date, c).value < ctx.nowMs
  }

  /** Some holiday falls on the date: on that very date, or on its day and month in some year. */
  ghost predicate Celebrated(ctx: Context, date: Date) {
    exists h :: h in ctx.holidays &&
      (h.date == date || (h.isRecurring && exists year :: date == Date(year, h.date.month, h.date.day)))
  }

  /** The instant lies between the start and end that some enabled row has on that date. */
  predicate Within(cal: Calendar, date: Date, rows: seq<WeeklyWindow>, u: int) {
    exists w :: w in rows && w.enabled && w.dayOfWeek == cal.weekday(date)
      && cal.toUtc(date, w.startTime).Some? && cal.toUtc(date, w.endTime).Some?
      && cal.toUtc(date, w.startTime).value <= u < cal.toUtc(date, w.endTime).value
  }

  lemma WithinIsCovered(cal: Calendar, date: Date, rows: seq<WeeklyWindow>, u: int)
    ensures Within(cal, date, rows, u) <==> AnyCovers(cal, date, rows, u)
  {
    if AnyCovers(cal, date, rows, u) {
      var k :| 0 <= k < |rows| && WindowCovers(cal, date, rows[k], u);
      assert rows[k] in rows;
    }
    if Within(cal, date, rows, u) {
      var w :| w in rows && w.enabled && w.dayOfWeek == cal.weekday(date)
        && cal.toUtc(date, w.startTime).Some? && cal.toUtc(date, w.endTime).Some?
        && cal.toUtc(date, w.startTime).value <= u < cal.toUtc(date, w.endTime).value;
      var k :| 0 <= k < |rows| && rows[k] == w;
      assert WindowCovers(cal, date, rows[k], u);
    }
  }

  lemma CelebratedIsHoliday(ctx: Context, date: Date)
    ensures Celebrated(ctx, date) <==> IsHoliday(ctx, date)
  {
    if Celebrated(ctx, date) {
      var h :| h in ctx.holidays &&
        (h.date == date || (h.isRecurring && exists year :: date == Date(year, h.date.month, h.date.day)));
      var k :| 0 <= k < |ctx.holidays| && ctx.holidays[k] == h;
    }
    if IsHoliday(ctx, date) {
      var k :| 0 <= k < |ctx.holidays| &&
        (ctx.holidays[k].date == date ||
         (ctx.holidays[k].isRecurring
          && ctx.holidays[k].date.month == date.month && ctx.holidays[k].date.day == date.day));
      assert ctx.holidays[k] in ctx.holidays;
      assert ctx.holidays[k].isRecurring && ctx.holidays[k].date != date ==>
        date == Date(date.year, ctx.holidays[k].date.month, ctx.holidays[k].date.day);
    }
  }

  /** Which of the four a day is, exactly: a day that is over is past whatever else it is, a holiday
      comes before the opening hours, and only an open day has slots. */
  lemma DayStatusIff(ctx: Context, params: Params, date: Date, day: Day)
    requires params.granularityMin > 0 && IsDay(ctx, params, date, day) && ClockAdvances(ctx.calendar, date)
    ensures day.status == Past <==> Over(ctx, date)
    ensures day.status == OnHoliday <==> !Over(ctx, date) && Celebrated(ctx, date)
    ensures day.status == Open <==>
      !Over(ctx, date) && !Celebrated(ctx, date) && exists u :: Within(ctx.calendar, date, ctx.businessHours, u)
    ensures day.status != Open ==> day.slots == []
  {
    OverIsPast(ctx, date);
    CelebratedIsHoliday(ctx, date);
    forall u ensures Within(ctx.calendar, date, ctx.businessHours, u) <==> OpenAt(ctx, date, u) {
      WithinIsCovered(ctx.calendar, date, ctx.businessHours, u);
    }
  }

  lemma OverIsPast(ctx: Context, date: Date)
    requires ClockAdvances(ctx.calendar, date)
    ensures Over(ctx, date) <==> IsPast(ctx, date)
  {
    assert forall c :: ClockTime(c) ==> ClockNoLater(c, TimeOfDay(23, 59));
  }

  /** An open instant that is still to come, no later than the last minute, is enough: the day is listed
      start by start, unless it is a holiday. */
  lemma OpenAheadIsListed(ctx: Context, params: Params, date: Date, day: Day, u: int)
    requires params.granularityMin > 0 && IsDay(ctx, params, date, day) && !Celebrated(ctx, date)
    requires Within(ctx.calendar, date, ctx.businessHours, u) && ctx.nowMs <= u
    requires var last := ctx.calendar.toUtc(date, TimeOfDay(23, 59)); last.Some? ==> u <= last.value
    ensures day.status == Open
    ensures forall t, id :: Listed(day, t, id) <==>
      exists s :: MayBeAsked(ctx, params, s, id) && MayTake(ctx, params, date, s, t)
  {
    CelebratedIsHoliday(ctx, date);
    WithinIsCovered(ctx.calendar, date, ctx.businessHours, u);
    assert !IsPast(ctx, date) && OpenAt(ctx, date, u);
    forall t, id
      ensures Listed(day, t, id) <==> exists s :: MayBeAsked(ctx, params, s, id) && MayTake(ctx, params, date, s, t)
    {
      ListedMeans(ctx, params, date, day, t, id);
    }
  }

  /// ## Starts

  /** [from, to) is open throughout, and closed just before and just after. */
  ghost predicate OpenStretch(ctx: Context, date: Date, from: int, to: int) {
    && from < to
    && (forall u :: from <= u < to ==> Within(ctx.calendar, date, ctx.businessHours, u))
    && !Within(ctx.calendar, date, ctx.businessHours, from - 1)
    && !Within(ctx.calendar, date, ctx.businessHours, to)
  }

  /** The staff member works here and was asked for, by id or by asking for anyone. */
  predicate MayBeAsked(ctx: Context, params: Params, s: Staff, id: string) {
    && s in ctx.staff && s.id == id && s.isActive
    && (params.staffIdFilter.Some? && params.staffIdFilter.value != "" ==> params.staffIdFilter.value == id)
  }

  /** Some other claim on the staff member's time holds the instant: a block of theirs or of the whole
      business, or a booking with its buffers that begins before the day closes and ends after it opens. */
  ghost predicate Claimed(ctx: Context, date: Date, s: Staff, u: int) {
    || (exists b :: b in ctx.blockedTimes && b.staffId in {None, Some(s.id)} && b.start <= u < b.end)
    || (exists a :: a in ctx.appointments && a.staffId == s.id && BooksOver(ctx, date, a, u))
  }

  ghost predicate BooksOver(ctx: Context, date: Date, a: Booking, u: int) {
    && a.start - a.bufferBeforeMin * 60_000 <= u < a.end + a.bufferAfterMin * 60_000
    && (exists v :: Within(ctx.calendar, date, ctx.businessHours, v) && v < a.end)
    && (exists v :: Within(ctx.calendar, date, ctx.businessHours, v) && a.start <= v)
  }

  lemma ClaimedIff(ctx: Context, date: Date, s: Staff, u: int)
    ensures Claimed(ctx, date, s, u) <==> BlockedAt(ctx, s, u) || BookedAt(ctx, date, s, u)
  {
    forall v ensures Within(ctx.calendar, date, ctx.businessHours, v) <==> OpenAt(ctx, date, v) {
      WithinIsCovered(ctx.calendar, date, ctx.businessHours, v);
    }
    if b :| b in ctx.blockedTimes && b.staffId in {None, Some(s.id)} && b.start <= u < b.end {
      var k :| 0 <= k < |ctx.blockedTimes| && ctx.blockedTimes[k] == b;
      assert BlockHolds(ctx.blockedTimes[k], s, u);
    }
    if BlockedAt(ctx, s, u) {
      var k :| 0 <= k < |ctx.blockedTimes| && BlockHolds(ctx.blockedTimes[k], s, u);
      assert ctx.blockedTimes[k] in ctx.blockedTimes;
    }
    BookedIff(ctx, date, s, u);
  }

  lemma BookedIff(ctx: Context, date: Date, s: Staff, u: int)
    requires forall v :: Within(ctx.calendar, date, ctx.businessHours, v) <==> OpenAt(ctx, date, v)
    ensures (exists a :: a in ctx.appointments && a.staffId == s.id && BooksOver(ctx, date, a, u)) <==>
      BookedAt(ctx, date, s, u)
  {
    if a :| a in ctx.appointments && a.staffId == s.id && BooksOver(ctx, date, a, u) {
      var k :| 0 <= k < |ctx.appointments| && ctx.appointments[k] == a;
      assert HoldsAt(ctx, date, s, ctx.appointments[k], u);
    }
    if BookedAt(ctx, date, s, u) {
      var k :| 0 <= k < |ctx.appointments| && HoldsAt(ctx, date, s, ctx.appointments[k], u);
      assert ctx.appointments[k] in ctx.appointments;
      assert BooksOver(ctx, date, ctx.appointments[k], u);
    }
  }

  function MinutesWith(ctx: Context, s: Staff): (r: int) {
    if s.customDuration.Some? then s.customDuration.value else ctx.service.durationMin
  }

  /** The start is on the grid of an open stretch, whose first start is its opening, and the visit ends
      before the stretch does. */
  ghost predicate Placed(ctx: Context, params: Params, date: Date, minutes: int, t: int, from: int, to: int)
    requires params.granularityMin > 0
  {
    && OpenStretch(ctx, date, from, to)
    && from <= t && (t - from) % (params.granularityMin * 60_000) == 0
    && t + params.granularityMin * 60_000 <= to + 1
    && t + minutes * 60_000 <= to
  }

  /** The business is open, the staff member works, and nothing else claims them. */
  ghost predicate Ours(ctx: Context, date: Date, s: Staff, u: int) {
    && Within(ctx.calendar, date, ctx.businessHours, u)
    && Within(ctx.calendar, date, s.availabilities, u)
    && !Claimed(ctx, date, s, u)
  }

  /** From the buffer before the visit to the one after it. */
  ghost predicate AllOurs(ctx: Context, date: Date, s: Staff, t: int) {
    var before, after := ctx.service.bufferBeforeMin, ctx.service.bufferAfterMin;
    forall u :: t - before * 60_000 <= u < t + (MinutesWith(ctx, s) + after) * 60_000 ==> Ours(ctx, date, s, u)
  }

  /** The staff member can take a visit that starts at `t`. */
  ghost predicate MayTake(ctx: Context, params: Params, date: Date, s: Staff, t: int)
    requires params.granularityMin > 0
  {
    var minutes := MinutesWith(ctx, s);
    && ctx.nowMs + ctx.cancellationHours * 3_600_000 <= t
    && (exists from, to :: Placed(ctx, params, date, minutes, t, from, to))
    && AllOurs(ctx, date, s, t)
  }

  /** Exactly which starts an open day lists, and for whom. */
  lemma ListedMeans(ctx: Context, params: Params, date: Date, day: Day, t: int, id: string)
    requires params.granularityMin > 0 && IsDay(ctx, params, date, day) && day.status == Open
    ensures Listed(day, t, id) <==> exists s :: MayBeAsked(ctx, params, s, id) && MayTake(ctx, params, date, s, t)
  {
    ListedIffOfferable(ctx, params, date, day, t, id);
    forall s ensures MayTake(ctx, params, date, s, t) <==> Offerable(ctx, params, date, s, t) {
      MayTakeIff(ctx, params, date, s, t);
    }
    if s :| s in ctx.staff && IsCandidate(params, s) && s.id == id && Offerable(ctx, params, date, s, t) {
      assert MayBeAsked(ctx, params, s, id) && MayTake(ctx, params, date, s, t);
    }
    if s :| MayBeAsked(ctx, params, s, id) && MayTake(ctx, params, date, s, t) {
      assert s in ctx.staff && IsCandidate(params, s) && s.id == id && Offerable(ctx, params, date, s, t);
    }
  }

  lemma MayTakeIff(ctx: Context, params: Params, date: Date, s: Staff, t: int)
    requires params.granularityMin > 0
    ensures MayTake(ctx, params, date, s, t) <==> Offerable(ctx, params, date, s, t)
  {
    NeededIff(ctx, date, s, t);
    var minutes := MinutesWith(ctx, s);
    if from, to :| Placed(ctx, params, date, minutes, t, from, to) {
      PlacedIff(ctx, params, date, s, t, Interval(from, to));
      assert MayTake(ctx, params, date, s, t) ==> OfferableIn(ctx, params, date, s, Interval(from, to), t);
    }
    if w :| OfferableIn(ctx, params, date, s, w, t) {
      PlacedIff(ctx, params, date, s, t, w);
      assert Placed(ctx, params, date, minutes, t, w.start, w.end);
    }
  }

  lemma NeededIff(ctx: Context, date: Date, s: Staff, t: int)
    ensures NeededIsFree(ctx, date, s, t) <==> AllOurs(ctx, date, s, t)
  {
    forall u ensures FreeAt(ctx, date, s, u) <==> Ours(ctx, date, s, u) {
      WithinIsCovered(ctx.calendar, date, ctx.businessHours, u);
      WithinIsCovered(ctx.calendar, date, s.availabilities, u);
      ClaimedIff(ctx, date, s, u);
    }
  }

  lemma PlacedIff(ctx: Context, params: Params, date: Date, s: Staff, t: int, w: Interval)
    requires params.granularityMin > 0
    ensures Placed(ctx, params, date, MinutesWith(ctx, s), t, w.start, w.end) <==>
      && OpenRun(ctx, date, w) && OnGrid(w, params.granularityMin * MINUTE_MS, t)
      && t + EffectiveDuration(ctx, s) * MINUTE_MS <= w.end
  {
    forall u ensures Within(ctx.calendar, date, ctx.businessHours, u) <==> OpenAt(ctx, date, u) {
      WithinIsCovered(ctx.calendar, date, ctx.businessHours, u);
    }
    assert forall u :: In(u, w) <==> w.start <= u < w.end;
    assert OpenRun(ctx, date, w) <==> OpenStretch(ctx, date, w.start, w.end);
    if w.start <= t {
      MultipleIsMod(t - w.start, params.granularityMin * MINUTE_MS);
    }
  }

  /// ## Slots

  /** The ids at those positions of the list, in the order of the list. */
  ghost predicate Picked(staff: seq<Staff>, at: seq<nat>, ids: seq<string>) {
    && |at| == |ids|
    && (forall i :: 0 <= i < |at| ==> at[i] < |staff| && ids[i] == staff[at[i]].id)
    && (forall i, j :: 0 <= i < j < |at| ==> at[i] < at[j])
  }

  /** The positions are exactly those of the staff who can take the start. */
  ghost predicate AllWhoCan(ctx: Context, params: Params, date: Date, t: int, staff: seq<Staff>, at: seq<nat>)
    requires params.granularityMin > 0
  {
    forall n: nat | n < |staff| :: n in at <==> CanCome(ctx, params, date, staff[n], t)
  }

  ghost predicate CanCome(ctx: Context, params: Params, date: Date, s: Staff, t: int)
    requires params.granularityMin > 0
  {
    MayBeAsked(ctx, params, s, s.id) && MayTake(ctx, params, date, s, t)
  }

  /** The staff of a slot, one by one: those and only those who can take it, in the order they are loaded. */
  lemma SlotStaff(ctx: Context, params: Params, date: Date, day: Day, k: nat) returns (at: seq<nat>)
    requires params.granularityMin > 0 && IsDay(ctx, params, date, day) && k < |day.slots|
    ensures Picked(ctx.staff, at, day.slots[k].staffIds)
    ensures AllWhoCan(ctx, params, date, day.slots[k].start, ctx.staff, at)
  {
    at := OfferedPlaces(ctx, params, date, day.slots[k].start, ctx.staff);
  }

  ghost function Offered(ctx: Context, params: Params, date: Date, t: int, staff: seq<Staff>): (r: seq<string>)
    requires params.granularityMin > 0
  {
    OfferedStaff(ctx, params, date, Candidates(params, staff), t)
  }

  ghost predicate Places(ctx: Context, params: Params, date: Date, t: int, staff: seq<Staff>, at: seq<nat>)
    requires params.granularityMin > 0
  {
    Picked(staff, at, Offered(ctx, params, date, t, staff)) && AllWhoCan(ctx, params, date, t, staff, at)
  }

  lemma {:induction false} OfferedPlaces(ctx: Context, params: Params, date: Date, t: int, staff: seq<Staff>)
    returns (at: seq<nat>)
    requires params.granularityMin > 0 && forall s :: s in staff ==> s in ctx.staff
    ensures Places(ctx, params, date, t, staff, at)
  {
    if staff == [] {
      at := [];
    } else {
      var init, last := staff[..|staff| - 1], staff[|staff| - 1];
      assert staff == init + [last];
      var before := OfferedPlaces(ctx, params, date, t, init);
      at := OnePlaceMore(ctx, params, date, t, init, last, before);
    }
  }

  lemma OnePlaceMore(ctx: Context, params: Params, date: Date, t: int, init: seq<Staff>, last: Staff, before: seq<nat>)
    returns (at: seq<nat>)
    requires params.granularityMin > 0 && last in ctx.staff && Places(ctx, params, date, t, init, before)
    ensures Places(ctx, params, date, t, init + [last], at)
  {
    var comes := CanCome(ctx, params, date, last, t);
    OneMoreOffered(ctx, params, date, t, init, last);
    PickOneMore(init, last, before, Offered(ctx, params, date, t, init), comes);
    CountOneMore(ctx, params, date, t, init, last, before);
    at := if comes then before + [|init|] else before;
  }

  lemma OneMoreOffered(ctx: Context, params: Params, date: Date, t: int, init: seq<Staff>, last: Staff)
    requires params.granularityMin > 0 && last in ctx.staff
    ensures Offered(ctx, params, date, t, init + [last]) ==
      Offered(ctx, params, date, t, init) + if CanCome(ctx, params, date, last, t) then [last.id] else []
  {
    MayTakeIff(ctx, params, date, last, t);
    assert (init + [last])[..|init|] == init;
    var cands := Candidates(params, init);
    assert (cands + [last])[..|cands|] == cands;
    if !IsCandidate(params, last) {
      assert Candidates(params, init + [last]) == cands;
    }
  }

  lemma PickOneMore(init: seq<Staff>, last: Staff, at: seq<nat>, ids: seq<string>, comes: bool)
    requires Picked(init, at, ids)
    ensures Picked(init + [last], if comes then at + [|init|] else at, ids + if comes then [last.id] else [])
  {
    assert forall i :: 0 <= i < |at| ==> (init + [last])[at[i]] == init[at[i]];
    assert !comes ==> ids + [] == ids;
  }

  lemma CountOneMore(ctx: Context, params: Params, date: Date, t: int, init: seq<Staff>, last: Staff, at: seq<nat>)
    requires params.granularityMin > 0 && AllWhoCan(ctx, params, date, t, init, at)
    requires forall i :: 0 <= i < |at| ==> at[i] < |init|
    ensures var comes := CanCome(ctx, params, date, last, t);
      AllWhoCan(ctx, params, date, t, init + [last], if comes then at + [|init|] else at)
  {
    assert |init| !in at;
    var staff := init + [last];
    assert forall n: nat :: n < |init| ==> staff[n] == init[n];
  }

  /** Slots come in the order of their starts. */
  lemma SlotsAscend(ctx: Context, params: Params, date: Date, day: Day, j: nat, k: nat)
    requires params.granularityMin > 0 && IsDay(ctx, params, date, day) && j < k < |day.slots|
    ensures day.slots[j].start < day.slots[k].start
  {
  }

  /** The end that a slot shows, when ends are asked for, is that of the service's own minutes. */
  lemma SlotEndMeans(ctx: Context, params: Params, date: Date, day: Day, k: nat)
    requires params.granularityMin > 0 && IsDay(ctx, params, date, day) && k < |day.slots|
    ensures day.slots[k].end ==
      if params.showRange then Some(day.slots[k].start + ctx.service.durationMin * 60_000) else None
  {
  }

  /// ## Ranges of days

  /** The days of a range come in calendar order, each once. */
  lemma DaysInOrder(dates: seq<Date>, i: nat, j: nat)
    requires i < j < |DayKeys(dates)|
    ensures var a, b := DayKeys(dates)[i], DayKeys(dates)[j];
      a.year < b.year || (a.year == b.year && (a.month < b.month || (a.month == b.month && a.day < b.day)))
  {
    DayKeysAscend(dates);
    assert EarlierDate(DayKeys(dates)[i], DayKeys(dates)[j]);
  }

  ghost predicate AllComputed(ctx: Context, params: Params, days: map<Date, Day>, dates: seq<Date>)
    requires params.granularityMin > 0
  {
    forall d :: d in dates ==> d in days && IsDay(ctx, params, d, days[d])
  }

  /** The slots of a range are those of its days, one day after the other. */
  lemma {:induction false} SlotsOfRange(ctx: Context, params: Params, days: map<Date, Day>,
                                       first: Date, rest: seq<Date>)
    requires params.granularityMin > 0 && AllComputed(ctx, params, days, [first] + rest)
    ensures AllComputed(ctx, params, days, rest)
    ensures AllSlots(days, [first] + rest) == days[first].slots + AllSlots(days, rest)
    decreases |rest|
  {
    ComputedTail(ctx, params, days, first, rest);
    if rest == [] {
      SlotsOfLast(ctx, params, days, [], first);
      assert [first] + rest == [] + [first];
    } else {
      var init, last := rest[..|rest| - 1], rest[|rest| - 1];
      assert rest == init + [last] && [first] + rest == ([first] + init) + [last];
      SlotsOfLast(ctx, params, days, [first] + init, last);
      SlotsOfLast(ctx, params, days, init, last);
      SlotsOfRange(ctx, params, days, first, init);
      var a, b, c := days[first].slots, AllSlots(days, init), days[last].slots;
      assert (a + b) + c == a + (b + c);
    }
  }

  lemma ComputedTail(ctx: Context, params: Params, days: map<Date, Day>, first: Date, rest: seq<Date>)
    requires params.granularityMin > 0 && AllComputed(ctx, params, days, [first] + rest)
    ensures AllComputed(ctx, params, days, rest) && first in days
  {
    assert forall d :: d in rest ==> d in [first] + rest;
    assert first in [first] + rest;
  }

  lemma SlotsOfLast(ctx: Context, params: Params, days: map<Date, Day>, init: seq<Date>, last: Date)
    requires params.granularityMin > 0 && AllComputed(ctx, params, days, init + [last])
    ensures AllComputed(ctx, params, days, init) && last in days
    ensures AllSlots(days, init + [last]) == AllSlots(days, init) + days[last].slots
  {
    var dates := init + [last];
    assert dates[..|init|] == init && last in dates;
    assert forall d :: d in init ==> d in dates;
    assert IsDay(ctx, params, last, days[last]);
  }
}
