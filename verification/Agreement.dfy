/**
 * Listing against booking. The engine and the booking endpoint decide
 * separately whether a start is good; this module says exactly when they agree.
 *
 * The two need not use the same step. The listing walks the step it is asked
 * for, or else the one its loader reports, which is always 15 minutes; the
 * booking checks the step stored with the service.
 */
module Agreement {
  import opened Options
  import opened Intervals
  import opened Availability
  import opened SlotBoundary
  import opened Appointments
  import opened RequestAnswers

  /// ## The grid

  /** The window a booking at `t` anchors its grid on. */
  function Anchor(ctx: Context, date: Date, t: int): (r: Option<Interval>) {
    Containing(ctx.calendar, date, RowsOf(ctx.businessHours, ctx.calendar.weekday(date)), t)
  }

  lemma {:induction false} MultipleDifference(a: int, b: int, m: int)
    requires m > 0 && 0 <= b <= a && Multiple(a, m) && Multiple(b, m)
    ensures Multiple(a - b, m)
    decreases b
  {
    if b > 0 {
      MultipleDifference(a - m, b - m, m);
    }
  }

  lemma AnchorInsideRun(ctx: Context, date: Date, w: Interval, t: int)
    requires OpenRun(ctx, date, w) && In(t, w)
    ensures Anchor(ctx, date, t).Some?
    ensures var iv := Anchor(ctx, date, t).value; w.start <= iv.start <= t < iv.end <= w.end
  {
    var rows := RowsOf(ctx.businessHours, ctx.calendar.weekday(date));
    ContainingHolds(ctx.calendar, date, rows, t);
    assert OpenAt(ctx, date, t);
    var k :| 0 <= k < |ctx.businessHours| && WindowCovers(ctx.calendar, date, ctx.businessHours[k], t);
    assert ctx.businessHours[k] in rows;
    assert WindowAt(ctx.calendar, date, ctx.businessHours[k], t).Some?;
    var iv := Anchor(ctx, date, t).value;
    forall u | In(u, iv) ensures OpenAt(ctx, date, u) {
      AnchorIsOpen(ctx, date, t, u);
    }
    assert !In(w.start - 1, iv) && !In(w.end, iv);
  }

  lemma AnchorIsOpen(ctx: Context, date: Date, t: int, u: int)
    requires Anchor(ctx, date, t).Some? && In(u, Anchor(ctx, date, t).value)
    ensures OpenAt(ctx, date, u)
  {
    var rows := RowsOf(ctx.businessHours, ctx.calendar.weekday(date));
    ContainingHolds(ctx.calendar, date, rows, t);
    var row :| row in rows && WindowToUtc(ctx.calendar, date, row.startTime, row.endTime) == Anchor(ctx, date, t);
    var k :| 0 <= k < |ctx.businessHours| && ctx.businessHours[k] == row;
    assert WindowCovers(ctx.calendar, date, ctx.businessHours[k], u);
  }

  /** The step of a listing: the one in the query, else the loader's, which never reads the service's own. */
  function ListingStep(granularity: Option<int>): (minutes: int) {
    match granularity
    case Some(minutes) => minutes
    case None => LOADED_SLOT_INTERVAL_MIN
  }

  const LOADED_SLOT_INTERVAL_MIN := 15

  /** `t` is a whole number of `stepMin` minutes into the row a booking at `t` is anchored on. */
  predicate OnBookingGrid(ctx: Context, date: Date, stepMin: int, t: int)
    requires stepMin > 0
  {
    Anchor(ctx, date, t).Some? && Multiple(t - Anchor(ctx, date, t).value.start, stepMin * MINUTE_MS)
  }

  /** A listed start passes the booking's hours and grid check, at the service's own step, exactly
      when it is a whole number of those steps into the row it falls in. */
  lemma ListedPassesBoundaryIff(ctx: Context, params: Params, date: Date, staff: Staff, w: Interval, t: int,
                                stepMin: int)
    requires params.granularityMin > 0 && stepMin > 0 && OfferableIn(ctx, params, date, staff, w, t)
    requires ctx.calendar.dateOf(t) == Some(date)
    ensures Verdict(ctx.calendar, ctx.businessHours, t, stepMin) == None <==> OnBookingGrid(ctx, date, stepMin, t)
    ensures Verdict(ctx.calendar, ctx.businessHours, t, stepMin) == None ||
      exists before, after :: Verdict(ctx.calendar, ctx.businessHours, t, stepMin) == Some(OffGrid(before, after))
  {
    AnchorInsideRun(ctx, date, w, t);
    AnchorDecides(ctx, date, t, stepMin);
  }

  lemma AnchorDecides(ctx: Context, date: Date, t: int, stepMin: int)
    requires stepMin > 0 && ctx.calendar.dateOf(t) == Some(date) && Anchor(ctx, date, t).Some?
    ensures Verdict(ctx.calendar, ctx.businessHours, t, stepMin) == None <==> OnBookingGrid(ctx, date, stepMin, t)
    ensures Verdict(ctx.calendar, ctx.businessHours, t, stepMin).Some? ==>
      Verdict(ctx.calendar, ctx.businessHours, t, stepMin).value.OffGrid?
  {
    var rows := RowsOf(ctx.businessHours, ctx.calendar.weekday(date));
    ContainingHolds(ctx.calendar, date, rows, t);
    assert rows != [] && rows[0] in ctx.businessHours;
  }

  /** The booking's anchor is a whole number of steps into `w`, the run the listing walked. */
  predicate Aligned(ctx: Context, date: Date, stepMs: int, w: Interval, t: int)
    requires stepMs > 0
  {
    Anchor(ctx, date, t).Some? && Multiple(Anchor(ctx, date, t).value.start - w.start, stepMs)
  }

  /** With one step on both sides the grids agree exactly when the rows begin on the run's grid. */
  lemma SameStepIff(ctx: Context, params: Params, date: Date, staff: Staff, w: Interval, t: int)
    requires params.granularityMin > 0 && OfferableIn(ctx, params, date, staff, w, t)
    ensures OnBookingGrid(ctx, date, params.granularityMin, t) <==>
      Aligned(ctx, date, params.granularityMin * MINUTE_MS, w, t)
  {
    AnchorInsideRun(ctx, date, w, t);
    SameGrid(w.start, Anchor(ctx, date, t).value.start, t, params.granularityMin * MINUTE_MS);
  }

  lemma SameGrid(a: int, b: int, t: int, m: int)
    requires m > 0 && a <= b <= t && Multiple(t - a, m)
    ensures Multiple(t - b, m) <==> Multiple(b - a, m)
  {
    if Multiple(b - a, m) {
      MultipleDifference(t - a, b - a, m);
    }
    if Multiple(t - b, m) {
      MultipleDifference(t - a, t - b, m);
    }
  }

  /** No two open rows of the day overlap or touch. */
  ghost predicate WindowsApart(ctx: Context, date: Date) {
    var cal, day := ctx.calendar, ctx.calendar.weekday(date);
    forall v, w :: v in RowsOf(ctx.businessHours, day) && w in RowsOf(ctx.businessHours, day) ==>
      Apart(WindowToUtc(cal, date, v.startTime, v.endTime), WindowToUtc(cal, date, w.startTime, w.endTime))
  }

  predicate Apart(a: Option<Interval>, b: Option<Interval>) {
    a == b || (a.Some? && b.Some? ==> a.value.end < b.value.start || b.value.end < a.value.start)
  }

  /** When the day's windows keep apart, every start is anchored where the listing anchored it. */
  lemma WindowsApartAligned(ctx: Context, date: Date, stepMs: int, w: Interval, t: int)
    requires stepMs > 0 && WindowsApart(ctx, date) && OpenRun(ctx, date, w) && In(t, w)
    ensures Aligned(ctx, date, stepMs, w, t) && Anchor(ctx, date, t).value.start == w.start
  {
    AnchorInsideRun(ctx, date, w, t);
    var cal, rows := ctx.calendar, RowsOf(ctx.businessHours, ctx.calendar.weekday(date));
    ContainingHolds(cal, date, rows, t);
    var iv := Anchor(ctx, date, t).value;
    var row :| row in rows && WindowToUtc(cal, date, row.startTime, row.endTime) == Some(iv);
    forall k | 0 <= k < |ctx.businessHours|
      ensures !WindowCovers(cal, date, ctx.businessHours[k], iv.start - 1)
    {
      var other := ctx.businessHours[k];
      assert other in rows ==> Apart(WindowToUtc(cal, date, other.startTime, other.endTime), Some(iv));
    }
    assert !OpenAt(ctx, date, iv.start - 1);
    assert !In(iv.start - 1, w);
  }

  /// ## Two steps

  /** Sums of multiples are multiples. */
  lemma {:induction false} MultipleSum(a: int, b: int, m: int)
    requires m > 0 && Multiple(a, m) && Multiple(b, m)
    ensures Multiple(a + b, m)
    decreases a
  {
    if a != 0 {
      MultipleSum(a - m, b, m);
    }
  }

  /** Multiples of a multiple of `m` are multiples of `m`. */
  lemma {:induction false} MultipleOfMultiple(x: int, g: int, m: int)
    requires g > 0 && m > 0 && Multiple(x, g) && Multiple(g, m)
    ensures Multiple(x, m)
    decreases x
  {
    if x != 0 {
      MultipleOfMultiple(x - g, g, m);
      MultipleSum(g, x - g, m);
    }
  }

  /** Scaling both sides changes nothing. */
  lemma {:induction false} MultipleScaled(x: int, m: int, k: int)
    requires m > 0 && k > 0 && x >= 0
    ensures m * k > 0 && (Multiple(x * k, m * k) <==> Multiple(x, m))
    decreases x
  {
    ProductIsPositive(m, k);
    if x >= m {
      MultipleScaled(x - m, m, k);
      Scaled(x, m, k);
    } else if x > 0 {
      Scaled(m, x, k);
      ProductIsPositive(x, k);
      ProductIsPositive(m - x, k);
    }
  }

  lemma ProductIsPositive(a: int, b: int)
    requires a > 0 && b > 0
    ensures a * b > 0
  {
  }

  lemma Scaled(x: int, m: int, k: int)
    requires k > 0
    ensures (x - m) * k == x * k - m * k
    ensures x >= m ==> x * k >= m * k
  {
  }

  /** The run has a second grid point. */
  predicate SecondGridPoint(w: Interval, stepMin: int) {
    w.start + 2 * stepMin * MINUTE_MS <= w.end + 1
  }

  /** With windows apart, the booking accepts the whole grid that a listing walks if and only if the
      booking's step divides the listing's, or there is nothing on the grid but its first point. */
  lemma WholeGridPassesIff(ctx: Context, date: Date, w: Interval, listing: int, booking: int)
    requires listing > 0 && booking > 0 && WindowsApart(ctx, date) && OpenRun(ctx, date, w)
    requires forall t :: In(t, w) ==> ctx.calendar.dateOf(t) == Some(date)
    ensures (forall t :: OnGrid(w, listing * MINUTE_MS, t) ==>
               Verdict(ctx.calendar, ctx.businessHours, t, booking) == None)
      <==> Multiple(listing, booking) || !SecondGridPoint(w, listing)
  {
    var g, m := listing * MINUTE_MS, booking * MINUTE_MS;
    MultipleScaled(listing, booking, MINUTE_MS);
    forall t | OnGrid(w, g, t)
      ensures Verdict(ctx.calendar, ctx.businessHours, t, booking) == None <==> Multiple(t - w.start, m)
    {
      WindowsApartAligned(ctx, date, g, w, t);
      AnchorDecides(ctx, date, t, booking);
    }
    if Multiple(listing, booking) {
      forall t | OnGrid(w, g, t) ensures Multiple(t - w.start, m) { MultipleOfMultiple(t - w.start, g, m); }
    } else if SecondGridPoint(w, listing) {
      assert Multiple(0, g);
      assert Multiple(g, g);
      assert OnGrid(w, g, w.start + g);
    } else {
      forall t | OnGrid(w, g, t) ensures Multiple(t - w.start, m) {
        assert t - w.start < g;
      }
    }
  }

  /** The default listing agrees with the booking on a run of half an hour or more only for services
      whose own step is 1, 3, 5 or 15 minutes. */
  lemma DefaultGridPassesIff(ctx: Context, date: Date, w: Interval, booking: int)
    requires booking > 0 && WindowsApart(ctx, date) && OpenRun(ctx, date, w)
    requires w.start + 30 * MINUTE_MS <= w.end
    requires forall t :: In(t, w) ==> ctx.calendar.dateOf(t) == Some(date)
    ensures (forall t :: OnGrid(w, ListingStep(None) * MINUTE_MS, t) ==>
               Verdict(ctx.calendar, ctx.businessHours, t, booking) == None)
      <==> booking in {1, 3, 5, 15}
  {
    WholeGridPassesIff(ctx, date, w, LOADED_SLOT_INTERVAL_MIN, booking);
    DivisorsOfFifteen(booking);
  }

  lemma DivisorsOfFifteen(m: int)
    requires m > 0
    ensures Multiple(15, m) <==> m in {1, 3, 5, 15}
  {
    MultipleIsMod(15, m);
    if m > 15 { assert 15 % m == 15; }
  }

  /// ## The whole booking

  /** The context holds a row for every appointment the loader selects: the caller's partition,
      active statuses, overlapping the loaded range. */
  ghost predicate Snapshot(ctx: Context, store: Store, caller: Caller, staffId: string, from: int, to: int) {
    forall k :: 0 <= k < |store.rows| && LoaderSelects(store.rows[k], caller, staffId, from, to) ==>
      exists b :: 0 <= b < |ctx.appointments| && Shows(ctx.appointments[b], store.rows[k])
  }

  predicate LoaderSelects(a: Appointment, caller: Caller, staffId: string, from: int, to: int) {
    Visible(caller, a) && a.staffId == staffId && IsActiveStatus(a.status) && a.end > from && a.start < to
  }

  predicate Shows(b: Booking, a: Appointment) {
    b.staffId == a.staffId && b.start == a.start && b.end == a.end && b.bufferBeforeMin >= 0 && b.bufferAfterMin >= 0
  }

  /** A live row that the loader does not show the engine but the exclusion constraint counts. */
  predicate Hidden(store: Store, caller: Caller, staffId: string, from: int, to: int, a: Appointment) {
    exists k :: 0 <= k < |store.rows| && Conflict(store.rows[k], a) &&
      !LoaderSelects(store.rows[k], caller, staffId, from, to)
  }

  /** Those are the completed ones, the tenant's other mode partition, and what lies outside the range. */
  lemma HiddenIff(store: Store, caller: Caller, staffId: string, from: int, to: int, a: Appointment)
    requires a.businessId == caller.businessId && a.staffId == staffId
    ensures Hidden(store, caller, staffId, from, to, a) <==>
      exists k :: 0 <= k < |store.rows| && Conflict(store.rows[k], a) &&
        (store.rows[k].status == Completed || store.rows[k].isTest != caller.isTest
         || store.rows[k].end <= from || to <= store.rows[k].start)
  {
    forall k | 0 <= k < |store.rows| && Conflict(store.rows[k], a)
      ensures !LoaderSelects(store.rows[k], caller, staffId, from, to) <==>
        store.rows[k].status == Completed || store.rows[k].isTest != caller.isTest
        || store.rows[k].end <= from || to <= store.rows[k].start
    {
    }
  }

  /** For a visit inside the loaded range nothing outside it matters. */
  lemma HiddenInRangeIff(store: Store, caller: Caller, staffId: string, from: int, to: int, a: Appointment)
    requires a.businessId == caller.businessId && a.staffId == staffId && from <= a.start && a.end <= to
    ensures Hidden(store, caller, staffId, from, to, a) <==> HiddenConflict(store, caller, a)
  {
    HiddenIff(store, caller, staffId, from, to, a);
    forall k | 0 <= k < |store.rows| && Conflict(store.rows[k], a)
      ensures store.rows[k].end > from && store.rows[k].start < to
    {
    }
  }

  /** A conflicting row that is completed or of the tenant's other mode partition. */
  predicate HiddenConflict(store: Store, caller: Caller, a: Appointment) {
    exists k :: 0 <= k < |store.rows| && Conflict(store.rows[k], a) &&
      (store.rows[k].status == Completed || store.rows[k].isTest != caller.isTest)
  }

  /** The constraint objects to an offered slot exactly when a row hidden from the loader conflicts. */
  lemma OfferedIsExcludedIff(ctx: Context, params: Params, date: Date, staff: Staff, t: int,
                             store: Store, caller: Caller, from: int, to: int, row: Appointment)
    requires params.granularityMin > 0 && Offerable(ctx, params, date, staff, t)
    requires ctx.service.bufferBeforeMin >= 0 && ctx.service.bufferAfterMin >= 0
    requires row.businessId == caller.businessId && row.staffId == staff.id
    requires row.start == t && row.end == t + EffectiveDuration(ctx, staff) * MINUTE_MS
    requires Snapshot(ctx, store, caller, staff.id, from, to)
    ensures Excluded(store.rows, row) <==> Hidden(store, caller, staff.id, from, to, row)
  {
    forall k | 0 <= k < |store.rows| && Conflict(store.rows[k], row)
      ensures !LoaderSelects(store.rows[k], caller, staff.id, from, to)
    {
      var a := store.rows[k];
      if LoaderSelects(a, caller, staff.id, from, to) {
        var b :| 0 <= b < |ctx.appointments| && Shows(ctx.appointments[b], a);
        var u := if a.start < t then t else a.start;
        var w :| OfferableIn(ctx, params, date, staff, w, t);
        assert FreeAt(ctx, date, staff, u);
        assert MeetsDay(ctx, date, a.start, a.end);
        assert HoldsAt(ctx, date, staff, ctx.appointments[b], u);
        assert false;
      }
    }
  }

  /** The staff member and the service are still there to be booked together. The listing does not ask
      whether the service is switched off; the booking's catalog leaves such a service out. */
  predicate StillOffered(store: Store, env: Env, staffId: string, serviceId: string) {
    && StaffAvailable(store, env, staffId)
    && serviceId in env.catalog.services && (staffId, serviceId) in env.catalog.offers
  }

  /** The listing and the booking have read the same facts: calendar, hours, and, if the service is
      offered at all, its minutes and the staff member's own minutes for it. */
  ghost predicate SameFacts(ctx: Context, date: Date, staff: Staff, t: int, env: Env, serviceId: string) {
    && env.calendar == ctx.calendar && env.hours == ctx.businessHours && ctx.calendar.dateOf(t) == Some(date)
    && (serviceId in env.catalog.services && (staff.id, serviceId) in env.catalog.offers ==>
          && env.catalog.services[serviceId].durationMin == ctx.service.durationMin
          && env.catalog.offers[(staff.id, serviceId)] == staff.customDuration)
  }

  /** Then a visit lasts as long for the one as for the other. */
  lemma SameLength(ctx: Context, date: Date, staff: Staff, t: int, env: Env, serviceId: string)
    requires SameFacts(ctx, date, staff, t, env, serviceId)
    requires serviceId in env.catalog.services && (staff.id, serviceId) in env.catalog.offers
    ensures Takes(env.catalog, staff.id, serviceId, EffectiveDuration(ctx, staff))
    ensures Duration(env.catalog, staff.id, serviceId) == EffectiveDuration(ctx, staff)
  {
  }

  /** The booking's whole answer to a listed start: it is accepted unless the staff member or service is
      gone, the start has passed, it is off the grid of the service's own step in the row it falls in,
      or the exclusion constraint counts a row the engine was not shown. Each exactly then. */
  lemma ListedIsBookableIff(ctx: Context, params: Params, date: Date, staff: Staff, w: Interval, t: int,
                            store: Store, env: Env, from: int, to: int,
                            customerId: string, serviceId: string, autoConfirm: bool)
    requires WellFormed(ctx, params) && WellFormedCatalog(env.catalog)
    requires OfferableIn(ctx, params, date, staff, w, t) && SameFacts(ctx, date, staff, t, env, serviceId)
    requires Snapshot(ctx, store, env.caller, staff.id, from, to)
    ensures var answer := Apply(store, env, Create(customerId, staff.id, serviceId, t, autoConfirm)).1;
      && (answer == Err(StaffNotFound) <==> !StaffAvailable(store, env, staff.id))
      && (answer == Err(ServiceNotFound) <==>
            StaffAvailable(store, env, staff.id) && serviceId !in env.catalog.services)
      && (answer == Err(ServiceNotOffered) <==>
            StaffAvailable(store, env, staff.id) && serviceId in env.catalog.services
            && (staff.id, serviceId) !in env.catalog.offers)
      && (StillOffered(store, env, staff.id, serviceId) ==>
            var step := env.catalog.services[serviceId].slotIntervalMin;
            var row := NewRow(env, customerId, staff.id, serviceId, t, autoConfirm);
            var past, onGrid := t <= env.now - CLOCK_SKEW_TOLERANCE_MS, OnBookingGrid(ctx, date, step, t);
            var hidden := Hidden(store, env.caller, staff.id, from, to, row);
            && (answer == Err(InPast) <==> past)
            && ((exists why :: answer == Err(OffHours(why))) <==> !past && !onGrid)
            && (answer == Err(SlotTaken) <==> !past && onGrid && hidden)
            && (answer == Ok(|store.rows|) <==> !past && onGrid && !hidden))
  {
    if StillOffered(store, env, staff.id, serviceId) {
      var step := env.catalog.services[serviceId].slotIntervalMin;
      ListedPassesBoundaryIff(ctx, params, date, staff, w, t, step);
      var row := NewRow(env, customerId, staff.id, serviceId, t, autoConfirm);
      SameLength(ctx, date, staff, t, env, serviceId);
      OfferedIsExcludedIff(ctx, params, date, staff, t, store, env.caller, from, to, row);
      var answer := Apply(store, env, Create(customerId, staff.id, serviceId, t, autoConfirm)).1;
      if t > env.now - CLOCK_SKEW_TOLERANCE_MS && !OnBookingGrid(ctx, date, step, t) {
        assert answer == Err(OffHours(Verdict(ctx.calendar, ctx.businessHours, t, step).value));
      }
    }
  }

  /** The promise in its usual setting: a service still offered, windows that keep apart, a booking step
      that divides the listing's, a non-negative notice period, one clock, a start inside the loaded
      range, and no completed or other-mode row in the way. */
  lemma ListedIsBookable(ctx: Context, params: Params, date: Date, staff: Staff, t: int,
                         store: Store, env: Env, from: int, to: int,
                         customerId: string, serviceId: string, autoConfirm: bool)
    requires WellFormed(ctx, params) && WellFormedCatalog(env.catalog)
    requires Offerable(ctx, params, date, staff, t) && SameFacts(ctx, date, staff, t, env, serviceId)
    requires WindowsApart(ctx, date) && ctx.cancellationHours >= 0 && env.now == ctx.nowMs
    requires StillOffered(store, env, staff.id, serviceId)
    requires Multiple(params.granularityMin, env.catalog.services[serviceId].slotIntervalMin)
    requires Snapshot(ctx, store, env.caller, staff.id, from, to)
    requires from <= t && t + EffectiveDuration(ctx, staff) * MINUTE_MS <= to
    requires !HiddenConflict(store, env.caller, NewRow(env, customerId, staff.id, serviceId, t, autoConfirm))
    ensures Apply(store, env, Create(customerId, staff.id, serviceId, t, autoConfirm)).1 == Ok(|store.rows|)
  {
    var w :| OfferableIn(ctx, params, date, staff, w, t);
    var g, m := params.granularityMin, env.catalog.services[serviceId].slotIntervalMin;
    WindowsApartAligned(ctx, date, g * MINUTE_MS, w, t);
    MultipleScaled(g, m, MINUTE_MS);
    MultipleOfMultiple(t - w.start, g * MINUTE_MS, m * MINUTE_MS);
    HiddenInRangeIff(store, env.caller, staff.id, from, to,
      NewRow(env, customerId, staff.id, serviceId, t, autoConfirm));
    ListedIsBookableIff(ctx, params, date, staff, w, t, store, env, from, to, customerId, serviceId, autoConfirm);
  }

  /// ## Bookable, and not listed

  /** The resolved rows of a day. */
  ghost function Resolved(cal: Calendar, date: Date, windows: seq<WeeklyWindow>): (r: seq<Interval>) {
    if windows == [] then []
    else
      var last := windows[|windows| - 1];
      var iv := WindowToUtc(cal, date, last.startTime, last.endTime);
      Resolved(cal, date, windows[..|windows| - 1]) +
      if last.enabled && last.dayOfWeek == cal.weekday(date) && iv.Some? then [iv.value] else []
  }

  lemma {:induction false} ResolvedCovers(cal: Calendar, date: Date, windows: seq<WeeklyWindow>, u: int)
    ensures Covered(u, Resolved(cal, date, windows)) <==> AnyCovers(cal, date, windows, u)
  {
    if windows != [] {
      var init, last := windows[..|windows| - 1], windows[|windows| - 1];
      var iv := WindowToUtc(cal, date, last.startTime, last.endTime);
      ResolvedCovers(cal, date, init, u);
      assert AnyCovers(cal, date, windows, u) <==>
        AnyCovers(cal, date, init, u) || WindowCovers(cal, date, last, u);
      var add := if last.enabled && last.dayOfWeek == cal.weekday(date) && iv.Some? then [iv.value] else [];
      Concat(Resolved(cal, date, init), add, u);
      if add != [] {
        Single(iv.value);
      }
    }
  }

  /** Every open instant lies in an open run. */
  lemma RunAround(ctx: Context, date: Date, t: int) returns (w: Interval)
    requires OpenAt(ctx, date, t)
    ensures OpenRun(ctx, date, w) && In(t, w)
  {
    var resolved := Resolved(ctx.calendar, date, ctx.businessHours);
    var merged := Swept(SortByStart(FilterNonEmpty(resolved)));
    SweepIsMerge(resolved);
    forall u ensures Covered(u, merged) <==> OpenAt(ctx, date, u) {
      ResolvedCovers(ctx.calendar, date, ctx.businessHours, u);
    }
    CoveredIndex(t, merged);
    var k :| 0 <= k < |merged| && In(t, merged[k]);
    w := merged[k];
    RunIsMember(ctx, date, merged, w);
  }

  /** The listing would call the day past or a holiday, or there are no hours to list by. */
  predicate DayUnlisted(ctx: Context, date: Date) {
    ctx.businessHours == [] || IsPast(ctx, date) || IsHoliday(ctx, date)
  }

  /** The start is off the listing's grid in the run it lies in, or runs past the end of the run. */
  ghost predicate UngainlyIn(ctx: Context, params: Params, date: Date, staff: Staff, t: int)
    requires params.granularityMin > 0
  {
    exists w :: OpenRun(ctx, date, w) && In(t, w) &&
      (!OnGrid(w, params.granularityMin * MINUTE_MS, t) || t + EffectiveDuration(ctx, staff) * MINUTE_MS > w.end)
  }

  /** Some instant that the visit and its buffers need is closed, not worked, blocked, or booked with
      buffers. */
  ghost predicate Wanting(ctx: Context, date: Date, staff: Staff, t: int) {
    exists u :: WantingAt(ctx, date, staff, u) &&
      t - ctx.service.bufferBeforeMin * MINUTE_MS <= u
        < t + EffectiveDuration(ctx, staff) * MINUTE_MS + ctx.service.bufferAfterMin * MINUTE_MS
  }

  ghost predicate WantingAt(ctx: Context, date: Date, staff: Staff, u: int) {
    !OpenAt(ctx, date, u) || !WorksAt(ctx, date, staff, u) || BlockedAt(ctx, staff, u) || BookedAt(ctx, date, staff, u)
  }

  /** What the booking accepts and the listing does not show, and exactly why: the booking asks neither
      for holidays, blocks, working hours and buffers, nor for the listing's grid, closing time and
      notice, nor whether the staff member was asked for. */
  lemma BookableUnlistedIff(ctx: Context, params: Params, date: Date, staff: Staff, t: int, day: Day,
                            store: Store, env: Env, customerId: string, serviceId: string, autoConfirm: bool)
    requires WellFormed(ctx, params) && WellFormedCatalog(env.catalog) && IsDay(ctx, params, date, day)
    requires staff in ctx.staff && forall s :: s in ctx.staff && s.id == staff.id ==> s == staff
    requires SameFacts(ctx, date, staff, t, env, serviceId)
    requires Apply(store, env, Create(customerId, staff.id, serviceId, t, autoConfirm)).1.Ok?
    ensures !Listed(day, t, staff.id) <==>
      || DayUnlisted(ctx, date)
      || !IsCandidate(params, staff)
      || UngainlyIn(ctx, params, date, staff, t)
      || t < EarliestAllowed(ctx)
      || Wanting(ctx, date, staff, t)
  {
    if DayUnlisted(ctx, date) {
      assert ctx.businessHours == [] ==> forall u :: !OpenAt(ctx, date, u);
    } else {
      AcceptedIsOpen(ctx, date, t, env.catalog.services[serviceId].slotIntervalMin);
      assert day.status == Open;
      var w := RunAround(ctx, date, t);
      ListedIffOfferable(ctx, params, date, day, t, staff.id);
      OfferableAround(ctx, params, date, staff, t, w);
    }
  }

  lemma AcceptedIsOpen(ctx: Context, date: Date, t: int, stepMin: int)
    requires stepMin > 0 && ctx.businessHours != [] && ctx.calendar.dateOf(t) == Some(date)
    requires Verdict(ctx.calendar, ctx.businessHours, t, stepMin) == None
    ensures OpenAt(ctx, date, t)
  {
    ContainingHolds(ctx.calendar, date, RowsOf(ctx.businessHours, ctx.calendar.weekday(date)), t);
    AnchorIsOpen(ctx, date, t, t);
  }

  lemma OfferableAround(ctx: Context, params: Params, date: Date, staff: Staff, t: int, w: Interval)
    requires WellFormed(ctx, params) && staff in ctx.staff && OpenRun(ctx, date, w) && In(t, w)
    ensures Offerable(ctx, params, date, staff, t) <==>
      !UngainlyIn(ctx, params, date, staff, t) && EarliestAllowed(ctx) <= t && !Wanting(ctx, date, staff, t)
  {
    forall v | OpenRun(ctx, date, v) && In(t, v) ensures v == w { OneRun(ctx, date, v, w, t); }
    assert forall u :: WantingAt(ctx, date, staff, u) <==> !FreeAt(ctx, date, staff, u);
    assert NeededIsFree(ctx, date, staff, t) <==> !Wanting(ctx, date, staff, t);
    if v :| OfferableIn(ctx, params, date, staff, v, t) {
      assert In(t, v);
    }
    if !UngainlyIn(ctx, params, date, staff, t) && EarliestAllowed(ctx) <= t && !Wanting(ctx, date, staff, t) {
      assert OfferableIn(ctx, params, date, staff, w, t);
    }
  }
}
