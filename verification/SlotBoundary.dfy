/**
 * The check a booking makes of its start time, independently of the listing:
 * the start must lie in one of the weekday's open windows, on the grid that
 * begins at that window's own start.
 */
module SlotBoundary {
  import opened Options
  import opened Intervals
  import opened Availability

  datatype BoundaryError = BusinessClosed | OutsideHours | OffGrid(before: int, after: int)

  predicate EarlierTime(a: TimeOfDay, b: TimeOfDay) {
    a.hour < b.hour || (a.hour == b.hour && a.minute < b.minute)
  }

  function InsertByTime(w: WeeklyWindow, s: seq<WeeklyWindow>): (r: seq<WeeklyWindow>)
    ensures forall v :: v in r <==> v == w || v in s
  {
    if s == [] || !EarlierTime(s[0].startTime, w.startTime) then [w] + s
    else [s[0]] + InsertByTime(w, s[1..])
  }

  /** The open rows of a weekday, ordered by start time. */
  function RowsOf(hours: seq<WeeklyWindow>, day: Weekday): (r: seq<WeeklyWindow>)
    ensures forall w :: w in r <==> w in hours && w.enabled && w.dayOfWeek == day
  {
    if hours == [] then []
    else
      var rest := RowsOf(hours[1..], day);
      if hours[0].enabled && hours[0].dayOfWeek == day then InsertByTime(hours[0], rest) else rest
  }

  function WindowAt(cal: Calendar, date: Date, w: WeeklyWindow, t: int): (r: Option<Interval>) {
    match WindowToUtc(cal, date, w.startTime, w.endTime)
    case Some(iv) => if iv.start <= t < iv.end then Some(iv) else None
    case None => None
  }

  /** The first listed window that contains `t`. */
  function Containing(cal: Calendar, date: Date, rows: seq<WeeklyWindow>, t: int): (r: Option<Interval>) {
    if rows == [] then None
    else
      var iv := WindowAt(cal, date, rows[0], t);
      if iv.Some? then iv else Containing(cal, date, rows[1..], t)
  }

  /** `None` accepts the start. A tenant without any hours is not checked. */
  function Verdict(cal: Calendar, hours: seq<WeeklyWindow>, t: int, slotIntervalMin: int): (r: Option<BoundaryError>)
    requires slotIntervalMin > 0
  {
    var slotMs := slotIntervalMin * MINUTE_MS;
    if hours == [] || cal.dateOf(t) == None then None
    else
      var date := cal.dateOf(t).value;
      var rows := RowsOf(hours, cal.weekday(date));
      if rows == [] then Some(BusinessClosed)
      else
        match Containing(cal, date, rows, t)
        case None => Some(OutsideHours)
        case Some(iv) =>
          if Multiple(t - iv.start, slotMs) then None
          else
            var before := iv.start + (t - iv.start) / slotMs * slotMs;
            Some(OffGrid(before, before + slotMs))
  }

  method AssertOnSlotBoundary(cal: Calendar, hours: seq<WeeklyWindow>, t: int, slotIntervalMin: int)
    returns (r: Option<BoundaryError>)
    requires slotIntervalMin > 0
    ensures r == Verdict(cal, hours, t, slotIntervalMin)
  {
    if |hours| == 0 {
      return None;
    }
    var local := cal.dateOf(t);
    if local == None {
      return None;
    }
    var date := local.value;
    var windows := RowsOf(hours, cal.weekday(date));
    if |windows| == 0 {
      return Some(BusinessClosed);
    }
    var slotMs := slotIntervalMin * MINUTE_MS;
    var containing: Option<Interval> := None;
    var n := 0;
    while n < |windows|
      invariant 0 <= n <= |windows|
      invariant containing == None
      invariant Containing(cal, date, windows, t) == Containing(cal, date, windows[n..], t)
    {
      var iv := WindowToUtc(cal, date, windows[n].startTime, windows[n].endTime);
      if iv.Some? && t >= iv.value.start && t < iv.value.end {
        containing := iv;
        break;
      }
      n := n + 1;
    }
    ContainingHolds(cal, date, windows, t);
    if containing == None {
      return Some(OutsideHours);
    }
    var delta := t - containing.value.start;
    MultipleIsMod(delta, slotMs);
    if delta % slotMs != 0 {
      var before := containing.value.start + delta / slotMs * slotMs;
      return Some(OffGrid(before, before + slotMs));
    }
    return None;
  }

  /** On non-negative numbers, being reached by steps of `m` is leaving no remainder. */
  lemma {:induction false} MultipleIsMod(x: int, m: int)
    requires m > 0 && x >= 0
    ensures Multiple(x, m) <==> x % m == 0
    decreases x
  {
    if x >= m {
      MultipleIsMod(x - m, m);
      DivisionIsUnique(x, (x - m) / m + 1, (x - m) % m, m);
    }
  }

  lemma DivisionIsUnique(x: int, q: int, r: int, m: int)
    requires m > 0 && x == q * m + r && 0 <= r < m
    ensures x % m == r && x / m == q
  {
    var d := q - x / m;
    assert d * m == x % m - r;
    assert d >= 1 ==> d * m >= m;
    assert d <= -1 ==> d * m <= -m;
  }

  lemma {:induction false} ContainingHolds(cal: Calendar, date: Date, rows: seq<WeeklyWindow>, t: int)
    ensures match Containing(cal, date, rows, t)
      case Some(iv) => In(t, iv) && exists w :: w in rows && WindowToUtc(cal, date, w.startTime, w.endTime) == Some(iv)
      case None => forall w :: w in rows ==> WindowAt(cal, date, w, t) == None
  {
    if rows != [] && WindowAt(cal, date, rows[0], t) == None {
      ContainingHolds(cal, date, rows[1..], t);
    }
  }

  /** The two starts named in a refusal enclose the asked one, one step apart, on the grid of its window. */
  lemma RefusalNamesNeighbours(cal: Calendar, hours: seq<WeeklyWindow>, t: int, slotIntervalMin: int)
    requires slotIntervalMin > 0
    requires Verdict(cal, hours, t, slotIntervalMin).Some? && Verdict(cal, hours, t, slotIntervalMin).value.OffGrid?
    ensures var slotMs := slotIntervalMin * MINUTE_MS;
      var error := Verdict(cal, hours, t, slotIntervalMin).value;
      var rows := RowsOf(hours, cal.weekday(cal.dateOf(t).value));
      var window := Containing(cal, cal.dateOf(t).value, rows, t);
      && window.Some?
      && error.before < t < error.after == error.before + slotMs
      && Multiple(error.before - window.value.start, slotMs)
      && Multiple(error.after - window.value.start, slotMs)
  {
    var date := cal.dateOf(t).value;
    var rows := RowsOf(hours, cal.weekday(date));
    ContainingHolds(cal, date, rows, t);
    Neighbours(t - Containing(cal, date, rows, t).value.start, slotIntervalMin * MINUTE_MS);
  }

  /** Exactly when a named start would itself be accepted: when the first row of the day that holds it
      has it on its grid. The later one may lie past closing, and then it is refused in turn. */
  lemma NeighbourAcceptedIff(cal: Calendar, hours: seq<WeeklyWindow>, t: int, slotIntervalMin: int, named: int)
    requires slotIntervalMin > 0
    requires Verdict(cal, hours, t, slotIntervalMin).Some? && Verdict(cal, hours, t, slotIntervalMin).value.OffGrid?
    requires var error := Verdict(cal, hours, t, slotIntervalMin).value; named == error.before || named == error.after
    requires cal.dateOf(named) == cal.dateOf(t)
    ensures var slotMs := slotIntervalMin * MINUTE_MS;
      var rows := RowsOf(hours, cal.weekday(cal.dateOf(t).value));
      var window := Containing(cal, cal.dateOf(t).value, rows, t).value;
      var holding := Containing(cal, cal.dateOf(t).value, rows, named);
      && (Verdict(cal, hours, named, slotIntervalMin) == None <==>
            holding.Some? && Multiple(named - holding.value.start, slotMs))
      && (holding == Some(window) ==> Verdict(cal, hours, named, slotIntervalMin) == None)
      && (holding == None ==> Verdict(cal, hours, named, slotIntervalMin) == Some(OutsideHours))
  {
    RefusalNamesNeighbours(cal, hours, t, slotIntervalMin);
  }

  lemma Neighbours(delta: int, m: int)
    requires m > 0 && delta >= 0 && !Multiple(delta, m)
    ensures delta / m * m < delta < delta / m * m + m
    ensures Multiple(delta / m * m, m) && Multiple(delta / m * m + m, m)
  {
    MultipleIsMod(delta, m);
    ProductIsMultiple(delta / m, m);
    assert delta == delta / m * m + delta % m;
  }

  lemma {:induction false} ProductIsMultiple(q: int, m: int)
    requires m > 0 && q >= 0
    ensures q * m >= 0 && Multiple(q * m, m)
    decreases q
  {
    if q > 0 {
      ProductIsMultiple(q - 1, m);
      assert q * m == (q - 1) * m + m;
    }
  }

  /// ## The verdict in the caller's terms

  /** Row `w` is enabled on the start's local weekday. */
  predicate OnThatDay(cal: Calendar, hours: seq<WeeklyWindow>, w: WeeklyWindow, t: int) {
    w in hours && w.enabled && cal.dateOf(t).Some? && w.dayOfWeek == cal.weekday(cal.dateOf(t).value)
  }

  /** It holds the start: it begins at or before it on that day, and ends after it. */
  predicate HoldsStart(cal: Calendar, hours: seq<WeeklyWindow>, w: WeeklyWindow, t: int) {
    && OnThatDay(cal, hours, w, t)
    && var date := cal.dateOf(t).value;
    && cal.toUtc(date, w.startTime).Some? && cal.toUtc(date, w.endTime).Some?
    && cal.toUtc(date, w.startTime).value <= t < cal.toUtc(date, w.endTime).value
  }

  predicate NoLater(a: TimeOfDay, b: TimeOfDay) {
    a.hour < b.hour || (a.hour == b.hour && a.minute <= b.minute)
  }

  /** Of the rows that hold the start it opens first by the clock, and the start is `late` after its opening. */
  ghost predicate OpensFirst(cal: Calendar, hours: seq<WeeklyWindow>, w: WeeklyWindow, t: int, late: int) {
    && HoldsStart(cal, hours, w, t)
    && (forall v :: HoldsStart(cal, hours, v, t) ==> NoLater(w.startTime, v.startTime))
    && late == t - cal.toUtc(cal.dateOf(t).value, w.startTime).value
  }

  /** Every answer of the check, exactly when it comes: nothing is refused of a tenant without hours, and
      otherwise the day must be open, a row must hold the start, and the start must lie on the grid of the
      one that opens first. */
  lemma VerdictIff(cal: Calendar, hours: seq<WeeklyWindow>, t: int, slotIntervalMin: int)
    requires slotIntervalMin > 0
    ensures var verdict := Verdict(cal, hours, t, slotIntervalMin);
      var checked := hours != [] && cal.dateOf(t).Some?;
      && (verdict == Some(BusinessClosed) <==> checked && !exists w :: OnThatDay(cal, hours, w, t))
      && (verdict == Some(OutsideHours) <==>
            checked && (exists w :: OnThatDay(cal, hours, w, t)) && !exists w :: HoldsStart(cal, hours, w, t))
      && (verdict.Some? && verdict.value.OffGrid? <==>
            exists w, late :: OpensFirst(cal, hours, w, t, late) && late % (slotIntervalMin * 60_000) != 0)
      && (verdict == None <==>
            (checked ==>
              exists w, late :: OpensFirst(cal, hours, w, t, late) && late % (slotIntervalMin * 60_000) == 0))
  {
    if hours != [] && cal.dateOf(t).Some? {
      var date := cal.dateOf(t).value;
      var rows := RowsOf(hours, cal.weekday(date));
      assert forall w :: w in rows <==> OnThatDay(cal, hours, w, t);
      assert rows != [] ==> OnThatDay(cal, hours, rows[0], t);
      ContainingHolds(cal, date, rows, t);
      if Containing(cal, date, rows, t).Some? {
        var first, late := AnchorOpensFirst(cal, hours, t, slotIntervalMin);
        assert OpensFirst(cal, hours, first, t, late);
      } else {
        forall w ensures !HoldsStart(cal, hours, w, t) {
          assert w in rows ==> WindowAt(cal, date, w, t) == None;
        }
      }
    }
  }

  lemma AnchorOpensFirst(cal: Calendar, hours: seq<WeeklyWindow>, t: int, slotIntervalMin: int)
    returns (w: WeeklyWindow, late: int)
    requires slotIntervalMin > 0 && hours != [] && cal.dateOf(t).Some?
    requires Containing(cal, cal.dateOf(t).value, RowsOf(hours, cal.weekday(cal.dateOf(t).value)), t).Some?
    ensures OpensFirst(cal, hours, w, t, late)
    ensures forall v, other :: OpensFirst(cal, hours, v, t, other) ==> other == late
    ensures Verdict(cal, hours, t, slotIntervalMin) == None <==> late % (slotIntervalMin * 60_000) == 0
  {
    var date := cal.dateOf(t).value;
    var iv := Containing(cal, date, RowsOf(hours, cal.weekday(date)), t).value;
    w := FirstOpens(cal, hours, t, iv);
    late := t - iv.start;
    AnchorDecides(cal, hours, t, slotIntervalMin, iv);
    forall v, other | OpensFirst(cal, hours, v, t, other) ensures other == late {
      OneOpening(cal, hours, w, v, t, late, other);
    }
  }

  lemma AnchorDecides(cal: Calendar, hours: seq<WeeklyWindow>, t: int, slotIntervalMin: int, iv: Interval)
    requires slotIntervalMin > 0 && hours != [] && cal.dateOf(t).Some?
    requires Containing(cal, cal.dateOf(t).value, RowsOf(hours, cal.weekday(cal.dateOf(t).value)), t) == Some(iv)
    ensures Verdict(cal, hours, t, slotIntervalMin) == None <==> (t - iv.start) % (slotIntervalMin * 60_000) == 0
  {
    ContainingHolds(cal, cal.dateOf(t).value, RowsOf(hours, cal.weekday(cal.dateOf(t).value)), t);
    MultipleIsMod(t - iv.start, slotIntervalMin * MINUTE_MS);
  }

  lemma HoldsIff(cal: Calendar, hours: seq<WeeklyWindow>, v: WeeklyWindow, t: int)
    requires cal.dateOf(t).Some?
    ensures var date := cal.dateOf(t).value;
      HoldsStart(cal, hours, v, t) <==>
        v in RowsOf(hours, cal.weekday(date)) && WindowAt(cal, date, v, t).Some?
  {
  }

  lemma FirstOpens(cal: Calendar, hours: seq<WeeklyWindow>, t: int, iv: Interval) returns (w: WeeklyWindow)
    requires hours != [] && cal.dateOf(t).Some?
    requires Containing(cal, cal.dateOf(t).value, RowsOf(hours, cal.weekday(cal.dateOf(t).value)), t) == Some(iv)
    ensures OpensFirst(cal, hours, w, t, t - iv.start)
  {
    var date := cal.dateOf(t).value;
    w := FirstOfRows(cal, date, RowsOf(hours, cal.weekday(date)), t, iv, hours);
    HoldsIff(cal, hours, w, t);
    forall v | HoldsStart(cal, hours, v, t) ensures NoLater(w.startTime, v.startTime) {
      HoldsIff(cal, hours, v, t);
    }
  }

  lemma FirstOfRows(cal: Calendar, date: Date, rows: seq<WeeklyWindow>, t: int, iv: Interval, hours: seq<WeeklyWindow>)
    returns (w: WeeklyWindow)
    requires rows == RowsOf(hours, cal.weekday(date)) && Containing(cal, date, rows, t) == Some(iv)
    ensures w in rows && WindowAt(cal, date, w, t) == Some(iv)
    ensures forall v :: v in rows && WindowAt(cal, date, v, t).Some? ==> NoLater(w.startTime, v.startTime)
  {
    var k := FirstHolding(cal, date, rows, t);
    RowsInOrder(hours, cal.weekday(date));
    w := rows[k];
    forall v | v in rows && WindowAt(cal, date, v, t).Some? ensures NoLater(w.startTime, v.startTime) {
      var j :| 0 <= j < |rows| && rows[j] == v;
      assert j >= k;
    }
  }

  lemma OneOpening(cal: Calendar, hours: seq<WeeklyWindow>, v: WeeklyWindow, w: WeeklyWindow, t: int, a: int, b: int)
    requires OpensFirst(cal, hours, v, t, a) && OpensFirst(cal, hours, w, t, b)
    ensures a == b
  {
    assert NoLater(w.startTime, v.startTime) && NoLater(v.startTime, w.startTime);
  }

  lemma {:induction false} FirstHolding(cal: Calendar, date: Date, rows: seq<WeeklyWindow>, t: int) returns (k: nat)
    requires Containing(cal, date, rows, t).Some?
    ensures k < |rows| && WindowAt(cal, date, rows[k], t) == Containing(cal, date, rows, t)
    ensures forall j :: 0 <= j < k ==> WindowAt(cal, date, rows[j], t) == None
  {
    if WindowAt(cal, date, rows[0], t).Some? {
      k := 0;
    } else {
      var n := FirstHolding(cal, date, rows[1..], t);
      k := n + 1;
      assert forall j :: 0 < j < k ==> rows[j] == rows[1..][j - 1];
    }
  }

  ghost predicate InOrder(rows: seq<WeeklyWindow>) {
    forall i, j :: 0 <= i < j < |rows| ==> NoLater(rows[i].startTime, rows[j].startTime)
  }

  lemma {:induction false} InsertInOrder(w: WeeklyWindow, s: seq<WeeklyWindow>)
    requires InOrder(s)
    ensures InOrder(InsertByTime(w, s))
  {
    if s != [] && EarlierTime(s[0].startTime, w.startTime) {
      InsertInOrder(w, s[1..]);
      var rest := InsertByTime(w, s[1..]);
      forall j | 0 <= j < |rest| ensures NoLater(s[0].startTime, rest[j].startTime) {
        assert rest[j] in rest;
      }
    }
  }

  lemma {:induction false} RowsInOrder(hours: seq<WeeklyWindow>, day: Weekday)
    ensures InOrder(RowsOf(hours, day))
  {
    if hours != [] {
      RowsInOrder(hours[1..], day);
      InsertInOrder(hours[0], RowsOf(hours[1..], day));
    }
  }
}
