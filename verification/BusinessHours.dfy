/**
 The SLA clock (`backend/src/sla/business-hours.util.ts`).

 An instant is an integer number of milliseconds. A time zone is an arbitrary total
 function from instants to local time, so everything proved in this module holds through
 daylight-saving jumps. Elapsed working time is counted in milliseconds; the source
 reports the same quantity divided by 60 000.
 */
module BusinessHours {
  import opened Options
  import opened Numbers

  const MINUTE_MS := 60_000
  const DAY_MINUTES := 1440
  const MAX_DAYS: nat := 400

  // ---- data ---------------------------------------------------------------------

  /** A wall-clock reading "HH:MM". */
  datatype Clock = Clock(hour: int, minute: int) {
    function ToMins(): int { hour * 60 + minute }
  }

  datatype Window = Window(start: Clock, end: Clock) {
    /** Opens before it closes. */
    predicate Proper() { start.ToMins() < end.ToMins() }
  }

  type MinuteOfDay = n: int | 0 <= n < DAY_MINUTES

  datatype LocalTime = LocalTime(isoDate: string, weekday: string, minutesIntoDay: MinuteOfDay)

  type Zone = int -> LocalTime

  datatype Calendar = Calendar(zone: Zone, weekly: map<string, seq<Window>>, holidays: seq<string>) {
    /** Minutes into the local day of an instant. */
    function Pos(t: int): MinuteOfDay { zone(t).minutesIntoDay }

    /** The working windows of the local day that holds `t`. */
    function WindowsAt(t: int): seq<Window> {
      var p := zone(t);
      if p.isoDate in holidays || p.weekday !in weekly then [] else weekly[p.weekday]
    }

    ghost predicate Proper() {
      forall d :: d in weekly ==> AllProper(weekly[d])
    }

    /** Start of the next local day, floored to a whole minute. */
    function NextDay(t: int): int {
      (t + (DAY_MINUTES - Pos(t)) * MINUTE_MS) / MINUTE_MS * MINUTE_MS
    }
  }

  predicate AllProper(windows: seq<Window>) {
    forall i :: 0 <= i < |windows| ==> windows[i].Proper()
  }

  // ---- adding working minutes -----------------------------------------------------

  /** Where the consuming walk stands: finished at an instant, or still owing minutes. */
  datatype Owing = Reached(at: int) | Owing(cursor: int, remaining: int)

  /** The windows of one day, consumed from `cursor`. */
  function AddWindows(cal: Calendar, windows: seq<Window>, cursor: int, remaining: int): Owing {
    if windows == [] then Owing(cursor, remaining) else
    var pos := cal.Pos(cursor);
    var endM := windows[0].end.ToMins();
    var effectiveStart := Max(windows[0].start.ToMins(), pos);
    var available := endM - effectiveStart;
    if endM <= pos || available <= 0 then AddWindows(cal, windows[1..], cursor, remaining) else
    var opens := cursor + (effectiveStart - pos) * MINUTE_MS;
    if remaining <= available then Reached(opens + remaining * MINUTE_MS) else
    AddWindows(cal, windows[1..], opens + available * MINUTE_MS, remaining - available)
  }

  /** At most `days` days of it; `None` when they do not hold enough working time. */
  function AddDays(cal: Calendar, days: nat, cursor: int, remaining: int): Option<int> {
    if days == 0 then None else
    match AddWindows(cal, cal.WindowsAt(cursor), cursor, remaining)
    case Reached(at) => Some(at)
    case Owing(c, r) => AddDays(cal, days - 1, cal.NextDay(c), r)
  }

  /** What `addBusinessMinutes` answers. */
  function DueAt(from: int, minutes: int, calendar: Option<Calendar>): int {
    if calendar.None? || minutes <= 0 then from + minutes * MINUTE_MS else
    match AddDays(calendar.value, MAX_DAYS, from, minutes)
    case Some(at) => at
    case None => from + minutes * MINUTE_MS
  }

  method AddBusinessMinutes(from: int, minutes: int, calendar: Option<Calendar>) returns (at: int)
    ensures at == DueAt(from, minutes, calendar)
  {
    if calendar.None? || minutes <= 0 {
      return from + minutes * MINUTE_MS;
    }
    var cal := calendar.value;
    var remaining := minutes;
    var cursor := from;
    var guard: nat := MAX_DAYS;
    ghost var answer := AddDays(cal, guard, cursor, remaining);
    while guard > 0
      invariant AddDays(cal, guard, cursor, remaining) == answer
    {
      var windows := cal.WindowsAt(cursor);
      ghost var day := AddWindows(cal, windows, cursor, remaining);
      var i := 0;
      while i < |windows|
        invariant 0 <= i <= |windows|
        invariant AddWindows(cal, windows[i..], cursor, remaining) == day
      {
        assert windows[i..][1..] == windows[i + 1..];
        var pos := cal.Pos(cursor);
        var startM, endM := windows[i].start.ToMins(), windows[i].end.ToMins();
        i := i + 1;
        if endM <= pos { continue; }
        var effectiveStart := Max(startM, pos);
        var available := endM - effectiveStart;
        if available <= 0 { continue; }
        if effectiveStart > pos {
          cursor := cursor + (effectiveStart - pos) * MINUTE_MS;
        }
        if remaining <= available {
          return cursor + remaining * MINUTE_MS;
        }
        remaining := remaining - available;
        cursor := cursor + available * MINUTE_MS;
      }
      var endOfDayPos := cal.Pos(cursor);
      cursor := cursor + (DAY_MINUTES - endOfDayPos) * MINUTE_MS;
      cursor := cursor / MINUTE_MS * MINUTE_MS;
      guard := guard - 1;
    }
    return from + minutes * MINUTE_MS;
  }

  // ---- counting working time ------------------------------------------------------

  /** Where the counting walk stands: stopped at `to`, or still walking. */
  datatype Counted = Stopped(total: int) | Walking(cursor: int, total: int)

  function CountWindows(cal: Calendar, windows: seq<Window>, cursor: int, to: int, total: int): Counted {
    if windows == [] then Walking(cursor, total) else
    var pos := cal.Pos(cursor);
    var endM := windows[0].end.ToMins();
    if endM <= pos then CountWindows(cal, windows[1..], cursor, to, total) else
    var effectiveStart := Max(windows[0].start.ToMins(), pos);
    var opens := cursor + (effectiveStart - pos) * MINUTE_MS;
    if opens >= to then Stopped(total) else
    var sliceEnd := Min(cursor + (endM - pos) * MINUTE_MS, to);
    var sum := total + Max(0, sliceEnd - opens);
    if sliceEnd >= to then Stopped(sum) else
    CountWindows(cal, windows[1..], sliceEnd, to, sum)
  }

  function CountDays(cal: Calendar, days: nat, cursor: int, to: int, total: int): int {
    if days == 0 || cursor >= to then total else
    match CountWindows(cal, cal.WindowsAt(cursor), cursor, to, total)
    case Stopped(sum) => sum
    case Walking(c, sum) => CountDays(cal, days - 1, cal.NextDay(c), to, sum)
  }

  /** What `businessMinutesBetween` answers, in milliseconds. */
  function ElapsedMs(from: int, to: int, calendar: Option<Calendar>): int {
    var span := Max(0, to - from);
    if calendar.None? || span == 0 then span else CountDays(calendar.value, MAX_DAYS, from, to, 0)
  }

  method BusinessMsBetween(from: int, to: int, calendar: Option<Calendar>) returns (ms: int)
    ensures ms == ElapsedMs(from, to, calendar)
  {
    var span := Max(0, to - from);
    if calendar.None? || span == 0 {
      return span;
    }
    var cal := calendar.value;
    var total := 0;
    var cursor := from;
    var guard: nat := MAX_DAYS;
    ghost var answer := CountDays(cal, guard, cursor, to, total);
    while guard > 0 && cursor < to
      invariant CountDays(cal, guard, cursor, to, total) == answer
    {
      var windows := cal.WindowsAt(cursor);
      ghost var day := CountWindows(cal, windows, cursor, to, total);
      var i := 0;
      while i < |windows|
        invariant 0 <= i <= |windows|
        invariant CountWindows(cal, windows[i..], cursor, to, total) == day
      {
        assert windows[i..][1..] == windows[i + 1..];
        var pos := cal.Pos(cursor);
        var startM, endM := windows[i].start.ToMins(), windows[i].end.ToMins();
        i := i + 1;
        if endM <= pos { continue; }
        var effectiveStart := Max(startM, pos);
        var windowStartAt := cursor + (effectiveStart - pos) * MINUTE_MS;
        if windowStartAt >= to { return total; }
        var windowEndAt := cursor + (endM - pos) * MINUTE_MS;
        var sliceEnd := if windowEndAt < to then windowEndAt else to;
        total := total + Max(0, sliceEnd - windowStartAt);
        cursor := sliceEnd;
        if cursor >= to { return total; }
      }
      var endOfDayPos := cal.Pos(cursor);
      cursor := cursor + (DAY_MINUTES - endOfDayPos) * MINUTE_MS;
      cursor := cursor / MINUTE_MS * MINUTE_MS;
      guard := guard - 1;
    }
    return total;
  }

  // ---- the two walks agree, in any zone ---------------------------------------------

  lemma NextDayIsLater(cal: Calendar, t: int)
    ensures cal.NextDay(t) > t
  {
  }

  /** The consuming walk only moves forward, and what it reaches lies ahead of its cursor. */
  lemma {:induction false} AddWindowsForward(cal: Calendar, windows: seq<Window>, cursor: int, remaining: int)
    requires remaining >= 1
    ensures var day := AddWindows(cal, windows, cursor, remaining);
      match day
      case Reached(at) => at > cursor
      case Owing(c, r) => c >= cursor && 1 <= r <= remaining
  {
    if windows != [] {
      var pos := cal.Pos(cursor);
      var effectiveStart := Max(windows[0].start.ToMins(), pos);
      var available := windows[0].end.ToMins() - effectiveStart;
      AddWindowsForward(cal, windows[1..], cursor, remaining);
      if available > 0 && remaining > available {
        var closes := cursor + (effectiveStart - pos) * MINUTE_MS + available * MINUTE_MS;
        AddWindowsForward(cal, windows[1..], closes, remaining - available);
      }
    }
  }

  lemma {:induction false} AddDaysForward(cal: Calendar, days: nat, cursor: int, remaining: int)
    requires remaining >= 1
    ensures var r := AddDays(cal, days, cursor, remaining); r.Some? ==> r.value > cursor
  {
    if days > 0 {
      AddWindowsForward(cal, cal.WindowsAt(cursor), cursor, remaining);
      match AddWindows(cal, cal.WindowsAt(cursor), cursor, remaining)
      case Reached(_) =>
      case Owing(c, r) =>
        NextDayIsLater(cal, c);
        AddDaysForward(cal, days - 1, cal.NextDay(c), r);
    }
  }

  /** Within a day the counting walk follows the consuming walk step by step. */
  lemma {:induction false} CountFollowsAdd(
    cal: Calendar, windows: seq<Window>, cursor: int, remaining: int, to: int, total: int)
    requires remaining >= 1 && AllProper(windows)
    requires match AddWindows(cal, windows, cursor, remaining)
      case Reached(at) => to == at
      case Owing(c, _) => c < to
    ensures CountWindows(cal, windows, cursor, to, total)
      == match AddWindows(cal, windows, cursor, remaining)
         case Reached(_) => Stopped(total + remaining * MINUTE_MS)
         case Owing(c, r) => Walking(c, total + (remaining - r) * MINUTE_MS)
  {
    if windows != [] {
      assert windows[0].Proper();
      var pos := cal.Pos(cursor);
      var endM := windows[0].end.ToMins();
      if endM <= pos {
        CountFollowsAdd(cal, windows[1..], cursor, remaining, to, total);
      } else {
        var effectiveStart := Max(windows[0].start.ToMins(), pos);
        var available := endM - effectiveStart;
        var closes := cursor + (effectiveStart - pos) * MINUTE_MS + available * MINUTE_MS;
        assert closes == cursor + (endM - pos) * MINUTE_MS;
        if remaining > available {
          AddWindowsForward(cal, windows[1..], closes, remaining - available);
          CountFollowsAdd(cal, windows[1..], closes, remaining - available, to, total + available * MINUTE_MS);
        }
      }
    }
  }

  lemma {:induction false} CountDaysFollowsAdd(cal: Calendar, days: nat, cursor: int, remaining: int, total: int)
    requires remaining >= 1 && cal.Proper()
    requires AddDays(cal, days, cursor, remaining).Some?
    ensures CountDays(cal, days, cursor, AddDays(cal, days, cursor, remaining).value, total)
      == total + remaining * MINUTE_MS
  {
    var to := AddDays(cal, days, cursor, remaining).value;
    AddDaysForward(cal, days, cursor, remaining);
    AddWindowsForward(cal, cal.WindowsAt(cursor), cursor, remaining);
    match AddWindows(cal, cal.WindowsAt(cursor), cursor, remaining)
    case Reached(_) =>
      CountFollowsAdd(cal, cal.WindowsAt(cursor), cursor, remaining, to, total);
    case Owing(c, r) =>
      NextDayIsLater(cal, c);
      AddDaysForward(cal, days - 1, cal.NextDay(c), r);
      CountFollowsAdd(cal, cal.WindowsAt(cursor), cursor, remaining, to, total);
      CountDaysFollowsAdd(cal, days - 1, cal.NextDay(c), r, total + (remaining - r) * MINUTE_MS);
  }

  /** `addBusinessMinutes` answered from the calendar rather than from its clock-time fallback. */
  predicate Answers(from: int, minutes: int, calendar: Option<Calendar>) {
    calendar.Some? ==> AddDays(calendar.value, MAX_DAYS, from, minutes).Some?
  }

  /**
   The round trip: counting from an instant to the due time computed from it gives back exactly
   the minutes that were added, in every zone, for every calendar with proper windows.
   */
  lemma RoundTrip(from: int, minutes: int, calendar: Option<Calendar>)
    requires minutes > 0
    requires calendar.Some? ==> calendar.value.Proper()
    requires Answers(from, minutes, calendar)
    ensures DueAt(from, minutes, calendar) > from
    ensures ElapsedMs(from, DueAt(from, minutes, calendar), calendar) == minutes * MINUTE_MS
  {
    if calendar.Some? {
      var guard := MAX_DAYS;
      AddDaysForward(calendar.value, guard, from, minutes);
      CountDaysFollowsAdd(calendar.value, guard, from, minutes, 0);
    }
  }

  // ---- due times against the clock and against each other -----------------------------------

  /** Working minutes take at least as long on the clock. */
  lemma {:induction false} AddWindowsTakes(cal: Calendar, windows: seq<Window>, cursor: int, remaining: int)
    requires remaining >= 1
    ensures match AddWindows(cal, windows, cursor, remaining)
      case Reached(at) => at >= cursor + remaining * MINUTE_MS
      case Owing(c, r) => 1 <= r && c >= cursor + (remaining - r) * MINUTE_MS
  {
    if windows != [] {
      var pos := cal.Pos(cursor);
      var effectiveStart := Max(windows[0].start.ToMins(), pos);
      var available := windows[0].end.ToMins() - effectiveStart;
      AddWindowsTakes(cal, windows[1..], cursor, remaining);
      if available > 0 && remaining > available {
        var closes := cursor + (effectiveStart - pos) * MINUTE_MS + available * MINUTE_MS;
        AddWindowsTakes(cal, windows[1..], closes, remaining - available);
      }
    }
  }

  lemma {:induction false} AddDaysTakes(cal: Calendar, days: nat, cursor: int, remaining: int)
    requires remaining >= 1
    ensures var r := AddDays(cal, days, cursor, remaining); r.Some? ==> r.value >= cursor + remaining * MINUTE_MS
  {
    if days > 0 {
      AddWindowsTakes(cal, cal.WindowsAt(cursor), cursor, remaining);
      match AddWindows(cal, cal.WindowsAt(cursor), cursor, remaining)
      case Reached(_) =>
      case Owing(c, r) =>
        NextDayIsLater(cal, c);
        AddDaysTakes(cal, days - 1, cal.NextDay(c), r);
    }
  }

  /**
   In any zone no due time is earlier than the minutes on the clock; without a calendar, without minutes
   to add, and when the calendar does not answer, it is exactly that.
   */
  lemma DueNotBeforeClock(from: int, minutes: int, calendar: Option<Calendar>)
    ensures DueAt(from, minutes, calendar) >= from + minutes * MINUTE_MS
    ensures calendar.None? || minutes <= 0 || !Answers(from, minutes, calendar) ==>
      DueAt(from, minutes, calendar) == from + minutes * MINUTE_MS
  {
    var guard := MAX_DAYS;
    if calendar.Some? && minutes > 0 { AddDaysTakes(calendar.value, guard, from, minutes); }
  }

  lemma {:induction false} AddWindowsMonotone(cal: Calendar, windows: seq<Window>, cursor: int, a: int, b: int)
    requires 1 <= a <= b
    ensures var walk := AddWindows(cal, windows, cursor, b);
      match AddWindows(cal, windows, cursor, a)
      case Reached(at) => if walk.Reached? then at <= walk.at else at <= walk.cursor
      case Owing(c, r) => walk == Owing(c, r + b - a)
  {
    if windows != [] {
      var pos := cal.Pos(cursor);
      var effectiveStart := Max(windows[0].start.ToMins(), pos);
      var available := windows[0].end.ToMins() - effectiveStart;
      AddWindowsMonotone(cal, windows[1..], cursor, a, b);
      var closes := cursor + (effectiveStart - pos) * MINUTE_MS + available * MINUTE_MS;
      if available > 0 && a > available {
        AddWindowsMonotone(cal, windows[1..], closes, a - available, b - available);
      } else if available > 0 && b > available {
        AddWindowsForward(cal, windows[1..], closes, b - available);
      }
    }
  }

  lemma {:induction false} AddDaysMonotone(cal: Calendar, days: nat, cursor: int, a: int, b: int)
    requires 1 <= a <= b && AddDays(cal, days, cursor, b).Some?
    ensures AddDays(cal, days, cursor, a).Some?
    ensures AddDays(cal, days, cursor, a).value <= AddDays(cal, days, cursor, b).value
  {
    AddWindowsMonotone(cal, cal.WindowsAt(cursor), cursor, a, b);
    AddWindowsForward(cal, cal.WindowsAt(cursor), cursor, a);
    AddWindowsForward(cal, cal.WindowsAt(cursor), cursor, b);
    match AddWindows(cal, cal.WindowsAt(cursor), cursor, b)
    case Reached(_) =>
    case Owing(c, r) =>
      NextDayIsLater(cal, c);
      AddDaysForward(cal, days - 1, cal.NextDay(c), r);
      if AddWindows(cal, cal.WindowsAt(cursor), cursor, a).Owing? {
        AddDaysMonotone(cal, days - 1, cal.NextDay(c), r - (b - a), r);
      }
  }

  /** More minutes are due later, in any zone, unless only the fewer come from the calendar. */
  lemma DueMonotone(from: int, a: int, b: int, calendar: Option<Calendar>)
    requires 1 <= a <= b
    ensures Answers(from, b, calendar) ==> Answers(from, a, calendar)
    ensures Answers(from, b, calendar) || !Answers(from, a, calendar) ==>
      DueAt(from, a, calendar) <= DueAt(from, b, calendar)
  {
    var guard := MAX_DAYS;
    if calendar.Some? && Answers(from, b, calendar) { AddDaysMonotone(calendar.value, guard, from, a, b); }
  }

  // ---- elapsed time never exceeds wall-clock time -----------------------------------

  lemma {:induction false} CountWindowsBound(cal: Calendar, windows: seq<Window>, cursor: int, to: int, total: int)
    requires cursor < to
    ensures match CountWindows(cal, windows, cursor, to, total)
      case Stopped(sum) => total <= sum <= total + (to - cursor)
      case Walking(c, sum) => cursor <= c < to && total <= sum <= total + (c - cursor)
  {
    if windows != [] {
      var pos := cal.Pos(cursor);
      var endM := windows[0].end.ToMins();
      if endM <= pos {
        CountWindowsBound(cal, windows[1..], cursor, to, total);
      } else {
        var effectiveStart := Max(windows[0].start.ToMins(), pos);
        var opens := cursor + (effectiveStart - pos) * MINUTE_MS;
        var sliceEnd := Min(cursor + (endM - pos) * MINUTE_MS, to);
        if opens < to && sliceEnd < to {
          CountWindowsBound(cal, windows[1..], sliceEnd, to, total + Max(0, sliceEnd - opens));
        }
      }
    }
  }

  lemma {:induction false} CountDaysBound(cal: Calendar, days: nat, cursor: int, to: int, total: int)
    ensures total <= CountDays(cal, days, cursor, to, total) <= total + Max(0, to - cursor)
  {
    if days > 0 && cursor < to {
      CountWindowsBound(cal, cal.WindowsAt(cursor), cursor, to, total);
      match CountWindows(cal, cal.WindowsAt(cursor), cursor, to, total)
      case Stopped(_) =>
      case Walking(c, sum) =>
        NextDayIsLater(cal, c);
        CountDaysBound(cal, days - 1, cal.NextDay(c), to, sum);
    }
  }

  /** Whatever the zone and the windows, elapsed working time lies between zero and the wall-clock span. */
  lemma ElapsedWithinSpan(from: int, to: int, calendar: Option<Calendar>)
    ensures 0 <= ElapsedMs(from, to, calendar) <= Max(0, to - from)
  {
    if calendar.Some? {
      var guard := MAX_DAYS;
      CountDaysBound(calendar.value, guard, from, to, 0);
    }
  }

  // ---- an overnight window breaks the round trip ---------------------------------------

  /** Every local day runs 18:00-09:00 (reversed) and then 10:00-11:00, in a zone of UTC. */
  function OvernightCalendar(): Calendar {
    var reversed := Window(Clock(18, 0), Clock(9, 0));
    var morning := Window(Clock(10, 0), Clock(11, 0));
    Calendar(t => LocalTime("", "mon", t / MINUTE_MS % DAY_MINUTES), map["mon" := [reversed, morning]], [])
  }

  /**
   Proper windows are needed: an hour added at midnight is due at 11:00, yet no time at all is
   counted up to then, because the counting walk gives up at the reversed window the other skips.
   */
  lemma OvernightWindowLosesTime(days: nat)
    requires days > 0
    ensures !OvernightCalendar().Proper()
    ensures AddDays(OvernightCalendar(), days, 0, 60) == Some(660 * MINUTE_MS)
    ensures CountDays(OvernightCalendar(), days, 0, 660 * MINUTE_MS, 0) == 0
  {
    var cal := OvernightCalendar();
    var windows := cal.weekly["mon"];
    assert !windows[0].Proper();
    assert windows[1..] == [windows[1]];
    assert AddWindows(cal, windows[1..], 0, 60) == Reached(660 * MINUTE_MS);
    assert CountWindows(cal, windows, 0, 660 * MINUTE_MS, 0) == Stopped(0);
  }
}
