/**
 A declarative account of working time, and the SLA clock measured against it.

 Here the zone has a constant whole-minute offset and the windows of a day are sorted and
 disjoint. `Worked(a, b)` counts, instant by instant, the working milliseconds of `[a, b)`;
 the walks of `BusinessHours` are then shown to compute it.
 */
module WorkingTime {
  import opened Options
  import opened Numbers
  import opened BusinessHours

  const DAY_MS := 86_400_000
  const DAY_KEYS := ["sun", "mon", "tue", "wed", "thu", "fri", "sat"]

  // ---- clock readings -------------------------------------------------------------------

  /** A reading between 00:00 and 24:00. */
  predicate IsReading(c: Clock) { 0 <= c.minute < 60 && (0 <= c.hour < 24 || c == Clock(24, 0)) }

  /** Readings compare by hour and then by minute. */
  predicate Earlier(a: Clock, b: Clock) { a.hour < b.hour || (a.hour == b.hour && a.minute < b.minute) }

  /** What the clock shows at a minute of the day. */
  function Reading(minute: MinuteOfDay): Clock { Clock(minute / 60, minute % 60) }

  /** The window is open when the clock shows the reading. */
  predicate Covers(w: Window, reading: Clock) { !Earlier(reading, w.start) && Earlier(reading, w.end) }

  /** Windows of one day: each opens before it closes, and they come in order and do not overlap. */
  predicate Sorted(windows: seq<Window>) {
    && (forall i :: 0 <= i < |windows| ==>
          IsReading(windows[i].start) && IsReading(windows[i].end) && Earlier(windows[i].start, windows[i].end))
    && (forall i, j :: 0 <= i < j < |windows| ==> !Earlier(windows[j].start, windows[i].end))
  }

  lemma ReadingInMinutes(c: Clock)
    requires IsReading(c)
    ensures 0 <= c.ToMins() <= DAY_MINUTES && (c.ToMins() == DAY_MINUTES <==> c == Clock(24, 0))
    ensures forall b :: IsReading(b) ==> (Earlier(c, b) <==> c.ToMins() < b.ToMins())
    ensures forall n: MinuteOfDay :: Earlier(Reading(n), c) <==> n < c.ToMins()
  {
    forall n: MinuteOfDay ensures Earlier(Reading(n), c) <==> n < c.ToMins() {
      assert n == n / 60 * 60 + n % 60;
    }
  }

  /** The same in minutes of the day, which is how the walks see windows. */
  predicate SortedInMinutes(windows: seq<Window>) {
    && (forall i :: 0 <= i < |windows| ==>
          0 <= windows[i].start.ToMins() < windows[i].end.ToMins() <= DAY_MINUTES)
    && (forall i, j :: 0 <= i < j < |windows| ==> windows[i].end.ToMins() <= windows[j].start.ToMins())
  }

  lemma InMinutes(windows: seq<Window>)
    requires Sorted(windows)
    ensures SortedInMinutes(windows)
    ensures forall i, n: MinuteOfDay :: 0 <= i < |windows| ==>
      (Covers(windows[i], Reading(n)) <==> windows[i].start.ToMins() <= n < windows[i].end.ToMins())
    ensures forall i :: 0 <= i < |windows| ==> (windows[i].end.ToMins() == DAY_MINUTES <==>
      windows[i].end == Clock(24, 0))
  {
    hide Earlier, IsReading;
    forall i | 0 <= i < |windows|
      ensures 0 <= windows[i].start.ToMins() < windows[i].end.ToMins() <= DAY_MINUTES
      ensures forall n: MinuteOfDay ::
        Covers(windows[i], Reading(n)) <==> windows[i].start.ToMins() <= n < windows[i].end.ToMins()
      ensures windows[i].end.ToMins() == DAY_MINUTES <==> windows[i].end == Clock(24, 0)
    {
      ReadingInMinutes(windows[i].start);
      ReadingInMinutes(windows[i].end);
    }
    forall i, j | 0 <= i < j < |windows| ensures windows[i].end.ToMins() <= windows[j].start.ToMins() {
      ReadingInMinutes(windows[j].start);
    }
  }

  predicate Aligned(t: int) { t % MINUTE_MS == 0 }

  datatype FixedCalendar =
    FixedCalendar(offset: int, isoDate: int -> string, weekly: map<string, seq<Window>>, holidays: seq<string>)
  {
    function Day(t: int): int { (t + offset * MINUTE_MS) / DAY_MS }

    function DayStart(d: int): int { d * DAY_MS - offset * MINUTE_MS }

    function MinuteAt(t: int): MinuteOfDay { (t + offset * MINUTE_MS) % DAY_MS / MINUTE_MS }

    /** Day 0 of the epoch was a Thursday. */
    function Weekday(d: int): string { DAY_KEYS[(d + 4) % 7] }

    function Windows(d: int): seq<Window> {
      if isoDate(d) in holidays || Weekday(d) !in weekly then [] else weekly[Weekday(d)]
    }

    function AsCalendar(): Calendar {
      Calendar(t => LocalTime(isoDate(Day(t)), Weekday(Day(t)), MinuteAt(t)), weekly, holidays)
    }

    ghost predicate WellFormed() {
      forall key :: key in weekly ==> Sorted(weekly[key])
    }

    /** Some window of the local day covers `t`. */
    ghost predicate Working(t: int) {
      exists i :: 0 <= i < |Windows(Day(t))| && Covers(Windows(Day(t))[i], Reading(MinuteAt(t)))
    }

    /** The number of working milliseconds of `[a, b)`. */
    ghost function Worked(a: int, b: int): (n: int)
      ensures 0 <= n <= Max(0, b - a)
      decreases b - a
    {
      if b <= a then 0 else Worked(a, b - 1) + (if Working(b - 1) then 1 else 0)
    }

    /** The last window of the day closes at 24:00. */
    predicate EndsAtMidnight(d: int) {
      Windows(d) != [] && Windows(d)[|Windows(d)| - 1].end == Clock(24, 0)
    }

    /** No working day follows a day that closes at 24:00. */
    ghost predicate NoShadowedDay() {
      forall d :: EndsAtMidnight(d) ==> Windows(d + 1) == []
    }

    /** The day a walk visits after day `d`. */
    function Following(d: int): int { if EndsAtMidnight(d) then d + 2 else d + 1 }

    function DayAfter(d: int, days: nat): int
      decreases days
    {
      if days == 0 then d else DayAfter(Following(d), days - 1)
    }

    /** The first instant a walk of `days` days that begins at `t` does not look at. */
    function Horizon(t: int, days: nat): int { DayStart(DayAfter(Day(t), days)) }
  }

  // ---- local time ----------------------------------------------------------------------

  lemma Position(f: FixedCalendar, t: int)
    ensures f.DayStart(f.Day(t)) + f.MinuteAt(t) * MINUTE_MS <= t
    ensures t < f.DayStart(f.Day(t)) + (f.MinuteAt(t) + 1) * MINUTE_MS
    ensures Aligned(t) ==> t == f.DayStart(f.Day(t)) + f.MinuteAt(t) * MINUTE_MS
    ensures f.AsCalendar().Pos(t) == f.MinuteAt(t) && f.AsCalendar().WindowsAt(t) == f.Windows(f.Day(t))
  {
    var local := t + f.offset * MINUTE_MS;
    var inDay := local % DAY_MS;
    assert local == f.Day(t) * DAY_MS + inDay;
    assert inDay == f.MinuteAt(t) * MINUTE_MS + inDay % MINUTE_MS;
    if Aligned(t) {
      WholeMinutesLater(t, f.offset);
      WholeMinutesLater(local, -f.Day(t) * DAY_MINUTES);
    }
  }

  lemma At(f: FixedCalendar, d: int, minute: int, t: int)
    requires 0 <= minute < DAY_MINUTES
    requires f.DayStart(d) + minute * MINUTE_MS <= t < f.DayStart(d) + (minute + 1) * MINUTE_MS
    ensures f.Day(t) == d && f.MinuteAt(t) == minute
  {
    var local := t + f.offset * MINUTE_MS;
    assert d * DAY_MS <= local < (d + 1) * DAY_MS;
    assert local / DAY_MS == d;
  }

  lemma WholeMinutesLater(t: int, minutes: int)
    requires Aligned(t)
    ensures Aligned(t + minutes * MINUTE_MS)
  {
  }

  lemma SameMinute(f: FixedCalendar, t: int, s: int)
    requires Aligned(t) && 0 <= s < MINUTE_MS
    ensures f.Day(t + s) == f.Day(t) && f.MinuteAt(t + s) == f.MinuteAt(t)
  {
    Position(f, t);
    At(f, f.Day(t), f.MinuteAt(t), t + s);
  }

  lemma NextDayStart(f: FixedCalendar, t: int)
    ensures f.AsCalendar().NextDay(t) == f.DayStart(f.Day(t) + 1)
  {
    Position(f, t);
    var d := f.Day(t);
    var jump := t + (DAY_MINUTES - f.MinuteAt(t)) * MINUTE_MS;
    assert f.DayStart(d + 1) <= jump < f.DayStart(d + 1) + MINUTE_MS;
    assert f.DayStart(d + 1) == ((d + 1) * DAY_MINUTES - f.offset) * MINUTE_MS;
  }

  lemma DaysSorted(f: FixedCalendar, d: int)
    requires f.WellFormed()
    ensures var ws := f.Windows(d);
      && SortedInMinutes(ws)
      && (forall i, n: MinuteOfDay :: 0 <= i < |ws| ==>
            (Covers(ws[i], Reading(n)) <==> ws[i].start.ToMins() <= n < ws[i].end.ToMins()))
      && (f.EndsAtMidnight(d) <==> ws != [] && ws[|ws| - 1].end.ToMins() == DAY_MINUTES)
  {
    InMinutes(f.Windows(d));
  }

  // ---- worked time over intervals ---------------------------------------------------------

  lemma {:induction false} Split(f: FixedCalendar, a: int, b: int, c: int)
    requires a <= b <= c
    ensures f.Worked(a, c) == f.Worked(a, b) + f.Worked(b, c)
    decreases c - b
  {
    if b < c {
      Split(f, a, b, c - 1);
    }
  }

  lemma {:induction false} Idle(f: FixedCalendar, a: int, b: int)
    requires forall t :: a <= t < b ==> !f.Working(t)
    ensures f.Worked(a, b) == 0
    decreases b - a
  {
    if a < b {
      Idle(f, a, b - 1);
    }
  }

  lemma {:induction false} Busy(f: FixedCalendar, a: int, b: int)
    requires a <= b
    requires forall t :: a <= t < b ==> f.Working(t)
    ensures f.Worked(a, b) == b - a
    decreases b - a
  {
    if a < b {
      Busy(f, a, b - 1);
    }
  }

  /** Nothing is worked between two minutes of a day that no window meets. */
  lemma IdleBetween(f: FixedCalendar, d: int, from: int, until: int)
    requires f.WellFormed() && 0 <= from <= until <= DAY_MINUTES
    requires forall i :: 0 <= i < |f.Windows(d)| ==>
      f.Windows(d)[i].end.ToMins() <= from || until <= f.Windows(d)[i].start.ToMins()
    ensures f.Worked(f.DayStart(d) + from * MINUTE_MS, f.DayStart(d) + until * MINUTE_MS) == 0
    ensures forall t :: f.DayStart(d) + from * MINUTE_MS <= t < f.DayStart(d) + until * MINUTE_MS ==> !f.Working(t)
  {
    hide Covers, Clock.ToMins;
    DaysSorted(f, d);
    var a, b := f.DayStart(d) + from * MINUTE_MS, f.DayStart(d) + until * MINUTE_MS;
    forall t | a <= t < b ensures !f.Working(t) {
      var minute := (t - f.DayStart(d)) / MINUTE_MS;
      At(f, d, minute, t);
    }
    Idle(f, a, b);
  }

  /** Everything is worked inside one window. */
  lemma BusyInside(f: FixedCalendar, d: int, i: nat, a: int, b: int)
    requires i < |f.Windows(d)| && f.WellFormed() && a <= b
    requires f.DayStart(d) + f.Windows(d)[i].start.ToMins() * MINUTE_MS <= a
    requires b <= f.DayStart(d) + f.Windows(d)[i].end.ToMins() * MINUTE_MS
    ensures f.Worked(a, b) == b - a
    ensures a < b ==> f.Working(b - 1)
  {
    hide Covers, Clock.ToMins;
    DaysSorted(f, d);
    forall t | a <= t < b ensures f.Working(t) {
      var minute := (t - f.DayStart(d)) / MINUTE_MS;
      At(f, d, minute, t);
      assert Covers(f.Windows(d)[i], Reading(minute));
    }
    Busy(f, a, b);
  }

  // ---- one day of each walk ---------------------------------------------------------------

  /** The walk stands in day `d`, or at its end when no window is left; the windows before `i` are past. */
  ghost predicate Standing(f: FixedCalendar, d: int, i: nat, cursor: int) {
    && f.WellFormed() && i <= |f.Windows(d)| && Aligned(cursor)
    && f.DayStart(d) <= cursor <= f.DayStart(d + 1)
    && (cursor == f.DayStart(d + 1) ==> i == |f.Windows(d)| && f.EndsAtMidnight(d))
    && (forall j :: 0 <= j < i ==> f.DayStart(d) + f.Windows(d)[j].end.ToMins() * MINUTE_MS <= cursor)
  }

  /** The minute a standing walk has reached, and what the next window does to it. */
  lemma StandingStep(f: FixedCalendar, d: int, i: nat, cursor: int)
    requires Standing(f, d, i, cursor) && i < |f.Windows(d)|
    ensures f.WellFormed() && Aligned(cursor) && f.Day(cursor) == d && f.AsCalendar().Pos(cursor) == f.MinuteAt(cursor)
    ensures cursor == f.DayStart(d) + f.MinuteAt(cursor) * MINUTE_MS
    ensures var w := f.Windows(d)[i];
      var pos := f.MinuteAt(cursor);
      var opens := cursor + (Max(w.start.ToMins(), pos) - pos) * MINUTE_MS;
      var closes := f.DayStart(d) + w.end.ToMins() * MINUTE_MS;
      if w.end.ToMins() <= pos then Standing(f, d, i + 1, cursor)
      else
        && f.Worked(cursor, opens) == 0
        && (forall t :: cursor <= t < opens ==> !f.Working(t))
        && cursor <= opens < closes <= f.DayStart(d + 1)
        && opens >= f.DayStart(d) + w.start.ToMins() * MINUTE_MS
        && Standing(f, d, i + 1, closes)
  {
    hide Covers, Sorted, Earlier, IsReading, Reading, FixedCalendar.Working, FixedCalendar.Worked, Clock.ToMins;
    DaysSorted(f, d);
    Position(f, cursor);
    var minute := (cursor - f.DayStart(d)) / MINUTE_MS;
    At(f, d, minute, cursor);
    var ws := f.Windows(d);
    var pos := f.MinuteAt(cursor);
    if ws[i].end.ToMins() > pos {
      if ws[i].start.ToMins() > pos {
        IdleBetween(f, d, pos, ws[i].start.ToMins());
      }
      assert i + 1 < |ws| ==> ws[i].end.ToMins() <= ws[i + 1].start.ToMins();
    }
  }

  /** A walk with no window left: the rest of the day is idle. */
  lemma StandingDone(f: FixedCalendar, d: int, cursor: int)
    requires Standing(f, d, |f.Windows(d)|, cursor)
    ensures forall t :: cursor <= t < f.DayStart(d + 1) ==> !f.Working(t)
    ensures cursor < f.DayStart(d + 1) ==> f.AsCalendar().NextDay(cursor) == f.DayStart(d + 1) && !f.EndsAtMidnight(d)
    ensures cursor == f.DayStart(d + 1) ==> f.AsCalendar().NextDay(cursor) == f.DayStart(d + 2) && f.EndsAtMidnight(d)
  {
    if cursor < f.DayStart(d + 1) {
      Position(f, cursor);
      var minute := (cursor - f.DayStart(d)) / MINUTE_MS;
      At(f, d, minute, cursor);
      IdleBetween(f, d, minute, DAY_MINUTES);
    } else {
      At(f, d + 1, 0, cursor);
    }
    NextDayStart(f, cursor);
  }

  /** One window of the counting walk that is not yet past. */
  lemma WindowCounted(f: FixedCalendar, d: int, i: nat, cursor: int, to: int, total: int) returns (closes: int)
    requires i < |f.Windows(d)| && Standing(f, d, i, cursor) && cursor < to
    requires f.Windows(d)[i].end.ToMins() > f.MinuteAt(cursor)
    ensures cursor < closes <= f.DayStart(d + 1) && Standing(f, d, i + 1, closes)
    ensures CountWindows(f.AsCalendar(), f.Windows(d)[i..], cursor, to, total)
      == if to <= closes then Stopped(total + f.Worked(cursor, to))
         else CountWindows(f.AsCalendar(), f.Windows(d)[i + 1..], closes, to, total + f.Worked(cursor, closes))
  {
    hide FixedCalendar.MinuteAt, FixedCalendar.Day, FixedCalendar.AsCalendar, FixedCalendar.Windows, Aligned;
    hide FixedCalendar.Worked, FixedCalendar.Working, Clock.ToMins, Standing;
    var ws := f.Windows(d);
    StandingStep(f, d, i, cursor);
    assert ws[i..][0] == ws[i] && ws[i..][1..] == ws[i + 1..];
    var pos := f.MinuteAt(cursor);
    var opens := cursor + (Max(ws[i].start.ToMins(), pos) - pos) * MINUTE_MS;
    closes := f.DayStart(d) + ws[i].end.ToMins() * MINUTE_MS;
    if opens >= to {
      Idle(f, cursor, to);
    } else {
      var sliceEnd := Min(closes, to);
      Split(f, cursor, opens, sliceEnd);
      BusyInside(f, d, i, opens, sliceEnd);
    }
  }

  lemma {:induction false} DayCounted(f: FixedCalendar, d: int, i: nat, cursor: int, to: int, total: int)
    requires Standing(f, d, i, cursor) && cursor < to
    ensures match CountWindows(f.AsCalendar(), f.Windows(d)[i..], cursor, to, total)
      case Stopped(sum) => sum == total + f.Worked(cursor, to) && to <= f.DayStart(d + 1)
      case Walking(c, sum) =>
        && cursor <= c < to && Standing(f, d, |f.Windows(d)|, c)
        && sum == total + f.Worked(cursor, c)
    decreases |f.Windows(d)| - i
  {
    hide FixedCalendar.MinuteAt, FixedCalendar.Day, FixedCalendar.DayStart, FixedCalendar.AsCalendar;
    hide FixedCalendar.Windows, Aligned, FixedCalendar.Worked, FixedCalendar.Working, Clock.ToMins;
    var ws := f.Windows(d);
    if i == |ws| {
      assert ws[i..] == [];
      WorkedNonNegative(f, cursor, cursor);
    } else if ws[i].end.ToMins() <= f.MinuteAt(cursor) {
      StandingStep(f, d, i, cursor);
      assert ws[i..][0] == ws[i] && ws[i..][1..] == ws[i + 1..];
      DayCounted(f, d, i + 1, cursor, to, total);
    } else {
      hide CountWindows, Standing;
      var closes := WindowCounted(f, d, i, cursor, to, total);
      if closes < to {
        var sum := total + f.Worked(cursor, closes);
        DayCounted(f, d, i + 1, closes, to, sum);
        match CountWindows(f.AsCalendar(), ws[i + 1..], closes, to, sum)
        case Stopped(_) => Split(f, cursor, closes, to);
        case Walking(c, _) => Split(f, cursor, closes, c);
      }
    }
  }

  /** One window of the adding walk that is not yet past. */
  lemma WindowAdded(f: FixedCalendar, d: int, i: nat, cursor: int, remaining: int) returns (closes: int, available: int)
    requires i < |f.Windows(d)| && Standing(f, d, i, cursor) && remaining >= 1
    requires f.Windows(d)[i].end.ToMins() > f.MinuteAt(cursor)
    ensures available >= 1 && cursor < closes <= f.DayStart(d + 1) && Standing(f, d, i + 1, closes)
    ensures AddWindows(f.AsCalendar(), f.Windows(d)[i..], cursor, remaining)
      == if remaining <= available then Reached(closes - (available - remaining) * MINUTE_MS)
         else AddWindows(f.AsCalendar(), f.Windows(d)[i + 1..], closes, remaining - available)
    ensures if remaining <= available then
        var at := closes - (available - remaining) * MINUTE_MS;
        cursor < at <= closes && Aligned(at) && f.Working(at - 1) && f.Worked(cursor, at) == remaining * MINUTE_MS
      else f.Worked(cursor, closes) == available * MINUTE_MS
  {
    hide FixedCalendar.MinuteAt, FixedCalendar.Day, FixedCalendar.AsCalendar, FixedCalendar.Windows, Aligned;
    hide FixedCalendar.Worked, FixedCalendar.Working, Clock.ToMins, Standing;
    var ws := f.Windows(d);
    StandingStep(f, d, i, cursor);
    assert ws[i..][0] == ws[i] && ws[i..][1..] == ws[i + 1..];
    var pos := f.MinuteAt(cursor);
    var opens := cursor + (Max(ws[i].start.ToMins(), pos) - pos) * MINUTE_MS;
    closes := f.DayStart(d) + ws[i].end.ToMins() * MINUTE_MS;
    available := ws[i].end.ToMins() - Max(ws[i].start.ToMins(), pos);
    assert closes == opens + available * MINUTE_MS;
    var at := if remaining <= available then opens + remaining * MINUTE_MS else closes;
    WholeMinutesLater(cursor, Max(ws[i].start.ToMins(), pos) - pos + remaining);
    Split(f, cursor, opens, at);
    BusyInside(f, d, i, opens, at);
  }

  lemma {:induction false} DayAdded(f: FixedCalendar, d: int, i: nat, cursor: int, remaining: int)
    requires i <= |f.Windows(d)| && Standing(f, d, i, cursor) && remaining >= 1
    ensures match AddWindows(f.AsCalendar(), f.Windows(d)[i..], cursor, remaining)
      case Reached(at) =>
        && cursor < at <= f.DayStart(d + 1) && Aligned(at) && f.Working(at - 1)
        && f.Worked(cursor, at) == remaining * MINUTE_MS
      case Owing(c, r) =>
        && cursor <= c && Standing(f, d, |f.Windows(d)|, c) && 1 <= r
        && f.Worked(cursor, c) == (remaining - r) * MINUTE_MS
    decreases |f.Windows(d)| - i
  {
    hide FixedCalendar.MinuteAt, FixedCalendar.Day, FixedCalendar.DayStart, FixedCalendar.AsCalendar;
    hide FixedCalendar.Windows, Aligned, FixedCalendar.Worked, FixedCalendar.Working, Clock.ToMins, Standing;
    var ws := f.Windows(d);
    if i == |ws| {
      assert ws[i..] == [];
      WorkedNonNegative(f, cursor, cursor);
    } else if ws[i].end.ToMins() <= f.MinuteAt(cursor) {
      StandingStep(f, d, i, cursor);
      assert ws[i..][0] == ws[i] && ws[i..][1..] == ws[i + 1..];
      DayAdded(f, d, i + 1, cursor, remaining);
    } else {
      hide AddWindows;
      var closes, available := WindowAdded(f, d, i, cursor, remaining);
      if remaining > available {
        DayAdded(f, d, i + 1, closes, remaining - available);
        match AddWindows(f.AsCalendar(), ws[i + 1..], closes, remaining - available)
        case Reached(r) => Split(f, cursor, closes, r);
        case Owing(c, _) => Split(f, cursor, closes, c);
      }
    }
  }

  // ---- whole walks -------------------------------------------------------------------------

  lemma {:induction false} DayAfterLater(f: FixedCalendar, d: int, days: nat)
    ensures f.DayAfter(d, days) >= d + days
    decreases days
  {
    if days > 0 { DayAfterLater(f, f.Following(d), days - 1); }
  }

  lemma Starting(f: FixedCalendar, t: int)
    requires f.WellFormed() && Aligned(t)
    ensures Standing(f, f.Day(t), 0, t) && t < f.DayStart(f.Day(t) + 1)
    ensures f.AsCalendar().WindowsAt(t) == f.Windows(f.Day(t))[0..]
  {
    Position(f, t);
  }

  /** After the last window of day `d` the walk goes to the following day and loses no working time. */
  lemma ToFollowingDay(f: FixedCalendar, d: int, c: int)
    requires Standing(f, d, |f.Windows(d)|, c) && f.NoShadowedDay()
    ensures var next := f.AsCalendar().NextDay(c);
      && next == f.DayStart(f.Following(d)) && f.Day(next) == f.Following(d) && Aligned(next) && c < next
      && (forall t :: c <= t < next ==> !f.Working(t))
  {
    StandingDone(f, d, c);
    var next := f.AsCalendar().NextDay(c);
    if f.EndsAtMidnight(d) {
      IdleBetween(f, d + 1, 0, DAY_MINUTES);
      assert f.DayStart(d + 1) + DAY_MINUTES * MINUTE_MS == next;
    }
    At(f, f.Following(d), 0, next);
    assert next == (f.Following(d) * DAY_MINUTES - f.offset) * MINUTE_MS;
  }

  lemma AcrossGap(f: FixedCalendar, a: int, c: int, next: int, end: int)
    requires a <= c <= end && c < next && forall t :: c <= t < next ==> !f.Working(t)
    ensures f.Worked(a, end) == f.Worked(a, c) + f.Worked(next, end)
  {
    hide FixedCalendar.Working;
    Split(f, a, c, end);
    if end <= next {
      Idle(f, c, end);
    } else {
      Split(f, c, next, end);
      Idle(f, c, next);
    }
  }

  lemma {:induction false} DaysCounted(f: FixedCalendar, days: nat, cursor: int, to: int, total: int)
    requires f.WellFormed() && f.NoShadowedDay() && Aligned(cursor)
    ensures CountDays(f.AsCalendar(), days, cursor, to, total)
      == total + f.Worked(cursor, Min(to, f.Horizon(cursor, days)))
    decreases days
  {
    hide FixedCalendar.MinuteAt, FixedCalendar.Windows, FixedCalendar.Worked, FixedCalendar.Working;
    hide FixedCalendar.AsCalendar, Aligned;
    hide Standing, FixedCalendar.NoShadowedDay, CountWindows, AddWindows;
    Starting(f, cursor);
    var d := f.Day(cursor);
    if days > 0 && cursor < to {
      DayAfterLater(f, f.Following(d), days - 1);
      DayCounted(f, d, 0, cursor, to, total);
      match CountWindows(f.AsCalendar(), f.Windows(d)[0..], cursor, to, total) {
        case Stopped(_) =>
        case Walking(c, sum) =>
          ToFollowingDay(f, d, c);
          var next := f.AsCalendar().NextDay(c);
          DaysCounted(f, days - 1, next, to, sum);
          var end := Min(to, f.Horizon(cursor, days));
          AcrossGap(f, cursor, c, next, end);
      }
    }
  }

  lemma {:induction false} DaysAdded(f: FixedCalendar, days: nat, cursor: int, remaining: int)
    requires f.WellFormed() && f.NoShadowedDay() && Aligned(cursor) && remaining >= 1
    ensures match AddDays(f.AsCalendar(), days, cursor, remaining)
      case Some(at) =>
        && cursor < at <= f.Horizon(cursor, days) && Aligned(at) && f.Working(at - 1)
        && f.Worked(cursor, at) == remaining * MINUTE_MS
      case None => f.Worked(cursor, f.Horizon(cursor, days)) < remaining * MINUTE_MS
    decreases days
  {
    hide FixedCalendar.MinuteAt, FixedCalendar.Windows, FixedCalendar.Worked, FixedCalendar.Working;
    hide FixedCalendar.AsCalendar, Aligned;
    hide Standing, FixedCalendar.NoShadowedDay, CountWindows, AddWindows;
    Starting(f, cursor);
    var d := f.Day(cursor);
    if days > 0 {
      DayAfterLater(f, f.Following(d), days - 1);
      DayAdded(f, d, 0, cursor, remaining);
      match AddWindows(f.AsCalendar(), f.Windows(d)[0..], cursor, remaining) {
        case Reached(_) =>
        case Owing(c, r) =>
          ToFollowingDay(f, d, c);
          var next := f.AsCalendar().NextDay(c);
          DaysAdded(f, days - 1, next, r);
          Idle(f, c, next);
          Split(f, cursor, c, next);
          match AddDays(f.AsCalendar(), days - 1, next, r)
          case Some(at) => Split(f, cursor, next, at);
          case None => Split(f, cursor, next, f.Horizon(cursor, days));
      }
    }
  }

  // ---- the clock counts working time exactly ---------------------------------------------------

  /** Elapsed time from a whole minute is the working time of the interval, up to the walk's horizon. */
  lemma ElapsedIsWorked(f: FixedCalendar, from: int, to: int)
    requires f.WellFormed() && f.NoShadowedDay() && Aligned(from)
    ensures ElapsedMs(from, to, Some(f.AsCalendar())) == f.Worked(from, Min(to, f.Horizon(from, MAX_DAYS)))
  {
    hide FixedCalendar.Worked, FixedCalendar.NoShadowedDay, FixedCalendar.WellFormed;
    hide FixedCalendar.AsCalendar, CountDays;
    var days := MAX_DAYS;
    DaysCounted(f, days, from, to, 0);
    DayAfterLater(f, f.Day(from), days);
    Idle(f, from, Min(to, from));
  }

  /** The horizon is never less than 400 days away. */
  lemma HorizonIsFar(f: FixedCalendar, from: int, days: nat)
    ensures f.Horizon(from, days) >= f.DayStart(f.Day(from) + days)
  {
    DayAfterLater(f, f.Day(from), days);
  }

  lemma ElapsedIsWorkedNear(f: FixedCalendar, from: int, to: int)
    requires f.WellFormed() && f.NoShadowedDay() && Aligned(from)
    requires to <= f.DayStart(f.Day(from) + MAX_DAYS)
    ensures ElapsedMs(from, to, Some(f.AsCalendar())) == f.Worked(from, to)
  {
    hide FixedCalendar.Worked, FixedCalendar.NoShadowedDay, FixedCalendar.WellFormed;
    hide FixedCalendar.AsCalendar, ElapsedMs;
    hide FixedCalendar.Horizon, FixedCalendar.DayAfter;
    ElapsedIsWorked(f, from, to);
    HorizonIsFar(f, from, MAX_DAYS);
  }

  ghost predicate CountsExactly(f: FixedCalendar) {
    forall from, to {:trigger f.Worked(from, to)} ::
      Aligned(from) && from <= to <= f.DayStart(f.Day(from) + MAX_DAYS) ==>
        ElapsedMs(from, to, Some(f.AsCalendar())) == f.Worked(from, to)
  }

  /** A walk through a day that closes at 24:00 skips the whole next day. */
  lemma WalkSkipsShadowedDay(f: FixedCalendar, d: int, days: nat)
    requires f.WellFormed() && f.EndsAtMidnight(d) && days > 0
    ensures CountDays(f.AsCalendar(), days, f.DayStart(d + 1) - MINUTE_MS, f.DayStart(d + 2), 0) == MINUTE_MS
  {
    hide FixedCalendar.Worked, FixedCalendar.Windows, FixedCalendar.MinuteAt, FixedCalendar.AsCalendar, CountWindows;
    var from, mid, to := f.DayStart(d + 1) - MINUTE_MS, f.DayStart(d + 1), f.DayStart(d + 2);
    At(f, d, DAY_MINUTES - 1, from);
    assert from == ((d + 1) * DAY_MINUTES - f.offset - 1) * MINUTE_MS;
    Starting(f, from);
    DayCounted(f, d, 0, from, to, 0);
    var c := CountWindows(f.AsCalendar(), f.Windows(d)[0..], from, to, 0).cursor;
    DaysSorted(f, d);
    assert c == mid;
    StandingDone(f, d, c);
    BusyInside(f, d, |f.Windows(d)| - 1, from, mid);
  }

  lemma ShadowedDayIsWorked(f: FixedCalendar, d: int)
    requires f.WellFormed() && f.EndsAtMidnight(d) && f.Windows(d + 1) != []
    ensures f.Worked(f.DayStart(d + 1) - MINUTE_MS, f.DayStart(d + 2)) > MINUTE_MS
  {
    hide FixedCalendar.Worked, FixedCalendar.Windows;
    var from, mid, to := f.DayStart(d + 1) - MINUTE_MS, f.DayStart(d + 1), f.DayStart(d + 2);
    DaysSorted(f, d);
    DaysSorted(f, d + 1);
    var first := f.Windows(d + 1)[0];
    var opens, closes := mid + first.start.ToMins() * MINUTE_MS, mid + first.end.ToMins() * MINUTE_MS;
    BusyInside(f, d, |f.Windows(d)| - 1, from, mid);
    BusyInside(f, d + 1, 0, opens, closes);
    Split(f, from, mid, to);
    Split(f, mid, opens, to);
    Split(f, opens, closes, to);
    WorkedNonNegative(f, mid, opens);
    WorkedNonNegative(f, closes, to);
  }

  lemma WorkedNonNegative(f: FixedCalendar, a: int, b: int)
    ensures 0 <= f.Worked(a, b) <= Max(0, b - a)
  {
  }

  lemma ShadowedDayMiscounts(f: FixedCalendar, d: int)
    requires f.WellFormed() && f.EndsAtMidnight(d) && f.Windows(d + 1) != []
    ensures !CountsExactly(f)
  {
    hide FixedCalendar.Worked, FixedCalendar.Windows, FixedCalendar.MinuteAt, FixedCalendar.AsCalendar, CountDays;
    var from, to := f.DayStart(d + 1) - MINUTE_MS, f.DayStart(d + 2);
    At(f, d, DAY_MINUTES - 1, from);
    assert from == ((d + 1) * DAY_MINUTES - f.offset - 1) * MINUTE_MS;
    var days := MAX_DAYS;
    WalkSkipsShadowedDay(f, d, days);
    ShadowedDayIsWorked(f, d);
    assert from <= to <= f.DayStart(f.Day(from) + MAX_DAYS);
    assert ElapsedMs(from, to, Some(f.AsCalendar())) != f.Worked(from, to);
  }

  /**
   For sorted disjoint windows the clock is exact if and only if no working day follows a day
   that closes at 24:00: a window consumed to exactly 24:00 makes the walk step over the next day.
   */
  lemma ExactWhenNothingShadowed(f: FixedCalendar)
    requires f.WellFormed()
    ensures CountsExactly(f) <==> f.NoShadowedDay()
  {
    if f.NoShadowedDay() {
      hide FixedCalendar.Worked, FixedCalendar.NoShadowedDay, FixedCalendar.WellFormed;
      hide FixedCalendar.AsCalendar, ElapsedMs;
      forall from, to | Aligned(from) && from <= to <= f.DayStart(f.Day(from) + MAX_DAYS)
        ensures ElapsedMs(from, to, Some(f.AsCalendar())) == f.Worked(from, to)
      {
        ElapsedIsWorkedNear(f, from, to);
      }
    } else {
      var d :| f.EndsAtMidnight(d) && f.Windows(d + 1) != [];
      ShadowedDayMiscounts(f, d);
    }
  }

  /** Elapsed times add up, whatever whole minute an interval is split at. */
  lemma ElapsedAdds(f: FixedCalendar, a: int, b: int, c: int)
    requires f.WellFormed() && f.NoShadowedDay() && Aligned(a) && Aligned(b)
    requires a <= b <= c <= f.DayStart(f.Day(a) + MAX_DAYS)
    ensures ElapsedMs(a, c, Some(f.AsCalendar()))
      == ElapsedMs(a, b, Some(f.AsCalendar())) + ElapsedMs(b, c, Some(f.AsCalendar()))
  {
    hide FixedCalendar.Worked, FixedCalendar.NoShadowedDay, FixedCalendar.WellFormed;
    hide FixedCalendar.AsCalendar, ElapsedMs;
    hide FixedCalendar.Day, FixedCalendar.Horizon, Aligned;
    DayLater(f, a, b);
    ElapsedIsWorkedNear(f, a, b);
    ElapsedIsWorkedNear(f, a, c);
    ElapsedIsWorkedNear(f, b, c);
    Split(f, a, b, c);
  }

  // ---- due times are the least instants ---------------------------------------------------------

  /** `at` is the first instant by which `minutes` working minutes have gone by since `from`. */
  ghost predicate LeastDue(f: FixedCalendar, from: int, minutes: int, at: int) {
    && from < at
    && f.Worked(from, at) == minutes * MINUTE_MS
    && (forall x {:trigger f.Worked(from, x)} :: from <= x < at ==> f.Worked(from, x) < minutes * MINUTE_MS)
  }

  /** Time worked up to the end of a working instant has not been worked any earlier. */
  lemma LeastAtWork(f: FixedCalendar, from: int, minutes: int, at: int)
    requires from < at && f.Worked(from, at) == minutes * MINUTE_MS && f.Working(at - 1)
    ensures LeastDue(f, from, minutes, at)
  {
    hide FixedCalendar.Working;
    forall x | from <= x < at ensures f.Worked(from, x) < minutes * MINUTE_MS {
      Split(f, from, x, at - 1);
      Split(f, from, at - 1, at);
    }
  }

  /**
   The clock answers from the calendar exactly when its horizon holds enough working time, and then
   the due time is the least instant with exactly the minutes asked for.
   */
  lemma DueIsLeast(f: FixedCalendar, from: int, minutes: int)
    requires f.WellFormed() && f.NoShadowedDay() && Aligned(from) && minutes >= 1
    ensures Answers(from, minutes, Some(f.AsCalendar()))
      <==> f.Worked(from, f.Horizon(from, MAX_DAYS)) >= minutes * MINUTE_MS
    ensures Answers(from, minutes, Some(f.AsCalendar())) ==>
      LeastDue(f, from, minutes, DueAt(from, minutes, Some(f.AsCalendar())))
      && Aligned(DueAt(from, minutes, Some(f.AsCalendar())))
  {
    hide FixedCalendar.Working, FixedCalendar.NoShadowedDay, FixedCalendar.WellFormed;
    hide FixedCalendar.AsCalendar, AddDays;
    hide LeastDue, FixedCalendar.Worked, FixedCalendar.Horizon, Aligned;
    var days := MAX_DAYS;
    DaysAdded(f, days, from, minutes);
    if Answers(from, minutes, Some(f.AsCalendar())) {
      var at := DueAt(from, minutes, Some(f.AsCalendar()));
      LeastAtWork(f, from, minutes, at);
      Split(f, from, at, f.Horizon(from, days));
      WorkedNonNegative(f, at, f.Horizon(from, days));
    }
  }

  lemma LeastDueUnique(f: FixedCalendar, from: int, minutes: int, p: int, q: int)
    requires LeastDue(f, from, minutes, p) && LeastDue(f, from, minutes, q)
    ensures p == q
  {
  }

  lemma {:induction false} DayAfterMonotone(f: FixedCalendar, d: int, e: int, days: nat)
    requires d <= e
    ensures f.DayAfter(d, days) <= f.DayAfter(e, days)
    decreases days
  {
    if days > 0 { DayAfterMonotone(f, f.Following(d), f.Following(e), days - 1); }
  }

  /** Adding `a` minutes and then `b` is adding `a + b`. */
  lemma DueComposes(f: FixedCalendar, from: int, a: int, b: int)
    requires f.WellFormed() && f.NoShadowedDay() && Aligned(from) && a >= 1 && b >= 1
    requires Answers(from, a + b, Some(f.AsCalendar()))
    ensures var cal := Some(f.AsCalendar());
      DueAt(DueAt(from, a, cal), b, cal) == DueAt(from, a + b, cal)
  {
    hide FixedCalendar.Worked, FixedCalendar.NoShadowedDay, FixedCalendar.WellFormed, FixedCalendar.AsCalendar;
    hide FixedCalendar.Day, AddDays, DueAt, Answers;
    var cal := Some(f.AsCalendar());
    var days := MAX_DAYS;
    DueIsLeast(f, from, a);
    DueIsLeast(f, from, a + b);
    var mid := DueAt(from, a, cal);
    DayLater(f, from, mid);
    DayAfterMonotone(f, f.Day(from), f.Day(mid), days);
    var near, far := f.Horizon(from, days), f.Horizon(mid, days);
    DueIsLeast(f, mid, b);
    DueWithinHorizon(f, from, a);
    Split(f, from, mid, near);
    Split(f, mid, near, far);
    WorkedNonNegative(f, near, far);
    var at := DueAt(mid, b, cal);
    Split(f, from, mid, at);
    forall x | from <= x < at ensures f.Worked(from, x) < (a + b) * MINUTE_MS {
      if x >= mid {
        Split(f, from, mid, x);
      } else {
        Split(f, from, x, mid);
        WorkedNonNegative(f, x, mid);
      }
    }
    LeastDueUnique(f, from, a + b, at, DueAt(from, a + b, cal));
  }

  lemma DayLater(f: FixedCalendar, s: int, t: int)
    requires s <= t
    ensures f.Day(s) <= f.Day(t)
  {
    Position(f, s);
    Position(f, t);
  }

  lemma DueWithinHorizon(f: FixedCalendar, from: int, minutes: int)
    requires f.WellFormed() && f.NoShadowedDay() && Aligned(from) && minutes >= 1
    requires Answers(from, minutes, Some(f.AsCalendar()))
    ensures DueAt(from, minutes, Some(f.AsCalendar())) <= f.Horizon(from, MAX_DAYS)
  {
    var days := MAX_DAYS;
    DaysAdded(f, days, from, minutes);
  }

  // ---- instants inside a minute: off by less than a minute ------------------------------------------

  /** Within a minute the counting walk of a day is the aligned walk, carried along by `s`. */
  lemma {:induction false} CountShifted(
    f: FixedCalendar, windows: seq<Window>, cursor: int, s: int, to: int, total: int)
    requires Aligned(cursor) && 0 <= s < MINUTE_MS
    ensures CountWindows(f.AsCalendar(), windows, cursor + s, to + s, total)
      == match CountWindows(f.AsCalendar(), windows, cursor, to, total)
         case Stopped(sum) => Stopped(sum)
         case Walking(c, sum) => Walking(c + s, sum)
    ensures var day := CountWindows(f.AsCalendar(), windows, cursor, to, total);
      day.Walking? && cursor < to ==> Aligned(day.cursor) && day.cursor < to
  {
    hide FixedCalendar.Day, FixedCalendar.DayStart, FixedCalendar.Windows, FixedCalendar.MinuteAt;
    hide FixedCalendar.AsCalendar, Aligned, Clock.ToMins;
    if windows != [] {
      var cal := f.AsCalendar();
      SameMinute(f, cursor, s);
      Position(f, cursor);
      Position(f, cursor + s);
      var pos := cal.Pos(cursor);
      var endM := windows[0].end.ToMins();
      if endM <= pos {
        CountShifted(f, windows[1..], cursor, s, to, total);
      } else {
        var opens := cursor + (Max(windows[0].start.ToMins(), pos) - pos) * MINUTE_MS;
        var closes := cursor + (endM - pos) * MINUTE_MS;
        WholeMinutesLater(cursor, endM - pos);
        if opens < to && closes < to {
          CountShifted(f, windows[1..], closes, s, to, total + Max(0, closes - opens));
        }
      }
    }
  }

  /**
   From `s` milliseconds into a minute, the start is rounded down to the minute and the end may be moved back by
   `s`.
   */
  lemma DaysCountedInsideMinute(f: FixedCalendar, days: nat, start: int, s: int, to: int)
    requires f.WellFormed() && f.NoShadowedDay() && Aligned(start) && 0 <= s < MINUTE_MS && start + s < to && days > 0
    ensures var elapsed := CountDays(f.AsCalendar(), days, start + s, to, 0);
      || elapsed == f.Worked(start, Min(to, f.Horizon(start, days)))
      || elapsed == f.Worked(start, to - s)
  {
    hide FixedCalendar.MinuteAt, FixedCalendar.Windows, FixedCalendar.Worked, FixedCalendar.Working;
    hide FixedCalendar.AsCalendar, Aligned;
    hide Standing, FixedCalendar.NoShadowedDay, CountWindows, FixedCalendar.Day;
    var d := f.Day(start);
    var ws := f.Windows(d)[0..];
    Starting(f, start);
    SameMinute(f, start, s);
    Position(f, start + s);
    CountShifted(f, ws, start, s, to - s, 0);
    DayCounted(f, d, 0, start, to - s, 0);
    match CountWindows(f.AsCalendar(), ws, start, to - s, 0)
    case Stopped(_) =>
    case Walking(c, sum) =>
      ToFollowingDay(f, d, c);
      SameMinute(f, c, s);
      NextDayStart(f, c);
      NextDayStart(f, c + s);
      var next := f.AsCalendar().NextDay(c);
      DayAfterLater(f, f.Following(d), days - 1);
      DaysCounted(f, days - 1, next, to, sum);
      var end := Min(to, f.Horizon(start, days));
      AcrossGap(f, start, c, next, end);
  }

  /**
   For arbitrary instants the clock is off by strictly less than one minute, however many days and
   windows the interval crosses.
   */
  lemma ElapsedWithinAMinute(f: FixedCalendar, from: int, to: int)
    requires f.WellFormed() && f.NoShadowedDay() && to <= f.DayStart(f.Day(from) + MAX_DAYS)
    ensures -MINUTE_MS < ElapsedMs(from, to, Some(f.AsCalendar())) - f.Worked(from, to) < MINUTE_MS
  {
    hide FixedCalendar.Worked, FixedCalendar.NoShadowedDay, FixedCalendar.WellFormed;
    hide FixedCalendar.AsCalendar, CountDays;
    hide FixedCalendar.DayAfter, FixedCalendar.Day;
    if from < to {
      var s := from % MINUTE_MS;
      var start := from - s;
      var days := MAX_DAYS;
      SameMinute(f, start, s);
      HorizonIsFar(f, start, days);
      DaysCountedInsideMinute(f, days, start, s, to);
      Split(f, start, from, to);
      Split(f, start, to - s, to);
      WorkedNonNegative(f, start, from);
      WorkedNonNegative(f, to - s, to);
    } else {
      WorkedNonNegative(f, from, to);
    }
  }

  // ---- capacity: when the fallback is never taken ------------------------------------------------------

  /** Working minutes of a day. */
  function WindowMinutes(windows: seq<Window>): int {
    if windows == [] then 0
    else windows[0].end.ToMins() - windows[0].start.ToMins() + WindowMinutes(windows[1..])
  }

  /** Working minutes of the `n` days from day `d` on. */
  function DaysMinutes(f: FixedCalendar, d: int, n: nat): int {
    if n == 0 then 0 else DaysMinutes(f, d, n - 1) + WindowMinutes(f.Windows(d + n - 1))
  }

  lemma {:induction false} DayWorked(f: FixedCalendar, d: int, i: nat, from: int)
    requires f.WellFormed() && i <= |f.Windows(d)| && 0 <= from <= DAY_MINUTES
    requires forall j :: 0 <= j < i ==> f.Windows(d)[j].end.ToMins() <= from
    requires i < |f.Windows(d)| ==> from <= f.Windows(d)[i].start.ToMins()
    ensures f.Worked(f.DayStart(d) + from * MINUTE_MS, f.DayStart(d + 1))
      == WindowMinutes(f.Windows(d)[i..]) * MINUTE_MS
    decreases |f.Windows(d)| - i
  {
    hide FixedCalendar.Worked, FixedCalendar.Windows;
    DaysSorted(f, d);
    var ws := f.Windows(d);
    var base := f.DayStart(d);
    assert f.DayStart(d + 1) == base + DAY_MINUTES * MINUTE_MS;
    if i == |ws| {
      IdleBetween(f, d, from, DAY_MINUTES);
    } else {
      var startM, endM := ws[i].start.ToMins(), ws[i].end.ToMins();
      assert ws[i..][0] == ws[i] && ws[i..][1..] == ws[i + 1..];
      IdleBetween(f, d, from, startM);
      BusyInside(f, d, i, base + startM * MINUTE_MS, base + endM * MINUTE_MS);
      DayWorked(f, d, i + 1, endM);
      Split(f, base + from * MINUTE_MS, base + startM * MINUTE_MS, f.DayStart(d + 1));
      Split(f, base + startM * MINUTE_MS, base + endM * MINUTE_MS, f.DayStart(d + 1));
    }
  }

  lemma {:induction false} DaysWorked(f: FixedCalendar, d: int, n: nat)
    requires f.WellFormed()
    ensures f.Worked(f.DayStart(d), f.DayStart(d + n)) == DaysMinutes(f, d, n) * MINUTE_MS
  {
    hide FixedCalendar.Worked, FixedCalendar.Windows;
    if n > 0 {
      DaysWorked(f, d, n - 1);
      DaysSorted(f, d + n - 1);
      assert f.Windows(d + n - 1)[0..] == f.Windows(d + n - 1);
      DayWorked(f, d + n - 1, 0, 0);
      Split(f, f.DayStart(d), f.DayStart(d + n - 1), f.DayStart(d + n));
    } else {
      WorkedNonNegative(f, f.DayStart(d), f.DayStart(d));
    }
  }

  /** Working minutes of the week, day by day from Sunday. */
  function WeekMinutes(weekly: map<string, seq<Window>>): int {
    WeekdayMinutes(weekly, 0) + WeekdayMinutes(weekly, 1) + WeekdayMinutes(weekly, 2) + WeekdayMinutes(weekly, 3)
    + WeekdayMinutes(weekly, 4) + WeekdayMinutes(weekly, 5) + WeekdayMinutes(weekly, 6)
  }

  function WeekdayMinutes(weekly: map<string, seq<Window>>, k: nat): int
    requires k < 7
  {
    if DAY_KEYS[k] in weekly then WindowMinutes(weekly[DAY_KEYS[k]]) else 0
  }

  lemma DayMinutes(f: FixedCalendar, d: int)
    requires f.holidays == []
    ensures WindowMinutes(f.Windows(d)) == WeekdayMinutes(f.weekly, (d + 4) % 7)
  {
  }

  /** Any seven consecutive days hold a week's working minutes. */
  lemma AnyWeek(f: FixedCalendar, d: int)
    requires f.holidays == []
    ensures DaysMinutes(f, d, 7) == WeekMinutes(f.weekly)
  {
    hide FixedCalendar.Windows, WindowMinutes, WeekdayMinutes;
    WeekUnfolded(f, d);
    DayMinutes(f, d);
    DayMinutes(f, d + 1);
    DayMinutes(f, d + 2);
    DayMinutes(f, d + 3);
    DayMinutes(f, d + 4);
    DayMinutes(f, d + 5);
    DayMinutes(f, d + 6);
    var r := (d + 4) % 7;
    assert r == 0 || r == 1 || r == 2 || r == 3 || r == 4 || r == 5 || r == 6;
  }

  lemma WeekUnfolded(f: FixedCalendar, d: int)
    ensures DaysMinutes(f, d, 7) == WindowMinutes(f.Windows(d)) + WindowMinutes(f.Windows(d + 1))
      + WindowMinutes(f.Windows(d + 2)) + WindowMinutes(f.Windows(d + 3)) + WindowMinutes(f.Windows(d + 4))
      + WindowMinutes(f.Windows(d + 5)) + WindowMinutes(f.Windows(d + 6))
  {
    hide FixedCalendar.Windows, WindowMinutes;
    OneMoreDay(f, d, 0);
    OneMoreDay(f, d, 1);
    OneMoreDay(f, d, 2);
    OneMoreDay(f, d, 3);
    OneMoreDay(f, d, 4);
    OneMoreDay(f, d, 5);
    OneMoreDay(f, d, 6);
  }

  lemma OneMoreDay(f: FixedCalendar, d: int, n: nat)
    ensures DaysMinutes(f, d, n + 1) == DaysMinutes(f, d, n) + WindowMinutes(f.Windows(d + n))
    ensures DaysMinutes(f, d, 0) == 0
  {
  }

  lemma {:induction false} Weeks(f: FixedCalendar, d: int, weeks: nat)
    requires f.holidays == []
    ensures DaysMinutes(f, d, 7 * weeks) == weeks * WeekMinutes(f.weekly)
  {
    hide WeekMinutes, DaysMinutes, FixedCalendar.Windows;
    if weeks > 0 {
      var week := WeekMinutes(f.weekly);
      Weeks(f, d, weeks - 1);
      DaysSplit(f, d, 7 * (weeks - 1), 7);
      AnyWeek(f, d + 7 * (weeks - 1));
      assert weeks * week == (weeks - 1) * week + week;
    } else {
      OneMoreDay(f, d, 0);
    }
  }

  lemma {:induction false} DaysSplit(f: FixedCalendar, d: int, m: nat, n: nat)
    ensures DaysMinutes(f, d, m + n) == DaysMinutes(f, d, m) + DaysMinutes(f, d + m, n)
  {
    if n > 0 { DaysSplit(f, d, m, n - 1); }
  }

  /**
   Without holidays the clock-time fallback is never taken for up to 57 weeks of working time:
   after the first, partial day a walk still has 399 = 57 * 7 whole days before it.
   */
  lemma FallbackNotTaken(f: FixedCalendar, from: int, minutes: int)
    requires f.WellFormed() && f.NoShadowedDay() && f.holidays == []
    requires 1 <= minutes <= 57 * WeekMinutes(f.weekly)
    ensures Answers(from, minutes, Some(f.AsCalendar()))
  {
    hide FixedCalendar.Worked, FixedCalendar.Working, FixedCalendar.Windows, FixedCalendar.AsCalendar, WeekMinutes;
    hide AddWindows, FixedCalendar.NoShadowedDay, DaysMinutes;
    var cal := f.AsCalendar();
    var days: nat := MAX_DAYS;
    AddWindowsForward(cal, cal.WindowsAt(from), from, minutes);
    match AddWindows(cal, cal.WindowsAt(from), from, minutes)
    case Reached(_) =>
      assert AddDays(cal, days, from, minutes).Some?;
    case Owing(c, r) =>
      NextDayStart(f, c);
      var d := f.Day(c) + 1;
      var next := f.DayStart(d);
      At(f, d, 0, next);
      assert next == (d * DAY_MINUTES - f.offset) * MINUTE_MS;
      DaysAdded(f, days - 1, next, r);
      HorizonIsFar(f, next, days - 1);
      DaysWorked(f, d, 399);
      Weeks(f, d, 57);
      var whole := f.DayStart(d + 399);
      Split(f, next, whole, f.Horizon(next, days - 1));
      WorkedNonNegative(f, whole, f.Horizon(next, days - 1));
      assert AddDays(cal, days, from, minutes) == AddDays(cal, days - 1, next, r);
  }
}
