/**
 Windows that close before they open, and which of them break the round trip of the SLA clock.

 Schedules are stored unchecked, so a night shift may be entered as "22:00"-"06:00". The adding walk
 skips such a window. The counting walk goes through it: it stops there when the window opens after
 the due time, and otherwise jumps to where it closes. The zone has a constant whole-minute offset and
 clock readings are before 24:00; windows come in any order and may overlap.
 */
module ReversedWindows {
  import opened Options
  import opened Numbers
  import opened BusinessHours
  import opened WorkingTime

  predicate WithinDay(ws: seq<Window>) {
    forall i :: 0 <= i < |ws| ==> 0 <= ws[i].start.ToMins() < DAY_MINUTES && 0 <= ws[i].end.ToMins() < DAY_MINUTES
  }

  ghost predicate ReadsWithinDay(f: FixedCalendar) {
    forall key :: key in f.weekly ==> WithinDay(f.weekly[key])
  }

  // ---- where the walks stand ----------------------------------------------------------

  /** The minute the adding walk has reached before window `k`. */
  function AddingPos(ws: seq<Window>, k: nat, pos: int): int
    requires k <= |ws|
  {
    if k == 0 then pos else
    var p := AddingPos(ws, k - 1, pos);
    if ws[k - 1].Proper() then Max(p, ws[k - 1].end.ToMins()) else p
  }

  /** The minute the counting walk has reached before window `k`, unless it has stopped. */
  function CountingPos(ws: seq<Window>, k: nat, pos: int): int
    requires k <= |ws|
  {
    if k == 0 then pos else Max(CountingPos(ws, k - 1, pos), ws[k - 1].end.ToMins())
  }

  /**
   Window `i` is reversed and closes later than every window before it, and the later window `j` has
   working time for the adding walk before `i` opens.
   */
  predicate Clash(ws: seq<Window>, i: nat, j: nat) {
    && i < j < |ws|
    && !ws[i].Proper() && CountingPos(ws, i, 0) < ws[i].end.ToMins()
    && ws[j].Proper() && AddingPos(ws, j, 0) < ws[j].end.ToMins()
    && Max(ws[j].start.ToMins(), AddingPos(ws, j, 0)) < ws[i].start.ToMins()
  }

  predicate Clashes(ws: seq<Window>) { exists i: nat, j: nat :: i < |ws| && j < |ws| && Clash(ws, i, j) }

  lemma {:induction false} Positions(ws: seq<Window>, k: nat, pos: int)
    requires k <= |ws| && 0 <= pos
    ensures AddingPos(ws, k, 0) <= AddingPos(ws, k, pos)
    ensures CountingPos(ws, k, 0) <= CountingPos(ws, k, pos)
    ensures pos <= AddingPos(ws, k, pos) <= CountingPos(ws, k, pos)
    ensures WithinDay(ws) && pos < DAY_MINUTES ==> CountingPos(ws, k, pos) < DAY_MINUTES
  {
    if k > 0 { Positions(ws, k - 1, pos); }
  }

  /** When the counting walk is ahead, a reversed window has taken it there. */
  lemma {:induction false} Leader(ws: seq<Window>, k: nat, pos: int) returns (i: nat)
    requires k <= |ws| && 0 <= pos && AddingPos(ws, k, pos) < CountingPos(ws, k, pos)
    ensures i < k && !ws[i].Proper() && CountingPos(ws, i, 0) < ws[i].end.ToMins() == CountingPos(ws, k, pos)
  {
    var last := ws[k - 1];
    if CountingPos(ws, k - 1, pos) < last.end.ToMins() {
      i := k - 1;
      Positions(ws, i, pos);
    } else {
      i := Leader(ws, k - 1, pos);
    }
  }

  // ---- instants of one day ---------------------------------------------------------------

  /** Minute `p` of day `d`, and `s` milliseconds. */
  function Instant(f: FixedCalendar, d: int, s: int, p: int): int { f.DayStart(d) + s + p * MINUTE_MS }

  predicate InMinute(s: int) { 0 <= s < MINUTE_MS }

  lemma InstantOf(f: FixedCalendar, d: int, s: int, p: int)
    requires InMinute(s) && 0 <= p < DAY_MINUTES
    ensures var t := Instant(f, d, s, p);
      && f.AsCalendar().Pos(t) == p && f.AsCalendar().WindowsAt(t) == f.Windows(d)
      && f.AsCalendar().NextDay(t) == f.DayStart(d + 1) && t < f.DayStart(d + 1)
  {
    var t := Instant(f, d, s, p);
    At(f, d, p, t);
    Position(f, t);
    NextDayStart(f, t);
  }

  lemma DayOf(f: FixedCalendar, t: int) returns (d: int, s: int, p: int)
    ensures InMinute(s) && 0 <= p < DAY_MINUTES && t == Instant(f, d, s, p)
  {
    Position(f, t);
    d, p := f.Day(t), f.MinuteAt(t);
    s := t - f.DayStart(d) - p * MINUTE_MS;
  }

  // ---- without a clash the walks agree -----------------------------------------------------

  /** One step of each walk. */
  lemma AddStep(f: FixedCalendar, d: int, s: int, ws: seq<Window>, k: nat, p: int, remaining: int)
    requires InMinute(s) && 0 <= p < DAY_MINUTES && k < |ws|
    ensures var w := ws[k];
      var opens := Max(w.start.ToMins(), p);
      var available := w.end.ToMins() - opens;
      AddWindows(f.AsCalendar(), ws[k..], Instant(f, d, s, p), remaining)
      == if !w.Proper() || w.end.ToMins() <= p
         then AddWindows(f.AsCalendar(), ws[k + 1..], Instant(f, d, s, p), remaining)
         else if remaining <= available then Reached(Instant(f, d, s, opens + remaining))
         else AddWindows(f.AsCalendar(), ws[k + 1..], Instant(f, d, s, w.end.ToMins()), remaining - available)
  {
    hide FixedCalendar.AsCalendar, FixedCalendar.DayStart, Clock.ToMins;
    InstantOf(f, d, s, p);
    assert ws[k..][0] == ws[k] && ws[k..][1..] == ws[k + 1..];
  }

  lemma CountStep(f: FixedCalendar, d: int, s: int, ws: seq<Window>, k: nat, q: int, to: int, total: int)
    requires InMinute(s) && 0 <= q < DAY_MINUTES && k < |ws|
    ensures var w := ws[k];
      var opens, closes := Instant(f, d, s, Max(w.start.ToMins(), q)), Instant(f, d, s, w.end.ToMins());
      CountWindows(f.AsCalendar(), ws[k..], Instant(f, d, s, q), to, total)
      == if w.end.ToMins() <= q then CountWindows(f.AsCalendar(), ws[k + 1..], Instant(f, d, s, q), to, total)
         else if opens >= to then Stopped(total)
         else if closes >= to then Stopped(total + (to - opens))
         else CountWindows(f.AsCalendar(), ws[k + 1..], closes, to, total + Max(0, closes - opens))
  {
    hide FixedCalendar.AsCalendar, FixedCalendar.DayStart, Clock.ToMins;
    InstantOf(f, d, s, q);
    assert ws[k..][0] == ws[k] && ws[k..][1..] == ws[k + 1..];
  }

  /** An adding walk that reaches an instant does so in a window that has working time for it. */
  lemma {:induction false} ReachedIn(
    f: FixedCalendar, d: int, s: int, ws: seq<Window>, k: nat, pos: int, remaining: int)
    returns (j: nat)
    requires InMinute(s) && WithinDay(ws) && 0 <= pos < DAY_MINUTES && k <= |ws| && remaining >= 1
    requires AddWindows(f.AsCalendar(), ws[k..], Instant(f, d, s, AddingPos(ws, k, pos)), remaining).Reached?
    ensures k <= j < |ws| && ws[j].Proper() && AddingPos(ws, j, pos) < ws[j].end.ToMins()
    ensures AddWindows(f.AsCalendar(), ws[k..], Instant(f, d, s, AddingPos(ws, k, pos)), remaining).at
      > Instant(f, d, s, Max(ws[j].start.ToMins(), AddingPos(ws, j, pos)))
    decreases |ws| - k
  {
    hide FixedCalendar.AsCalendar, FixedCalendar.DayStart, Clock.ToMins, AddWindows;
    if k == |ws| {
      NoWindows(f, ws, Instant(f, d, s, AddingPos(ws, k, pos)), remaining);
      assert false;
    }
    var p := AddingPos(ws, k, pos);
    Positions(ws, k, pos);
    AddStep(f, d, s, ws, k, p, remaining);
    var w := ws[k];
    var available := w.end.ToMins() - Max(w.start.ToMins(), p);
    if !w.Proper() || w.end.ToMins() <= p {
      j := ReachedIn(f, d, s, ws, k + 1, pos, remaining);
    } else if remaining <= available {
      j := k;
    } else {
      j := ReachedIn(f, d, s, ws, k + 1, pos, remaining - available);
    }
  }

  lemma NoWindows(f: FixedCalendar, ws: seq<Window>, cursor: int, remaining: int)
    ensures AddWindows(f.AsCalendar(), ws[|ws|..], cursor, remaining) == Owing(cursor, remaining)
    ensures forall to, total :: CountWindows(f.AsCalendar(), ws[|ws|..], cursor, to, total) == Walking(cursor, total)
  {
  }

  /** Where the adding walk of a day that still owes minutes stands. */
  lemma {:induction false} AddEnds(f: FixedCalendar, d: int, s: int, ws: seq<Window>, k: nat, pos: int, remaining: int)
    requires InMinute(s) && WithinDay(ws) && 0 <= pos < DAY_MINUTES && k <= |ws| && remaining >= 1
    ensures var walk := AddWindows(f.AsCalendar(), ws[k..], Instant(f, d, s, AddingPos(ws, k, pos)), remaining);
      walk.Owing? ==> walk.cursor == Instant(f, d, s, AddingPos(ws, |ws|, pos)) && 1 <= walk.remaining
    decreases |ws| - k
  {
    hide FixedCalendar.AsCalendar, FixedCalendar.DayStart, Clock.ToMins, AddWindows;
    var p := AddingPos(ws, k, pos);
    Positions(ws, k, pos);
    if k == |ws| {
      NoWindows(f, ws, Instant(f, d, s, p), remaining);
    } else {
      var w := ws[k];
      AddStep(f, d, s, ws, k, p, remaining);
      var available := w.end.ToMins() - Max(w.start.ToMins(), p);
      if !w.Proper() || w.end.ToMins() <= p {
        AddEnds(f, d, s, ws, k + 1, pos, remaining);
      } else if remaining > available {
        AddEnds(f, d, s, ws, k + 1, pos, remaining - available);
      }
    }
  }

  /** Where a day's adding walk ends, for a due time `to`. */
  predicate Aims(f: FixedCalendar, d: int, walk: Owing, to: int) {
    if walk.Reached? then to == walk.at else to > f.DayStart(d + 1)
  }

  lemma {:induction false} DayAgrees(
    f: FixedCalendar, d: int, s: int, ws: seq<Window>, k: nat, pos: int, remaining: int, to: int, total: int)
    requires InMinute(s) && WithinDay(ws) && !Clashes(ws) && 0 <= pos < DAY_MINUTES && k <= |ws| && remaining >= 1
    requires Aims(f, d, AddWindows(f.AsCalendar(), ws[k..], Instant(f, d, s, AddingPos(ws, k, pos)), remaining), to)
    ensures var walk := AddWindows(f.AsCalendar(), ws[k..], Instant(f, d, s, AddingPos(ws, k, pos)), remaining);
      CountWindows(f.AsCalendar(), ws[k..], Instant(f, d, s, CountingPos(ws, k, pos)), to, total)
      == match walk
         case Reached(_) => Stopped(total + remaining * MINUTE_MS)
         case Owing(c, r) => Walking(Instant(f, d, s, CountingPos(ws, |ws|, pos)), total + (remaining - r) * MINUTE_MS)
    decreases |ws| - k
  {
    hide FixedCalendar.AsCalendar, FixedCalendar.DayStart, Clock.ToMins, AddWindows, CountWindows, Clashes;
    var p, q := AddingPos(ws, k, pos), CountingPos(ws, k, pos);
    Positions(ws, k, pos);
    if k == |ws| {
      NoWindows(f, ws, Instant(f, d, s, p), remaining);
      NoWindows(f, ws, Instant(f, d, s, q), remaining);
    } else {
      var w := ws[k];
      AddStep(f, d, s, ws, k, p, remaining);
      CountStep(f, d, s, ws, k, q, to, total);
      if w.Proper() && p < w.end.ToMins() {
        MeetsWindow(ws, k, pos);
        var opens := Max(w.start.ToMins(), p);
        var available := w.end.ToMins() - opens;
        if remaining > available {
          BeyondWindow(f, d, s, ws, k, pos, remaining - available, to);
          DayAgrees(f, d, s, ws, k + 1, pos, remaining - available, to, total + available * MINUTE_MS);
        }
      } else {
        if q < w.end.ToMins() { PassesReversed(f, d, s, ws, k, pos, remaining, to); }
        DayAgrees(f, d, s, ws, k + 1, pos, remaining, to, total);
      }
    }
  }

  /** Where the adding walk finds working time the counting walk is not past it. */
  lemma MeetsWindow(ws: seq<Window>, k: nat, pos: int)
    requires k < |ws| && 0 <= pos && !Clashes(ws)
    requires ws[k].Proper() && AddingPos(ws, k, pos) < ws[k].end.ToMins()
    ensures Max(ws[k].start.ToMins(), AddingPos(ws, k, pos)) == Max(ws[k].start.ToMins(), CountingPos(ws, k, pos))
    ensures CountingPos(ws, k, pos) < ws[k].end.ToMins()
  {
    Positions(ws, k, pos);
    if AddingPos(ws, k, pos) < CountingPos(ws, k, pos) {
      var i := Leader(ws, k, pos);
      assert !Clash(ws, i, k);
    }
  }

  /** The due time lies beyond a window that is used up. */
  lemma BeyondWindow(f: FixedCalendar, d: int, s: int, ws: seq<Window>, k: nat, pos: int, remaining: int, to: int)
    requires InMinute(s) && WithinDay(ws) && 0 <= pos < DAY_MINUTES && k < |ws| && remaining >= 1
    requires ws[k].Proper() && AddingPos(ws, k, pos) < ws[k].end.ToMins()
    requires Aims(f, d, AddWindows(f.AsCalendar(), ws[k + 1..], Instant(f, d, s, ws[k].end.ToMins()), remaining), to)
    ensures Instant(f, d, s, ws[k].end.ToMins()) < to
  {
    hide FixedCalendar.AsCalendar, FixedCalendar.DayStart, Clock.ToMins, AddWindows;
    AddWindowsForward(f.AsCalendar(), ws[k + 1..], Instant(f, d, s, ws[k].end.ToMins()), remaining);
    InstantOf(f, d, s, ws[k].end.ToMins());
  }

  /** The due time lies beyond the opening of a reversed window that the counting walk goes through. */
  lemma PassesReversed(f: FixedCalendar, d: int, s: int, ws: seq<Window>, k: nat, pos: int, remaining: int, to: int)
    requires InMinute(s) && WithinDay(ws) && !Clashes(ws) && 0 <= pos < DAY_MINUTES && k < |ws| && remaining >= 1
    requires !ws[k].Proper() && CountingPos(ws, k, pos) < ws[k].end.ToMins()
    requires Aims(f, d, AddWindows(f.AsCalendar(), ws[k + 1..], Instant(f, d, s, AddingPos(ws, k, pos)), remaining), to)
    ensures Instant(f, d, s, ws[k].start.ToMins()) < to
    ensures Instant(f, d, s, ws[k].end.ToMins()) <= Instant(f, d, s, ws[k].start.ToMins())
  {
    hide FixedCalendar.AsCalendar, FixedCalendar.DayStart, Clock.ToMins, AddWindows;
    var walk := AddWindows(f.AsCalendar(), ws[k + 1..], Instant(f, d, s, AddingPos(ws, k, pos)), remaining);
    InstantOf(f, d, s, ws[k].start.ToMins());
    if walk.Reached? {
      var j := ReachedIn(f, d, s, ws, k + 1, pos, remaining);
      Positions(ws, j, pos);
      Positions(ws, k, pos);
      assert !Clash(ws, k, j);
    }
  }

  lemma {:induction false} DaysAgree(f: FixedCalendar, days: nat, d: int, s: int, pos: int, remaining: int, total: int)
    requires ReadsWithinDay(f) && (forall e :: !Clashes(f.Windows(e)))
    requires InMinute(s) && 0 <= pos < DAY_MINUTES && remaining >= 1
    requires AddDays(f.AsCalendar(), days, Instant(f, d, s, pos), remaining).Some?
    ensures var from := Instant(f, d, s, pos);
      CountDays(f.AsCalendar(), days, from, AddDays(f.AsCalendar(), days, from, remaining).value, total)
      == total + remaining * MINUTE_MS
    decreases days
  {
    hide FixedCalendar.AsCalendar, FixedCalendar.DayStart, Clock.ToMins, AddWindows, CountWindows, Clashes;
    var cal, from, ws := f.AsCalendar(), Instant(f, d, s, pos), f.Windows(d);
    var to := AddDays(cal, days, from, remaining).value;
    InstantOf(f, d, s, pos);
    AddDaysForward(cal, days, from, remaining);
    assert ws[0..] == ws;
    Positions(ws, |ws|, pos);
    match AddWindows(cal, ws[0..], from, remaining)
    case Reached(_) => DayAgrees(f, d, s, ws, 0, pos, remaining, to, total);
    case Owing(c, r) =>
      AddEnds(f, d, s, ws, 0, pos, remaining);
      InstantOf(f, d, s, AddingPos(ws, |ws|, pos));
      AddDaysForward(cal, days - 1, cal.NextDay(c), r);
      DayAgrees(f, d, s, ws, 0, pos, remaining, to, total);
      InstantOf(f, d, s, CountingPos(ws, |ws|, pos));
      assert Instant(f, d + 1, 0, 0) == f.DayStart(d + 1);
      DaysAgree(f, days - 1, d + 1, 0, 0, r, total + (remaining - r) * MINUTE_MS);
  }

  // ---- with a clash they do not --------------------------------------------------------------

  /** Working minutes the adding walk finds in windows `k` to `j`, from minute `p`. */
  function Found(ws: seq<Window>, k: nat, j: nat, p: int): int
    requires k <= j <= |ws|
    decreases j - k
  {
    if k == j then 0
    else if ws[k].Proper() && p < ws[k].end.ToMins()
    then ws[k].end.ToMins() - Max(ws[k].start.ToMins(), p) + Found(ws, k + 1, j, ws[k].end.ToMins())
    else Found(ws, k + 1, j, p)
  }

  lemma {:induction false} FoundGrows(ws: seq<Window>, k: nat, i: nat, j: nat, p: int)
    requires k <= i <= j <= |ws|
    ensures 0 <= Found(ws, k, i, p) <= Found(ws, k, j, p)
    decreases j - k
  {
    if k < i {
      if ws[k].Proper() && p < ws[k].end.ToMins() {
        FoundGrows(ws, k + 1, i, j, ws[k].end.ToMins());
      } else {
        FoundGrows(ws, k + 1, i, j, p);
      }
    } else if k < j {
      if ws[k].Proper() && p < ws[k].end.ToMins() {
        FoundGrows(ws, k + 1, k + 1, j, ws[k].end.ToMins());
      } else {
        FoundGrows(ws, k + 1, k + 1, j, p);
      }
    }
  }

  /** One minute more than the windows before `j` hold is due one minute into window `j`. */
  lemma {:induction false} DueInWindow(f: FixedCalendar, d: int, ws: seq<Window>, k: nat, j: nat)
    requires WithinDay(ws) && k <= j < |ws|
    requires ws[j].Proper() && AddingPos(ws, j, 0) < ws[j].end.ToMins()
    ensures var p := AddingPos(ws, k, 0);
      AddWindows(f.AsCalendar(), ws[k..], Instant(f, d, 0, p), Found(ws, k, j, p) + 1)
      == Reached(Instant(f, d, 0, Max(ws[j].start.ToMins(), AddingPos(ws, j, 0)) + 1))
    decreases j - k
  {
    hide FixedCalendar.AsCalendar, FixedCalendar.DayStart, Clock.ToMins, AddWindows;
    var p := AddingPos(ws, k, 0);
    Positions(ws, k, 0);
    AddStep(f, d, 0, ws, k, p, Found(ws, k, j, p) + 1);
    if k < j {
      FoundGrows(ws, k + 1, k + 1, j, AddingPos(ws, k + 1, 0));
      DueInWindow(f, d, ws, k + 1, j);
    }
  }

  /** The counting walk stops at a reversed window `i` that opens after the due time, if not before. */
  lemma {:induction false} StopsAt(
    f: FixedCalendar, d: int, ws: seq<Window>, k: nat, i: nat, p: int, q: int, to: int, total: int)
    requires WithinDay(ws) && k <= i < |ws| && 0 <= p <= q < DAY_MINUTES && Instant(f, d, 0, q) < to
    requires !ws[i].Proper() && q < ws[i].end.ToMins() && to <= Instant(f, d, 0, ws[i].start.ToMins())
    requires forall n :: k <= n < i ==> ws[n].end.ToMins() < ws[i].end.ToMins()
    ensures var day := CountWindows(f.AsCalendar(), ws[k..], Instant(f, d, 0, q), to, total);
      day.Stopped? && day.total <= total + Found(ws, k, i, p) * MINUTE_MS
    decreases i - k
  {
    hide FixedCalendar.AsCalendar, FixedCalendar.DayStart, Clock.ToMins, CountWindows;
    CountStep(f, d, 0, ws, k, q, to, total);
    if k < i {
      var w := ws[k];
      var end := w.end.ToMins();
      var next := if w.Proper() && p < end then end else p;
      FoundGrows(ws, k + 1, k + 1, i, next);
      if end <= q {
        StopsAt(f, d, ws, k + 1, i, next, q, to, total);
      } else if Instant(f, d, 0, Max(w.start.ToMins(), q)) < to && Instant(f, d, 0, end) < to {
        var opens := Max(w.start.ToMins(), q);
        var counted := total + Max(0, Instant(f, d, 0, end) - Instant(f, d, 0, opens));
        StopsAt(f, d, ws, k + 1, i, next, end, to, counted);
      }
    }
  }

  lemma {:induction false} EarlierEnds(ws: seq<Window>, i: nat)
    requires i <= |ws|
    ensures 0 <= CountingPos(ws, i, 0)
    ensures forall n :: 0 <= n < i ==> ws[n].end.ToMins() <= CountingPos(ws, i, 0)
  {
    if i > 0 { EarlierEnds(ws, i - 1); }
  }

  /** Counting from an instant to the due time computed from it gives back the minutes that were added. */
  ghost predicate ComesBack(f: FixedCalendar, from: int, minutes: int) {
    var cal := Some(f.AsCalendar());
    Answers(from, minutes, cal) ==> ElapsedMs(from, DueAt(from, minutes, cal), cal) == minutes * MINUTE_MS
  }

  lemma ClashLosesTime(f: FixedCalendar, d: int, i: nat, j: nat) returns (minutes: int)
    requires ReadsWithinDay(f) && Clash(f.Windows(d), i, j)
    ensures minutes > 0 && Answers(f.DayStart(d), minutes, Some(f.AsCalendar()))
    ensures !ComesBack(f, f.DayStart(d), minutes)
  {
    hide FixedCalendar.AsCalendar, FixedCalendar.DayStart, Clock.ToMins, AddWindows, CountWindows, AddDays, CountDays;
    hide FixedCalendar.Windows, WithinDay;
    var ws, from := f.Windows(d), f.DayStart(d);
    DayWithin(f, d);
    assert ws[0..] == ws && from == Instant(f, d, 0, 0);
    minutes := Found(ws, 0, j, 0) + 1;
    FoundGrows(ws, 0, i, j, 0);
    DueInWindow(f, d, ws, 0, j);
    var at := Max(ws[j].start.ToMins(), AddingPos(ws, j, 0)) + 1;
    var to := Instant(f, d, 0, at);
    EarlierEnds(ws, i);
    Positions(ws, j, 0);
    StopsAt(f, d, ws, 0, i, 0, 0, to, 0);
    InstantOf(f, d, 0, 0);
    var days := MAX_DAYS;
    FirstDay(f.AsCalendar(), days, from, minutes, to);
  }

  lemma DayWithin(f: FixedCalendar, d: int)
    requires ReadsWithinDay(f)
    ensures WithinDay(f.Windows(d))
  {
  }

  /** A walk that ends on its first day. */
  lemma FirstDay(cal: Calendar, days: nat, from: int, minutes: int, to: int)
    requires days > 0
    ensures AddWindows(cal, cal.WindowsAt(from), from, minutes) == Reached(to) ==>
      AddDays(cal, days, from, minutes) == Some(to)
    ensures var day := CountWindows(cal, cal.WindowsAt(from), from, to, 0);
      from < to && day.Stopped? ==> CountDays(cal, days, from, to, 0) == day.total
  {
  }

  /**
   The round trip in a zone of constant offset, for windows in any order, reversed ones included: it
   holds from every instant, for every number of minutes, exactly when no day has a clash.
   */
  lemma RoundTripIff(f: FixedCalendar)
    requires ReadsWithinDay(f)
    ensures (forall from, minutes | minutes > 0 :: ComesBack(f, from, minutes)) <==> forall d :: !Clashes(f.Windows(d))
  {
    if forall d :: !Clashes(f.Windows(d)) {
      forall from, minutes | minutes > 0 ensures ComesBack(f, from, minutes) {
        NoClashComesBack(f, from, minutes);
      }
    } else {
      var d :| Clashes(f.Windows(d));
      var i: nat, j: nat :| i < |f.Windows(d)| && j < |f.Windows(d)| && Clash(f.Windows(d), i, j);
      var minutes := ClashLosesTime(f, d, i, j);
      assert !ComesBack(f, f.DayStart(d), minutes);
    }
  }

  lemma NoClashComesBack(f: FixedCalendar, from: int, minutes: int)
    requires ReadsWithinDay(f) && minutes > 0 && forall d :: !Clashes(f.Windows(d))
    ensures ComesBack(f, from, minutes)
  {
    hide FixedCalendar.AsCalendar, FixedCalendar.DayStart, AddDays, CountDays, Clashes, FixedCalendar.Windows;
    var cal := f.AsCalendar();
    var days := MAX_DAYS;
    if AddDays(cal, days, from, minutes).Some? {
      var d, s, p := DayOf(f, from);
      AddDaysForward(cal, days, from, minutes);
      DaysAgree(f, days, d, s, p, minutes, 0);
    }
  }

  // ---- ordered windows --------------------------------------------------------------------------

  predicate OrderedByStart(ws: seq<Window>) {
    forall i, j :: 0 <= i < j < |ws| ==> ws[i].start.ToMins() <= ws[j].start.ToMins()
  }

  /** Windows listed by when they open never clash, even if some are reversed. */
  lemma OrderedNeverClash(f: FixedCalendar, from: int, minutes: int)
    requires ReadsWithinDay(f) && minutes > 0
    requires forall d :: OrderedByStart(f.Windows(d))
    ensures ComesBack(f, from, minutes)
  {
    forall d ensures !Clashes(f.Windows(d)) {
      assert OrderedByStart(f.Windows(d));
    }
    NoClashComesBack(f, from, minutes);
  }
}
