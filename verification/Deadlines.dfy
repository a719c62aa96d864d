/**
 The deadlines a ticket is given (`computeDueTimes` in `backend/src/sla/sla.service.ts`), when it is
 created and when the bot hands it off, against the targets of its policy.
 */
module Deadlines {
  import opened Options
  import opened BusinessHours
  import opened WorkingTime
  import opened Conversation

  /** The first response falls due once its target of working time has gone by, and so does the resolution. */
  predicate MeetsTargets(t: Ticket, p: Policy, from: int) {
    && t.policyId == Some(p.id) && t.firstResponseDueAt.Some? && t.resolutionDueAt.Some?
    && ElapsedMs(from, t.firstResponseDueAt.value, p.calendar) == p.firstResponseMins * MINUTE_MS
    && ElapsedMs(from, t.resolutionDueAt.value, p.calendar) == p.resolutionMins * MINUTE_MS
  }

  /** Targets of at least a minute, a calendar with proper windows, and enough of them. */
  ghost predicate Workable(p: Policy, from: int) {
    && p.firstResponseMins >= 1 && p.resolutionMins >= 1
    && (p.calendar.Some? ==> p.calendar.value.Proper())
    && Answers(from, p.firstResponseMins, p.calendar) && Answers(from, p.resolutionMins, p.calendar)
  }

  lemma TargetsMet(t: Ticket, p: Policy, from: int)
    requires Workable(p, from)
    ensures MeetsTargets(WithDueTimes(t, Some(p), from), p, from)
  {
    hide ElapsedMs, DueAt, Answers;
    RoundTrip(from, p.firstResponseMins, p.calendar);
    RoundTrip(from, p.resolutionMins, p.calendar);
  }

  /** A ticket that the console creates and one that the bot hands off are given the targets of their policy. */
  lemma TicketsMeetTargets(t: Ticket, p: Policy, now: int, assignee: Option<nat>)
    requires Workable(p, now) && t.handedOffAt.None?
    ensures MeetsTargets(HandedOff(t, t, Some(p), now), p, now)
    ensures MeetsTargets(Created(false, assignee, Some(p), now), p, now)
  {
    hide WithDueTimes, MeetsTargets, Workable;
    forall x: Ticket ensures MeetsTargets(WithDueTimes(x, Some(p), now), p, now) {
      TargetsMet(x, p, now);
    }
  }

  /** Without a policy, and while the bot has the conversation, there are no deadlines. */
  lemma NoPolicyNoDeadlines(t: Ticket, p: Option<Policy>, now: int, assignee: Option<nat>)
    requires t.handedOffAt.None?
    ensures var h, c := HandedOff(t, t, None, now), Created(false, assignee, None, now);
      var b := Created(true, assignee, p, now);
      && h.firstResponseDueAt == h.resolutionDueAt == None && h.policyId == None
      && c.firstResponseDueAt == c.resolutionDueAt == None && c.policyId == None
      && b.firstResponseDueAt == b.resolutionDueAt == None && b.policyId == None && b.assignee == None
  {
  }

  /**
   A response that is wanted sooner falls due no later than the resolution, in any zone, unless the
   calendar answers for the response and not for the resolution.
   */
  lemma DeadlinesInOrder(t: Ticket, p: Policy, from: int)
    requires 1 <= p.firstResponseMins <= p.resolutionMins
    requires Answers(from, p.resolutionMins, p.calendar) || !Answers(from, p.firstResponseMins, p.calendar)
    ensures var u := WithDueTimes(t, Some(p), from);
      u.firstResponseDueAt.value <= u.resolutionDueAt.value
  {
    hide DueAt, Answers;
    DueMonotone(from, p.firstResponseMins, p.resolutionMins, p.calendar);
  }

  // ---- a calendar with too little time ------------------------------------------------------

  /** One minute of work a day, in UTC. */
  function Scarce(): FixedCalendar {
    var day := [Window(Clock(0, 0), Clock(0, 1))];
    FixedCalendar(0, d => "",
      map["sun" := day, "mon" := day, "tue" := day, "wed" := day, "thu" := day, "fri" := day, "sat" := day], [])
  }

  lemma ScarceDay(d: int)
    ensures Scarce().Windows(d) == [Window(Clock(0, 0), Clock(0, 1))] && !Scarce().EndsAtMidnight(d)
  {
    var r := (d + 4) % 7;
    assert r == 0 || r == 1 || r == 2 || r == 3 || r == 4 || r == 5 || r == 6;
  }

  lemma ScarceIsWellFormed()
    ensures Scarce().WellFormed() && Scarce().NoShadowedDay()
  {
    forall d ensures !Scarce().EndsAtMidnight(d) { ScarceDay(d); }
  }

  lemma {:induction false} ScarceDays(d: int, n: nat)
    ensures DaysMinutes(Scarce(), d, n) == n && Scarce().DayAfter(d, n) == d + n
    decreases n
  {
    hide FixedCalendar.Windows, FixedCalendar.EndsAtMidnight, Scarce;
    if n > 0 {
      ScarceDays(d, n - 1);
      ScarceDays(d + 1, n - 1);
      ScarceDay(d);
      ScarceDay(d + n - 1);
      OneWindow(Clock(0, 0), Clock(0, 1));
    }
  }

  lemma OneWindow(start: Clock, end: Clock)
    ensures WindowMinutes([Window(start, end)]) == end.ToMins() - start.ToMins()
  {
  }

  /**
   The exception is real: with one working minute a day, a response target of 400 minutes is due after
   more than 399 days, and a resolution target of 401 falls back to 401 minutes on the clock.
   */
  lemma ScarceDeadlinesOutOfOrder(id: nat, t: Ticket)
    ensures var p := Policy(id, 400, 401, Some(Scarce().AsCalendar()));
      var u := WithDueTimes(t, Some(p), 0);
      && u.firstResponseDueAt.Some? && u.firstResponseDueAt.value > 399 * DAY_MS
      && u.resolutionDueAt == Some(401 * MINUTE_MS)
  {
    hide DueAt, Scarce, FixedCalendar.AsCalendar, FixedCalendar.Worked, FixedCalendar.WellFormed;
    hide FixedCalendar.NoShadowedDay;
    hide FixedCalendar.Windows, AddDays, DaysMinutes, FixedCalendar.DayAfter;
    var f := Scarce();
    var days: nat := MAX_DAYS;
    var cal := Some(f.AsCalendar());
    ScarceIsWellFormed();
    ScarceStarts();
    ScarceDays(0, days);
    ScarceDays(0, days - 1);
    DaysWorked(f, 0, days);
    DaysWorked(f, 0, days - 1);
    DueIsLeast(f, 0, days);
    DueIsLeast(f, 0, days + 1);
    DueNotBeforeClock(0, days + 1, cal);
    var at := DueAt(0, days, cal);
    if at <= f.DayStart(days - 1) {
      Split(f, 0, at, f.DayStart(days - 1));
      WorkedNonNegative(f, at, f.DayStart(days - 1));
    }
  }

  lemma ScarceStarts()
    ensures forall d :: Scarce().DayStart(d) == d * DAY_MS
    ensures Scarce().Day(0) == 0 && Aligned(0)
  {
  }
}
