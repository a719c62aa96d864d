/**
 Pauses and deadlines over whole runs of console transitions (`timerPatchForTransition` in
 `backend/src/sla/sla.service.ts`, `applyTransition` in `backend/src/tickets/tickets.service.ts`).

 The reference is the ticket's status history alone: a pause is a maximal stretch of pending and
 on-hold stays, and it is completed when the ticket next leaves those statuses.
 */
module PauseLedger {
  import opened Options
  import opened BusinessHours
  import opened Conversation

  /** The ticket entered `status` at `since`. */
  datatype Stay = Stay(status: Status, since: int)

  type History = h: seq<Stay> | h != [] witness [Stay(New, 0)]

  function Latest(h: History): Stay { h[|h| - 1] }

  function Earlier(h: History): History
    requires |h| > 1
  {
    h[..|h| - 1]
  }

  /** When the stretch of paused stays at the end of the history began. */
  function PauseStart(h: History): int
    requires Paused(Latest(h).status)
    decreases |h|
  {
    if |h| == 1 || !Paused(Latest(Earlier(h)).status) then Latest(h).since else PauseStart(Earlier(h))
  }

  /** The completed pauses, oldest first. */
  function Pauses(h: History): seq<(int, int)>
    decreases |h|
  {
    if |h| == 1 then [] else
    Pauses(Earlier(h)) +
    (if Paused(Latest(Earlier(h)).status) && !Paused(Latest(h).status)
     then [(PauseStart(Earlier(h)), Latest(h).since)] else [])
  }

  /** Working time of a list of pauses, in milliseconds. */
  function PausedMs(pauses: seq<(int, int)>, calendar: Option<Calendar>): int {
    if pauses == [] then 0 else
    var last := pauses[|pauses| - 1];
    PausedMs(pauses[..|pauses| - 1], calendar) + ElapsedMs(last.0, last.1, calendar)
  }

  /** A console request to move the ticket. */
  datatype Request = Request(to: Status, actor: Actor, now: int)

  /** The row and its status history after a run of requests; refused requests leave both alone. */
  function Run(t: Ticket, h: History, run: seq<Request>, calendar: Option<Calendar>): (Ticket, History)
    decreases |run|
  {
    if run == [] then (t, h) else
    var r := run[0];
    if MayMove(t, r.to, r.actor)
    then Run(Moved(t, t, r.to, r.actor, r.now, calendar), h + [Stay(r.to, r.now)], run[1..], calendar)
    else Run(t, h, run[1..], calendar)
  }

  /**
   The pause stamp tells the pause that is running, and the deadlines are the first ones moved by every completed
   pause.
   */
  predicate Balanced(first: Ticket, t: Ticket, h: History, calendar: Option<Calendar>) {
    && t.status == Latest(h).status
    && t.slaPausedAt == (if Paused(t.status) then Some(PauseStart(h)) else None)
    && t.firstResponseDueAt == Later(first.firstResponseDueAt, PausedMs(Pauses(h), calendar))
    && t.resolutionDueAt == Later(first.resolutionDueAt, PausedMs(Pauses(h), calendar))
  }

  lemma PausedMsAppend(pauses: seq<(int, int)>, from: int, to: int, calendar: Option<Calendar>)
    ensures PausedMs(pauses + [(from, to)], calendar) == PausedMs(pauses, calendar) + ElapsedMs(from, to, calendar)
  {
    assert (pauses + [(from, to)])[..|pauses|] == pauses;
  }

  lemma {:induction false} PausedMsNonNegative(pauses: seq<(int, int)>, calendar: Option<Calendar>)
    ensures PausedMs(pauses, calendar) >= 0
  {
    if pauses != [] {
      var last := pauses[|pauses| - 1];
      ElapsedWithinSpan(last.0, last.1, calendar);
      PausedMsNonNegative(pauses[..|pauses| - 1], calendar);
    }
  }

  /** What a transition does to the timers. */
  lemma MoveTimers(t: Ticket, r: Request, calendar: Option<Calendar>)
    requires MayMove(t, r.to, r.actor)
    ensures var u := Moved(t, t, r.to, r.actor, r.now, calendar);
      && u.status == r.to
      && u.slaPausedAt == (if !Paused(r.to) then None else if t.slaPausedAt.Some? then t.slaPausedAt else Some(r.now))
      && var ms := if !Paused(r.to) && t.slaPausedAt.Some? then ElapsedMs(t.slaPausedAt.value, r.now, calendar) else 0;
      && u.firstResponseDueAt == Later(t.firstResponseDueAt, ms)
      && u.resolutionDueAt == Later(t.resolutionDueAt, ms)
  {
    hide ElapsedMs, MayMove;
    var w := WithTimers(t, t, r.to, r.now, calendar);
    if Paused(r.to) {
    } else if t.slaPausedAt.Some? {
    }
  }

  lemma MoveBalances(first: Ticket, t: Ticket, h: History, r: Request, calendar: Option<Calendar>)
    requires Balanced(first, t, h, calendar) && MayMove(t, r.to, r.actor)
    ensures Balanced(first, Moved(t, t, r.to, r.actor, r.now, calendar), h + [Stay(r.to, r.now)], calendar)
  {
    hide ElapsedMs, Moved, MayMove;
    MoveTimers(t, r, calendar);
    var next: History := h + [Stay(r.to, r.now)];
    assert Earlier(next) == h && Latest(next) == Stay(r.to, r.now);
    hide PausedMs;
    if Paused(t.status) && !Paused(r.to) {
      PausedMsAppend(Pauses(h), PauseStart(h), r.now, calendar);
      assert Pauses(next) == Pauses(h) + [(PauseStart(h), r.now)];
    } else {
      assert Pauses(next) == Pauses(h) + [] == Pauses(h);
    }
  }

  lemma {:induction false} RunBalances(
    first: Ticket, t: Ticket, h: History, run: seq<Request>, calendar: Option<Calendar>)
    requires Balanced(first, t, h, calendar)
    ensures var (u, g) := Run(t, h, run, calendar); Balanced(first, u, g, calendar)
    decreases |run|
  {
    hide Balanced, Moved, MayMove;
    if run != [] {
      var r := run[0];
      if MayMove(t, r.to, r.actor) {
        MoveBalances(first, t, h, r, calendar);
        RunBalances(first, Moved(t, t, r.to, r.actor, r.now, calendar), h + [Stay(r.to, r.now)], run[1..], calendar);
      } else {
        RunBalances(first, t, h, run[1..], calendar);
      }
    }
  }

  /**
   After any run of console transitions under one calendar, each deadline is the first one plus the
   working time of the completed pauses of the status history, and never earlier than it was; going
   between pending and on-hold neither restarts nor double-counts a pause.
   */
  lemma DeadlinesFollowPauses(t: Ticket, created: int, run: seq<Request>, calendar: Option<Calendar>)
    requires t.slaPausedAt.None? && !Paused(t.status)
    ensures var (u, h) := Run(t, [Stay(t.status, created)], run, calendar);
      && Balanced(t, u, h, calendar)
      && PausedMs(Pauses(h), calendar) >= 0
  {
    var start: History := [Stay(t.status, created)];
    assert PausedMs(Pauses(start), calendar) == 0;
    RunBalances(t, t, start, run, calendar);
    var (u, h) := Run(t, start, run, calendar);
    PausedMsNonNegative(Pauses(h), calendar);
  }

  /** No transition moves a deadline earlier. */
  lemma DeadlinesNeverEarlier(t: Ticket, to: Status, actor: Actor, now: int, calendar: Option<Calendar>)
    ensures var u := Moved(t, t, to, actor, now, calendar);
      && (t.firstResponseDueAt.Some? ==>
            u.firstResponseDueAt.Some? && t.firstResponseDueAt.value <= u.firstResponseDueAt.value)
      && (t.resolutionDueAt.Some? ==> u.resolutionDueAt.Some? && t.resolutionDueAt.value <= u.resolutionDueAt.value)
  {
    hide ElapsedMs, Moved, MayMove;
    if t.slaPausedAt.Some? { ElapsedWithinSpan(t.slaPausedAt.value, now, calendar); }
    if MayMove(t, to, actor) {
      MoveTimers(t, Request(to, actor, now), calendar);
    } else {
      RefusedMove(t, to, actor, now, calendar);
    }
  }

  lemma RefusedMove(t: Ticket, to: Status, actor: Actor, now: int, calendar: Option<Calendar>)
    requires !MayMove(t, to, actor)
    ensures Moved(t, t, to, actor, now, calendar) == t
  {
  }

  /** Under a 24/7 policy the time left when a pause ends is the time left when it began. */
  lemma TimeLeftSurvivesPause(t: Ticket, to: Status, actor: Actor, now: int)
    requires t.slaPausedAt.Some? && t.slaPausedAt.value <= now && MayMove(t, to, actor) && !Paused(to)
    ensures var u := Moved(t, t, to, actor, now, None);
      && u.slaPausedAt.None?
      && (t.firstResponseDueAt.Some? ==>
            u.firstResponseDueAt.Some?
              && u.firstResponseDueAt.value - now == t.firstResponseDueAt.value - t.slaPausedAt.value)
      && (t.resolutionDueAt.Some? ==>
            u.resolutionDueAt.Some? && u.resolutionDueAt.value - now == t.resolutionDueAt.value - t.slaPausedAt.value)
  {
  }
}
