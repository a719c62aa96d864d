/**
 One ticket row and everything that changes it: the console (`tickets.service.ts`,
 `ticket-state-machine.ts`, `sla.service.ts`), agent replies (`messages.service.ts`), the chatbot
 API (`chat.module.ts`), merges and inbound mail (`email.service.ts`).
 */
module Conversation {
  import opened Options
  import opened BusinessHours

  // ---- the row ------------------------------------------------------------------------

  datatype Status = New | Open | Pending | OnHold | Resolved | Closed

  predicate Paused(s: Status) { s == Pending || s == OnHold }

  predicate Finished(s: Status) { s == Resolved || s == Closed }

  datatype Result = Answered | OutOfScope | Escalated

  /** What happened to the conversation, in order; kept only to state properties. */
  datatype Event =
    | BotPosted
    | HumanTook
    | BotSwitched(on: bool)

  datatype Ticket = Ticket(
    status: Status,
    byBot: bool,
    assignee: Option<nat>,
    policyId: Option<nat>,
    firstResponseDueAt: Option<int>,
    resolutionDueAt: Option<int>,
    firstRespondedAt: Option<int>,
    resolvedAt: Option<int>,
    closedAt: Option<int>,
    slaPausedAt: Option<int>,
    handedOffAt: Option<int>,
    botRepliedAt: Option<int>,
    botEnabled: bool,
    result: Option<Result>,
    refs: set<string>,
    log: seq<Event>)

  datatype Handling = Ai | EscalatedToHuman | Assigned | Human | Done

  function HandlingOf(t: Ticket): Handling {
    if Finished(t.status) then Done
    else if !t.byBot then (if t.assignee.Some? then Assigned else Human)
    else if t.handedOffAt.None? then Ai
    else if t.assignee.Some? then Assigned else EscalatedToHuman
  }

  // ---- due times and timers -------------------------------------------------------------

  datatype Policy = Policy(id: nat, firstResponseMins: int, resolutionMins: int, calendar: Option<Calendar>)

  /** `computeDueTimes` under the policy found for the priority. */
  function WithDueTimes(t: Ticket, policy: Option<Policy>, from: int): Ticket {
    match policy
    case None => t.(policyId := None, firstResponseDueAt := None, resolutionDueAt := None)
    case Some(p) =>
      t.(policyId := Some(p.id),
         firstResponseDueAt := Some(DueAt(from, p.firstResponseMins, p.calendar)),
         resolutionDueAt := Some(DueAt(from, p.resolutionMins, p.calendar)))
  }

  function Later(due: Option<int>, ms: int): Option<int> {
    if due.Some? then Some(due.value + ms) else None
  }

  /** A deadline moved from the one that was read; one that was not there is not written. */
  function Moves(read: Option<int>, due: Option<int>, ms: int): Option<int> {
    if read.Some? then Later(read, ms) else due
  }

  /** `timerPatchForTransition` on the row as it was `read`, applied to the row as it is. */
  function WithTimers(read: Ticket, t: Ticket, to: Status, now: int, calendar: Option<Calendar>): Ticket {
    var paused :=
      if Paused(to) then (if read.slaPausedAt.None? then t.(slaPausedAt := Some(now)) else t)
      else if read.slaPausedAt.Some? then
        var ms := ElapsedMs(read.slaPausedAt.value, now, calendar);
        t.(slaPausedAt := None,
           firstResponseDueAt := Moves(read.firstResponseDueAt, t.firstResponseDueAt, ms),
           resolutionDueAt := Moves(read.resolutionDueAt, t.resolutionDueAt, ms))
      else t;
    if to == Resolved then paused.(resolvedAt := Some(now))
    else if to == Closed then paused.(closedAt := Some(now))
    else paused
  }

  // ---- the state machine ------------------------------------------------------------------

  function Targets(from: Status): set<Status> {
    match from
    case New => {Open, Pending, OnHold, Resolved, Closed}
    case Open => {Pending, OnHold, Resolved, Closed}
    case Pending => {Open, OnHold, Resolved, Closed}
    case OnHold => {Open, Pending, Resolved, Closed}
    case Resolved => {Open, Closed}
    case Closed => {Open}
  }

  predicate IsReopen(from: Status, to: Status) { Finished(from) && to == Open }

  datatype Actor = ApiKey | Agent | Lead | Admin

  /** A transition that is not refused. */
  predicate MayMove(t: Ticket, to: Status, actor: Actor) {
    to in Targets(t.status) && (IsReopen(t.status, to) ==> actor != ApiKey && actor != Agent)
  }

  // Every writer reads the row first and writes it later. In what follows the row as it was `read`
  // decides, and the row `t` as it is by then is updated; with nobody in between they are the same.

  /** `patch` with a status; a refusal or a no-op leaves the row alone. */
  function Moved(read: Ticket, t: Ticket, to: Status, actor: Actor, now: int, calendar: Option<Calendar>): Ticket {
    if !MayMove(read, to, actor) then t else
    var u := WithTimers(read, t, to, now, calendar).(status := to);
    if IsReopen(read.status, to) then u.(resolvedAt := None, closedAt := None) else u
  }

  // ---- the other writers ----------------------------------------------------------------------

  /** Only a person's public message counts. */
  predicate Counts(actor: Actor, note: bool) { actor != ApiKey && !note }

  /** `MessagesService.add` */
  function Replied(read: Ticket, t: Ticket, actor: Actor, note: bool, now: int): Ticket {
    if !Counts(actor, note) then t else
    t.(firstRespondedAt := if read.firstRespondedAt.None? then Some(now) else t.firstRespondedAt,
       status := if read.status == New then Open else t.status,
       botEnabled := false,
       handedOffAt := if read.handedOffAt.None? then Some(now) else t.handedOffAt,
       log := t.log + [HumanTook])
  }

  datatype Author = Visitor | Bot

  /** `appendMessage` is refused: a person has taken over. */
  predicate BotRefused(read: Ticket, author: Author) { author == Bot && !read.botEnabled }

  predicate Duplicate(read: Ticket, ref: Option<string>) { ref.Some? && ref.value in read.refs }

  /** `appendMessage`; a reference stored since the read is refused by its unique index, and the request with it. */
  function Appended(read: Ticket, t: Ticket, author: Author, ref: Option<string>, now: int): Ticket {
    if Duplicate(read, ref) || Duplicate(t, ref) then t else
    if BotRefused(read, author) then t else
    var refs := if ref.Some? then t.refs + {ref.value} else t.refs;
    if author == Bot then
      t.(refs := refs,
         botRepliedAt := if read.botRepliedAt.None? then Some(now) else t.botRepliedAt,
         log := t.log + [BotPosted])
    else if read.handedOffAt.Some? && read.status == Pending then
      t.(refs := refs, status := Open, slaPausedAt := None)
    else if Finished(read.status) then
      t.(refs := refs, status := Open, resolvedAt := None, closedAt := None, result := None)
    else t.(refs := refs)
  }

  function HandedOff(read: Ticket, t: Ticket, policy: Option<Policy>, now: int): Ticket {
    if read.handedOffAt.Some? then t else
    var u := t.(
      handedOffAt := Some(now),
      botEnabled := false,
      status := Open,
      resolvedAt := if Finished(read.status) then None else t.resolvedAt,
      closedAt := if Finished(read.status) then None else t.closedAt,
      slaPausedAt := None,
      result := Some(Escalated),
      log := t.log + [HumanTook]);
    WithDueTimes(u, policy, now)
  }

  /** What a handoff answers. */
  datatype HandoffAnswer = HandoffAnswer(handedOffAt: int, botEnabled: bool, alreadyHandedOff: bool)

  function AnswerTo(read: Ticket, now: int): HandoffAnswer {
    if read.handedOffAt.Some? then HandoffAnswer(read.handedOffAt.value, false, true)
    else HandoffAnswer(now, false, false)
  }

  function ResolvedByBot(read: Ticket, t: Ticket, result: Option<Result>, now: int): Ticket {
    if read.handedOffAt.Some? || Finished(read.status) then t else
    t.(status := Resolved, resolvedAt := Some(now), result := Some(if result.Some? then result.value else Answered))
  }

  function BotSet(t: Ticket, on: bool): Ticket { t.(botEnabled := on, log := t.log + [BotSwitched(on)]) }

  /** The source of a merge is closed, and its messages go to the target with their references. */
  function MergedAway(t: Ticket, now: int): Ticket { t.(status := Closed, closedAt := Some(now), refs := {}) }

  function MergedInto(t: Ticket, refs: set<string>): Ticket { t.(refs := t.refs + refs) }

  /** The last condition is the unique index on references, which fails a merge that would double one. */
  predicate MayMerge(source: nat, target: nat, rows: map<nat, Ticket>, actor: Actor)
    requires source in rows && target in rows
  {
    actor != Agent && source != target && !Finished(rows[target].status) && rows[source].refs !! rows[target].refs
  }

  function Merged(source: nat, target: nat, rows: map<nat, Ticket>, now: int): map<nat, Ticket>
    requires source in rows && target in rows
  {
    rows[source := MergedAway(rows[source], now)][target := MergedInto(rows[target], rows[source].refs)]
  }

  /** A new row; a conversation the bot opens has no due times and no assignee, and neither has a mail's. */
  function Created(byBot: bool, assignee: Option<nat>, policy: Option<Policy>, now: int): Ticket {
    var holder := if byBot then None else assignee;
    var t := Ticket(New, byBot, holder, None, None, None, None, None, None, None, None, None, true, None, {}, []);
    if byBot then t else WithDueTimes(t, policy, now)
  }

  /** The patch the service builds, applied to the row field by field. */
  method TimerPatchForTransition(read: Ticket, t: Ticket, to: Status, now: int, calendar: Option<Calendar>)
    returns (data: Ticket)
    ensures data == WithTimers(read, t, to, now, calendar)
  {
    hide ElapsedMs;
    data := t;
    if Paused(to) {
      if read.slaPausedAt.None? { data := data.(slaPausedAt := Some(now)); }
    } else if read.slaPausedAt.Some? {
      var pausedMs := BusinessMsBetween(read.slaPausedAt.value, now, calendar);
      data := data.(slaPausedAt := None);
      if read.firstResponseDueAt.Some? {
        data := data.(firstResponseDueAt := Some(read.firstResponseDueAt.value + pausedMs));
      }
      if read.resolutionDueAt.Some? {
        data := data.(resolutionDueAt := Some(read.resolutionDueAt.value + pausedMs));
      }
    }
    if to == Resolved { data := data.(resolvedAt := Some(now)); }
    if to == Closed { data := data.(closedAt := Some(now)); }
  }

  /** The calendar matters to a ticket with a pause stamp only. */
  lemma CalendarOnlyForPauses(t: Ticket, to: Status, now: int, c1: Option<Calendar>, c2: Option<Calendar>)
    requires t.slaPausedAt.Some? ==> c1 == c2
    ensures WithTimers(t, t, to, now, c1) == WithTimers(t, t, to, now, c2)
  {
    hide ElapsedMs;
  }

  // ---- the tables, written in place by one request at a time ----------------------------------------

  class Tickets {
    var rows: map<nat, Ticket>

    /** `patch` with a status, as `applyTransition` and `timerPatchForTransition` build the update. */
    method Transition(id: nat, to: Status, actor: Actor, now: int, policyCalendar: Option<Calendar>) returns (ok: bool)
      requires id in rows
      modifies this
      ensures rows == old(rows)[id := Moved(old(rows)[id], old(rows)[id], to, actor, now, policyCalendar)]
      ensures ok <==> to == old(rows)[id].status || MayMove(old(rows)[id], to, actor)
    {
      hide WithTimers;
      var t := rows[id];
      if to == t.status { return true; }
      if to !in Targets(t.status) { return false; }
      if IsReopen(t.status, to) && (actor == ApiKey || actor == Agent) { return false; }
      var calendar := if t.slaPausedAt.Some? then policyCalendar else None;
      CalendarOnlyForPauses(t, to, now, calendar, policyCalendar);
      var data := TimerPatchForTransition(t, t, to, now, calendar);
      data := data.(status := to);
      if IsReopen(t.status, to) { data := data.(resolvedAt := None, closedAt := None); }
      rows := rows[id := data];
      return true;
    }

    method AddMessage(id: nat, actor: Actor, note: bool, now: int)
      requires id in rows
      modifies this
      ensures rows == old(rows)[id := Replied(old(rows)[id], old(rows)[id], actor, note, now)]
    {
      var t := rows[id];
      if actor != ApiKey && !note {
        var data := t.(botEnabled := false, log := t.log + [HumanTook]);
        if t.firstRespondedAt.None? { data := data.(firstRespondedAt := Some(now)); }
        if t.status == New { data := data.(status := Open); }
        if t.handedOffAt.None? { data := data.(handedOffAt := Some(now)); }
        rows := rows[id := data];
      }
    }

    method AppendMessage(id: nat, author: Author, ref: Option<string>, now: int)
      returns (duplicate: bool, refused: bool)
      requires id in rows
      modifies this
      ensures rows == old(rows)[id := Appended(old(rows)[id], old(rows)[id], author, ref, now)]
      ensures duplicate <==> ref.Some? && ref.value in old(rows)[id].refs
      ensures refused <==> !duplicate && BotRefused(old(rows)[id], author)
    {
      var t := rows[id];
      duplicate, refused := false, false;
      if ref.Some? && ref.value in t.refs { return true, false; }
      if author == Bot && !t.botEnabled { return false, true; }
      var data := if ref.Some? then t.(refs := t.refs + {ref.value}) else t;
      if author == Bot {
        data := data.(log := t.log + [BotPosted]);
        if t.botRepliedAt.None? { data := data.(botRepliedAt := Some(now)); }
      } else {
        if t.handedOffAt.Some? && t.status == Pending { data := data.(status := Open, slaPausedAt := None); }
        if t.status == Resolved || t.status == Closed {
          data := data.(status := Open, resolvedAt := None, closedAt := None, result := None);
        }
      }
      rows := rows[id := data];
    }

    method Handoff(id: nat, policy: Option<Policy>, now: int) returns (answer: HandoffAnswer)
      requires id in rows
      modifies this
      ensures rows == old(rows)[id := HandedOff(old(rows)[id], old(rows)[id], policy, now)]
      ensures answer == AnswerTo(old(rows)[id], now)
    {
      var t := rows[id];
      if t.handedOffAt.Some? { return HandoffAnswer(t.handedOffAt.value, false, true); }
      var data := t.(handedOffAt := Some(now), botEnabled := false, status := Open, slaPausedAt := None,
                     result := Some(Escalated), log := t.log + [HumanTook]);
      if t.status == Resolved || t.status == Closed { data := data.(resolvedAt := None, closedAt := None); }
      if policy.Some? {
        var first := AddBusinessMinutes(now, policy.value.firstResponseMins, policy.value.calendar);
        var whole := AddBusinessMinutes(now, policy.value.resolutionMins, policy.value.calendar);
        data := data.(policyId := Some(policy.value.id),
                      firstResponseDueAt := Some(first), resolutionDueAt := Some(whole));
      } else {
        data := data.(policyId := None, firstResponseDueAt := None, resolutionDueAt := None);
      }
      rows := rows[id := data];
      return HandoffAnswer(now, false, false);
    }

    /** The writes of a merge, in one transaction. */
    method Merge(source: nat, target: nat, actor: Actor, now: int) returns (ok: bool)
      requires source in rows && target in rows
      modifies this
      ensures ok <==> MayMerge(source, target, old(rows), actor)
      ensures rows == if ok then Merged(source, target, old(rows), now) else old(rows)
    {
      if actor == Agent || source == target { return false; }
      if rows[target].status == Resolved || rows[target].status == Closed { return false; }
      var moved := rows[source].refs;
      if !(moved !! rows[target].refs) { return false; }
      rows := rows[target := rows[target].(refs := rows[target].refs + moved)];
      rows := rows[source := rows[source].(status := Closed, closedAt := Some(now), refs := {})];
      return true;
    }
  }

  // ---- what every state keeps -----------------------------------------------------------------------

  datatype Action =
    | Move(to: Status, actor: Actor, calendar: Option<Calendar>)
    | Reply(actor: Actor, note: bool)
    | Append(author: Author, ref: Option<string>)
    | Handoff(policy: Option<Policy>)
    | Resolve(result: Option<Result>)
    | SetBot(on: bool)
    | MergeAway
    | MergeIn(refs: set<string>)
    | Mail

  function Written(read: Ticket, t: Ticket, a: Action, now: int): Ticket {
    match a
    case Move(to, actor, calendar) => Moved(read, t, to, actor, now, calendar)
    case Reply(actor, note) => Replied(read, t, actor, note, now)
    case Append(author, ref) => Appended(read, t, author, ref, now)
    case Handoff(policy) => HandedOff(read, t, policy, now)
    case Resolve(result) => ResolvedByBot(read, t, result, now)
    case SetBot(on) => BotSet(t, on)
    case MergeAway => MergedAway(t, now)
    case MergeIn(refs) => MergedInto(t, refs)
    case Mail => t
  }

  /** A request that nobody else's write falls into. */
  function Apply(t: Ticket, a: Action, now: int): Ticket { Written(t, t, a, now) }

  /** The stamps agree with the status. */
  predicate Lifecycle(t: Ticket) {
    && (t.closedAt.Some? <==> t.status == Closed)
    && (t.status == Resolved ==> t.resolvedAt.Some?)
    && (t.resolvedAt.Some? ==> Finished(t.status))
    && (Paused(t.status) ==> t.slaPausedAt.Some?)
  }

  /** Whether the bot may speak, from what has happened alone. */
  function MaySpeak(log: seq<Event>): bool {
    if log == [] then true else
    match log[|log| - 1]
    case BotPosted => MaySpeak(log[..|log| - 1])
    case HumanTook => false
    case BotSwitched(on) => on
  }

  /** No bot message between a person taking over and the next explicit re-enable. */
  predicate SpokeInTurn(log: seq<Event>) {
    forall i :: 0 <= i < |log| && log[i] == BotPosted ==> MaySpeak(log[..i])
  }

  predicate Ownership(t: Ticket) {
    && (t.firstRespondedAt.Some? ==> t.handedOffAt.Some?)
    && (t.byBot && (t.firstResponseDueAt.Some? || t.resolutionDueAt.Some?) ==> t.handedOffAt.Some?)
    && t.botEnabled == MaySpeak(t.log)
    && SpokeInTurn(t.log)
  }

  /** The row has moved since it was read, in a way that the write does not fit. */
  predicate Overtaken(read: Ticket, t: Ticket, a: Action) {
    match a
    case Move(to, actor, _) => MayMove(read, to, actor) &&
      (match to
       case New => false
       case Closed => false
       case Resolved => t.status == Closed
       case Open => !Finished(read.status) && Finished(t.status)
       case _ => Finished(t.status) || (read.slaPausedAt.Some? && t.slaPausedAt.None?))
    case Reply(actor, note) => Counts(actor, note) && read.status == New && Finished(t.status)
    case Append(author, ref) =>
      && author == Visitor && !Duplicate(read, ref) && !Duplicate(t, ref)
      && read.handedOffAt.Some? && read.status == Pending && Finished(t.status)
    case Handoff(_) => read.handedOffAt.None? && !Finished(read.status) && Finished(t.status)
    case Resolve(_) => read.handedOffAt.None? && !Finished(read.status) && t.status == Closed
    case _ => false
  }

  /** A write from a stale read keeps the stamps in agreement with the status exactly when the row was not overtaken. */
  lemma StaleLifecycleIff(read: Ticket, t: Ticket, a: Action, now: int)
    requires Lifecycle(t)
    ensures Lifecycle(Written(read, t, a, now)) <==> !Overtaken(read, t, a)
  {
    hide ElapsedMs, DueAt, Moves;
    if a.Move? { StaleMoveIff(read, t, a, now); }
  }

  lemma StaleMoveIff(read: Ticket, t: Ticket, a: Action, now: int)
    requires Lifecycle(t) && a.Move?
    ensures Lifecycle(Written(read, t, a, now)) <==> !Overtaken(read, t, a)
  {
    hide ElapsedMs, Moves, Targets;
    if MayMove(read, a.to, a.actor) {
      Destinations(read.status);
      assert a.to != New && (a.to == Pending || a.to == OnHold ==> !Finished(read.status));
      var w := WithTimers(read, t, a.to, now, a.calendar);
      assert w.closedAt == (if a.to == Closed then Some(now) else t.closedAt);
      assert w.resolvedAt == (if a.to == Resolved then Some(now) else t.resolvedAt);
    }
  }

  /** No status leads to `New`, and a finished ticket is not put on hold. */
  lemma Destinations(from: Status)
    ensures New !in Targets(from)
    ensures Finished(from) ==> Pending !in Targets(from) && OnHold !in Targets(from) && Resolved !in Targets(from)
  {
  }

  lemma StepKeepsLifecycle(t: Ticket, a: Action, now: int)
    requires Lifecycle(t)
    ensures Lifecycle(Apply(t, a, now))
  {
    hide Written;
    StaleLifecycleIff(t, t, a, now);
  }

  lemma LogGrows(log: seq<Event>, e: Event)
    requires SpokeInTurn(log) && (e == BotPosted ==> MaySpeak(log))
    ensures SpokeInTurn(log + [e])
    ensures MaySpeak(log + [e])
      == match e
         case BotPosted => MaySpeak(log)
         case HumanTook => false
         case BotSwitched(on) => on
  {
    var next := log + [e];
    assert next[..|log|] == log;
    forall i | 0 <= i < |next| && next[i] == BotPosted ensures MaySpeak(next[..i]) {
      assert i < |log| ==> next[..i] == log[..i];
    }
  }

  /**
   Only the status, the timers and the stamps that go with them differ; deadlines may come from the row that was
   read.
   */
  predicate SameOwner(read: Ticket, t: Ticket, u: Ticket) {
    && u.byBot == t.byBot && u.handedOffAt == t.handedOffAt && u.firstRespondedAt == t.firstRespondedAt
    && u.botRepliedAt == t.botRepliedAt && u.botEnabled == t.botEnabled && u.refs == t.refs && u.log == t.log
    && (u.firstResponseDueAt.Some? ==> t.firstResponseDueAt.Some? || read.firstResponseDueAt.Some?)
    && (u.resolutionDueAt.Some? ==> t.resolutionDueAt.Some? || read.resolutionDueAt.Some?)
  }

  lemma MoveKeepsOwner(read: Ticket, t: Ticket, to: Status, actor: Actor, now: int, calendar: Option<Calendar>)
    ensures SameOwner(read, t, Moved(read, t, to, actor, now, calendar))
  {
    hide MayMove, IsReopen, SameOwner, WithTimers;
    TimersKeepOwner(read, t, to, now, calendar);
    StatusKeepsOwner(read, t, WithTimers(read, t, to, now, calendar), to);
  }

  lemma TimersKeepOwner(read: Ticket, t: Ticket, to: Status, now: int, calendar: Option<Calendar>)
    ensures SameOwner(read, t, WithTimers(read, t, to, now, calendar))
  {
    hide ElapsedMs;
  }

  lemma StatusKeepsOwner(read: Ticket, t: Ticket, w: Ticket, to: Status)
    requires SameOwner(read, t, w)
    ensures SameOwner(read, t, w.(status := to)) && SameOwner(read, t, t)
    ensures SameOwner(read, t, w.(status := to).(resolvedAt := None, closedAt := None))
  {
  }

  /** A bot's message that is admitted. */
  predicate Speaks(read: Ticket, t: Ticket, a: Action) {
    a.Append? && a.author == Bot && !Duplicate(read, a.ref) && !Duplicate(t, a.ref) && !BotRefused(read, Bot)
  }

  /**
   A write from a stale read keeps the rules of ownership exactly when it is not a bot's message over a silenced
   bot.
   */
  lemma StaleOwnershipIff(read: Ticket, t: Ticket, a: Action, now: int)
    requires Ownership(read) && Ownership(t) && Keeps(read, t)
    ensures Ownership(Written(read, t, a, now)) <==> !(Speaks(read, t, a) && !t.botEnabled)
  {
    hide Moved, DueAt, MaySpeak, SpokeInTurn;
    if a.Move? { MoveKeepsOwner(read, t, a.to, a.actor, now, a.calendar); }
    if t.botEnabled { LogGrows(t.log, BotPosted); } else { OutOfTurn(t.log); }
    LogGrows(t.log, HumanTook);
    if a.SetBot? { LogGrows(t.log, BotSwitched(a.on)); }
  }

  lemma OutOfTurn(log: seq<Event>)
    requires !MaySpeak(log)
    ensures !SpokeInTurn(log + [BotPosted])
  {
    var next := log + [BotPosted];
    assert next[..|log|] == log && next[|log|] == BotPosted;
  }

  lemma StepKeepsOwnership(t: Ticket, a: Action, now: int)
    requires Ownership(t)
    ensures Ownership(Apply(t, a, now))
  {
    hide Written;
    StaleOwnershipIff(t, t, a, now);
  }

  /** What no step undoes. */
  predicate Keeps(t: Ticket, u: Ticket) {
    && u.byBot == t.byBot
    && (t.handedOffAt.Some? ==> u.handedOffAt == t.handedOffAt)
    && (t.firstRespondedAt.Some? ==> u.firstRespondedAt == t.firstRespondedAt)
    && (t.botRepliedAt.Some? ==> u.botRepliedAt == t.botRepliedAt)
    && t.log <= u.log
  }

  /** A stamp that was missing when the row was read has since been set, to another time. */
  predicate Set(read: Option<int>, stamp: Option<int>, now: int) { read.None? && stamp.Some? && stamp != Some(now) }

  predicate Restamps(read: Ticket, t: Ticket, a: Action, now: int) {
    match a
    case Reply(actor, note) =>
      Counts(actor, note)
      && (Set(read.firstRespondedAt, t.firstRespondedAt, now) || Set(read.handedOffAt, t.handedOffAt, now))
    case Append(_, _) => Speaks(read, t, a) && Set(read.botRepliedAt, t.botRepliedAt, now)
    case Handoff(_) => Set(read.handedOffAt, t.handedOffAt, now)
    case _ => false
  }

  /**
   A write from a stale read keeps the write-once stamps exactly when none of those it sets has been set in
   between.
   */
  lemma StaleKeepsIff(read: Ticket, t: Ticket, a: Action, now: int)
    ensures Keeps(t, Written(read, t, a, now)) <==> !Restamps(read, t, a, now)
  {
    hide Moved, DueAt;
    if a.Move? { MoveKeepsOwner(read, t, a.to, a.actor, now, a.calendar); }
  }

  /** A write forgets a reference exactly when the ticket is merged away and had one: a retry is then stored again. */
  lemma RefsForgottenIff(read: Ticket, t: Ticket, a: Action, now: int)
    ensures t.refs <= Written(read, t, a, now).refs <==> !(a.MergeAway? && t.refs != {})
  {
    hide Moved, DueAt;
    if a.Move? { MoveKeepsOwner(read, t, a.to, a.actor, now, a.calendar); }
  }

  lemma StepKeeps(t: Ticket, a: Action, now: int)
    ensures Keeps(t, Apply(t, a, now))
  {
    hide Written;
    StaleKeepsIff(t, t, a, now);
  }

  datatype Timed = Timed(a: Action, now: int)

  function After(t: Ticket, run: seq<Timed>): Ticket
    decreases |run|
  {
    if run == [] then t else After(Apply(t, run[0].a, run[0].now), run[1..])
  }

  lemma {:induction false} RunsKeep(t: Ticket, run: seq<Timed>)
    requires Lifecycle(t) && Ownership(t)
    ensures var u := After(t, run); Lifecycle(u) && Ownership(u) && Keeps(t, u)
    decreases |run|
  {
    hide Lifecycle, Ownership, Apply;
    if run == [] {
      StepKeeps(t, Mail, 0);
      assert Apply(t, Mail, 0) == t by { MailIsSilent(t); }
    } else {
      var u := Apply(t, run[0].a, run[0].now);
      StepKeepsLifecycle(t, run[0].a, run[0].now);
      StepKeepsOwnership(t, run[0].a, run[0].now);
      StepKeeps(t, run[0].a, run[0].now);
      RunsKeep(u, run[1..]);
      KeepsChains(t, u, After(u, run[1..]));
    }
  }

  lemma MailIsSilent(t: Ticket)
    ensures Apply(t, Mail, 0) == t
  {
  }

  lemma KeepsChains(t: Ticket, u: Ticket, v: Ticket)
    requires Keeps(t, u) && Keeps(u, v)
    ensures Keeps(t, v)
  {
  }

  /**
   From any way of creating a ticket, over any run of console transitions, replies, chatbot calls,
   merges and mail: the stamps agree with the status, ownership is consistent, and the stamps that
   record a takeover or a first answer are written once.
   */
  lemma EveryTicket(byBot: bool, assignee: Option<nat>, policy: Option<Policy>, created: int, run: seq<Timed>)
    ensures var t := Created(byBot, assignee, policy, created);
      var u := After(t, run);
      Lifecycle(u) && Ownership(u) && Keeps(t, u)
  {
    RunsKeep(Created(byBot, assignee, policy, created), run);
  }

  // ---- who holds the conversation -------------------------------------------------------------------------

  /** A conversation taken from the bot never goes back to it. */
  lemma TakenStaysTaken(t: Ticket, run: seq<Timed>)
    requires Lifecycle(t) && Ownership(t) && t.handedOffAt.Some?
    ensures HandlingOf(After(t, run)) != Ai
  {
    RunsKeep(t, run);
  }

  /**
   Leaving `ai` is final exactly when somebody took over: a conversation the bot finished alone is handed back to
   it.
   */
  lemma ReopenedByVisitor(t: Ticket, now: int)
    requires t.byBot && HandlingOf(t) == Done
    ensures HandlingOf(Apply(t, Append(Visitor, None), now)) == Ai <==> t.handedOffAt.None?
  {
  }

  /**
   What a handoff answers about the bot is true exactly when it is the first, or nothing since has let the bot
   speak.
   */
  lemma HandoffAnswerIff(t: Ticket, policy: Option<Policy>, now: int)
    requires Ownership(t)
    ensures var answer, u := AnswerTo(t, now), HandedOff(t, t, policy, now);
      && u.handedOffAt == Some(answer.handedOffAt)
      && (answer.botEnabled == u.botEnabled <==> t.handedOffAt.None? || !MaySpeak(t.log))
  {
    hide DueAt;
  }

  /** Handoff, re-enable, handoff: the second answer says the bot is off while it is on. */
  lemma ReenabledHandoffMisreports(t: Ticket, policy: Option<Policy>, t1: int, t2: int, t3: int)
    requires t.handedOffAt.None?
    ensures var u := After(t, [Timed(Handoff(policy), t1), Timed(SetBot(true), t2)]);
      && !AnswerTo(u, t3).botEnabled && HandedOff(u, u, policy, t3).botEnabled
  {
    var run := [Timed(Handoff(policy), t1), Timed(SetBot(true), t2)];
    assert run[1..] == [Timed(SetBot(true), t2)] && run[1..][1..] == [];
    var first := Apply(t, Handoff(policy), t1);
    assert first.handedOffAt == Some(t1) by { FirstHandoff(t, policy, t1); }
    hide Written, WithDueTimes;
    var u := Apply(first, SetBot(true), t2);
    assert After(first, run[1..]) == After(u, []) == u;
    assert After(t, run) == u;
    Switched(first, t2);
  }

  lemma FirstHandoff(t: Ticket, policy: Option<Policy>, now: int)
    requires t.handedOffAt.None?
    ensures Apply(t, Handoff(policy), now).handedOffAt == Some(now)
  {
    hide DueAt;
  }

  lemma Switched(t: Ticket, now: int)
    ensures var u := Apply(t, SetBot(true), now); u.botEnabled && u.handedOffAt == t.handedOffAt
  {
  }

  // ---- requests that overlap -----------------------------------------------------------------------------------

  /** The row, and the rows that requests in flight have read. */
  datatype Desk = Desk(t: Ticket, seen: map<nat, Ticket>)

  /** A request reads the row, and later writes it. */
  datatype Half = Read(tx: nat) | Write(tx: nat, a: Action, now: int)

  predicate Enabled(d: Desk, h: Half) { h.Write? ==> h.tx in d.seen }

  function Performed(d: Desk, h: Half): Desk
    requires Enabled(d, h)
  {
    match h
    case Read(tx) => d.(seen := d.seen[tx := d.t])
    case Write(tx, a, now) => Desk(Written(d.seen[tx], d.t, a, now), d.seen - {tx})
  }

  predicate Possible(d: Desk, run: seq<Half>)
    decreases |run|
  {
    run == [] || (Enabled(d, run[0]) && Possible(Performed(d, run[0]), run[1..]))
  }

  /** The write does not fit what has become of the row since it was read. */
  predicate Disturbed(d: Desk, h: Half)
    requires Enabled(d, h)
  {
    h.Write? &&
    var read := d.seen[h.tx];
    Overtaken(read, d.t, h.a) || (Speaks(read, d.t, h.a) && !d.t.botEnabled) || Restamps(read, d.t, h.a, h.now)
  }

  predicate Undisturbed(d: Desk, run: seq<Half>)
    requires Possible(d, run)
    decreases |run|
  {
    run == [] || (!Disturbed(d, run[0]) && Undisturbed(Performed(d, run[0]), run[1..]))
  }

  /** Every state of the run keeps the rules, and no step undoes what is written once. */
  predicate Sound(d: Desk, run: seq<Half>)
    requires Possible(d, run)
    decreases |run|
  {
    && Lifecycle(d.t) && Ownership(d.t)
    && (run == [] || (Keeps(d.t, Performed(d, run[0]).t) && Sound(Performed(d, run[0]), run[1..])))
  }

  /** What requests in flight have read has been kept since. */
  predicate ReadsKept(d: Desk) {
    forall tx :: tx in d.seen ==> Ownership(d.seen[tx]) && Keeps(d.seen[tx], d.t)
  }

  lemma StepSound(d: Desk, h: Half)
    requires Lifecycle(d.t) && Ownership(d.t) && ReadsKept(d) && Enabled(d, h)
    ensures var e := Performed(d, h);
      Lifecycle(e.t) && Ownership(e.t) && Keeps(d.t, e.t) <==> !Disturbed(d, h)
    ensures Keeps(d.t, Performed(d, h).t) ==> ReadsKept(Performed(d, h))
  {
    hide Lifecycle, Ownership, Keeps, Written, Overtaken, Speaks, Restamps;
    KeepsItself(d.t);
    if h.Write? {
      var read := d.seen[h.tx];
      StaleLifecycleIff(read, d.t, h.a, h.now);
      StaleOwnershipIff(read, d.t, h.a, h.now);
      StaleKeepsIff(read, d.t, h.a, h.now);
      var e := Performed(d, h);
      forall tx | tx in e.seen && Keeps(d.t, e.t) ensures Ownership(e.seen[tx]) && Keeps(e.seen[tx], e.t) {
        KeepsChains(d.seen[tx], d.t, e.t);
      }
    }
  }

  /**
   Over any run of overlapping requests, reads and writes interleaved at will: every state keeps the
   rules and nothing written once is undone exactly when no write of the run is disturbed.
   */
  lemma {:induction false} OverlapsSoundIff(d: Desk, run: seq<Half>)
    requires Lifecycle(d.t) && Ownership(d.t) && ReadsKept(d) && Possible(d, run)
    ensures Sound(d, run) <==> Undisturbed(d, run)
    decreases |run|
  {
    hide Lifecycle, Ownership, Keeps, Disturbed, ReadsKept, Performed;
    if run != [] {
      StepSound(d, run[0]);
      var e := Performed(d, run[0]);
      if !Disturbed(d, run[0]) {
        OverlapsSoundIff(e, run[1..]);
      } else {
        SoundNow(e, run[1..]);
      }
    }
  }

  lemma SoundNow(d: Desk, run: seq<Half>)
    requires Possible(d, run)
    ensures Sound(d, run) ==> Lifecycle(d.t) && Ownership(d.t)
  {
  }

  lemma KeepsItself(t: Ticket)
    ensures Keeps(t, t)
  {
  }

  /**
   A visitor's message that found the ticket pending leaves it open with a finishing stamp, if it was finished
   meanwhile.
   */
  lemma StaleAppendBreaksLifecycle(
    read: Ticket, to: Status, actor: Actor, calendar: Option<Calendar>, done: int, now: int)
    requires Lifecycle(read) && read.status == Pending && read.handedOffAt.Some? && Finished(to)
    ensures var t := Apply(read, Move(to, actor, calendar), done);
      Lifecycle(t) && !Lifecycle(Written(read, t, Append(Visitor, None), now))
  {
    hide ElapsedMs;
    StepKeepsLifecycle(read, Move(to, actor, calendar), done);
    StaleLifecycleIff(read, Apply(read, Move(to, actor, calendar), done), Append(Visitor, None), now);
  }

  /** Two replies that both read an unanswered ticket: the later write moves the first response. */
  lemma OverlappingRepliesRestamp(read: Ticket, first: Actor, second: Actor, t1: int, t2: int)
    requires read.firstRespondedAt.None? && first != ApiKey && second != ApiKey && t1 != t2
    ensures var t := Apply(read, Reply(first, false), t1);
      var u := Written(read, t, Reply(second, false), t2);
      t.firstRespondedAt == Some(t1) && u.firstRespondedAt == Some(t2)
  {
  }

  /**
   A bot's message speaks out of turn exactly when a person took over, or the bot was switched off,
   between its read of the row and its write.
   */
  lemma BotSpeaksOverIff(read: Ticket, t: Ticket, now: int)
    requires Ownership(t) && read.botEnabled
    ensures SpokeInTurn(Appended(read, t, Bot, None, now).log) <==> t.botEnabled
  {
    if t.botEnabled { LogGrows(t.log, BotPosted); } else { OutOfTurn(t.log); }
  }

  // ---- what each writer does, case by case ----------------------------------------------------------------------

  /** Who answers a conversation. */
  lemma HandlingMeans(t: Ticket)
    ensures HandlingOf(t) == Done <==> t.status == Resolved || t.status == Closed
    ensures HandlingOf(t) == Ai <==> HandlingOf(t) != Done && t.byBot && t.handedOffAt.None?
    ensures HandlingOf(t) == Assigned <==>
      HandlingOf(t) != Done && (t.byBot ==> t.handedOffAt.Some?) && t.assignee.Some?
    ensures HandlingOf(t) == EscalatedToHuman <==>
      HandlingOf(t) != Done && t.byBot && t.handedOffAt.Some? && t.assignee.None?
    ensures HandlingOf(t) == Human <==> HandlingOf(t) != Done && !t.byBot && t.assignee.None?
  {
  }

  /**
   The console moves a ticket anywhere but back to `New`, from closed only to open and from resolved only
   to open or closed, and reopens it only for a lead or an administrator; a refused request changes nothing.
   */
  lemma MovesIff(t: Ticket, to: Status, actor: Actor, now: int, calendar: Option<Calendar>)
    ensures var u := Moved(t, t, to, actor, now, calendar);
      var finished := t.status == Resolved || t.status == Closed;
      if to != t.status && to != New && (t.status == Closed ==> to == Open)
        && (t.status == Resolved ==> to == Open || to == Closed)
        && (finished && to == Open ==> actor == Lead || actor == Admin)
      then u.status == to
      else u == t
  {
    hide WithTimers;
  }

  /**
   The stamps of a move: pending and on-hold tickets are paused from the first of them on, and a reopened one is
   not finished.
   */
  lemma MoveStamps(t: Ticket, to: Status, actor: Actor, now: int, calendar: Option<Calendar>)
    requires MayMove(t, to, actor)
    ensures var u := Moved(t, t, to, actor, now, calendar);
      var reopened := (t.status == Resolved || t.status == Closed) && to == Open;
      && u.slaPausedAt == (if to != Pending && to != OnHold then None
                           else if t.slaPausedAt.Some? then t.slaPausedAt else Some(now))
      && u.resolvedAt == (if to == Resolved then Some(now) else if reopened then None else t.resolvedAt)
      && u.closedAt == (if to == Closed then Some(now) else if reopened then None else t.closedAt)
      && u == t.(status := u.status, slaPausedAt := u.slaPausedAt, resolvedAt := u.resolvedAt, closedAt := u.closedAt,
                 firstResponseDueAt := u.firstResponseDueAt, resolutionDueAt := u.resolutionDueAt)
  {
    hide ElapsedMs, MayMove;
  }

  /** A person's public reply answers and takes the conversation; a note, and a machine's message, leave it alone. */
  lemma ReplyTakes(t: Ticket, actor: Actor, now: int)
    ensures Replied(t, t, actor, true, now) == t && Replied(t, t, ApiKey, false, now) == t
    ensures actor != ApiKey ==>
      var u := Replied(t, t, actor, false, now);
      && u.firstRespondedAt == (if t.firstRespondedAt.Some? then t.firstRespondedAt else Some(now))
      && u.handedOffAt == (if t.handedOffAt.Some? then t.handedOffAt else Some(now))
      && u.status == (if t.status == New then Open else t.status)
      && !u.botEnabled && u.log == t.log + [HumanTook]
      && u == t.(firstRespondedAt := u.firstRespondedAt, handedOffAt := u.handedOffAt, status := u.status,
                 botEnabled := false, log := u.log)
  {
  }

  /**
   A visitor's message resumes a pending ticket that a person has, reopens a finished one, and otherwise is only
   stored.
   */
  lemma VisitorWrites(t: Ticket, ref: string, now: int)
    requires ref !in t.refs
    ensures var u := Appended(t, t, Visitor, Some(ref), now);
      var stored := t.(refs := t.refs + {ref});
      if t.status == Pending && t.handedOffAt.Some? then u == stored.(status := Open, slaPausedAt := None)
      else if t.status == Resolved || t.status == Closed then
        u == stored.(status := Open, resolvedAt := None, closedAt := None, result := None)
      else u == stored
  {
  }

  /** A bot's message is stored while the bot is on, never as a first response, and refused while it is off. */
  lemma BotWrites(t: Ticket, ref: string, now: int)
    requires ref !in t.refs
    ensures var u := Appended(t, t, Bot, Some(ref), now);
      if !t.botEnabled then u == t
      else u == t.(refs := t.refs + {ref}, log := t.log + [BotPosted],
                   botRepliedAt := if t.botRepliedAt.Some? then t.botRepliedAt else Some(now))
  {
  }

  /** An append that is repeated is silent, whoever repeats it and whenever. */
  lemma RepeatedAppendIsSilent(t: Ticket, author: Author, again: Author, ref: string, now: int, later: int)
    requires !BotRefused(t, author)
    ensures var u := Appended(t, t, author, Some(ref), now);
      ref in u.refs && Appended(u, u, again, Some(ref), later) == u
  {
  }

  /**
   A first handoff opens the ticket for a person, unpaused and unfinished, with the bot off; a later one is
   silent.
   */
  lemma HandoffOpens(t: Ticket, policy: Option<Policy>, now: int)
    ensures var u := HandedOff(t, t, policy, now);
      if t.handedOffAt.Some? then u == t
      else
        && u.status == Open && u.handedOffAt == Some(now) && !u.botEnabled && u.slaPausedAt.None?
        && u.result == Some(Escalated) && u.log == t.log + [HumanTook]
        && (t.status == Resolved || t.status == Closed ==> u.resolvedAt.None? && u.closedAt.None?)
        && (t.byBot ==> HandlingOf(u) == if t.assignee.Some? then Assigned else EscalatedToHuman)
        && u.assignee == t.assignee && u.firstRespondedAt == t.firstRespondedAt && u.refs == t.refs
          && u.byBot == t.byBot
  {
    hide DueAt;
  }

  /** The bot finishes a conversation only while nobody has taken it, as answered unless it says otherwise. */
  lemma BotResolves(t: Ticket, result: Option<Result>, now: int)
    ensures var u := ResolvedByBot(t, t, result, now);
      if t.handedOffAt.Some? || t.status == Resolved || t.status == Closed then u == t
      else
        var said := if result.Some? then result else Some(Answered);
        u == t.(status := Resolved, resolvedAt := Some(now), result := said)
  {
  }

  /**
   A merge is a lead's, of two tickets, into one that is not finished; no reference is lost or doubled, and no
   third row moves.
   */
  lemma MergeConserves(source: nat, target: nat, rows: map<nat, Ticket>, actor: Actor, now: int)
    requires source in rows && target in rows
    ensures MayMerge(source, target, rows, actor) ==>
      && actor != Agent && source != target && rows[target].status != Resolved && rows[target].status != Closed
      && var next := Merged(source, target, rows, now);
      && next.Keys == rows.Keys
      && next[source].refs + next[target].refs == rows[source].refs + rows[target].refs
      && next[source].refs !! next[target].refs && rows[source].refs <= next[target].refs
      && next[source].status == Closed && next[source].closedAt == Some(now)
      && next[target].status == rows[target].status
      && forall x :: x in rows && x != source && x != target ==> next[x] == rows[x]
    ensures !MayMerge(source, target, rows, actor) ==>
      || actor == Agent || source == target || rows[target].status == Resolved || rows[target].status == Closed
      || exists ref :: ref in rows[source].refs && ref in rows[target].refs
  {
  }

  /** A new ticket is new, with nothing stamped, the bot on, and no assignee if the bot opened it. */
  lemma CreatedFresh(byBot: bool, assignee: Option<nat>, policy: Option<Policy>, now: int)
    ensures var t := Created(byBot, assignee, policy, now);
      && t.status == New && t.byBot == byBot && t.botEnabled && t.refs == {} && t.log == [] && t.result.None?
      && t.assignee == (if byBot then None else assignee)
      && t.firstRespondedAt == t.resolvedAt == t.closedAt == t.slaPausedAt == t.handedOffAt == t.botRepliedAt == None
      && HandlingOf(t) == (if byBot then Ai else if assignee.Some? then Assigned else Human)
  {
    hide DueAt;
  }
}
