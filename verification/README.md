# A model of the support desk's hard parts

This project states, in Dafny, what the back end of the support desk promises about time, delivery,
concurrency and conversation ownership, and proves it. Each module follows one part of the program:

- `BusinessHours`, `WorkingTime` - the SLA clock: two day-walking loops, first against each other in
  any time zone, then against a declarative count of working milliseconds. `ReversedWindows` says which
  unchecked schedules keep the round trip.
- `UpdatesFeed` (with `OrderedPage`) - the `/chat/updates` cursor: transactions that stamp early and
  commit late, and a poll that is a query followed by a reading of the clock.
- `ExportWatermark` - the nightly export and its stored watermark.
- `ChatSessions` - opening a chatbot conversation when opens overlap and are retried.
- `AdminFloor` - the last-administrator guard as interleaved READ COMMITTED transactions.
- `Invitations` - invite, re-invite, revoke and the two-part accept.
- `SlaMarkers` - overlapping SLA sweeps, retags and tag deletions.
- `Conversation`, `PauseLedger` - one ticket row and its five writers; deadlines against status history.
- `Deadlines` - the deadlines a ticket is given, against the targets of its policy.
- `InboundRouting`, `RoundRobin` - which desk gets a mail, and which agent a ticket.
- `TemplateText`, `TemplateExpr` - the template expression evaluator and its printer.

Code that updates state is written as methods over arrays, loops or class fields, each proved equal to
a function of the old state; the properties are lemmas about those functions and about runs of steps.
A table is a map, a transaction is one step unless a property splits it on purpose, and the clock,
generated ids, the time zone, the digest of a text and JavaScript's coercions are parameters.

## What the code does not do

Where a promise, or a comment, is stronger than the code, the model follows the code; each line names
the lemma that shows it, or the definition when the code simply does nothing.

- `WorkingTime.ExactWhenNothingShadowed`: a window consumed to 24:00 makes the walk step over the whole
  next local day. The clock is exact if and only if no working day follows such a day.
- `ReversedWindows.RoundTripIff`: schedules are stored unchecked. A window that closes before it opens is
  skipped by the adding walk and can end the counting walk, or carry it past working time, so time added
  is not counted back. The round trip holds exactly when no day has such a window listed before one that
  works while it has not opened yet; windows listed by their opening are always safe.
- `Deadlines.ScarceDeadlinesOutOfOrder`: the clock-time fallback is taken target by target, so a calendar
  that holds enough time for the response and not for the resolution puts the resolution first. Deadlines
  are in order in every other case (`DeadlinesInOrder`).
- `UpdatesFeed.LagCoversBothWaits`: the comment on the lag (`updates-cursor.ts:10-15`) budgets for the
  longest write transaction alone. The lag must cover that and the gap between a poll's query and its
  reading of the clock; runs whose single steps lose nothing are lossless exactly when the two together fit.
- `UpdatesFeed.LeaveLosesIff`, `EnterLosesIff`: merging moves messages between tickets
  (`tickets.service.ts:831-834`) and the feed selects by the session of the ticket they are on now
  (`chat.module.ts:485`), so no lag helps a reply that is merged away before it is delivered, or merged in
  behind the cursor or behind the cursor a pending query is given. The lemmas are exact.
- `UpdatesFeed.SplitLosesIff`, `StuckForever`: the page is ordered by stamp and id but the cursor is a
  stamp. A page loses rows exactly when it ends inside a group of equal stamps in whole milliseconds that
  the watermark has reached; and a full page that ends in the cursor's own millisecond repeats for ever,
  because stamps are finer than the cursor.
- `ExportWatermark.StarvedExport`: the comment at `processors.ts:545-547` calls the watermark a pair of
  stamp and id; the code keeps the stamp alone (lines 579 and 602), and a full batch that carries one stamp
  is exported again and again.
- `ChatSessions.LoserRetries`: the comments at `chat.module.ts:198-210` and `customers.module.ts:148-151`
  say the loser of an insertion race adopts the winner's row. Every request runs in one transaction
  (`app.module.ts:105`, `prisma.service.ts:111-118`), which the failed insert has aborted, so the request
  fails instead; nothing is lost, because its retry finds the session and appends the message, or finds the
  customer and can insert.
- `ChatSessions.FirstRetryDuplicates`: the comment at `chat.module.ts:141` lets a true duplicate collapse to
  one message; the first identical retry stores a second copy, since the original has no reference.
- `AdminFloor.PromotionDuringScanLosesFloor`: a promotion that commits between a guard's snapshot and its
  last lock can leave the desk with no administrator; `FloorLostIff` is the exact condition.
- `AdminFloor.GuardsQueueUp`: `users.module.ts:166-167` says racing guards queue up instead of deadlocking.
  No set of requests deadlocks as long as the guards in flight on a desk agree on their targets and no
  request writes both a person and a membership. Each condition is needed: `PromotedTargetDeadlocks` and
  `DemotedTargetDeadlocks` (two guards that read a target differently; the lock of a row that is looked at
  again and dropped stays), `RenamesDeadlock` (two desks that share their people) and `ProfileDeadlocks`
  (an account-first write against a membership-first guard). `BlockedIff` says exactly when a guard that
  has scanned is blocked.
- `Invitations.LateIff`: expiry is read before the claim and not checked again in it; a claim is late
  exactly when the invitation expired between the two.
- `SlaMarkers.StaleRetagAnnouncesTwice`: a retag is a read and a write, so one that spans a sweep's append
  drops the marker and the breach is announced again, against the comment at `tickets.service.ts:567-569`.
- `SlaMarkers.FailedSweepAnnouncesTwice`: "once per ticket" (`processors.ts:280`) also rests on the sweep's
  transaction: one that fails after announcing takes its markers back, and the next announces again.
- `Conversation.BotSpeaksOverIff`: `chat.module.ts:256-258` says a bot that races a handoff cannot post
  over an agent. It does, exactly when the takeover commits between the bot's read and its write.
- `Conversation.StaleLifecycleIff`, `StaleKeepsIff`: every writer decides from a row it read earlier. They
  say for each of them exactly when another write in between leaves stamps that contradict the status, or
  moves a stamp that is otherwise written once.
- `Conversation.HandoffAnswerIff`: a repeated handoff answers that the bot is off even when an agent has
  switched it on again.
- `Conversation.RefsForgottenIff`: a merge takes a ticket's message references with it, so a retry on the
  merged ticket is stored again; and a merge of two tickets that share a reference fails on its index.
- `email.service.ts:268` says a customer's mail reopens the conversation loop; the code writes nothing but
  the modification time (`Conversation.Written`, case `Mail`).

## Model

| member | source | states |
|---|---|---|
| BusinessHours.AddBusinessMinutes | backend/src/sla/business-hours.util.ts:48-88 | the nested loops with their moving cursor compute the due-time walk that the lemmas below are about, its 400-step guard and fallback included |
| BusinessHours.BusinessMsBetween | backend/src/sla/business-hours.util.ts:95-124 | the counting loops compute the elapsed-time walk of the lemmas below |
| BusinessHours.RoundTrip | backend/src/sla/business-hours.util.ts:48-124 | in every zone, daylight saving included, counting from an instant to the due time gives back exactly the minutes added, for proper windows, unless the fallback answered |
| BusinessHours.CountDaysFollowsAdd | backend/src/sla/business-hours.util.ts:54-122 | the two walks go through the same cursors: what one consumes the other counts, from any day and any running total |
| BusinessHours.AddDaysForward | backend/src/sla/business-hours.util.ts:54-85 | a due time found on the calendar lies strictly after the start, whatever the zone and the windows |
| BusinessHours.ElapsedWithinSpan | backend/src/sla/business-hours.util.ts:95-124 | elapsed working time is never negative and never exceeds the wall-clock span, for any zone and any windows |
| BusinessHours.DueNotBeforeClock | backend/src/sla/business-hours.util.ts:48-87 | in any zone no due time is earlier than the minutes on the clock; without a calendar, without minutes to add, and when the calendar does not answer, it is exactly that |
| BusinessHours.DueMonotone | backend/src/sla/business-hours.util.ts:48-87 | in any zone more minutes are due later, unless the calendar answers for the fewer only |
| BusinessHours.OvernightWindowLosesTime | backend/src/sla/business-hours.util.ts:59-69 | an example of what reversed windows do: an hour added is due at 11:00 and none of it is counted back |
| ReversedWindows.RoundTripIff | backend/src/sla/business-hours.util.ts:48-124 | under a constant offset, for windows in any order and reversed ones too, the round trip holds for every instant and every number of minutes if and only if no day has a clash: a reversed window that closes later than all before it, and a later window with working time before it opens |
| ReversedWindows.DaysAgree | backend/src/sla/business-hours.util.ts:54-122 | without a clash the counting walk gives the minutes back from any instant, although the two walks stand apart in between |
| ReversedWindows.DayAgrees | backend/src/sla/business-hours.util.ts:59-117 | the same inside one day, from any window on |
| ReversedWindows.ClashLosesTime | backend/src/sla/business-hours.util.ts:59-116 | a clash on a day gives an instant and minutes whose due time counts back to fewer |
| ReversedWindows.OrderedNeverClash | backend/src/sla/business-hours.util.ts:59-116 | windows listed by when they open keep the round trip, even if some are reversed |
| WorkingTime.DayCounted | backend/src/sla/business-hours.util.ts:105-117 | the counting walk of one day adds exactly the working milliseconds between its cursors |
| WorkingTime.DayAdded | backend/src/sla/business-hours.util.ts:59-79 | the adding walk of one day consumes exactly the working time it passes, and stops just after a working instant |
| WorkingTime.ElapsedIsWorked | backend/src/sla/business-hours.util.ts:95-124 | from a whole minute, elapsed time is the number of working instants of the interval, up to the walk's horizon |
| WorkingTime.ExactWhenNothingShadowed | backend/src/sla/business-hours.util.ts:82-84 | the clock is exact on all intervals of 400 days if and only if no working day follows a day that closes at 24:00 |
| WorkingTime.InMinutes | backend/src/sla/business-hours.util.ts:38-41 | a window covers a minute of the day exactly when the clock's reading lies between its readings, hour by hour and then minute by minute |
| WorkingTime.ElapsedAdds | backend/src/sla/business-hours.util.ts:95-124 | elapsed times of adjoining intervals add up |
| WorkingTime.DueIsLeast | backend/src/sla/business-hours.util.ts:48-88 | the calendar answers exactly when its horizon holds enough working time, and then with the least instant by which the minutes have been worked |
| WorkingTime.LeastDueUnique | backend/src/sla/business-hours.util.ts:48-88 | that description fits one instant only |
| WorkingTime.DueComposes | backend/src/sla/business-hours.util.ts:48-88 | adding `a` minutes and then `b` is adding `a + b` |
| WorkingTime.ElapsedWithinAMinute | backend/src/sla/business-hours.util.ts:95-124 | for arbitrary millisecond instants the clock is off by strictly less than one minute, however many days and windows are crossed |
| WorkingTime.FallbackNotTaken | backend/src/sla/business-hours.util.ts:54-87 | without holidays the clock-time fallback is never taken for up to 57 weeks of working minutes |
| OrderedPage.PageExists | backend/src/chat/chat.module.ts:487-488 | an ordered, limited query always has an answer |
| OrderedPage.PageUnique | backend/src/chat/chat.module.ts:487-488 | and only one, since ids break ties |
| OrderedPage.BeyondPage | backend/src/worker-jobs/processors.ts:594-595 | what a full page leaves out is not older than its last row, and nothing is left out of a page that is not full |
| UpdatesFeed.CursorHeldBack | backend/src/chat/updates-cursor.ts:37-45 | the cursor never goes back, never passes the watermark, and passes an undelivered row only if it shares the stamp of the page's last one; more is announced only after a full page that moved it |
| UpdatesFeed.CursorIsGreatest | backend/src/chat/updates-cursor.ts:37-45 | the cursor is the greatest that passes neither the watermark, 30 seconds back, nor the page's last row, or else stays; there is more exactly when the page was full and it moved |
| UpdatesFeed.StepKeepsInv | backend/src/chat/chat.module.ts:480-529 | every harmless step of writers, clock, poller and merges keeps: nothing the cursor has passed is missing, nothing has gone undelivered, and no open transaction is stamped behind the cursor |
| UpdatesFeed.RunKeepsInv | backend/src/chat/chat.module.ts:480-529 | so does every run |
| UpdatesFeed.LagCoversBothWaits | backend/src/chat/updates-cursor.ts:10-16 | over all runs of harmless steps - no losing split, no merge that takes an undelivered reply away or brings one in behind the cursor - no reply is ever lost if and only if the longest write plus the longest wait between a poll's query and its clock reading fits in the lag |
| UpdatesFeed.LeaveLosesIff | backend/src/tickets/tickets.service.ts:831-834 | a merge away from the client's tickets loses a reply exactly when it takes one that is neither delivered nor on its way |
| UpdatesFeed.GoneForGood | backend/src/chat/chat.module.ts:480-485 | and such a reply is never delivered in any later run that does not bring it back |
| UpdatesFeed.EnterLosesIff | backend/src/tickets/tickets.service.ts:831-834 | a merge into the client's tickets loses a reply exactly when it brings in a missing one behind the cursor, or behind the cursor a pending query is given when it replies |
| UpdatesFeed.SlowReplyLosesMessage | backend/src/chat/chat.module.ts:480-529 | a run within any larger budget in which a committed reply is passed undelivered |
| UpdatesFeed.SplitLosesIff | backend/src/chat/chat.module.ts:482-529 | a reply leaves a row behind its cursor undelivered by its page if and only if the page ends inside a group of equal stamps in whole milliseconds that the watermark has reached |
| UpdatesFeed.SplitGroupLosesMessage | backend/src/chat/chat.module.ts:482-488 | such a page: the rest of its group is out of reach of every later query |
| UpdatesFeed.DrainingStops | backend/src/chat/updates-cursor.ts:27-30 | a client that polls again while there is more makes a bounded number of polls |
| UpdatesFeed.PassedWasReceived | backend/src/chat/chat.module.ts:507-529 | along any chain of polls, a visible reply behind the cursor has been delivered by one of them |
| UpdatesFeed.DrainedAll | backend/src/chat/chat.module.ts:524-529 | a client told there is no more has received every visible reply no newer than the watermark, unless its last page was full and ended in the cursor's own millisecond |
| UpdatesFeed.LeavesOutIff | backend/src/chat/chat.module.ts:524-529 | a poll that says there is no more leaves out a visible row no newer than the watermark exactly when it is stuck and one follows its page |
| UpdatesFeed.StuckNeedsMicroseconds | backend/src/chat/updates-cursor.ts:39-44 | stamps in whole milliseconds never bring about that exception |
| UpdatesFeed.StuckForever | backend/src/chat/updates-cursor.ts:39-44 | stamps inside a millisecond may, and then every later poll returns the same page and says there is no more |
| UpdatesFeed.DeliveredOnce | backend/src/chat/chat.module.ts:517-523 | a reply is delivered twice only while it is younger than the lag, or when its stamp lies inside the last millisecond of the earlier page |
| ExportWatermark.ExportJob.ExportWorkspace | backend/src/worker-jobs/processors.ts:572-622 | one export emits the rows of its query and moves the stored watermark to the last of them; an empty query changes nothing |
| ExportWatermark.ExportKeepsComplete | backend/src/worker-jobs/processors.ts:576-618 | after an export every current version stamped before the watermark has been emitted, the watermark has not gone back, and a batch that is not full leaves nothing unemitted |
| ExportWatermark.WriteKeepsCompleteIff | backend/src/worker-jobs/processors.ts:579-602 | a write keeps that exactly when it is not stamped before the watermark, or that version has already been emitted |
| ExportWatermark.RunsAreComplete | backend/src/worker-jobs/processors.ts:572-618 | completeness and monotonicity over any run of writes, exports and exports that fail after emitting |
| ExportWatermark.FullBatchAdvances | backend/src/worker-jobs/processors.ts:594-602 | a full batch leaves the watermark where it was exactly when every row carries its stamp |
| ExportWatermark.ReselectsLastOnly | backend/src/worker-jobs/processors.ts:576-618 | of what an export emitted, the next selects again only what carries the stamp of its last row; what it left out stays selected |
| ExportWatermark.SelectsSince | backend/src/worker-jobs/processors.ts:576-579 | an export selects the tickets stamped since the stored watermark, the first one since the epoch |
| ExportWatermark.StarvedExport | backend/src/worker-jobs/processors.ts:579-602 | and then the next export emits the same rows again |
| ChatSessions.Chats.AppendMessage | backend/src/chat/chat.module.ts:236-276 | a message is stored unless the session is unknown or its reference is already on the ticket |
| ChatSessions.Chats.Look | backend/src/chat/chat.module.ts:129-155 | an open of a known session appends its message under its digest and answers the session's ticket |
| ChatSessions.Chats.Insert | backend/src/chat/chat.module.ts:157-219 | otherwise customer, ticket, session and message are inserted together, or the session or a new customer is taken and the request fails and writes nothing |
| ChatSessions.RunsKeepSessions | backend/src/chat/chat.module.ts:118-220 | over any interleaving a session has one ticket for good, no ticket is without its session, one open at most is told it created it, and what every answered open sent is on record |
| ChatSessions.StepKeepsInv | backend/src/chat/chat.module.ts:126-220 | every single step keeps that |
| ChatSessions.LoserRetries | backend/src/chat/chat.module.ts:142-213 | an open is answered exactly when nobody beat it to the session or to a new customer; one that was beaten changed nothing, and its retry is answered with the winner's ticket and puts its message on record, or finds the customer and can insert |
| ChatSessions.AtMostTwoCopies | backend/src/chat/chat.module.ts:139-148 | however often an open is retried its text is stored at most twice |
| ChatSessions.RetryAddsIff | backend/src/chat/chat.module.ts:142-148 | a retry stores its text exactly when the ticket has none under its reference, and a second identical one stores nothing |
| ChatSessions.FirstRetryDuplicates | backend/src/chat/chat.module.ts:142-148 | the first identical retry after the open stores a second copy |
| ChatSessions.OpenCreates | backend/src/chat/chat.module.ts:157-194 | an open that wins inserts the customer, the ticket, the session and its message |
| ChatSessions.SilentOpen | backend/src/chat/chat.module.ts:142-155 | opening a known session without a message only asks for its ticket |
| ChatSessions.DifferentTextsAreStored | backend/src/chat/chat.module.ts:142-148 | under a digest without collisions, opens of a session with different texts store both |
| ChatSessions.RecordedIsStored | backend/src/chat/chat.module.ts:240-253 | then whatever is on record is on the ticket as it was sent |
| ChatSessions.PostStores | backend/src/chat/chat.module.ts:236-276 | any other message to a known session is stored, unless its reference is |
| AdminFloor.StepKeepsLocks | backend/src/users/users.module.ts:175-186 | memberships and accounts are locked by one transaction each, over all desks; each has read what it has locked and what it waits for, in order, and what it kept is live |
| AdminFloor.FinishLeavesOne | backend/src/users/users.module.ts:188-205 | a commit leaves an administrator of the desk whose guards see every live one |
| AdminFloor.RefusesIff | backend/src/users/users.module.ts:188-205 | a change that would alter the seat is not written exactly when the target is the one administrator the guard kept |
| AdminFloor.UndisturbedIsWritten | backend/src/users/users.module.ts:207-291 | a request that nobody disturbs is written exactly as it was made, unless it costs the desk its one live administrator: then nothing is |
| AdminFloor.NameIsWrittenIff | backend/src/users/users.module.ts:228-235 | along the way the person is written exactly when the request names one and is not refused |
| AdminFloor.RequestCompletes | backend/src/users/users.module.ts:207-291 | every request has such a run |
| AdminFloor.StepKeepsFloor | backend/src/users/users.module.ts:175-265 | every step keeps a live administrator and lets each scanning guard see all of them |
| AdminFloor.AdminAlwaysRemains | backend/src/users/users.module.ts:175-313 | a desk with a live administrator has one after every run of demotions, deactivations, promotions, renames and joins on any desks in which none of it appears during the scan of one of its guards |
| AdminFloor.FloorLostIff | backend/src/users/users.module.ts:188-265 | without that proviso, a step takes a desk's last administrator exactly when it is the commit of a guard whose target is the only one and which kept none of its rows |
| AdminFloor.PromotionDuringScanLosesFloor | backend/src/users/users.module.ts:155-205 | a run from one administrator to none |
| AdminFloor.GuardsQueueUp | backend/src/users/users.module.ts:166-167 | in every state of every run in which the guards in flight on a desk agree on their targets and nobody writes both tables, no set of requests is deadlocked |
| AdminFloor.OneIsFree | backend/src/users/users.module.ts:184-186 | of any requests in flight, one waits for none of the others |
| AdminFloor.Proceeds | backend/src/users/users.module.ts:175-265 | a request that waits for nobody has a step it can take |
| AdminFloor.BlockedIff | backend/src/users/users.module.ts:166-265 | over any run, a guard that has scanned is blocked exactly when its target was not live as it read them and another request has locked the row of the target it writes next |
| AdminFloor.Holders | backend/src/users/users.module.ts:184-186 | such a row is locked by a guard that did read its user as live, of the same desk for a membership and of any for an account, or by a rename |
| AdminFloor.PromotedTargetDeadlocks | backend/src/users/users.module.ts:166-167 | a run to two guards that wait for each other, one's target promoted after its read |
| AdminFloor.DemotedTargetDeadlocks | backend/src/users/users.module.ts:152-157 | another, with nobody promoted: one's target was demoted between the reads and is locked by the other |
| AdminFloor.RenamesDeadlock | backend/src/users/users.module.ts:225-263 | another, of two desks that agree: each demotes and renames the other's administrator |
| AdminFloor.ProfileDeadlocks | backend/src/users/users.module.ts:298-313 | another, of a guard and an administrator's write to the own profile |
| Invitations.Tables.Create | backend/src/invitations/invitations.service.ts:106-152 | inviting is refused for a member, and otherwise withdraws the outstanding invitation and inserts one |
| Invitations.Tables.Revoke | backend/src/invitations/invitations.service.ts:254-276 | only an outstanding invitation is withdrawn; anything else is left alone |
| Invitations.RevokeWithdraws | backend/src/invitations/invitations.service.ts:254-276 | revoking an outstanding invitation withdraws it and no other |
| Invitations.RevokedForGood | backend/src/invitations/invitations.service.ts:273-276 | in every later run it stays withdrawn, is never accepted, and no claim of it goes through, not even one that read it before |
| Invitations.IssuedAlone | backend/src/invitations/invitations.service.ts:129-152 | an invitation is issued as asked, and is the only one outstanding for its desk and address |
| Invitations.ValidIff | backend/src/invitations/invitation-state.ts:39-48 | an invitation is valid exactly when its desk is active, it is outstanding and has not run out; the other states take precedence in that order |
| Invitations.Tables.Accept | backend/src/invitations/invitations.service.ts:404-509 | the transaction claims, opens or finds the account, and seats it, or changes nothing |
| Invitations.ClaimGoesThroughIff | backend/src/invitations/invitations.service.ts:404-484 | a claim goes through exactly when the invitation is outstanding, the address has an active account or a password came along, and has no active seat yet |
| Invitations.ClaimSeats | backend/src/invitations/invitations.service.ts:414-484 | it seats the account of the address in the role of the invitation: the one there was, untouched, or a new active one with the password that was sent |
| Invitations.AnyStep | backend/src/invitations/invitations.service.ts:92-509 | every transaction keeps the invariant below and undoes nothing |
| Invitations.ClaimOutcome | backend/src/invitations/invitations.service.ts:414-484 | a claim either changes nothing or accepts an outstanding invitation for the one account of its address and the one seat of that account |
| Invitations.ClaimKeepsLog | backend/src/invitations/invitations.service.ts:439-452 | a claim that went through is the only one of its invitation, and was read in time |
| Invitations.RunsKeepInvitations | backend/src/invitations/invitations.service.ts:92-509 | over any interleaving, of accounts opened without an invitation too: never accepted and revoked, accepted at most once, one outstanding per desk and address, one account per address, one seat per desk, withdrawals final, passwords unchanged, every accept read before expiry |
| Invitations.AcceptedWereReadInTime | backend/src/invitations/invitations.service.ts:361-452 | over any run every accepted invitation was read before it expired, and before it was claimed |
| Invitations.LateIff | backend/src/invitations/invitations.service.ts:366-452 | a claim that goes through takes an expired invitation exactly when that expired between the accept's read and the claim, and the clock has no say in whether it goes through |
| Invitations.ClaimAfterExpiry | backend/src/invitations/invitations.service.ts:366-374 | every outstanding invitation to a new address can be claimed that way, however late |
| SlaMarkers.RetagKeepsMarkers | backend/src/tickets/tickets.service.ts:566-574 | a retag keeps exactly the markers it read and exactly the client's other tags |
| SlaMarkers.RetagKeepsOrder | backend/src/tickets/tickets.service.ts:570-571 | a retag puts the client's own tags first and keeps the order both came in |
| SlaMarkers.TagKeysAreNotMarkers | backend/src/tags/tags.module.ts:8 | no tag key is a marker, so deleting a tag removes none |
| SlaMarkers.Sweep.AppendIfAbsent | backend/src/worker-jobs/processors.ts:367-372 | the marker is appended exactly once and the row count tells whether |
| SlaMarkers.Sweep.SweepWorkspace | backend/src/worker-jobs/processors.ts:355-407 | the loop visits the snapshot in order and announces exactly what it appended |
| SlaMarkers.SweepMarks | backend/src/worker-jobs/processors.ts:355-399 | after a sweep every candidate has the marker of its deadline, overdue from that instant on, unless its snapshot said so already; a new marker has been announced |
| SlaMarkers.SweepIsVisits | backend/src/worker-jobs/processors.ts:355-407 | a sweep is a run of the single visits that the runs below are made of |
| SlaMarkers.SnapshotDecides | backend/src/worker-jobs/processors.ts:358 | a candidate whose snapshot has the marker is passed over |
| SlaMarkers.LosesIff | backend/src/tickets/tickets.service.ts:566-574 | a marker is lost exactly when a retag writes over tags it read before the marker was there, or when the sweep that appended it fails |
| SlaMarkers.StepBalance | backend/src/worker-jobs/processors.ts:358-374 | a step announces a pair only as it puts the marker there |
| SlaMarkers.AnnouncementsBounded | backend/src/worker-jobs/processors.ts:355-406 | over any run of overlapping sweeps, failing ones included, a pair is announced at most once more than its marker was lost |
| SlaMarkers.AnnouncedAtMostOnce | backend/src/worker-jobs/processors.ts:355-406 | with atomic retags and sweeps that do not fail each pair is announced at most once |
| SlaMarkers.SweepAnnounces | backend/src/worker-jobs/processors.ts:355-399 | an unhindered sweep announces a pair whose marker is not there, and locks the ticket |
| SlaMarkers.StaleRetagAnnouncesTwice | backend/src/tickets/tickets.service.ts:566-574 | a retag that spans a sweep has the pair announced twice |
| SlaMarkers.FailedSweepAnnouncesTwice | backend/src/worker-jobs/processors.ts:355-406 | with no retag, a sweep that fails after announcing and the next one announce the pair twice |
| Conversation.TimerPatchForTransition | backend/src/sla/sla.service.ts:119-143 | the patch built field by field is the timer rule the ledger is proved about |
| Conversation.Tickets.Transition | backend/src/tickets/tickets.service.ts:666-712 | a console move changes its row by the transition rule, or is refused by table or role, and touches no other row |
| Conversation.MovesIff | backend/src/tickets/ticket-state-machine.ts:11-34 | a move happens exactly to another status that is not new, from closed only to open and from resolved only to open or closed, and reopens only for a lead or an administrator; otherwise nothing changes |
| Conversation.MoveStamps | backend/src/tickets/tickets.service.ts:702-711 | pending and on hold pause from the first of them on, resolving and closing stamp the time, reopening clears both, and nothing else moves |
| Conversation.Tickets.AddMessage | backend/src/messages/messages.service.ts:25-77 | only a person's public reply takes the conversation, stamps the first response and opens a new ticket |
| Conversation.ReplyTakes | backend/src/messages/messages.service.ts:53-75 | a person's public reply stamps what is missing, opens a new ticket and silences the bot; a note and a machine's message leave the row alone |
| Conversation.Tickets.AppendMessage | backend/src/chat/chat.module.ts:236-311 | duplicates and a silenced bot change nothing; a visitor resumes a pending or reopens a finished ticket |
| Conversation.VisitorWrites | backend/src/chat/chat.module.ts:286-308 | a visitor's message resumes a pending ticket a person has, reopens a finished one, and otherwise is only stored |
| Conversation.BotWrites | backend/src/chat/chat.module.ts:255-286 | a bot's message is stored while the bot is on and refused while it is off |
| Conversation.RepeatedAppendIsSilent | backend/src/chat/chat.module.ts:240-253 | repeating an append changes nothing, whoever does it and whenever |
| Conversation.Tickets.Handoff | backend/src/chat/chat.module.ts:339-388 | a first handoff opens the ticket, silences the bot and starts both deadlines; a repeated one changes nothing and answers the first one's time, both answering that the bot is off |
| Conversation.HandoffOpens | backend/src/chat/chat.module.ts:356-388 | a first handoff leaves the ticket open, unpaused, unfinished and escalated, for its assignee or for anybody, with the bot off |
| Deadlines.TicketsMeetTargets | backend/src/sla/sla.service.ts:102-112 | on a handoff and on a creation the working time up to each deadline is exactly the target of the policy, first response and resolution each its own |
| Deadlines.DeadlinesInOrder | backend/src/sla/sla.service.ts:102-112 | a response wanted no later than the resolution falls due no later, in any zone, unless the calendar answers for the response only |
| Deadlines.ScarceDeadlinesOutOfOrder | backend/src/sla/business-hours.util.ts:86-87 | a calendar of one minute a day with targets of 400 and 401 minutes, whose resolution falls due 399 days before the response |
| Deadlines.NoPolicyNoDeadlines | backend/src/tickets/tickets.service.ts:128-131 | without a policy, and while the bot has the conversation, there are none |
| Conversation.BotResolves | backend/src/chat/chat.module.ts:410-426 | the bot resolves only what nobody has taken or finished, as answered unless it says otherwise |
| Conversation.Tickets.Merge | backend/src/tickets/tickets.service.ts:809-849 | the source closes and its message references move to the target, or the merge is refused, also when the two share a reference; no other row changes |
| Conversation.MergeConserves | backend/src/tickets/tickets.service.ts:809-849 | a merge loses and doubles no reference and moves no third row |
| Conversation.StepKeepsLifecycle | backend/src/tickets/tickets.service.ts:673-711 | every writer keeps: closed stamp iff closed, resolved has a stamp, a resolved stamp only when finished, paused has a pause stamp |
| Conversation.StepKeepsOwnership | backend/src/messages/messages.service.ts:53-75 | every writer keeps: a first response implies a handoff, bot tickets have deadlines only after one, and no bot message falls between a takeover and the next re-enable |
| Conversation.StepKeeps | backend/src/chat/chat.module.ts:259-264 | no request clears or moves the handoff, first-response or bot-reply stamp |
| Conversation.RefsForgottenIff | backend/src/tickets/tickets.service.ts:831-834 | a write forgets a message reference exactly when it merges away a ticket that has one |
| Conversation.EveryTicket | backend/src/tickets/tickets.service.ts:117-186 | all three hold after any run from any way of creating a ticket |
| Conversation.CreatedFresh | backend/src/tickets/tickets.service.ts:135-163 | a new ticket is new, with nothing stamped and the bot on, and unassigned if the bot opened it |
| Conversation.TakenStaysTaken | backend/src/tickets/tickets.service.ts:36-46 | a conversation taken from the bot is never again the bot's |
| Conversation.HandlingMeans | backend/src/tickets/tickets.service.ts:36-46 | who answers a conversation, from its status, its opener, its handoff and its assignee |
| Conversation.ReopenedByVisitor | backend/src/chat/chat.module.ts:301-307 | a finished bot conversation the visitor reopens goes back to the bot exactly when nobody had taken it |
| Conversation.HandoffAnswerIff | backend/src/chat/chat.module.ts:341-350 | what a handoff answers about the bot is true exactly when it is the first, or nothing in the history since has let the bot speak |
| Conversation.ReenabledHandoffMisreports | backend/src/chat/chat.module.ts:341-350 | handoff, re-enable, handoff: the second answer says off while the bot is on |
| Conversation.StaleLifecycleIff | backend/src/chat/chat.module.ts:278-309 | for every writer, writing over a row read earlier keeps the stamps right exactly when the row was not overtaken: finished, or closed, or resumed meanwhile, as the writer's branch has it |
| Conversation.StaleOwnershipIff | backend/src/chat/chat.module.ts:255-309 | for every writer, it keeps the rules of ownership exactly when it is not an admitted bot message over a bot silenced meanwhile; a message whose reference was stored meanwhile is refused |
| Conversation.StaleKeepsIff | backend/src/messages/messages.service.ts:53-75 | for every writer, it moves a write-once stamp exactly when it sets one that was missing when read and has been set since |
| Conversation.OverlapsSoundIff | backend/src/chat/chat.module.ts:236-311 | over any run of overlapping requests, reads and writes interleaved at will, every state keeps the rules and no write-once stamp moves exactly when no write is overtaken, speaks over a silenced bot or restamps |
| Conversation.OverlappingRepliesRestamp | backend/src/messages/messages.service.ts:53-75 | two overlapping first replies: the later write moves the first response |
| Conversation.StaleAppendBreaksLifecycle | backend/src/chat/chat.module.ts:289-291 | a visitor's message that found the ticket pending breaks them if it was resolved or closed meanwhile |
| Conversation.BotSpeaksOverIff | backend/src/chat/chat.module.ts:255-264 | a bot message lands out of turn exactly when the bot was silenced between its read and its write |
| PauseLedger.MoveTimers | backend/src/sla/sla.service.ts:125-138 | what one transition does to the pause stamp and to both deadlines |
| PauseLedger.DeadlinesFollowPauses | backend/src/sla/sla.service.ts:119-143 | after any run of transitions each deadline is the first one plus the working time of the completed pauses of the status history, and the stamp is the start of the running one |
| PauseLedger.RunBalances | backend/src/sla/sla.service.ts:119-143 | the same from any balanced row and history |
| PauseLedger.DeadlinesNeverEarlier | backend/src/sla/sla.service.ts:130-138 | no transition moves a deadline earlier |
| PauseLedger.TimeLeftSurvivesPause | backend/src/sla/sla.service.ts:130-138 | under a 24/7 policy the time left at resume is the time left at pause |
| InboundRouting.BaseIsStable | backend/src/email/email.service.ts:662-666 | stripping a subaddress twice is stripping it once |
| InboundRouting.Subaddress | backend/src/email/email.service.ts:662-666 | a tag is left out, whatever it holds, if there is a name before it |
| InboundRouting.PlainAddress | backend/src/email/email.service.ts:662-666 | any other address is its own base |
| InboundRouting.RouteInbound | backend/src/email/email.service.ts:317-373 | the loops over delivery path and headers compute the routing rule of the lemmas below |
| InboundRouting.Collect | backend/src/email/email.service.ts:350-354 | the map of named desks the header loop builds |
| InboundRouting.DeliveryDecides | backend/src/email/email.service.ts:330-343 | if any delivery address resolves, To and Cc change nothing |
| InboundRouting.DeliveryInOrder | backend/src/email/email.service.ts:336-343 | the first delivery address that resolves is the answer, its own desk before its base's |
| InboundRouting.NamedDesks | backend/src/email/email.service.ts:349-354 | the header loop finds exactly the desks named by the set of addresses, each with an address that names it |
| InboundRouting.LastNameStands | backend/src/email/email.service.ts:351-354 | of several addresses that name a desk, the last stands for it |
| InboundRouting.HeadersChooseIff | backend/src/email/email.service.ts:345-373 | otherwise the route is to a desk exactly when it is active and the one desk named exactly, or none is and it is the one named by base address; two competing desks are refused |
| InboundRouting.HeaderOrderIrrelevant | backend/src/email/email.service.ts:345-366 | the chosen workspace does not depend on the order of To and Cc |
| InboundRouting.RouteIsFound | backend/src/email/email.service.ts:336-388 | a route names an active desk by id and slug, and an address of the message that finds it |
| RoundRobin.SortByLoad | backend/src/tickets/tickets.service.ts:305 | the roster is sorted by load, in place, loses nobody, and agents of equal load keep their order |
| RoundRobin.RoundRobinAssignee | backend/src/tickets/tickets.service.ts:288-307 | nobody is assigned exactly when nobody is available, and the assignee is the first in roster order of those with the fewest open tickets |
| RoundRobin.IdleAgentFirst | backend/src/tickets/tickets.service.ts:304-306 | an agent without open tickets is taken before any that has one |
| RoundRobin.FewerFirst | backend/src/tickets/tickets.service.ts:304-306 | of two with open tickets, the one with fewer |
| RoundRobin.GapStays | backend/src/tickets/tickets.service.ts:288-307 | however many tickets are assigned, the gap between most and least loaded stays within its first value, or one if that is larger |
| RoundRobin.TicketsConserved | backend/src/tickets/tickets.service.ts:288-307 | each assignment adds one ticket to the roster's total |
| RoundRobin.EventuallyLevel | backend/src/tickets/tickets.service.ts:288-307 | once more tickets are open than the roster holds at its first maximum each, no two agents differ by more than one |
| TemplateText.ParensWrapWhole | design-src/support.js:237-247 | true exactly when the depth never returns to zero before the last character |
| TemplateText.FindTopLevelEquality | design-src/support.js:248-262 | finds the first equality operator outside all brackets with something before it, and which of the four it is |
| TemplateText.NumberIff | design-src/support.js:204 | a numeral is an optional minus sign, digits, and an optional point with digits after it |
| TemplateText.NameIsLongest | design-src/support.js:203 | the name at the front of a text is its longest prefix of letters, digits, `_` and `$`, unless that begins with a digit |
| TemplateText.SpacesAreTrimmed | design-src/support.js:206 | white space and line terminators go from both ends |
| TemplateExpr.MatchBracket | design-src/support.js:275-284 | finds the bracket that closes a key |
| TemplateExpr.Evaluate | design-src/support.js:205-236 | the recursive evaluator computes the meaning of text the round trip is about, and ends on every text |
| TemplateExpr.EvaluatePath | design-src/support.js:263-294 | so does the path loop |
| TemplateExpr.SplitsAtOperator | design-src/support.js:211-214 | the scanner splits a printed comparison at its own operator, not inside an operand |
| TemplateExpr.WalkPrinted | design-src/support.js:268-293 | walking a printed path follows its steps, computed keys included |
| TemplateExpr.ResolvePrinted | design-src/support.js:205-294 | evaluating the text of any expression tree, with any white space, gives the tree's meaning: nested parentheses, keys, negation and the four equalities |
| TemplateExpr.ComparisonsMean | design-src/support.js:211-225 | what each of the four comparisons, as it is written, evaluates to in terms of the host's two equalities |
| TemplateExpr.WordsMean | design-src/support.js:227-230 | what the four words evaluate to |
| TemplateExpr.NegationMeans | design-src/support.js:226 | what a negation evaluates to |
| TemplateExpr.MembersMean | design-src/support.js:263-273 | what a name and a member evaluate to, on missing values too |
| TemplateExpr.BrokenPathIsUndefined | design-src/support.js:268-291 | a path that breaks off at a character that is no step, a dot without a name or an open bracket is undefined |
| TemplateExpr.OpenQuoteIsUndefined | design-src/support.js:232-234 | so is a quote that the same quote does not close |
| TemplateExpr.LeadingOperatorIsNone | design-src/support.js:255-256 | an operator with nothing before it does not split the text |
| TemplateExpr.LiteralSurvives | design-src/support.js:211-234 | a string literal evaluates to its own text in every host exactly when no top-level operator is found in it |
| TemplateExpr.OperatorInLiteral | design-src/support.js:248-262 | one is found in `'a==b'` |

## Left out

- Prisma, row-level security, queues, HTTP, authentication, storage and the front end: a table is a map and a transaction a step; deadlines of transactions and retries by the framework are not modelled.
- `zoneParts` and "HH:MM" parsing: a zone is a function from instants to local time and a window a pair of clock readings; floating-point rounding of milliseconds divided by 60 000 is not modelled.
- Daylight saving in `WorkingTime`: the declarative count assumes a constant whole-minute offset and sorted, disjoint windows; only `BusinessHours` is free of both.
- BusinessHours.RoundTrip: in arbitrary zones it asks for windows that open before they close; `ReversedWindows.RoundTripIff` drops that under a constant offset, for clock readings before 24:00.
- UpdatesFeed.LagCoversBothWaits: takes the database clock and the service's clock to be one, and the single steps to lose nothing of their own (`SplitLosesIff`, `LeaveLosesIff` and `EnterLosesIff` say exactly when they do).
- UpdatesFeed.DrainedAll: takes replies that become visible between polls to be newer than the earlier poll's watermark, which is what the lag budget of the run theorem provides.
- ExportWatermark.RunsAreComplete: asks that no write commits with a stamp behind the watermark; `WriteKeepsCompleteIff` is the exact condition. The sink of `emit` and its redaction are not modelled.
- ChatSessions.RunsKeepSessions: sessions and tickets are not deleted, and a retried message counts as on record when the ticket has one under its digest; the status effects of an append are not part of this module.
- AdminFloor.AdminAlwaysRemains: memberships leave the desk only by being deactivated, and the account-wide activity flag, which no code in the repository clears, is constant.
- AdminFloor.GuardsQueueUp: locks that foreign-key checks and other endpoints take on the same rows are not modelled, and the conditions are sufficient; for a single guard `BlockedIff` is exact.
- Invitations.RunsKeepInvitations: mail, tokens and their lookup are left out; a suspended workspace is refused by the early read and not followed further.
- SlaMarkers.AnnouncedAtMostOnce: asks for retags that write over the markers they read and for sweeps that do not fail (`AnnouncementsBounded` is the statement without either); who is notified, the candidate filter and the deletion of tickets are not modelled.
- Conversation.EveryTicket: each request is one step; `OverlapsSoundIff` is the statement for requests that overlap. Priorities, audit, realtime events, team scope and the texts of messages are not modelled.
- PauseLedger.DeadlinesFollowPauses: covers console transitions under one calendar; a visitor's message, a handoff and a chatbot's resolve end or leave a pause without extending deadlines, so they are not in the ledger.
- InboundRouting.RouteInbound: starts from the lists of delivery and header addresses; parsing them out of a payload (`recipientsOf`, `normalizeAddress`) is not modelled.
- RoundRobin.RoundRobinAssignee: the roster and the counts are inputs; two creations that read the same counts are not interleaved.
- TemplateExpr.ResolvePrinted: covers literals free of brackets and of equality operators and bare names that are not keywords; `LiteralSurvives` says what happens to the other literals. Coercions, property access and equality are parameters.
- Team and workspace access rules, reports, OAuth plumbing, seed data and the small one-branch helpers: they would only add easy members.
