/**
 The `GET /chat/updates` cursor protocol (`backend/src/chat/updates-cursor.ts` and
 `ChatService.updates`).

 A reply is stamped when its transaction starts and becomes visible when it commits. A poll is
 two steps: the query, which sees what is committed then, and the reply, which reads the clock
 and moves the cursor. Merging tickets moves replies out of the client's feed and into it. Stamps and
 the clock are microseconds (the database's precision); the
 cursor is milliseconds (a JavaScript `Date`).
 */
module UpdatesFeed {
  import opened Options
  import opened Numbers
  import opened OrderedPage

  const LAG_MS := 30_000
  const TICKS := 1000
  const LAG := LAG_MS * TICKS

  /** A stamp as a `Date`. */
  function Ms(stamp: int): int { stamp / TICKS }

  // ---- the cursor -----------------------------------------------------------------

  datatype Turn = Turn(cursor: int, hasMore: bool)

  function NextUpdatesCursor(since: int, lastRowAt: Option<int>, pageWasFull: bool, now: int, lag: int): Turn {
    var watermark := now - lag;
    var target := if lastRowAt.Some? then lastRowAt.value else watermark;
    var cursor := Max(since, Min(target, watermark));
    Turn(cursor, pageWasFull && cursor > since)
  }

  /** What a reply says after a page read from `since`. */
  function ReplyTo(since: int, page: seq<Row>, limit: nat, now: int): Turn {
    var lastRowAt := if page == [] then None else Some(Ms(page[|page| - 1].stamp));
    NextUpdatesCursor(since, lastRowAt, |page| == limit, Ms(now), LAG_MS)
  }

  /** The rows a poll from `since` selects from. */
  function Newer(rows: set<Row>, since: int): set<Row> {
    set r | r in rows && r.stamp > since * TICKS
  }

  /** The cursor passes neither the watermark nor the rows that did not fit on the page. */
  lemma CursorHeldBack(since: int, page: seq<Row>, rows: set<Row>, limit: nat, now: int, r: Row)
    requires limit >= 1 && IsPage(page, Newer(rows, since), limit)
    ensures var turn := ReplyTo(since, page, limit, now);
      && since <= turn.cursor <= Max(since, Ms(now) - LAG_MS)
      && (turn.hasMore ==> since < turn.cursor && |page| == limit)
      && (r in rows && since * TICKS < r.stamp <= turn.cursor * TICKS && r !in page ==>
            page != [] && r.stamp == page[|page| - 1].stamp)
  {
    if page != [] && r in Newer(rows, since) {
      BeyondPage(page, Newer(rows, since), limit, r);
    }
  }

  /**
   The cursor is the greatest that is neither beyond the watermark nor beyond the page's last row, or
   else where it was; and there is more exactly when the page was full and the cursor moved.
   */
  lemma CursorIsGreatest(since: int, page: seq<Row>, limit: nat, now: int, c: int)
    ensures var turn := ReplyTo(since, page, limit, now);
      && (c <= turn.cursor <==>
            c <= since || (c <= Ms(now) - 30_000 && (page == [] || c <= Ms(page[|page| - 1].stamp))))
      && (turn.hasMore <==> |page| == limit && turn.cursor > since)
  {
  }

  /** A page does not end inside a group of equal stamps. */
  ghost predicate CleanCut(page: seq<Row>, rows: set<Row>) {
    page != [] ==> forall r :: r in rows && r !in page ==> r.stamp != page[|page| - 1].stamp
  }

  /** The page splits a group whose stamp is a whole millisecond, and the watermark has reached that stamp. */
  ghost predicate LosingSplit(since: int, page: seq<Row>, rows: set<Row>, now: int) {
    && !CleanCut(page, Newer(rows, since))
    && var last := page[|page| - 1].stamp;
    && last % TICKS == 0 && last <= (Ms(now) - LAG_MS) * TICKS
  }

  /**
   The cursor passes a row it has not delivered exactly when the page ends inside a group of equal
   stamps in whole milliseconds that the watermark has reached.
   */
  lemma SplitLosesIff(since: int, page: seq<Row>, rows: set<Row>, limit: nat, now: int)
    requires limit >= 1 && IsPage(page, Newer(rows, since), limit)
    ensures var cursor := ReplyTo(since, page, limit, now).cursor;
      (exists r :: r in rows && r !in page && since * TICKS < r.stamp <= cursor * TICKS)
      <==> LosingSplit(since, page, rows, now)
  {
    var cursor := ReplyTo(since, page, limit, now).cursor;
    if r :| r in rows && r !in page && since * TICKS < r.stamp <= cursor * TICKS {
      CursorHeldBack(since, page, rows, limit, now, r);
      assert r in Newer(rows, since);
    }
    if LosingSplit(since, page, rows, now) {
      var r :| r in Newer(rows, since) && r !in page && r.stamp == page[|page| - 1].stamp;
      assert r.stamp == Ms(r.stamp) * TICKS;
    }
  }

  // ---- the protocol -----------------------------------------------------------------

  /** A poll that has run its query and not replied yet. */
  datatype Reading = Reading(at: int, limit: nat, visible: set<Row>, page: seq<Row>)

  /** `since` is where the client began; `gone` are replies that were in its feed once and are not now. */
  datatype Feed = Feed(
    since: int,
    now: int,
    open: map<nat, int>,
    committed: set<Row>,
    gone: set<Row>,
    cursor: int,
    poll: Option<Reading>,
    delivered: set<Row>)
  {
    /** What has been delivered, or will be when the pending poll replies. */
    function Delivering(): set<Row> {
      delivered + (if poll.Some? then set r | r in poll.value.page else {})
    }

    /** Newer than where the client began, not delivered, and not on its way. */
    predicate Missing(r: Row) { r.stamp > since * TICKS && r !in Delivering() }
  }

  datatype Action =
    | Begin(id: nat)
    | Commit(id: nat)
    | Abort(id: nat)
    | Tick(now: int)
    | Query(limit: nat, page: seq<Row>)
    | Reply
    | Leave(rows: set<Row>)
    | Enter(rows: set<Row>)

  /** Every transaction ends less than `write` after its stamp; every poll replies within `reply` of its query. */
  datatype Budget = Budget(write: int, reply: int)

  ghost predicate Enabled(b: Budget, s: Feed, a: Action) {
    match a
    case Begin(id) => id !in s.open && forall r :: r in s.committed + s.gone ==> r.id != id
    case Commit(id) => id in s.open
    case Abort(id) => id in s.open
    case Tick(now) =>
      && s.now <= now
      && (forall id :: id in s.open ==> now - s.open[id] < b.write)
      && (s.poll.Some? ==> now - s.poll.value.at <= b.reply)
    case Query(limit, page) =>
      && s.poll.None? && limit >= 1
      && IsPage(page, Newer(s.committed, s.cursor), limit)
    case Reply => s.poll.Some?
    case Leave(rows) => rows <= s.committed
    case Enter(rows) => forall r :: r in rows ==> r !in s.committed && r.id !in s.open
  }

  function Apply(s: Feed, a: Action): Feed {
    match a
    case Begin(id) => s.(open := s.open[id := s.now])
    case Commit(id) =>
      if id in s.open then s.(open := s.open - {id}, committed := s.committed + {Row(s.open[id], id)}) else s
    case Abort(id) => s.(open := s.open - {id})
    case Tick(now) => s.(now := now)
    case Query(limit, page) => s.(poll := Some(Reading(s.now, limit, s.committed, page)))
    case Reply =>
      if s.poll.None? then s else
      var p := s.poll.value;
      s.(cursor := ReplyTo(s.cursor, p.page, p.limit, s.now).cursor,
         delivered := s.delivered + (set r | r in p.page),
         poll := None)
    case Leave(rows) => s.(committed := s.committed - rows, gone := s.gone + rows)
    case Enter(rows) => s.(committed := s.committed + rows, gone := s.gone - rows)
  }

  /** The cursor the client will have once the pending poll, if any, has replied at `now`. */
  function CursorBy(s: Feed, now: int): int {
    if s.poll.None? then s.cursor else ReplyTo(s.cursor, s.poll.value.page, s.poll.value.limit, now).cursor
  }

  /** The latest instant at which the pending poll, if any, replies. */
  function ReplyBy(b: Budget, s: Feed): int { if s.poll.None? then s.now else s.poll.value.at + b.reply }

  /**
   Steps that lose no reply of their own: a reply does not split a group (`SplitLosesIff`), a merge does
   not take an undelivered row away (`LeaveLosesIff`), and it does not bring one in behind the cursor or
   the cursor that a pending query may still be given (`EnterLosesIff`).
   */
  ghost predicate Harmless(b: Budget, s: Feed, a: Action) {
    match a
    case Reply => s.poll.Some? ==> !LosingSplit(s.cursor, s.poll.value.page, s.poll.value.visible, s.now)
    case Leave(rows) => forall r :: r in rows ==> !s.Missing(r)
    case Enter(rows) => forall r :: r in rows && s.Missing(r) ==> r.stamp > CursorBy(s, ReplyBy(b, s)) * TICKS
    case _ => true
  }

  ghost predicate Possible(b: Budget, s: Feed, run: seq<Action>)
    decreases |run|
  {
    run == [] || (Enabled(b, s, run[0]) && Possible(b, Apply(s, run[0]), run[1..]))
  }

  /** Runs of harmless steps. */
  ghost predicate Allowed(b: Budget, s: Feed, run: seq<Action>)
    decreases |run|
  {
    run == [] || (Enabled(b, s, run[0]) && Harmless(b, s, run[0]) && Allowed(b, Apply(s, run[0]), run[1..]))
  }

  function After(s: Feed, run: seq<Action>): Feed
    decreases |run|
  {
    if run == [] then s else After(Apply(s, run[0]), run[1..])
  }

  /** Before the first poll: any replies, any transactions in flight. */
  ghost predicate Start(b: Budget, s: Feed) {
    && s.since == s.cursor && s.poll.None? && s.delivered == {} && s.gone == {}
    && forall id :: id in s.open ==> s.open[id] <= s.now < s.open[id] + b.write
  }

  /** `stamp` is after the first `since`, and a cursor has passed it. */
  predicate PassedBy(since: int, cursor: int, stamp: int) { since * TICKS < stamp <= cursor * TICKS }

  /** Nothing the cursor has passed is missing or still to come, and nothing has gone undelivered. */
  ghost predicate NothingLost(s: Feed) {
    && (forall r :: r in s.committed && PassedBy(s.since, s.cursor, r.stamp) ==> r in s.delivered)
    && (forall id :: id in s.open ==> !PassedBy(s.since, s.cursor, s.open[id]))
    && (forall r :: r in s.gone ==> !s.Missing(r))
  }

  ghost predicate Inv(b: Budget, s: Feed) {
    && s.since <= s.cursor
    && (s.since < s.cursor ==> s.cursor * TICKS <= s.now - LAG)
    && NothingLost(s)
    && (forall id :: id in s.open ==> s.open[id] <= s.now < s.open[id] + b.write)
    && (s.poll.Some? ==> InvReading(b, s, s.poll.value))
  }

  /** What the query did not see is beyond the cursor it may be given, and so is what is still to come. */
  ghost predicate InvReading(b: Budget, s: Feed, p: Reading) {
    && p.at <= s.now <= p.at + b.reply && p.limit >= 1
    && IsPage(p.page, Newer(p.visible, s.cursor), p.limit)
    && (forall r :: r in s.committed && r !in p.visible && s.Missing(r) ==>
          r.stamp > CursorBy(s, p.at + b.reply) * TICKS)
    && (forall id :: id in s.open ==> s.open[id] > p.at - b.write)
  }

  /** A later reply gives no earlier cursor, and none beyond what is still to come. */
  lemma CursorByBounds(b: Budget, s: Feed, now: int)
    requires b.write >= 1 && b.reply >= 0 && b.write + b.reply <= LAG && s.poll.Some?
    requires s.since <= s.cursor && (s.since < s.cursor ==> s.cursor * TICKS <= s.poll.value.at - LAG)
    requires now <= s.poll.value.at + b.reply
    ensures s.cursor <= CursorBy(s, now) <= CursorBy(s, s.poll.value.at + b.reply)
    ensures var end := CursorBy(s, s.poll.value.at + b.reply);
      end == s.since || end * TICKS <= s.poll.value.at - b.write
  {
  }

  lemma ReplyLosesNothing(b: Budget, s: Feed)
    requires b.write >= 1 && b.reply >= 0 && b.write + b.reply <= LAG
    requires Inv(b, s) && CursorSettled(s) && Enabled(b, s, Reply) && Harmless(b, s, Reply)
    ensures Inv(b, Apply(s, Reply))
  {
    var p := s.poll.value;
    var t := Apply(s, Reply);
    CursorHeldBack(s.cursor, p.page, p.visible, p.limit, s.now, Row(0, 0));
    hide ReplyTo, LosingSplit, IsPage;
    assert t.delivered == s.Delivering() == t.Delivering();
    PassesNoOther(b, s, s.now);
    CursorByBounds(b, s, s.now);
  }

  /** The cursor was given by an earlier poll. */
  ghost predicate CursorSettled(s: Feed) {
    s.poll.Some? && s.since < s.cursor ==> s.cursor * TICKS <= s.poll.value.at - LAG
  }

  lemma MergeKeepsInv(b: Budget, s: Feed, a: Action)
    requires Inv(b, s) && (a.Leave? || a.Enter?) && Enabled(b, s, a) && Harmless(b, s, a)
    requires s.poll.Some? ==> s.cursor <= CursorBy(s, ReplyBy(b, s))
    ensures Inv(b, Apply(s, a))
  {
    hide ReplyTo;
    var t := Apply(s, a);
    assert t.Delivering() == s.Delivering();
    if s.poll.Some? { PageAhead(s); }
  }

  /** What is on its way is beyond the cursor. */
  lemma PageAhead(s: Feed)
    requires s.poll.Some? && IsPage(s.poll.value.page, Newer(s.poll.value.visible, s.cursor), s.poll.value.limit)
    ensures forall r :: r in s.poll.value.page ==> r.stamp > s.cursor * TICKS
  {
    forall r | r in s.poll.value.page ensures r.stamp > s.cursor * TICKS {
      assert r in Newer(s.poll.value.visible, s.cursor);
    }
  }

  lemma CommitKeepsInv(b: Budget, s: Feed, id: nat)
    requires Inv(b, s) && Enabled(b, s, Commit(id))
    requires s.poll.Some? ==>
      var end := CursorBy(s, ReplyBy(b, s)); end == s.since || end * TICKS <= s.poll.value.at - b.write
    ensures Inv(b, Apply(s, Commit(id)))
  {
    hide ReplyTo, IsPage;
    var t := Apply(s, Commit(id));
    assert t.Delivering() == s.Delivering();
  }

  lemma StepKeepsInv(b: Budget, s: Feed, a: Action)
    requires b.write >= 1 && b.reply >= 0 && b.write + b.reply <= LAG
    requires Inv(b, s) && CursorSettled(s) && Enabled(b, s, a) && Harmless(b, s, a)
    ensures Inv(b, Apply(s, a)) && CursorSettled(Apply(s, a))
  {
    if s.poll.Some? { CursorByBounds(b, s, s.now); }
    match a
    case Reply => ReplyLosesNothing(b, s);
    case Commit(id) => CommitKeepsInv(b, s, id);
    case Enter(_) => MergeKeepsInv(b, s, a);
    case Leave(_) => MergeKeepsInv(b, s, a);
    case Query(_, _) => QueryKeepsInv(b, s, a);
    case _ => QuietKeepsInv(b, s, a);
  }

  lemma QueryKeepsInv(b: Budget, s: Feed, a: Action)
    requires b.reply >= 0 && Inv(b, s) && a.Query? && Enabled(b, s, a)
    ensures Inv(b, Apply(s, a))
  {
  }

  lemma QuietKeepsInv(b: Budget, s: Feed, a: Action)
    requires b.write >= 1 && Inv(b, s) && (a.Begin? || a.Abort? || a.Tick?) && Enabled(b, s, a)
    ensures Inv(b, Apply(s, a))
  {
    hide ReplyTo, IsPage;
    assert Apply(s, a).Delivering() == s.Delivering();
  }

  lemma {:induction false} RunKeepsInv(b: Budget, s: Feed, run: seq<Action>)
    requires b.write >= 1 && b.reply >= 0 && b.write + b.reply <= LAG
    requires Inv(b, s) && CursorSettled(s) && Allowed(b, s, run)
    ensures Inv(b, After(s, run)) && CursorSettled(After(s, run))
    decreases |run|
  {
    if run != [] {
      StepKeepsInv(b, s, run[0]);
      RunKeepsInv(b, Apply(s, run[0]), run[1..]);
    }
  }

  /** In every state of every run of harmless steps nothing newer than the first `since` is lost. */
  ghost predicate Lossless(b: Budget) {
    forall s, run :: Start(b, s) && Allowed(b, s, run) ==> NothingLost(After(s, run))
  }

  // ---- merges: replies that leave the feed and replies that enter it -----------------------

  /** A merge away from the client's ticket loses a reply exactly when it takes one that is missing. */
  lemma LeaveLosesIff(b: Budget, s: Feed, rows: set<Row>)
    requires Inv(b, s) && Enabled(b, s, Leave(rows))
    ensures NothingLost(Apply(s, Leave(rows))) <==> Harmless(b, s, Leave(rows))
  {
  }

  /** The run does not bring the reply back. */
  ghost predicate StaysAway(run: seq<Action>, r: Row) {
    forall i :: 0 <= i < |run| ==>
      && (run[i].Enter? ==> r !in run[i].rows)
      && (run[i].Begin? ==> run[i].id != r.id)
  }

  /** ... and then it is never delivered, unless a later merge brings it back. */
  lemma {:induction false} GoneForGood(b: Budget, s: Feed, run: seq<Action>, r: Row)
    requires Possible(b, s, run) && StaysAway(run, r)
    requires r !in s.committed && r.id !in s.open && r !in s.Delivering()
    ensures r !in After(s, run).committed && r !in After(s, run).Delivering()
    decreases |run|
  {
    if run != [] {
      var a := run[0];
      if a.Query? { assert forall x :: x in a.page ==> x in s.committed; }
      assert forall i :: 0 <= i < |run| - 1 ==> run[1..][i] == run[i + 1];
      GoneForGood(b, Apply(s, a), run[1..], r);
    }
  }

  /** With a poll pending, the merge and then the reply at `now`; otherwise the merge alone. */
  function MergeThenReply(s: Feed, rows: set<Row>, now: int): Feed {
    var e := Apply(s, Enter(rows));
    if s.poll.None? then e else Apply(Apply(e, Tick(now)), Reply)
  }

  /**
   A merge into the client's ticket loses a reply exactly when it brings in one that is missing and lies
   behind the cursor, or behind the cursor that the pending query is given when it replies.
   */
  lemma EnterLosesIff(b: Budget, s: Feed, rows: set<Row>, now: int)
    requires b.write >= 1 && b.reply >= 0 && b.write + b.reply <= LAG
    requires Inv(b, s) && CursorSettled(s) && Enabled(b, s, Enter(rows)) && Enabled(b, s, Tick(now))
    requires s.poll.Some? ==> !LosingSplit(s.cursor, s.poll.value.page, s.poll.value.visible, now)
    ensures NothingLost(MergeThenReply(s, rows, now))
      <==> forall r :: r in rows && s.Missing(r) ==> r.stamp > CursorBy(s, now) * TICKS
  {
    if s.poll.None? {
      EnterAtOnce(s, rows);
    } else {
      EnterPending(b, s, rows, now);
    }
  }

  lemma EnterAtOnce(s: Feed, rows: set<Row>)
    requires NothingLost(s) && s.poll.None?
    ensures NothingLost(Apply(s, Enter(rows))) <==> forall r :: r in rows && s.Missing(r) ==> r.stamp > s.cursor * TICKS
  {
    var e := Apply(s, Enter(rows));
    assert forall r :: r in rows ==> r in e.committed;
  }

  lemma EnterPending(b: Budget, s: Feed, rows: set<Row>, now: int)
    requires b.write >= 1 && b.reply >= 0 && b.write + b.reply <= LAG
    requires Inv(b, s) && CursorSettled(s) && s.poll.Some? && Enabled(b, s, Tick(now))
    requires !LosingSplit(s.cursor, s.poll.value.page, s.poll.value.visible, now)
    ensures NothingLost(MergeThenReply(s, rows, now))
      <==> forall r :: r in rows && s.Missing(r) ==> r.stamp > CursorBy(s, now) * TICKS
  {
    hide ReplyTo, IsPage, LosingSplit;
    var p := s.poll.value;
    var t := MergeThenReply(s, rows, now);
    assert t.delivered == s.Delivering() == t.Delivering();
    assert t.cursor == CursorBy(s, now);
    PassesNoOther(b, s, now);
    CursorByBounds(b, s, now);
    assert forall r :: r in rows ==> r in t.committed;
  }

  /** Of the rows in the feed when it replies, a reply that splits no group passes none that is missing. */
  lemma PassesNoOther(b: Budget, s: Feed, now: int)
    requires b.write >= 1 && b.reply >= 0 && b.write + b.reply <= LAG
    requires Inv(b, s) && CursorSettled(s) && s.poll.Some? && s.now <= now <= s.poll.value.at + b.reply
    requires !LosingSplit(s.cursor, s.poll.value.page, s.poll.value.visible, now)
    ensures forall r :: r in s.committed && PassedBy(s.since, CursorBy(s, now), r.stamp) ==> r in s.Delivering()
  {
    var p := s.poll.value;
    SplitLosesIff(s.cursor, p.page, p.visible, p.limit, now);
    hide ReplyTo, LosingSplit, IsPage;
    CursorByBounds(b, s, now);
    forall r | r in s.committed && PassedBy(s.since, CursorBy(s, now), r.stamp) ensures r in s.Delivering() {
      if r.stamp > s.cursor * TICKS && r !in p.visible { assert !s.Missing(r); }
    }
  }

  // ---- the race between the query and the clock -----------------------------------------

  /** One reply stamped 0 and still uncommitted; a client that polls from a millisecond before it. */
  function RaceStart(): Feed { Feed(-1, 0, map[7 := 0], {}, {}, -1, None, {}) }

  /** It commits on the last instant its budget allows, just after the query and long before the reply. */
  function RaceRun(b: Budget): seq<Action> {
    [Tick(b.write - 1), Query(1, []), Commit(7), Tick(b.write - 1 + b.reply), Reply]
  }

  lemma SlowReplyLosesMessage(b: Budget)
    requires b.write >= 1 && b.reply >= 0 && b.write + b.reply > LAG
    ensures Start(b, RaceStart()) && Allowed(b, RaceStart(), RaceRun(b))
    ensures !NothingLost(After(RaceStart(), RaceRun(b)))
  {
    var run := RaceRun(b);
    var s0 := RaceStart();
    var s1 := Apply(s0, run[0]);
    var s2 := Apply(s1, run[1]);
    var s3 := Apply(s2, run[2]);
    var s4 := Apply(s3, run[3]);
    var s5 := Apply(s4, run[4]);
    assert run[1..][1..] == run[2..] && run[2..][1..] == run[3..] && run[3..][1..] == run[4..] && run[4..][1..] == [];
    assert Newer({}, -1) == {};
    assert IsPage([], {}, 1);
    assert Allowed(b, s4, run[4..]);
    assert Allowed(b, s3, run[3..]);
    assert Allowed(b, s2, run[2..]);
    assert Allowed(b, s1, run[1..]);
    assert After(s4, run[4..]) == s5;
    assert After(s2, run[2..]) == s5;
    assert After(s0, run) == s5;
    assert Row(0, 7) in s5.committed && s5.delivered == {} && s5.cursor >= 0;
  }

  /**
   As long as the single steps are harmless, the lag loses no reply exactly when it covers both waits:
   the longest write transaction and the longest gap between a poll's query and its reading of the clock.
   */
  lemma LagCoversBothWaits(b: Budget)
    requires b.write >= 1 && b.reply >= 0
    ensures Lossless(b) <==> b.write + b.reply <= 30_000_000
  {
    if b.write + b.reply <= LAG {
      forall s, run | Start(b, s) && Allowed(b, s, run) ensures NothingLost(After(s, run)) {
        RunKeepsInv(b, s, run);
      }
    } else {
      SlowReplyLosesMessage(b);
    }
  }

  /** Such a page: two replies with one stamp, a limit of one, and the cursor on the stamp. */
  lemma SplitGroupLosesMessage(since: int, now: int)
    requires Ms(now) >= since + 1 + LAG_MS
    ensures var stamp := (since + 1) * TICKS;
      var rows := {Row(stamp, 1), Row(stamp, 2)};
      var page := [Row(stamp, 1)];
      && IsPage(page, Newer(rows, since), 1) && LosingSplit(since, page, rows, now)
      && Row(stamp, 2) !in Newer(rows, ReplyTo(since, page, 1, now).cursor)
  {
    var stamp := (since + 1) * TICKS;
    var rows := {Row(stamp, 1), Row(stamp, 2)};
    assert Newer(rows, since) == rows;
    assert Row(stamp, 2) in rows && Row(stamp, 2) !in [Row(stamp, 1)];
  }

  // ---- a client that drains the feed --------------------------------------------------------

  /** One poll as the client sees it. */
  datatype Poll = Poll(since: int, rows: set<Row>, page: seq<Row>, now: int)

  ghost predicate PollOk(p: Poll, limit: nat) {
    limit >= 1 && IsPage(p.page, Newer(p.rows, p.since), limit)
  }

  function TurnOf(p: Poll, limit: nat): Turn { ReplyTo(p.since, p.page, limit, p.now) }

  function Watermark(p: Poll): int { Ms(p.now) - LAG_MS }

  /** Polls in a row: each starts at the cursor the one before it was given. */
  ghost predicate Chained(polls: seq<Poll>, limit: nat) {
    && (forall i :: 0 <= i < |polls| ==> PollOk(polls[i], limit))
    && (forall i :: 0 <= i < |polls| - 1 ==> polls[i + 1].since == TurnOf(polls[i], limit).cursor)
    && (forall i :: 0 <= i < |polls| - 1 ==> polls[i].now <= polls[i + 1].now)
  }

  /** ... each made because the one before it said there was more. */
  ghost predicate Draining(polls: seq<Poll>, limit: nat) {
    Chained(polls, limit) && forall i :: 0 <= i < |polls| - 1 ==> TurnOf(polls[i], limit).hasMore
  }

  lemma {:induction false} CursorsIncrease(polls: seq<Poll>, limit: nat, i: nat, j: nat)
    requires Chained(polls, limit) && i < j < |polls|
    ensures polls[i].since <= TurnOf(polls[i], limit).cursor <= polls[j].since
    ensures polls[i].now <= polls[j].now
    ensures Draining(polls, limit) ==> polls[j].since >= polls[i].since + (j - i)
    decreases j - i
  {
    CursorHeldBack(polls[j - 1].since, polls[j - 1].page, polls[j - 1].rows, limit, polls[j - 1].now, Row(0, 0));
    if i < j - 1 {
      CursorsIncrease(polls, limit, i, j - 1);
    }
  }

  /** A client that re-polls while there is more, with the clock bounded, makes a bounded number of polls. */
  lemma DrainingStops(polls: seq<Poll>, limit: nat, bound: int)
    requires Draining(polls, limit) && polls != []
    requires forall i :: 0 <= i < |polls| ==> polls[i].now <= bound
    ensures |polls| <= 1 + Max(0, Ms(bound) - LAG_MS - polls[0].since)
  {
    var n := |polls|;
    if n > 1 {
      CursorsIncrease(polls, limit, 0, n - 1);
      var p := polls[n - 2];
      CursorHeldBack(p.since, p.page, p.rows, limit, p.now, Row(0, 0));
    }
  }

  /** A row that a later poll sees and this one did not is newer than the watermark this one used. */
  ghost predicate ArrivesLate(p: Poll, q: Poll) {
    forall r :: r in q.rows && r !in p.rows ==> r.stamp > Watermark(p) * TICKS
  }

  ghost predicate Arriving(polls: seq<Poll>) {
    forall i :: 0 <= i < |polls| - 1 ==> ArrivesLate(polls[i], polls[i + 1])
  }

  ghost predicate NoLosingSplit(polls: seq<Poll>) {
    forall i :: 0 <= i < |polls| ==> !LosingSplit(polls[i].since, polls[i].page, polls[i].rows, polls[i].now)
  }

  ghost predicate Received(polls: seq<Poll>, r: Row) {
    exists i :: 0 <= i < |polls| && r in polls[i].page
  }

  /** The cursor moves beyond the first `since` only as far as a watermark. */
  lemma {:induction false} CursorReached(polls: seq<Poll>, limit: nat, k: nat)
    requires Chained(polls, limit) && k < |polls|
    ensures TurnOf(polls[k], limit).cursor <= Max(polls[0].since, Watermark(polls[k]))
  {
    var p := polls[k];
    CursorHeldBack(p.since, p.page, p.rows, limit, p.now, Row(0, 0));
    if k > 0 {
      CursorReached(polls, limit, k - 1);
    }
  }

  /** Whatever poll `k` leaves behind its cursor has been received. */
  lemma {:induction false} PassedWasReceived(polls: seq<Poll>, limit: nat, k: nat, r: Row)
    requires Chained(polls, limit) && Arriving(polls) && NoLosingSplit(polls) && k < |polls|
    requires r in polls[k].rows
    requires polls[0].since * TICKS < r.stamp <= TurnOf(polls[k], limit).cursor * TICKS
    ensures Received(polls, r)
  {
    hide TurnOf, NextUpdatesCursor, ReplyTo, Watermark;
    var p := polls[k];
    if r.stamp > p.since * TICKS {
      PageHoldsPassed(p, limit, r);
      assert r in polls[k].page;
    } else {
      var q := polls[k - 1];
      assert p.since == TurnOf(q, limit).cursor;
      CursorReached(polls, limit, k - 1);
      assert ArrivesLate(q, polls[k - 1 + 1]);
      assert r in q.rows;
      PassedWasReceived(polls, limit, k - 1, r);
    }
  }

  lemma PageHoldsPassed(p: Poll, limit: nat, r: Row)
    requires PollOk(p, limit) && !LosingSplit(p.since, p.page, p.rows, p.now)
    requires r in p.rows && p.since * TICKS < r.stamp <= TurnOf(p, limit).cursor * TICKS
    ensures r in p.page
  {
    SplitLosesIff(p.since, p.page, p.rows, limit, p.now);
  }

  /** The page is full, and ends in the very millisecond the cursor points at. */
  ghost predicate Stuck(p: Poll, limit: nat) {
    |p.page| == limit && p.page != [] && Ms(p.page[|p.page| - 1].stamp) == p.since
  }

  /**
   A client that polls until it is told there is no more has received every visible reply no newer
   than the watermark - unless its last page was stuck.
   */
  lemma DrainedAll(polls: seq<Poll>, limit: nat, r: Row)
    requires Chained(polls, limit) && Arriving(polls) && NoLosingSplit(polls) && polls != []
    requires !TurnOf(polls[|polls| - 1], limit).hasMore
    requires r in polls[|polls| - 1].rows
    requires polls[0].since * TICKS < r.stamp <= Watermark(polls[|polls| - 1]) * TICKS
    ensures Received(polls, r) || Stuck(polls[|polls| - 1], limit)
  {
    var k := |polls| - 1;
    var p := polls[k];
    if r.stamp <= TurnOf(p, limit).cursor * TICKS {
      PassedWasReceived(polls, limit, k, r);
    } else if r !in p.page {
      CursorHeldBack(p.since, p.page, p.rows, limit, p.now, r);
      assert r in Newer(p.rows, p.since);
      assert p.page[|p.page| - 1] in p.page;
    } else {
      assert r in polls[k].page;
    }
  }

  /** A visible row no newer than the watermark follows the page. */
  ghost predicate MoreBehind(p: Poll)
    requires p.page != []
  {
    exists r :: r in p.rows && Before(p.page[|p.page| - 1], r) && r.stamp <= Watermark(p) * TICKS
  }

  /**
   A poll that says there is no more leaves out a visible row no newer than the watermark exactly when
   it is stuck and such a row follows its page.
   */
  lemma LeavesOutIff(p: Poll, limit: nat)
    requires PollOk(p, limit) && !TurnOf(p, limit).hasMore
    ensures (exists r :: r in p.rows && r !in p.page && p.since * TICKS < r.stamp <= Watermark(p) * TICKS)
      <==> Stuck(p, limit) && MoreBehind(p)
  {
    var rows := Newer(p.rows, p.since);
    if r :| r in p.rows && r !in p.page && p.since * TICKS < r.stamp <= Watermark(p) * TICKS {
      CursorHeldBack(p.since, p.page, p.rows, limit, p.now, r);
      assert r in rows;
      assert p.page[|p.page| - 1] in p.page;
    }
    if Stuck(p, limit) {
      var last := p.page[|p.page| - 1];
      assert last in p.page;
      if r :| r in p.rows && Before(last, r) && r.stamp <= Watermark(p) * TICKS {
        assert r in rows && r !in p.page;
      }
    }
  }

  /** Stamps in whole milliseconds never get stuck ... */
  lemma StuckNeedsMicroseconds(p: Poll, limit: nat)
    requires PollOk(p, limit) && Stuck(p, limit)
    ensures p.page[|p.page| - 1].stamp % TICKS != 0
  {
    assert p.page[|p.page| - 1] in p.page;
  }

  /** ... but a stuck client stays stuck: later polls return the same page, and nothing behind it is ever delivered. */
  lemma StuckForever(p: Poll, q: Poll, limit: nat)
    requires PollOk(p, limit) && Stuck(p, limit) && PollOk(q, limit)
    requires q.since == TurnOf(p, limit).cursor && p.rows <= q.rows
    requires forall r :: r in q.rows && r !in p.rows ==> Before(p.page[|p.page| - 1], r)
    ensures q.since == p.since && q.page == p.page && Stuck(q, limit) && !TurnOf(q, limit).hasMore
  {
    var rows := Newer(q.rows, p.since);
    var last := p.page[|p.page| - 1];
    assert q.since == p.since;
    forall r | r in rows && r !in p.page ensures forall x :: x in p.page ==> Before(x, r) {
      if r !in Newer(p.rows, p.since) {
        forall x | x in p.page ensures Before(x, r) {
          var i :| 0 <= i < |p.page| && p.page[i] == x;
          assert i == |p.page| - 1 || Before(p.page[i], last);
        }
      }
    }
    forall r | r in p.page ensures r in rows {
      assert r in Newer(p.rows, p.since);
    }
    PageUnique(p.page, q.page, rows, limit);
  }

  /**
   Two polls deliver the same reply only while it is younger than the lag at the earlier of them, or
   when its stamp falls strictly inside the last millisecond of that poll's page.
   */
  lemma DeliveredOnce(polls: seq<Poll>, limit: nat, i: nat, j: nat, r: Row)
    requires Chained(polls, limit) && i < j < |polls|
    requires r in polls[i].page && r in polls[j].page
    ensures r.stamp > Watermark(polls[i]) * TICKS
      || (r.stamp % TICKS != 0 && Ms(r.stamp) == Ms(polls[i].page[|polls[i].page| - 1].stamp))
  {
    CursorsIncrease(polls, limit, i, j);
    assert r in Newer(polls[j].rows, polls[j].since);
    assert r in Newer(polls[i].rows, polls[i].since);
    BeyondPage(polls[i].page, Newer(polls[i].rows, polls[i].since), limit, r);
  }
}
