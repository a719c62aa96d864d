/**
 The SLA sweep's "already announced" markers (`SlaSweepProcessor.sweepWorkspace` in
 `backend/src/worker-jobs/processors.ts`, retagging in `TicketsService.patch`, tag deletion in
 `TagsService.remove`).

 A sweep is one transaction. It works from a snapshot taken before its loop, locks the tickets it
 appends to, and announces at once; when it fails, its appends are undone and its announcements are
 not. Sweeps overlap. A retag reads the ticket and writes its tags in two statements.
 */
module SlaMarkers {
  type Tags = seq<string>

  // ---- tags -------------------------------------------------------------------------

  predicate IsMarker(tag: string) { "sla:" <= tag }

  /** `/^[a-z0-9-]+$/` */
  predicate IsTagKey(key: string) {
    key != "" && forall i :: 0 <= i < |key| ==> 'a' <= key[i] <= 'z' || '0' <= key[i] <= '9' || key[i] == '-'
  }

  /** The tags for which `markers` says whether they are markers, in order. */
  function Pick(tags: Tags, markers: bool): (r: Tags)
    ensures forall x :: x in r <==> x in tags && IsMarker(x) == markers
  {
    if tags == [] then []
    else (if IsMarker(tags[0]) == markers then [tags[0]] else []) + Pick(tags[1..], markers)
  }

  /** `Array.from(new Set(tags))` */
  function Distinct(tags: Tags): (r: Tags)
    ensures forall x :: x in r <==> x in tags
    ensures forall i, j :: 0 <= i < j < |r| ==> r[i] != r[j]
  {
    if tags == [] then [] else
    var rest := Distinct(tags[..|tags| - 1]);
    if tags[|tags| - 1] in rest then rest else rest + [tags[|tags| - 1]]
  }

  /** `array_remove(tags, key)` */
  function Without(tags: Tags, key: string): (r: Tags)
    ensures forall x :: x in r <==> x in tags && x != key
  {
    if tags == [] then [] else (if tags[0] == key then [] else [tags[0]]) + Without(tags[1..], key)
  }

  /** A client's tag list, written over the tags the request had read. */
  function Retagged(seen: Tags, list: Tags): Tags {
    Distinct(Pick(list, false) + Pick(seen, true))
  }

  /** A retag keeps exactly the markers it has read, whatever the client sends. */
  lemma RetagKeepsMarkers(seen: Tags, list: Tags, x: string)
    ensures IsMarker(x) ==> (x in Retagged(seen, list) <==> x in seen)
    ensures !IsMarker(x) ==> (x in Retagged(seen, list) <==> x in list)
  {
  }

  /** Where a tag is first. */
  function FirstAt(tags: Tags, x: string): nat
    requires x in tags
  {
    if tags[0] == x then 0 else 1 + FirstAt(tags[1..], x)
  }

  lemma {:induction false} FirstAtAppended(a: Tags, b: Tags, x: string)
    requires x in a + b
    ensures FirstAt(a + b, x) == if x in a then FirstAt(a, x) else |a| + FirstAt(b, x)
    ensures x in a ==> FirstAt(a, x) < |a|
  {
    if a == [] {
      assert a + b == b;
    } else {
      assert (a + b)[1..] == a[1..] + b;
      if a[0] != x { FirstAtAppended(a[1..], b, x); }
    }
  }

  /** Of repeated tags the first stays, and the order is the order of first occurrences. */
  lemma {:induction false} DistinctKeepsOrder(tags: Tags, p: nat, q: nat)
    requires p < q < |Distinct(tags)|
    ensures FirstAt(tags, Distinct(tags)[p]) < FirstAt(tags, Distinct(tags)[q])
  {
    var n := |tags| - 1;
    var before, last := tags[..n], tags[n];
    assert tags == before + [last];
    var rest := Distinct(before);
    FirstAtAppended(before, [last], Distinct(tags)[p]);
    FirstAtAppended(before, [last], Distinct(tags)[q]);
    if q < |rest| { DistinctKeepsOrder(before, p, q); }
  }

  /** A retag puts the client's own tags first, and keeps the order they and the markers came in. */
  lemma RetagKeepsOrder(seen: Tags, list: Tags, p: nat, q: nat)
    requires p < q < |Retagged(seen, list)|
    ensures var r := Retagged(seen, list);
      && (IsMarker(r[p]) ==> IsMarker(r[q]))
      && FirstAt(Pick(list, false) + Pick(seen, true), r[p]) < FirstAt(Pick(list, false) + Pick(seen, true), r[q])
  {
    var own, marks := Pick(list, false), Pick(seen, true);
    DistinctKeepsOrder(own + marks, p, q);
    FirstAtAppended(own, marks, Retagged(seen, list)[p]);
    FirstAtAppended(own, marks, Retagged(seen, list)[q]);
  }

  /** The tags picked keep their order. */
  lemma {:induction false} PickConcat(a: Tags, b: Tags, markers: bool)
    ensures Pick(a + b, markers) == Pick(a, markers) + Pick(b, markers)
  {
    if a == [] {
      assert a + b == b;
    } else {
      assert (a + b)[1..] == a[1..] + b;
      PickConcat(a[1..], b, markers);
    }
  }

  lemma TagKeysAreNotMarkers(key: string)
    requires IsTagKey(key)
    ensures !IsMarker(key)
  {
    assert "sla:"[3] == ':';
  }

  // ---- one visit of a sweep ------------------------------------------------------------

  datatype Candidate = Candidate(ticket: nat, firstResponseDueAt: int, tags: Tags)

  function MarkerFor(c: Candidate, now: int): string {
    if c.firstResponseDueAt <= now then "sla:breached" else "sla:due-soon"
  }

  /** The tickets' tags, and the (ticket, marker) pairs announced so far. */
  datatype Board = Board(tags: map<nat, Tags>, announced: seq<(nat, string)>) {
    predicate Marked(t: nat, m: string) { t in tags && m in tags[t] }
  }

  /** The cheap pre-filter on the snapshot, then append-if-absent, then the announcement. */
  function Visited(b: Board, t: nat, snapshot: Tags, marker: string): Board {
    if marker in snapshot || t !in b.tags || marker in b.tags[t] then b
    else Board(b.tags[t := b.tags[t] + [marker]], b.announced + [(t, marker)])
  }

  function Swept(b: Board, candidates: seq<Candidate>, now: int): Board {
    if candidates == [] then b else
    var n := |candidates| - 1;
    Visited(Swept(b, candidates[..n], now), candidates[n].ticket, candidates[n].tags, MarkerFor(candidates[n], now))
  }

  class Sweep {
    var tags: map<nat, Tags>
    var announced: seq<(nat, string)>

    function View(): Board
      reads this
    {
      Board(tags, announced)
    }

    /** The statement-level append: how many rows it changed. */
    method AppendIfAbsent(ticket: nat, marker: string) returns (appended: nat)
      modifies this`tags
      ensures appended == if ticket in old(tags) && marker !in old(tags)[ticket] then 1 else 0
      ensures tags == if appended == 1 then old(tags)[ticket := old(tags)[ticket] + [marker]] else old(tags)
    {
      if ticket in tags && marker !in tags[ticket] {
        tags := tags[ticket := tags[ticket] + [marker]];
        return 1;
      }
      return 0;
    }

    method SweepWorkspace(candidates: seq<Candidate>, now: int)
      modifies this
      ensures View() == Swept(old(View()), candidates, now)
    {
      var i := 0;
      while i < |candidates|
        invariant 0 <= i <= |candidates|
        invariant View() == Swept(old(View()), candidates[..i], now)
      {
        assert candidates[..i + 1][..i] == candidates[..i];
        var t := candidates[i];
        i := i + 1;
        var breached := t.firstResponseDueAt <= now;
        var marker := if breached then "sla:breached" else "sla:due-soon";
        if marker in t.tags { continue; }
        var appended := AppendIfAbsent(t.ticket, marker);
        if appended == 0 { continue; }
        announced := announced + [(t.ticket, marker)];
      }
      assert candidates[..i] == candidates;
    }
  }

  // ---- overlapping sweeps, retags and tag deletions ------------------------------------------

  datatype Edit = Edit(ticket: nat, seen: Tags)

  /** A sweep in progress: its snapshot, and the tickets it has locked with the tags they had before. */
  datatype Pass = Pass(snapshot: map<nat, Tags>, before: map<nat, Tags>)

  /** The board as its latest writer left it, sweeps in progress, and retags between their read and their write. */
  datatype Desk = Desk(board: Board, sweeps: map<nat, Pass>, edits: map<nat, Edit>) {
    predicate Locks(sweep: nat, t: nat) { sweep in sweeps && t in sweeps[sweep].before }

    predicate Locked(t: nat) { exists sweep :: sweep in sweeps && Locks(sweep, t) }

    /** What everybody but the sweep that has locked the ticket reads. */
    ghost function Committed(t: nat): Tags
      requires t in board.tags
    {
      if Locked(t) then var sweep :| Locks(sweep, t); sweeps[sweep].before[t] else board.tags[t]
    }
  }

  datatype Action =
    | Open(ticket: nat, tags: Tags)
    | Snapshot(sweep: nat)
    | Visit(sweep: nat, ticket: nat, marker: string)
    | Commit(sweep: nat)
    | Fail(sweep: nat)
    | ReadTags(edit: nat, ticket: nat)
    | WriteTags(edit: nat, list: Tags)
    | DeleteTag(key: string)

  /** A write waits for the lock on its ticket. */
  predicate Enabled(d: Desk, a: Action) {
    match a
    case Open(ticket, _) => ticket !in d.board.tags
    case Snapshot(sweep) => sweep !in d.sweeps
    case Visit(sweep, ticket, marker) =>
      && sweep in d.sweeps && ticket in d.sweeps[sweep].snapshot && IsMarker(marker)
      && (d.Locked(ticket) ==> d.Locks(sweep, ticket))
    case Commit(sweep) => sweep in d.sweeps
    case Fail(sweep) => sweep in d.sweeps
    case ReadTags(edit, ticket) => ticket in d.board.tags
    case WriteTags(edit, _) =>
      edit in d.edits && d.edits[edit].ticket in d.board.tags && !d.Locked(d.edits[edit].ticket)
    case DeleteTag(key) => IsTagKey(key) && forall t :: t in d.board.tags ==> !d.Locked(t)
  }

  ghost function Apply(d: Desk, a: Action): Desk
    requires Enabled(d, a)
  {
    match a
    case Open(ticket, tags) => d.(board := d.board.(tags := d.board.tags[ticket := tags]))
    case Snapshot(sweep) =>
      d.(sweeps := d.sweeps[sweep := Pass(map t | t in d.board.tags :: d.Committed(t), map[])])
    case Visit(sweep, ticket, marker) =>
      var p := d.sweeps[sweep];
      var next := Visited(d.board, ticket, p.snapshot[ticket], marker);
      if next == d.board then d else
      var before := if ticket in p.before then p.before else p.before[ticket := d.board.tags[ticket]];
      d.(board := next, sweeps := d.sweeps[sweep := p.(before := before)])
    case Commit(sweep) => d.(sweeps := d.sweeps - {sweep})
    case Fail(sweep) =>
      var before := d.sweeps[sweep].before;
      var tags := map t | t in d.board.tags :: if t in before then before[t] else d.board.tags[t];
      d.(board := d.board.(tags := tags), sweeps := d.sweeps - {sweep})
    case ReadTags(edit, ticket) => d.(edits := d.edits[edit := Edit(ticket, d.Committed(ticket))])
    case WriteTags(edit, list) =>
      var e := d.edits[edit];
      d.(board := d.board.(tags := d.board.tags[e.ticket := Retagged(e.seen, list)]))
    case DeleteTag(key) =>
      d.(board := d.board.(tags := map t | t in d.board.tags :: Without(d.board.tags[t], key)))
  }

  /** The step takes marker `m` off ticket `t`. */
  ghost predicate Loses(d: Desk, a: Action, t: nat, m: string)
    requires Enabled(d, a)
  {
    d.board.Marked(t, m) && !Apply(d, a).board.Marked(t, m)
  }

  /** A retag writes over tags it read before the marker was there. */
  predicate StaleWrite(d: Desk, a: Action, t: nat, m: string)
    requires Enabled(d, a)
  {
    a.WriteTags? && d.edits[a.edit].ticket == t && m !in d.edits[a.edit].seen
  }

  /** A sweep that has put the marker there fails. */
  predicate Undoes(d: Desk, a: Action, t: nat, m: string)
    requires Enabled(d, a)
  {
    a.Fail? && d.Locks(a.sweep, t) && m !in d.sweeps[a.sweep].before[t]
  }

  /**
   A marker is lost exactly when a retag writes over tags it read before it, or when the sweep that appended it
   fails.
   */
  lemma LosesIff(d: Desk, a: Action, t: nat, m: string)
    requires Enabled(d, a) && IsMarker(m) && d.board.Marked(t, m)
    ensures Loses(d, a, t, m) <==> StaleWrite(d, a, t, m) || Undoes(d, a, t, m)
  {
    match a
    case WriteTags(edit, list) =>
      RetagKeepsMarkers(d.edits[edit].seen, list, m);
    case DeleteTag(key) => TagKeysAreNotMarkers(key);
    case _ =>
  }

  function Announcements(log: seq<(nat, string)>, t: nat, m: string): nat {
    if log == [] then 0
    else Announcements(log[..|log| - 1], t, m) + (if log[|log| - 1] == (t, m) then 1 else 0)
  }

  function Bit(b: bool): nat { if b then 1 else 0 }

  /** A step announces a pair only as it puts the marker there. */
  lemma StepBalance(d: Desk, a: Action, t: nat, m: string)
    requires Enabled(d, a) && IsMarker(m)
    ensures var e := Apply(d, a);
      Announcements(e.board.announced, t, m) + Bit(d.board.Marked(t, m))
        <= Announcements(d.board.announced, t, m) + Bit(e.board.Marked(t, m)) + Bit(Loses(d, a, t, m))
  {
    if a.Visit? {
      var e := Apply(d, a);
      if e.board != d.board {
        assert e.board.announced[..|e.board.announced| - 1] == d.board.announced;
      }
    }
  }

  ghost predicate Possible(d: Desk, run: seq<Action>)
    decreases |run|
  {
    run == [] || (Enabled(d, run[0]) && Possible(Apply(d, run[0]), run[1..]))
  }

  ghost function After(d: Desk, run: seq<Action>): Desk
    requires Possible(d, run)
    decreases |run|
  {
    if run == [] then d else After(Apply(d, run[0]), run[1..])
  }

  /** How many steps of the run take `m` off `t`. */
  ghost function Losses(d: Desk, run: seq<Action>, t: nat, m: string): nat
    requires Possible(d, run)
    decreases |run|
  {
    if run == [] then 0 else Bit(Loses(d, run[0], t, m)) + Losses(Apply(d, run[0]), run[1..], t, m)
  }

  /**
   Over any run of overlapping sweeps, some of which fail, retags and tag deletions a pair is announced
   at most once more than its marker has been lost.
   */
  lemma {:induction false} AnnouncementsBounded(d: Desk, run: seq<Action>, t: nat, m: string)
    requires Possible(d, run) && IsMarker(m)
    ensures Announcements(After(d, run).board.announced, t, m) + Bit(d.board.Marked(t, m))
      <= Announcements(d.board.announced, t, m) + Bit(After(d, run).board.Marked(t, m)) + Losses(d, run, t, m)
    decreases |run|
  {
    if run != [] {
      StepBalance(d, run[0], t, m);
      AnnouncementsBounded(Apply(d, run[0]), run[1..], t, m);
    }
  }

  /** A retag writes over the markers that are there, and a sweep that has appended anything does not fail. */
  predicate Steady(d: Desk, a: Action)
    requires Enabled(d, a)
  {
    && (a.WriteTags? ==>
          var e := d.edits[a.edit];
          forall m :: m in d.board.tags[e.ticket] && IsMarker(m) ==> m in e.seen)
    && (a.Fail? ==> d.sweeps[a.sweep].before == map[])
  }

  ghost predicate SteadyRun(d: Desk, run: seq<Action>)
    requires Possible(d, run)
    decreases |run|
  {
    run == [] || (Steady(d, run[0]) && SteadyRun(Apply(d, run[0]), run[1..]))
  }

  lemma {:induction false} SteadyRunLosesNothing(d: Desk, run: seq<Action>, t: nat, m: string)
    requires Possible(d, run) && SteadyRun(d, run) && IsMarker(m)
    ensures Losses(d, run, t, m) == 0
    decreases |run|
  {
    hide Apply;
    if run != [] {
      if d.board.Marked(t, m) { LosesIff(d, run[0], t, m); }
      SteadyRunLosesNothing(Apply(d, run[0]), run[1..], t, m);
    }
  }

  /**
   With atomic retags and sweeps that do not fail each (ticket, marker) pair is announced at most once over a
   whole run.
   */
  lemma AnnouncedAtMostOnce(d: Desk, run: seq<Action>, t: nat, m: string)
    requires Possible(d, run) && SteadyRun(d, run) && IsMarker(m) && d.board.announced == []
    ensures Announcements(After(d, run).board.announced, t, m) <= 1
    ensures d.board.Marked(t, m) ==> Announcements(After(d, run).board.announced, t, m) == 0
  {
    AnnouncementsBounded(d, run, t, m);
    SteadyRunLosesNothing(d, run, t, m);
  }

  lemma RunFirst(d: Desk, a: Action, run: seq<Action>)
    requires Enabled(d, a) && Possible(Apply(d, a), run)
    ensures Possible(d, [a] + run) && After(d, [a] + run) == After(Apply(d, a), run)
  {
    assert ([a] + run)[1..] == run;
  }

  /** The first two steps of a sweep, which announce a pair whose marker is not there. */
  lemma SweepAnnounces(d: Desk, sweep: nat, t: nat, m: string)
    requires t in d.board.tags && m !in d.board.tags[t] && IsMarker(m) && !d.Locked(t) && sweep !in d.sweeps
    ensures var run := [Snapshot(sweep), Visit(sweep, t, m)];
      && Possible(d, run)
      && var e := After(d, run);
      && e.edits == d.edits && e.board.tags == d.board.tags[t := d.board.tags[t] + [m]]
      && e.sweeps.Keys == d.sweeps.Keys + {sweep} && e.sweeps[sweep].before == map[t := d.board.tags[t]]
      && (forall s :: s in d.sweeps ==> e.sweeps[s] == d.sweeps[s])
      && Announcements(e.board.announced, t, m) == Announcements(d.board.announced, t, m) + 1
  {
    hide Visited, Announcements;
    var d1 := Apply(d, Snapshot(sweep));
    SnapshotReads(d, sweep, t);
    AppendAnnounces(d1, sweep, t, m);
    RunFirst(d1, Visit(sweep, t, m), []);
    RunFirst(d, Snapshot(sweep), [Visit(sweep, t, m)]);
    assert [Snapshot(sweep)] + [Visit(sweep, t, m)] == [Snapshot(sweep), Visit(sweep, t, m)];
    assert [Visit(sweep, t, m)] + [] == [Visit(sweep, t, m)];
  }

  lemma SnapshotReads(d: Desk, sweep: nat, t: nat)
    requires t in d.board.tags && !d.Locked(t) && sweep !in d.sweeps
    ensures var e := Apply(d, Snapshot(sweep));
      && e.board == d.board && e.edits == d.edits && e.sweeps.Keys == d.sweeps.Keys + {sweep}
      && t in e.sweeps[sweep].snapshot && e.sweeps[sweep].snapshot[t] == d.board.tags[t]
        && e.sweeps[sweep].before == map[]
      && !e.Locked(t) && forall s :: s in d.sweeps ==> e.sweeps[s] == d.sweeps[s]
  {
    assert d.Committed(t) == d.board.tags[t];
    var e := Apply(d, Snapshot(sweep));
    assert forall s :: e.Locks(s, t) ==> d.Locks(s, t);
  }

  lemma AppendAnnounces(d: Desk, sweep: nat, t: nat, m: string)
    requires sweep in d.sweeps && t in d.board.tags && m !in d.board.tags[t] && IsMarker(m) && !d.Locked(t)
    requires d.sweeps[sweep].before == map[]
    requires t in d.sweeps[sweep].snapshot && d.sweeps[sweep].snapshot[t] == d.board.tags[t]
    ensures Enabled(d, Visit(sweep, t, m))
    ensures var e := Apply(d, Visit(sweep, t, m));
      && e.edits == d.edits && e.board.tags == d.board.tags[t := d.board.tags[t] + [m]]
      && e.sweeps.Keys == d.sweeps.Keys && e.sweeps[sweep].before == map[t := d.board.tags[t]]
      && (forall s :: s in d.sweeps && s != sweep ==> e.sweeps[s] == d.sweeps[s])
      && Announcements(e.board.announced, t, m) == Announcements(d.board.announced, t, m) + 1
  {
    var e := Apply(d, Visit(sweep, t, m));
    assert e.board.announced[..|e.board.announced| - 1] == d.board.announced;
  }

  lemma {:induction false} RunJoin(d: Desk, p: seq<Action>, q: seq<Action>)
    requires Possible(d, p) && Possible(After(d, p), q)
    ensures Possible(d, p + q) && After(d, p + q) == After(After(d, p), q)
    decreases |p|
  {
    if p == [] {
      assert p + q == q;
    } else {
      assert (p + q)[1..] == p[1..] + q;
      RunJoin(Apply(d, p[0]), p[1..], q);
    }
  }

  /**
   Retags are two statements: one that reads before a sweep's append and writes after it has the pair announced
   again.
   */
  lemma StaleRetagAnnouncesTwice(d: Desk, edit: nat, list: Tags, t: nat, m: string) returns (run: seq<Action>)
    requires t in d.board.tags && m !in d.board.tags[t] && IsMarker(m) && d.sweeps == map[]
    ensures Possible(d, run)
    ensures Announcements(After(d, run).board.announced, t, m) == Announcements(d.board.announced, t, m) + 2
  {
    hide Announcements;
    assert forall x :: !d.Locked(x);
    var d1 := Apply(d, ReadTags(edit, t));
    assert forall x :: !d1.Locked(x);
    var first := [Snapshot(1), Visit(1, t, m)];
    SweepAnnounces(d1, 1, t, m);
    var d2 := After(d1, first);
    var d3 := Apply(d2, Commit(1));
    assert d3.sweeps == map[] && forall x :: !d3.Locked(x);
    var d4 := Apply(d3, WriteTags(edit, list));
    RetagKeepsMarkers(d.board.tags[t], list, m);
    assert forall x :: !d4.Locked(x);
    var second := [Snapshot(2), Visit(2, t, m)];
    SweepAnnounces(d4, 2, t, m);
    RunFirst(d3, WriteTags(edit, list), second);
    run := [WriteTags(edit, list)] + second;
    RunFirst(d2, Commit(1), run);
    run := [Commit(1)] + run;
    RunJoin(d1, first, run);
    run := first + run;
    RunFirst(d, ReadTags(edit, t), run);
    run := [ReadTags(edit, t)] + run;
  }

  lemma FailRestores(d: Desk, e: Desk, sweep: nat, t: nat)
    requires e.sweeps.Keys == {sweep} && t in d.board.tags && e.sweeps[sweep].before == map[t := d.board.tags[t]]
    requires e.board.tags.Keys == d.board.tags.Keys && forall x :: x in d.board.tags && x != t ==>
      e.board.tags[x] == d.board.tags[x]
    ensures Apply(e, Fail(sweep)) == Desk(Board(d.board.tags, e.board.announced), map[], e.edits)
  {
    assert Apply(e, Fail(sweep)).board.tags == d.board.tags;
    assert Apply(e, Fail(sweep)).sweeps == map[];
  }

  /**
   With no retag at all: a sweep that fails after announcing takes its marker back, and the next one announces
   again.
   */
  lemma FailedSweepAnnouncesTwice(d: Desk, t: nat, m: string)
    requires t in d.board.tags && m !in d.board.tags[t] && IsMarker(m) && d.sweeps == map[]
    ensures var run := [Snapshot(1), Visit(1, t, m), Fail(1), Snapshot(2), Visit(2, t, m)];
      && Possible(d, run)
      && Announcements(After(d, run).board.announced, t, m) == Announcements(d.board.announced, t, m) + 2
  {
    hide Announcements, Visited;
    assert forall x :: !d.Locked(x);
    var first := [Snapshot(1), Visit(1, t, m)];
    SweepAnnounces(d, 1, t, m);
    var d1 := After(d, first);
    var d2 := Apply(d1, Fail(1));
    FailRestores(d, d1, 1, t);
    hide Apply;
    assert forall x :: !d2.Locked(x);
    var second := [Snapshot(2), Visit(2, t, m)];
    SweepAnnounces(d2, 2, t, m);
    RunFirst(d1, Fail(1), second);
    RunJoin(d, first, [Fail(1)] + second);
    assert first + ([Fail(1)] + second) == [Snapshot(1), Visit(1, t, m), Fail(1), Snapshot(2), Visit(2, t, m)];
  }

  // ---- what a sweep does -----------------------------------------------------------------

  /** A ticket's first response is overdue from its deadline on, and due soon before it. */
  lemma MarkerIs(c: Candidate, now: int)
    ensures MarkerFor(c, now) == "sla:breached" <==> c.firstResponseDueAt <= now
    ensures MarkerFor(c, now) == "sla:due-soon" <==> c.firstResponseDueAt > now
    ensures IsMarker(MarkerFor(c, now))
  {
    assert "sla:breached"[5] == 'r' && "sla:due-soon"[5] == 'u';
  }

  /**
   After a sweep every candidate has the marker of its deadline, unless its snapshot said so already; a
   marker that was not there has been announced.
   */
  lemma {:induction false} SweepMarks(b: Board, candidates: seq<Candidate>, now: int, i: nat)
    requires i < |candidates| && candidates[i].ticket in b.tags
    ensures var c := candidates[i];
      var m := if c.firstResponseDueAt <= now then "sla:breached" else "sla:due-soon";
      var e := Swept(b, candidates, now);
      && e.tags.Keys == b.tags.Keys
      && (m !in c.tags ==> e.Marked(c.ticket, m) && (m !in b.tags[c.ticket] ==> (c.ticket, m) in e.announced))
  {
    var c := candidates[i];
    MarkerIs(c, now);
    var m := MarkerFor(c, now);
    hide MarkerFor, Board.Marked;
    SweptKeys(b, candidates, now);
    if m !in c.tags {
      SweptMarked(b, candidates, now, i);
      if m !in b.tags[c.ticket] { SweptAnnounces(b, candidates, now, c.ticket, m); }
    }
  }

  lemma {:induction false} SweptMarked(b: Board, candidates: seq<Candidate>, now: int, i: nat)
    requires i < |candidates| && candidates[i].ticket in b.tags && MarkerFor(candidates[i], now) !in candidates[i].tags
    ensures Swept(b, candidates, now).Marked(candidates[i].ticket, MarkerFor(candidates[i], now))
  {
    hide MarkerFor;
    var n := |candidates| - 1;
    SweptKeys(b, candidates[..n], now);
    if i < n { SweptMarked(b, candidates[..n], now, i); }
  }

  lemma {:induction false} SweptKeys(b: Board, candidates: seq<Candidate>, now: int)
    ensures Swept(b, candidates, now).tags.Keys == b.tags.Keys
  {
    if candidates != [] { SweptKeys(b, candidates[..|candidates| - 1], now); }
  }

  /** A marker that a sweep put there it has announced. */
  lemma {:induction false} SweptAnnounces(b: Board, candidates: seq<Candidate>, now: int, t: nat, m: string)
    requires t in b.tags && m !in b.tags[t]
    ensures Swept(b, candidates, now).Marked(t, m) ==> (t, m) in Swept(b, candidates, now).announced
  {
    if candidates != [] {
      var n := |candidates| - 1;
      SweptAnnounces(b, candidates[..n], now, t, m);
      var before := Swept(b, candidates[..n], now);
      var after := Swept(b, candidates, now);
      assert before.announced <= after.announced;
      assert after.announced != before.announced ==> after.announced[|before.announced|] in after.announced;
    }
  }

  /** The visits of a sweep, one by one. */
  function VisitsOf(sweep: nat, candidates: seq<Candidate>, now: int): seq<Action> {
    if candidates == [] then []
    else
      var n := |candidates| - 1;
      VisitsOf(sweep, candidates[..n], now) + [Visit(sweep, candidates[n].ticket, MarkerFor(candidates[n], now))]
  }

  /** A sweep is a run of visits, if nobody else has locked its candidates. */
  lemma {:induction false} SweepIsVisits(d: Desk, sweep: nat, candidates: seq<Candidate>, now: int)
    requires sweep in d.sweeps
    requires forall k :: 0 <= k < |candidates| ==>
      && candidates[k].ticket in d.sweeps[sweep].snapshot
      && d.sweeps[sweep].snapshot[candidates[k].ticket] == candidates[k].tags
      && !d.Locked(candidates[k].ticket)
    ensures var run := VisitsOf(sweep, candidates, now);
      && Possible(d, run)
      && var e := After(d, run);
      && e.board == Swept(d.board, candidates, now)
      && e.sweeps.Keys == d.sweeps.Keys && e.sweeps[sweep].snapshot == d.sweeps[sweep].snapshot
      && forall s :: s in d.sweeps && s != sweep ==> e.sweeps[s] == d.sweeps[s]
  {
    hide Visited;
    if candidates != [] {
      var n := |candidates| - 1;
      var last := candidates[n];
      SweepIsVisits(d, sweep, candidates[..n], now);
      var run := VisitsOf(sweep, candidates[..n], now);
      var e := After(d, run);
      var a := Visit(sweep, last.ticket, MarkerFor(last, now));
      MarkerIs(last, now);
      assert !d.Locked(last.ticket);
      assert forall s :: s in d.sweeps ==> !d.Locks(s, last.ticket);
      assert forall s :: e.Locks(s, last.ticket) ==> s == sweep;
      assert Enabled(e, a);
      RunFirst(e, a, []);
      RunJoin(d, run, [a]);
      assert [a] + [] == [a];
    }
  }

  /** A sweep passes over a ticket whose snapshot has the marker, even if it has lost it since. */
  lemma SnapshotDecides(b: Board, t: nat, snapshot: Tags, marker: string)
    requires marker in snapshot
    ensures Visited(b, t, snapshot, marker) == b
  {
  }
}
