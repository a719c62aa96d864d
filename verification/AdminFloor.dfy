/**
 The last-administrator guard (`assertAdminRemains`, `update`, `updateSelf` and `deactivate` in
 `backend/src/users/users.module.ts`) as interleaved READ COMMITTED transactions of several desks.

 A guarded transaction reads the live administrators of its desk, then locks them one by one in order of
 user id: the membership first and then the account, which is the same row for every desk. Once both are
 locked the administrator is looked at again and dropped if no longer live; the locks stay. Then the
 transaction decides, writes the person's account if the request names one, writes the membership, and
 commits, which releases its locks. A transaction that needs no guard goes straight to its writes.
 */
module AdminFloor {
  import opened Options

  datatype Role = Agent | Lead | Admin

  datatype Place = Place(desk: nat, user: nat)

  /** A membership. */
  datatype Seat = Seat(role: Role, active: bool)

  datatype Row = SeatOf(place: Place) | AccountOf(user: nat)

  /** What a request writes: role, activity and the `other` fields of the membership, and the `person`'s name. */
  datatype Change = Change(role: Option<Role>, active: Option<bool>, other: bool, person: bool) {
    /** The requests that are guarded; deactivation is `Change(None, Some(false), false, false)`. */
    predicate CostsAdmin() { (role.Some? && role != Some(Admin)) || active == Some(false) }

    predicate TouchesSeat() { role.Some? || active.Some? || other }

    function Applied(s: Seat): Seat {
      Seat(if role.Some? then role.value else s.role, if active.Some? then active.value else s.active)
    }
  }

  predicate IsLeast(us: set<nat>, u: nat) { u in us && forall v :: v in us ==> u <= v }

  /**
   A transaction: the administrators its guard read, those still to be locked - of the first, the membership
   may be locked by `half` - those locked, and those kept; and whether it has written the person's account.
   */
  datatype Tx = Tx(
    desk: nat,
    target: nat,
    change: Change,
    snapshot: set<nat>,
    pending: set<nat>,
    half: Option<nat>,
    locked: set<nat>,
    held: set<nat>,
    account: bool)
  {
    predicate Scanned() { pending == {} }

    /** The decision of `assertAdminRemains` on the rows it has kept; without a guard there are none. */
    predicate Allows() { (exists a :: a in held && a != target) || target !in held }

    predicate Holds(row: Row) {
      match row
      case SeatOf(p) => p.desk == desk && (p.user in locked || half == Some(p.user))
      case AccountOf(u) => u in locked || (account && u == target)
    }

    /** The row it must lock before it can go on. */
    predicate Next(row: Row) {
      if half.Some? then row == AccountOf(half.value)
      else if !Scanned() then row.SeatOf? && row.place.desk == desk && IsLeast(pending, row.place.user)
      else if !Allows() then false
      else if change.person && !account then row == AccountOf(target)
      else change.TouchesSeat() && row == SeatOf(Place(desk, target))
    }
  }

  /** `enabled` are the accounts that are not disabled; nothing in the program changes that. */
  datatype World = World(seats: map<Place, Seat>, enabled: set<nat>, txs: map<nat, Tx>) {
    predicate IsLive(desk: nat, u: nat) {
      Place(desk, u) in seats && seats[Place(desk, u)] == Seat(Admin, true) && u in enabled
    }

    function LiveAdmins(desk: nat): (live: set<nat>)
      ensures forall u :: u in live <==> IsLive(desk, u)
    {
      set p | p in seats && p.desk == desk && seats[p] == Seat(Admin, true) && p.user in enabled :: p.user
    }

    predicate HeldByOther(row: Row, tx: nat) {
      exists o :: o in txs && o != tx && txs[o].Holds(row)
    }
  }

  datatype Action =
    | Read(tx: nat, desk: nat, target: nat, change: Change)
    | LockSeat(tx: nat, u: nat)
    | LockAccount(tx: nat)
    | WritePerson(tx: nat)
    | Finish(tx: nat)
    | Join(place: Place, seat: Seat)

  /** `Join` is an accepted invitation or a new user: a seat that is not there yet, or one brought back. */
  predicate Enabled(d: World, a: Action) {
    match a
    case Read(tx, desk, target, _) => tx !in d.txs && Place(desk, target) in d.seats
    case LockSeat(tx, u) =>
      && tx in d.txs && d.txs[tx].half.None? && IsLeast(d.txs[tx].pending, u)
      && !d.HeldByOther(SeatOf(Place(d.txs[tx].desk, u)), tx)
    case LockAccount(tx) =>
      tx in d.txs && d.txs[tx].half.Some? && !d.HeldByOther(AccountOf(d.txs[tx].half.value), tx)
    case WritePerson(tx) =>
      && tx in d.txs && d.txs[tx].half.None? && d.txs[tx].Scanned() && d.txs[tx].Allows()
      && d.txs[tx].change.person && !d.txs[tx].account
      && !d.HeldByOther(AccountOf(d.txs[tx].target), tx)
    case Finish(tx) =>
      && tx in d.txs && Place(d.txs[tx].desk, d.txs[tx].target) in d.seats
      && var g := d.txs[tx];
      && g.half.None? && g.Scanned()
      && (g.Allows() ==>
            && (g.change.person ==> g.account)
            && (g.change.TouchesSeat() ==> !d.HeldByOther(SeatOf(Place(g.desk, g.target)), tx)))
    case Join(p, _) =>
      (p !in d.seats || !d.seats[p].active) && forall o :: o in d.txs ==> !d.txs[o].Holds(SeatOf(p))
  }

  function Apply(d: World, a: Action): World
    requires Enabled(d, a)
  {
    match a
    case Read(tx, desk, target, change) =>
      var read := if change.CostsAdmin() then d.LiveAdmins(desk) else {};
      d.(txs := d.txs[tx := Tx(desk, target, change, read, read, None, {}, {}, false)])
    case LockSeat(tx, u) => d.(txs := d.txs[tx := d.txs[tx].(half := Some(u))])
    case LockAccount(tx) =>
      var g := d.txs[tx];
      var u := g.half.value;
      var kept := if u in d.LiveAdmins(g.desk) then g.held + {u} else g.held;
      d.(txs := d.txs[tx := g.(pending := g.pending - {u}, half := None, locked := g.locked + {u}, held := kept)])
    case WritePerson(tx) => d.(txs := d.txs[tx := d.txs[tx].(account := true)])
    case Finish(tx) =>
      var g := d.txs[tx];
      var p := Place(g.desk, g.target);
      var seats := if g.Allows() then d.seats[p := g.change.Applied(d.seats[p])] else d.seats;
      World(seats, d.enabled, d.txs - {tx})
    case Join(p, seat) => d.(seats := d.seats[p := seat])
  }

  /** What a transaction keeps of its own: it has read what it has locked and what it waits for, in order. */
  predicate Consistent(d: World, g: Tx) {
    && g.pending + g.locked == g.snapshot && g.held <= g.locked
    && (forall u, v :: u in g.locked && v in g.pending ==> u < v)
    && (g.half.Some? ==> IsLeast(g.pending, g.half.value))
    && (forall u :: u in g.held ==> d.IsLive(g.desk, u))
    && Place(g.desk, g.target) in d.seats
    && (!g.change.CostsAdmin() ==> g.snapshot == {})
    && (g.account ==> g.change.person && g.Scanned())
  }

  ghost predicate LocksHold(d: World) {
    && (forall tx :: tx in d.txs ==> Consistent(d, d.txs[tx]))
    && (forall tx, o, row :: tx in d.txs && o in d.txs && d.txs[tx].Holds(row) && d.txs[o].Holds(row) ==> tx == o)
  }

  lemma OwnStep(d: World, a: Action, tx: nat)
    requires LocksHold(d) && Enabled(d, a) && tx in Apply(d, a).txs
    requires !a.Finish? && !a.Join?
    ensures Consistent(Apply(d, a), Apply(d, a).txs[tx])
  {
    assert tx in d.txs ==> Consistent(d, d.txs[tx]);
    assert Apply(d, a).seats == d.seats;
  }

  lemma OthersStep(d: World, a: Action, tx: nat)
    requires LocksHold(d) && Enabled(d, a) && tx in Apply(d, a).txs
    requires a.Finish? || a.Join?
    ensures Consistent(Apply(d, a), Apply(d, a).txs[tx])
  {
    var e := Apply(d, a);
    var g := d.txs[tx];
    assert e.txs[tx] == g && Consistent(d, g);
    forall u | u in g.held ensures e.IsLive(g.desk, u) {
      assert g.Holds(SeatOf(Place(g.desk, u)));
    }
  }

  lemma ExclusiveStep(d: World, a: Action, tx: nat, o: nat, row: Row)
    requires LocksHold(d) && Enabled(d, a) && tx in Apply(d, a).txs && o in Apply(d, a).txs
    requires Apply(d, a).txs[tx].Holds(row) && Apply(d, a).txs[o].Holds(row)
    ensures tx == o
  {
    hide Consistent;
    assert d.HeldByOther(row, tx) || o !in d.txs || !d.txs[o].Holds(row) || o == tx;
    assert d.HeldByOther(row, o) || tx !in d.txs || !d.txs[tx].Holds(row) || o == tx;
  }

  lemma StepKeepsLocks(d: World, a: Action)
    requires LocksHold(d) && Enabled(d, a)
    ensures LocksHold(Apply(d, a))
  {
    hide LocksHold, Consistent, Apply;
    var e := Apply(d, a);
    forall tx | tx in e.txs ensures Consistent(e, e.txs[tx]) {
      if a.Finish? || a.Join? { OthersStep(d, a, tx); } else { OwnStep(d, a, tx); }
    }
    forall tx, o, row | tx in e.txs && o in e.txs && e.txs[tx].Holds(row) && e.txs[o].Holds(row) ensures tx == o {
      ExclusiveStep(d, a, tx, o, row);
    }
    LocksFrom(e);
  }

  lemma LocksFrom(d: World)
    requires forall tx :: tx in d.txs ==> Consistent(d, d.txs[tx])
    requires forall tx, o, row :: tx in d.txs && o in d.txs && d.txs[tx].Holds(row) && d.txs[o].Holds(row) ==> tx == o
    ensures LocksHold(d)
  {
  }

  // ---- the floor of one ----------------------------------------------------------------

  predicate Scanning(d: World, desk: nat) {
    exists tx :: tx in d.txs && d.txs[tx].desk == desk && !d.txs[tx].Scanned()
  }

  /** No administrator of the desk appears while some guard of it is between its snapshot and its last lock. */
  ghost predicate Calm(d: World, a: Action, desk: nat)
    requires Enabled(d, a)
  {
    Scanning(d, desk) ==> Apply(d, a).LiveAdmins(desk) <= d.LiveAdmins(desk)
  }

  /** A scanning guard still sees every live administrator; one that has scanned holds at least one. */
  predicate SeesAll(d: World, desk: nat) {
    forall tx :: tx in d.txs && d.txs[tx].desk == desk && d.txs[tx].change.CostsAdmin() ==>
      var g := d.txs[tx];
      if g.Scanned() then g.held != {} else d.LiveAdmins(desk) <= g.held + g.pending
  }

  /** A transaction that allows its write leaves one of the administrators alone. */
  lemma FinishLeavesOne(d: World, tx: nat, desk: nat)
    requires Enabled(d, Finish(tx)) && SeesAll(d, desk) && LocksHold(d) && d.LiveAdmins(desk) != {}
    ensures Apply(d, Finish(tx)).LiveAdmins(desk) != {}
  {
    var g := d.txs[tx];
    assert Consistent(d, g);
    var e := Apply(d, Finish(tx));
    var u :| d.IsLive(desk, u);
    if g.desk == desk && g.change.CostsAdmin() {
      var a :| a in g.held;
      var b := if g.Allows() && a == g.target then var c :| c in g.held && c != g.target; c else a;
      assert d.IsLive(desk, b) && e.IsLive(desk, b);
    } else {
      assert e.IsLive(desk, u);
    }
  }

  ghost predicate Inv(d: World, desk: nat) {
    d.LiveAdmins(desk) != {} && LocksHold(d) && SeesAll(d, desk)
  }

  lemma StepKeepsFloor(d: World, a: Action, desk: nat)
    requires Inv(d, desk) && Enabled(d, a) && Calm(d, a, desk)
    ensures Inv(Apply(d, a), desk)
  {
    StepKeepsLocks(d, a);
    var e := Apply(d, a);
    if a.Finish? {
      FinishLeavesOne(d, a.tx, desk);
      FinishSeesAll(d, a.tx, desk);
    } else if a.Join? {
      var u :| d.IsLive(desk, u);
      assert e.IsLive(desk, u);
      assert forall o :: o in d.txs && d.txs[o].desk == desk && !d.txs[o].Scanned() ==> Scanning(d, desk);
    } else {
      OwnStepSeesAll(d, a, desk);
    }
  }

  lemma FinishSeesAll(d: World, tx: nat, desk: nat)
    requires SeesAll(d, desk) && Enabled(d, Finish(tx)) && Calm(d, Finish(tx), desk)
    ensures SeesAll(Apply(d, Finish(tx)), desk)
  {
    var e := Apply(d, Finish(tx));
    forall o | o in e.txs && e.txs[o].desk == desk && e.txs[o].change.CostsAdmin()
      ensures var g := e.txs[o]; if g.Scanned() then g.held != {} else e.LiveAdmins(desk) <= g.held + g.pending
    {
      assert o in d.txs && e.txs[o] == d.txs[o];
      assert !d.txs[o].Scanned() ==> Scanning(d, desk);
    }
  }

  lemma OwnStepSeesAll(d: World, a: Action, desk: nat)
    requires SeesAll(d, desk) && LocksHold(d) && d.LiveAdmins(desk) != {}
    requires Enabled(d, a) && !a.Finish? && !a.Join?
    ensures SeesAll(Apply(d, a), desk) && Apply(d, a).LiveAdmins(desk) == d.LiveAdmins(desk)
  {
    hide Tx.Holds, Tx.Next, Tx.Allows;
    var e := Apply(d, a);
    assert e.LiveAdmins(desk) == d.LiveAdmins(desk);
    assert a.tx in d.txs ==> Consistent(d, d.txs[a.tx]);
    var g := e.txs[a.tx];
    assert g.desk == desk && g.change.CostsAdmin() && g.Scanned() ==> d.LiveAdmins(desk) <= g.held || g.held != {};
  }

  // ---- whole runs -----------------------------------------------------------------------

  ghost predicate CalmRun(d: World, run: seq<Action>, desk: nat)
    decreases |run|
  {
    run == [] || (Enabled(d, run[0]) && Calm(d, run[0], desk) && CalmRun(Apply(d, run[0]), run[1..], desk))
  }

  predicate Possible(d: World, run: seq<Action>)
    decreases |run|
  {
    run == [] || (Enabled(d, run[0]) && Possible(Apply(d, run[0]), run[1..]))
  }

  function After(d: World, run: seq<Action>): World
    requires Possible(d, run)
    decreases |run|
  {
    if run == [] then d else After(Apply(d, run[0]), run[1..])
  }

  /**
   A desk that starts with a live administrator has one in every state of every run of demotions,
   deactivations, promotions, renames and joins, on any desks, in which no administrator of it appears
   during the scan of one of its guards.
   */
  lemma AdminAlwaysRemains(d: World, run: seq<Action>, desk: nat)
    requires d.txs == map[] && d.LiveAdmins(desk) != {} && CalmRun(d, run, desk)
    ensures Possible(d, run) && After(d, run).LiveAdmins(desk) != {}
    ensures var e := After(d, run);
      exists p :: p in e.seats && p.desk == desk && e.seats[p].role == Admin && e.seats[p].active && p.user in e.enabled
  {
    FloorOverRuns(d, run, desk);
    var u :| After(d, run).IsLive(desk, u);
    assert Place(desk, u) in After(d, run).seats;
  }

  lemma {:induction false} FloorOverRuns(d: World, run: seq<Action>, desk: nat)
    requires Inv(d, desk) && CalmRun(d, run, desk)
    ensures Possible(d, run) && Inv(After(d, run), desk)
    decreases |run|
  {
    hide Inv, Apply, Enabled, Calm;
    if run != [] {
      StepKeepsFloor(d, run[0], desk);
      FloorOverRuns(Apply(d, run[0]), run[1..], desk);
    }
  }

  lemma {:induction false} LocksOverRuns(d: World, run: seq<Action>)
    requires LocksHold(d) && Possible(d, run)
    ensures LocksHold(After(d, run))
    decreases |run|
  {
    hide LocksHold, Apply, Enabled;
    if run != [] {
      StepKeepsLocks(d, run[0]);
      LocksOverRuns(Apply(d, run[0]), run[1..]);
    }
  }

  predicate TakesLast(d: World, g: Tx, desk: nat) {
    g.desk == desk && g.change.CostsAdmin() && d.LiveAdmins(desk) == {g.target} && g.held == {}
  }

  /**
   Without that proviso: a step takes the desk's last administrator exactly when it is the commit of a
   guard of the desk whose target is the only one and which kept none of its rows.
   */
  lemma FloorLostIff(d: World, a: Action, desk: nat)
    requires LocksHold(d) && Enabled(d, a) && d.LiveAdmins(desk) != {}
    ensures Apply(d, a).LiveAdmins(desk) == {}
      <==> a.Finish? && TakesLast(d, d.txs[a.tx], desk)
  {
    var e := Apply(d, a);
    if a.Finish? && d.txs[a.tx].desk == desk && d.txs[a.tx].change.CostsAdmin() {
      GuardTakesLast(d, a.tx);
    } else {
      var u :| d.IsLive(desk, u);
      assert e.IsLive(desk, u);
    }
  }

  lemma GuardTakesLast(d: World, tx: nat)
    requires LocksHold(d) && Enabled(d, Finish(tx)) && d.txs[tx].change.CostsAdmin()
    requires d.LiveAdmins(d.txs[tx].desk) != {}
    ensures Apply(d, Finish(tx)).LiveAdmins(d.txs[tx].desk) == {}
      <==> d.LiveAdmins(d.txs[tx].desk) == {d.txs[tx].target} && d.txs[tx].held == {}
  {
    var g := d.txs[tx];
    var live, e := d.LiveAdmins(g.desk), Apply(d, Finish(tx));
    assert Consistent(d, g) && g.held <= live;
    if u :| u in live && u != g.target {
      assert e.IsLive(g.desk, u);
    } else {
      var v :| v in live;
      assert live == {g.target};
      if g.held == {} {
        assert forall u :: e.IsLive(g.desk, u) ==> d.IsLive(g.desk, u) && u != g.target;
      } else {
        assert g.held == {g.target} && e.IsLive(g.desk, g.target);
      }
    }
  }

  // ---- what goes through --------------------------------------------------------------------

  /**
   A change that would alter the seat is not written exactly when the target is the one administrator the guard
   kept.
   */
  lemma RefusesIff(d: World, tx: nat)
    requires Enabled(d, Finish(tx))
    requires var p := Place(d.txs[tx].desk, d.txs[tx].target); d.txs[tx].change.Applied(d.seats[p]) != d.seats[p]
    ensures Apply(d, Finish(tx)).seats == d.seats <==> d.txs[tx].held == {d.txs[tx].target}
  {
    var g := d.txs[tx];
    var p := Place(g.desk, g.target);
    assert Apply(d, Finish(tx)).seats[p] == if g.Allows() then g.change.Applied(d.seats[p]) else d.seats[p];
    if !g.Allows() {
      assert forall a :: a in g.held ==> a == g.target;
      assert g.held == {g.target};
    }
  }

  /** Only `tx` is in flight, its guard has read what `d` held, and has kept all that it locked. */
  predicate Alone(d: World, e: World, tx: nat) {
    && e.seats == d.seats && e.enabled == d.enabled && e.txs.Keys == {tx}
    && var g := e.txs[tx];
    && Consistent(e, g) && g.held == g.locked
    && g.snapshot == (if g.change.CostsAdmin() then d.LiveAdmins(g.desk) else {})
  }

  predicate OwnStepOf(a: Action, tx: nat) { (a.LockSeat? || a.LockAccount? || a.WritePerson?) && a.tx == tx }

  /** The steps of one transaction from here to its commit. */
  predicate OwnRun(run: seq<Action>, tx: nat) {
    run != [] && run[|run| - 1] == Finish(tx) && forall i :: 0 <= i < |run| - 1 ==> OwnStepOf(run[i], tx)
  }

  lemma StaysAlone(d: World, e: World, a: Action, tx: nat)
    requires Alone(d, e, tx) && Enabled(e, a) && OwnStepOf(a, tx)
    ensures var f := Apply(e, a);
      && Alone(d, f, tx) && f.txs[tx].desk == e.txs[tx].desk && f.txs[tx].target == e.txs[tx].target
      && f.txs[tx].change == e.txs[tx].change
  {
    hide Tx.Holds, Tx.Next, Tx.Allows;
    assert forall u :: e.IsLive(e.txs[tx].desk, u) == d.IsLive(e.txs[tx].desk, u);
  }

  /** The seats after a transaction that nobody disturbs. */
  function Outcome(d: World, desk: nat, target: nat, change: Change): map<Place, Seat>
    requires Place(desk, target) in d.seats
  {
    var was := d.seats[Place(desk, target)];
    if change.CostsAdmin() && d.LiveAdmins(desk) == {target} then d.seats
    else d.seats[Place(desk, target) :=
      Seat(if change.role.Some? then change.role.value else was.role,
           if change.active.Some? then change.active.value else was.active)]
  }

  lemma {:induction false} AloneToCommit(d: World, e: World, run: seq<Action>, tx: nat)
    requires Alone(d, e, tx) && Possible(e, run) && OwnRun(run, tx)
    ensures After(e, run).txs == map[] && Place(e.txs[tx].desk, e.txs[tx].target) in d.seats
    ensures After(e, run).seats == Outcome(d, e.txs[tx].desk, e.txs[tx].target, e.txs[tx].change)
    decreases |run|
  {
    if |run| == 1 {
      CommitAlone(d, e, tx);
    } else {
      assert OwnStepOf(run[0], tx);
      assert forall i :: 0 <= i < |run| - 2 ==> run[1..][i] == run[i + 1];
      hide Alone, Apply, Enabled, Outcome;
      StaysAlone(d, e, run[0], tx);
      AloneToCommit(d, Apply(e, run[0]), run[1..], tx);
    }
  }

  lemma CommitAlone(d: World, e: World, tx: nat)
    requires Alone(d, e, tx) && Enabled(e, Finish(tx))
    ensures Apply(e, Finish(tx)).txs == map[]
    ensures Apply(e, Finish(tx)).seats == Outcome(d, e.txs[tx].desk, e.txs[tx].target, e.txs[tx].change)
  {
    var g := e.txs[tx];
    assert g.locked == g.snapshot;
    if !g.Allows() {
      assert forall a :: a in g.held ==> a == g.target;
      assert g.held == {g.target};
    }
  }

  /**
   A request that nobody disturbs is written exactly as it was made, unless it costs the desk its one
   live administrator: then nothing is written.
   */
  lemma UndisturbedIsWritten(d: World, tx: nat, desk: nat, target: nat, change: Change, run: seq<Action>)
    requires d.txs == map[] && Enabled(d, Read(tx, desk, target, change))
    requires var e := Apply(d, Read(tx, desk, target, change)); Possible(e, run) && OwnRun(run, tx)
    ensures var f := After(Apply(d, Read(tx, desk, target, change)), run);
      f.txs == map[] && f.seats == Outcome(d, desk, target, change)
  {
    AloneToCommit(d, Apply(d, Read(tx, desk, target, change)), run, tx);
  }

  /** The person is written along the way exactly when the request names one and is not refused. */
  lemma {:induction false} NameIsWrittenIff(d: World, e: World, run: seq<Action>, tx: nat)
    requires Alone(d, e, tx) && Possible(e, run) && OwnRun(run, tx)
    ensures var g := e.txs[tx];
      WritePerson(tx) in run
      <==> g.change.person && !g.account && !(g.change.CostsAdmin() && d.LiveAdmins(g.desk) == {g.target})
    decreases |run|
  {
    var g := e.txs[tx];
    if |run| == 1 {
      CommitWithName(d, e, tx);
      assert run == [Finish(tx)];
    } else {
      assert OwnStepOf(run[0], tx);
      assert forall i :: 0 <= i < |run| - 2 ==> run[1..][i] == run[i + 1];
      assert run == [run[0]] + run[1..];
      StaysAlone(d, e, run[0], tx);
      NamesLeft(d, e, run[0], tx);
      hide Alone, Apply, Enabled;
      NameIsWrittenIff(d, Apply(e, run[0]), run[1..], tx);
    }
  }

  lemma NamesLeft(d: World, e: World, a: Action, tx: nat)
    requires Alone(d, e, tx) && Enabled(e, a) && OwnStepOf(a, tx)
    ensures var g := e.txs[tx];
      && tx in Apply(e, a).txs && Apply(e, a).txs[tx].account == (g.account || a == WritePerson(tx))
      && (a == WritePerson(tx) ==>
            g.change.person && !g.account && !(g.change.CostsAdmin() && d.LiveAdmins(g.desk) == {g.target}))
  {
  }

  lemma CommitWithName(d: World, e: World, tx: nat)
    requires Alone(d, e, tx) && Enabled(e, Finish(tx))
    ensures var g := e.txs[tx];
      g.change.person && !g.account ==> g.change.CostsAdmin() && d.LiveAdmins(g.desk) == {g.target}
  {
    var g := e.txs[tx];
    if !g.Allows() {
      assert forall a :: a in g.held ==> a == g.target;
      assert g.held == {g.target};
    }
  }

  /** ... and there is such a run for every request. */
  lemma RequestCompletes(d: World, tx: nat, desk: nat, target: nat, change: Change) returns (run: seq<Action>)
    requires d.txs == map[] && Enabled(d, Read(tx, desk, target, change))
    ensures var e := Apply(d, Read(tx, desk, target, change)); Possible(e, run) && OwnRun(run, tx)
  {
    run := ToCommit(d, Apply(d, Read(tx, desk, target, change)), tx);
  }

  /** Steps that are left. */
  function StepsLeft(g: Tx): nat {
    2 * |g.pending| + (if g.half.Some? then 0 else 1) + (if g.change.person && !g.account then 1 else 0)
  }

  lemma {:induction false} ToCommit(d: World, e: World, tx: nat) returns (run: seq<Action>)
    requires Alone(d, e, tx)
    ensures Possible(e, run) && OwnRun(run, tx)
    decreases StepsLeft(e.txs[tx])
  {
    hide Alone, Apply, Enabled, StepsLeft, OwnStepOf;
    AloneCanGo(d, e, tx);
    var a := Proceeds(e, tx);
    if a == Finish(tx) {
      run := [a];
      assert run[1..] == [];
    } else {
      StaysAlone(d, e, a, tx);
      FewerLeft(d, e, a, tx);
      var rest := ToCommit(d, Apply(e, a), tx);
      run := [a] + rest;
      assert run[1..] == rest;
      assert forall i :: 1 <= i < |run| ==> run[i] == rest[i - 1];
    }
  }

  lemma AloneCanGo(d: World, e: World, tx: nat)
    requires Alone(d, e, tx)
    ensures tx in e.txs && LocksHold(e) && CanGo(e, tx)
  {
  }

  lemma FewerLeft(d: World, e: World, a: Action, tx: nat)
    requires Alone(d, e, tx) && Enabled(e, a) && OwnStepOf(a, tx)
    ensures tx in Apply(e, a).txs && StepsLeft(Apply(e, a).txs[tx]) < StepsLeft(e.txs[tx])
  {
    hide Tx.Holds, Tx.Next, Tx.Allows;
    var g := e.txs[tx];
    if a.LockAccount? { assert |g.pending - {g.half.value}| == |g.pending| - 1; }
  }

  // ---- the lock order --------------------------------------------------------------------

  /** No other transaction holds the row it must lock next, if there is one. */
  ghost predicate CanGo(d: World, tx: nat)
    requires tx in d.txs
  {
    forall row :: d.txs[tx].Next(row) ==> !d.HeldByOther(row, tx)
  }

  lemma {:induction false} Least(us: set<nat>) returns (u: nat)
    requires us != {}
    ensures IsLeast(us, u)
    decreases us
  {
    var w :| w in us;
    if us == {w} {
      u := w;
    } else {
      var r := Least(us - {w});
      u := if r < w then r else w;
      assert forall v :: v in us ==> v == w || v in us - {w};
    }
  }

  /** A transaction that can go has a step. */
  lemma Proceeds(d: World, tx: nat) returns (a: Action)
    requires LocksHold(d) && tx in d.txs && CanGo(d, tx)
    ensures Enabled(d, a) && (OwnStepOf(a, tx) || a == Finish(tx))
  {
    var g := d.txs[tx];
    assert Consistent(d, g);
    if g.half.Some? {
      assert g.Next(AccountOf(g.half.value));
      a := LockAccount(tx);
    } else if !g.Scanned() {
      var u := Least(g.pending);
      assert g.Next(SeatOf(Place(g.desk, u)));
      a := LockSeat(tx, u);
    } else if g.Allows() && g.change.person && !g.account {
      assert g.Next(AccountOf(g.target));
      a := WritePerson(tx);
    } else {
      assert g.Allows() && g.change.TouchesSeat() ==> g.Next(SeatOf(Place(g.desk, g.target)));
      a := Finish(tx);
    }
  }

  /** The row a scanned guard that allows its write locks next. */
  function WriteRow(g: Tx): Row {
    if g.change.person && !g.account then AccountOf(g.target) else SeatOf(Place(g.desk, g.target))
  }

  /**
   When a guard that has scanned is blocked: exactly when its target was not a live administrator as it
   read them, and another transaction has locked the target's row that it writes next. `Holders` says who
   that can be.
   */
  lemma BlockedIff(d: World, run: seq<Action>, tx: nat)
    requires d.txs == map[] && Possible(d, run)
    ensures var e := After(d, run);
      && LocksHold(e)
      && (tx in e.txs && e.txs[tx].change.CostsAdmin() && e.txs[tx].Scanned() ==>
            var g := e.txs[tx];
            !CanGo(e, tx) <==> g.target !in g.snapshot && e.HeldByOther(WriteRow(g), tx))
  {
    LocksOverRuns(d, run);
    var e := After(d, run);
    if tx in e.txs && e.txs[tx].change.CostsAdmin() && e.txs[tx].Scanned() {
      BlockedNow(e, tx);
    }
  }

  /**
   A membership is locked by a guard of its desk that read it as live; an account by one of any desk, or by a
   rename.
   */
  predicate MayHold(g: Tx, row: Row) {
    match row
    case SeatOf(p) => g.desk == p.desk && p.user in g.snapshot && g.change.CostsAdmin()
    case AccountOf(u) => (u in g.snapshot && g.change.CostsAdmin()) || (g.target == u && g.change.person)
  }

  lemma Holders(d: World, row: Row, tx: nat)
    requires LocksHold(d) && d.HeldByOther(row, tx)
    ensures exists o :: o in d.txs && o != tx && MayHold(d.txs[o], row)
  {
    var o :| o in d.txs && o != tx && d.txs[o].Holds(row);
    assert Consistent(d, d.txs[o]);
  }

  lemma BlockedNow(e: World, tx: nat)
    requires LocksHold(e) && tx in e.txs && e.txs[tx].change.CostsAdmin() && e.txs[tx].Scanned()
    ensures !CanGo(e, tx) <==> e.txs[tx].target !in e.txs[tx].snapshot && e.HeldByOther(WriteRow(e.txs[tx]), tx)
  {
    var g := e.txs[tx];
    assert Consistent(e, g) && g.locked == g.snapshot;
    assert g.Allows() ==> g.Next(WriteRow(g));
    assert forall row :: g.Next(row) ==> row == WriteRow(g);
    if g.target in g.snapshot {
      assert g.Holds(WriteRow(g));
      assert !e.HeldByOther(WriteRow(g), tx);
    }
  }

  // ---- deadlock ----------------------------------------------------------------------------

  ghost predicate WaitsFor(d: World, tx: nat, o: nat)
    requires tx in d.txs && o in d.txs
  {
    tx != o && exists row :: d.txs[tx].Next(row) && d.txs[o].Holds(row)
  }

  /** Each of them waits for another of them. */
  ghost predicate Deadlocked(d: World, txs: set<nat>) {
    txs != {} && txs <= d.txs.Keys && forall tx :: tx in txs ==> exists o :: o in txs && WaitsFor(d, tx, o)
  }

  /** If the target of the guard `g` was live when the guard `h` of its desk read, it was when `g` read. */
  predicate Fits(g: Tx, h: Tx) {
    g.desk == h.desk && g.change.CostsAdmin() && g.target in h.snapshot ==> g.target in g.snapshot
  }

  /** The guards of a desk that are in flight agree on their targets. */
  predicate Agreed(d: World) {
    forall tx, o :: tx in d.txs && o in d.txs ==> Fits(d.txs[tx], d.txs[o])
  }

  /** No request in flight writes both a person and a membership, unless its guard locks both anyway. */
  predicate OneTable(d: World) {
    forall tx :: tx in d.txs && d.txs[tx].change.person && d.txs[tx].change.TouchesSeat() ==>
      d.txs[tx].target in d.txs[tx].snapshot
  }

  lemma ScannedGuardIsFree(d: World, tx: nat, o: nat)
    requires LocksHold(d) && Agreed(d) && OneTable(d) && tx in d.txs && o in d.txs
    requires d.txs[tx].change.CostsAdmin() && d.txs[tx].Scanned()
    ensures !WaitsFor(d, tx, o)
  {
    var g, h := d.txs[tx], d.txs[o];
    assert Consistent(d, g) && Consistent(d, h);
    forall row | g.Next(row) && h.Holds(row) ensures g.Holds(row) {
      assert row == WriteRow(g);
      assert g.target in h.snapshot || g.change.person;
      assert g.target in g.locked;
    }
  }

  lemma RenameIsFree(d: World, tx: nat, o: nat)
    requires LocksHold(d) && OneTable(d) && tx in d.txs && o in d.txs && d.txs[tx].account
    requires d.txs[tx].Scanned() ==> !d.txs[tx].change.CostsAdmin()
    ensures !WaitsFor(d, tx, o)
  {
    assert Consistent(d, d.txs[tx]);
  }

  predicate LeastUpTo(us: set<nat>, u: nat) { exists v: nat :: v in us && IsLeast(us, v) && v <= u }

  /**
   A guard that scans waits for the least of its pending administrators; of several, one that waits for the
   highest.
   */
  lemma {:induction false} HighestWait(d: World, txs: set<nat>) returns (tx: nat, u: nat)
    requires txs != {} && txs <= d.txs.Keys && forall o :: o in txs ==> !d.txs[o].Scanned()
    ensures tx in txs && IsLeast(d.txs[tx].pending, u)
    ensures forall o :: o in txs ==> LeastUpTo(d.txs[o].pending, u)
    decreases txs
  {
    tx :| tx in txs;
    u := Least(d.txs[tx].pending);
    if txs != {tx} {
      var rest := txs - {tx};
      var other, w := HighestWait(d, rest);
      var first := tx;
      var high := if u < w then w else u;
      forall o | o in txs ensures LeastUpTo(d.txs[o].pending, high) {
        if o == first {
          assert IsLeast(d.txs[o].pending, u) && u <= high;
        } else {
          assert o in rest;
          assert LeastUpTo(d.txs[o].pending, w);
        }
      }
      if u < w { tx, u := other, w; }
    }
  }

  /** What the transactions of the set hold that is not half of the row they wait for lies below `u`. */
  lemma BelowWait(d: World, o: nat, u: nat)
    requires LocksHold(d) && o in d.txs && !d.txs[o].Scanned()
    requires LeastUpTo(d.txs[o].pending, u)
    ensures u !in d.txs[o].locked
    ensures d.txs[o].half == Some(u) ==> IsLeast(d.txs[o].pending, u)
  {
    assert Consistent(d, d.txs[o]);
  }

  /** The transaction that waits for the highest row waits for nobody, if no other has half of that row. */
  lemma HighestIsFree(d: World, txs: set<nat>, tx: nat, u: nat, o: nat)
    requires LocksHold(d) && txs <= d.txs.Keys && tx in txs && o in txs && IsLeast(d.txs[tx].pending, u)
    requires forall x :: x in txs ==> !d.txs[x].account && (d.txs[x].Scanned() ==> !d.txs[x].change.CostsAdmin())
    requires forall x :: x in txs && !d.txs[x].Scanned() ==> LeastUpTo(d.txs[x].pending, u)
    requires d.txs[tx].half.None? ==> d.txs[o].half != Some(u)
    ensures !WaitsFor(d, tx, o)
  {
    var g, h := d.txs[tx], d.txs[o];
    assert Consistent(d, g) && Consistent(d, h);
    if !h.Scanned() { BelowWait(d, o, u); }
    assert u !in h.locked;
    assert g.half.Some? ==> g.half == Some(u);
    assert forall row :: g.Next(row) ==> row == if g.half.Some? then AccountOf(u) else SeatOf(Place(g.desk, u));
  }

  /** Of any transactions in flight one waits for none of the others. */
  lemma OneIsFree(d: World, txs: set<nat>) returns (tx: nat)
    requires LocksHold(d) && Agreed(d) && OneTable(d) && txs != {} && txs <= d.txs.Keys
    ensures tx in txs && forall o :: o in txs ==> !WaitsFor(d, tx, o)
  {
    hide LocksHold, Agreed, OneTable, WaitsFor;
    var scanning := set x | x in txs && !d.txs[x].Scanned();
    if x :| x in txs && d.txs[x].change.CostsAdmin() && d.txs[x].Scanned() {
      tx := x;
      forall o | o in txs ensures !WaitsFor(d, tx, o) { ScannedGuardIsFree(d, tx, o); }
    } else if x :| x in txs && d.txs[x].account {
      tx := x;
      forall o | o in txs ensures !WaitsFor(d, tx, o) { RenameIsFree(d, tx, o); }
    } else if scanning != {} {
      var high, u := HighestWait(d, scanning);
      tx := high;
      if x :| x in scanning && d.txs[x].half == Some(u) {
        tx := x;
        HalfIsLeast(d, tx);
      }
      forall o | o in txs ensures !WaitsFor(d, tx, o) {
        if !d.txs[o].Scanned() { assert o in scanning; } else { NothingHalf(d, o); }
        HighestIsFree(d, txs, tx, u, o);
      }
    } else {
      tx :| tx in txs;
      forall o | o in txs ensures !WaitsFor(d, tx, o) {
        assert o !in scanning;
        IdleHoldsNothing(d, tx, o);
      }
    }
  }

  lemma HalfIsLeast(d: World, tx: nat)
    requires LocksHold(d) && tx in d.txs && d.txs[tx].half.Some?
    ensures IsLeast(d.txs[tx].pending, d.txs[tx].half.value)
  {
    assert Consistent(d, d.txs[tx]);
  }

  lemma NothingHalf(d: World, o: nat)
    requires LocksHold(d) && o in d.txs && d.txs[o].Scanned()
    ensures d.txs[o].half.None?
  {
    assert Consistent(d, d.txs[o]);
  }

  lemma IdleHoldsNothing(d: World, tx: nat, o: nat)
    requires LocksHold(d) && tx in d.txs && o in d.txs
    requires d.txs[o].Scanned() && !d.txs[o].account && !d.txs[o].change.CostsAdmin()
    ensures !WaitsFor(d, tx, o)
  {
    assert Consistent(d, d.txs[o]);
  }

  /**
   Requests queue up instead of deadlocking: in every state of every run in which the guards of a desk in
   flight agree on their targets, and no request writes both tables, no set of transactions is deadlocked.
   */
  lemma GuardsQueueUp(d: World, run: seq<Action>, txs: set<nat>)
    requires d.txs == map[] && Possible(d, run) && Agreed(After(d, run)) && OneTable(After(d, run))
    ensures !Deadlocked(After(d, run), txs)
  {
    LocksOverRuns(d, run);
    var e := After(d, run);
    if txs != {} && txs <= e.txs.Keys {
      var tx := OneIsFree(e, txs);
    }
  }

  // ---- runs that get there --------------------------------------------------------------------

  ghost predicate Reaches(d: World, e: World) { exists run :: Possible(d, run) && After(d, run) == e }

  lemma {:induction false} OneMore(d: World, run: seq<Action>, a: Action)
    requires Possible(d, run) && Enabled(After(d, run), a)
    ensures Possible(d, run + [a]) && After(d, run + [a]) == Apply(After(d, run), a)
    decreases |run|
  {
    hide Enabled, Apply;
    if run == [] {
      assert run + [a] == [a] && [a][1..] == [];
    } else {
      assert (run + [a])[1..] == run[1..] + [a];
      OneMore(Apply(d, run[0]), run[1..], a);
    }
  }

  lemma Step(d: World, e: World, a: Action)
    requires Reaches(d, e) && Enabled(e, a)
    ensures Reaches(d, Apply(e, a))
  {
    var run :| Possible(d, run) && After(d, run) == e;
    OneMore(d, run, a);
  }

  lemma Stay(d: World)
    ensures Reaches(d, d)
  {
    assert Possible(d, []) && After(d, []) == d;
  }

  /** Both halves of the next lock. */
  function Granted(d: World, tx: nat, u: nat): World
    requires tx in d.txs
  {
    var g := d.txs[tx];
    var held := if d.IsLive(g.desk, u) then g.held + {u} else g.held;
    d.(txs := d.txs[tx := g.(pending := g.pending - {u}, locked := g.locked + {u}, held := held)])
  }

  lemma Grant(d: World, e: World, tx: nat, u: nat)
    requires Reaches(d, e) && tx in e.txs && e.txs[tx].half.None? && IsLeast(e.txs[tx].pending, u)
    requires !e.HeldByOther(SeatOf(Place(e.txs[tx].desk, u)), tx) && !e.HeldByOther(AccountOf(u), tx)
    ensures Reaches(d, Granted(e, tx, u))
  {
    hide Reaches;
    var e1 := Apply(e, LockSeat(tx, u));
    Step(d, e, LockSeat(tx, u));
    assert !e1.HeldByOther(AccountOf(u), tx);
    Step(d, e1, LockAccount(tx));
    var g := e.txs[tx];
    assert Apply(e1, LockAccount(tx)).txs == Granted(e, tx, u).txs;
  }

  /** A guard begins. */
  function Begun(d: World, tx: nat, desk: nat, target: nat, change: Change): World {
    var live := d.LiveAdmins(desk);
    d.(txs := d.txs[tx := Tx(desk, target, change, live, live, None, {}, {}, false)])
  }

  lemma Begin(d: World, e: World, tx: nat, desk: nat, target: nat, change: Change)
    requires Reaches(d, e) && tx !in e.txs && Place(desk, target) in e.seats && change.CostsAdmin()
    ensures Reaches(d, Begun(e, tx, desk, target, change))
  {
    Step(d, e, Read(tx, desk, target, change));
  }

  /** An unguarded write of a membership, begun and finished at once. */
  lemma Edit(d: World, e: World, tx: nat, p: Place, change: Change)
    requires Reaches(d, e) && tx !in e.txs && p in e.seats && !change.CostsAdmin() && !change.person
    requires !e.HeldByOther(SeatOf(p), tx)
    ensures Reaches(d, e.(seats := e.seats[p := change.Applied(e.seats[p])]))
  {
    hide Reaches;
    var e1 := Apply(e, Read(tx, p.desk, p.user, change));
    Step(d, e, Read(tx, p.desk, p.user, change));
    assert !e1.HeldByOther(SeatOf(p), tx);
    assert e1.txs[tx].Allows();
    Step(d, e1, Finish(tx));
    assert Apply(e1, Finish(tx)).txs == e.txs;
  }

  const LEAVE := Change(None, Some(false), false, false)
  const PROMOTE := Change(Some(Admin), None, false, false)
  const DEMOTE := Change(Some(Agent), None, false, false)
  const RENAME_DEMOTE := Change(Some(Lead), None, false, true)
  const MY_PROFILE := Change(None, None, true, true)

  /** Desk 0 with one administrator, 1, and one agent, 2. */
  function Small(): World {
    World(map[Place(0, 1) := Seat(Admin, true), Place(0, 2) := Seat(Agent, true)], {1, 2}, map[])
  }

  /**
   The proviso of the floor is needed: while one guard waits, its target is promoted and the other administrator
   is demoted.
   */
  lemma PromotionDuringScanLosesFloor() returns (e: World)
    ensures Small().LiveAdmins(0) == {1} && Reaches(Small(), e) && e.LiveAdmins(0) == {}
  {
    hide Reaches;
    var d := Small();
    Stay(d);
    assert d.LiveAdmins(0) == {1};
    Begin(d, d, 10, 0, 2, LEAVE);
    e := Begun(d, 10, 0, 2, LEAVE);
    Edit(d, e, 5, Place(0, 2), PROMOTE);
    e := e.(seats := e.seats[Place(0, 2) := Seat(Admin, true)]);
    assert e.LiveAdmins(0) == {1, 2};
    Begin(d, e, 20, 0, 1, DEMOTE);
    e := Begun(e, 20, 0, 1, DEMOTE);
    Grant(d, e, 20, 1);
    e := Granted(e, 20, 1);
    assert e.txs[20] == Tx(0, 1, DEMOTE, {1, 2}, {2}, None, {1}, {1}, false);
    Grant(d, e, 20, 2);
    e := Granted(e, 20, 2);
    assert e.txs[20] == Tx(0, 1, DEMOTE, {1, 2}, {}, None, {1, 2}, {1, 2}, false);
    assert 2 in e.txs[20].held;
    Step(d, e, Finish(20));
    e := Apply(e, Finish(20));
    assert e.txs == map[10 := Tx(0, 2, LEAVE, {1}, {1}, None, {}, {}, false)];
    Grant(d, e, 10, 1);
    e := Granted(e, 10, 1);
    assert e.txs[10] == Tx(0, 2, LEAVE, {1}, {}, None, {1}, {}, false);
    Step(d, e, Finish(10));
    e := Apply(e, Finish(10));
    assert forall u :: !e.IsLive(0, u);
  }

  lemma TwoAgree(e: World, g: Tx, h: Tx)
    requires e.txs == map[10 := g, 20 := h] && Fits(g, g) && Fits(g, h) && Fits(h, g) && Fits(h, h)
    ensures Agreed(e)
  {
    hide Fits;
  }

  lemma NoPersons(e: World, g: Tx, h: Tx)
    requires e.txs == map[10 := g, 20 := h] && !g.change.person && !h.change.person
    ensures OneTable(e)
  {
  }

  lemma TwoWait(e: World, g: Tx, h: Tx, r: Row, q: Row)
    requires e.txs == map[10 := g, 20 := h] && g.Next(r) && h.Holds(r) && h.Next(q) && g.Holds(q)
    ensures Deadlocked(e, {10, 20})
  {
    assert WaitsFor(e, 10, 20) && WaitsFor(e, 20, 10);
  }

  /** Desk 0 with an agent, 2, and an administrator, 3. */
  function Pair(): World {
    World(map[Place(0, 2) := Seat(Agent, true), Place(0, 3) := Seat(Admin, true)], {2, 3}, map[])
  }

  /** Agreement is needed: a guard's target is promoted after its read, and locked by the guard it must wait for. */
  lemma PromotedTargetDeadlocks() returns (e: World)
    ensures Reaches(Pair(), e) && OneTable(e) && Deadlocked(e, {10, 20})
  {
    hide Reaches, Deadlocked, OneTable, Agreed, Tx.Next;
    var d := Pair();
    Stay(d);
    assert d.LiveAdmins(0) == {3};
    Begin(d, d, 10, 0, 2, LEAVE);
    e := Begun(d, 10, 0, 2, LEAVE);
    Grant(d, e, 10, 3);
    e := Granted(e, 10, 3);
    assert e.txs[10] == Tx(0, 2, LEAVE, {3}, {}, None, {3}, {3}, false);
    Edit(d, e, 5, Place(0, 2), PROMOTE);
    e := e.(seats := e.seats[Place(0, 2) := Seat(Admin, true)]);
    assert e.LiveAdmins(0) == {2, 3};
    Begin(d, e, 20, 0, 3, DEMOTE);
    e := Begun(e, 20, 0, 3, DEMOTE);
    Grant(d, e, 20, 2);
    e := Granted(e, 20, 2);
    assert e.txs[20] == Tx(0, 3, DEMOTE, {2, 3}, {3}, None, {2}, {2}, false);
    PromotedWait(e, e.txs[10], e.txs[20]);
  }

  lemma PromotedWait(e: World, g: Tx, h: Tx)
    requires g == Tx(0, 2, LEAVE, {3}, {}, None, {3}, {3}, false)
    requires h == Tx(0, 3, DEMOTE, {2, 3}, {3}, None, {2}, {2}, false)
    requires e.txs == map[10 := g, 20 := h]
    ensures OneTable(e) && Deadlocked(e, {10, 20})
  {
    hide Deadlocked, WaitsFor, OneTable;
    assert 3 in g.held;
    assert g.Next(SeatOf(Place(0, 2)));
    assert h.Next(SeatOf(Place(0, 3)));
    hide Tx.Next;
    TwoWait(e, g, h, SeatOf(Place(0, 2)), SeatOf(Place(0, 3)));
    NoPersons(e, g, h);
  }

  /** Desk 0 with two administrators. */
  function Both(): World {
    World(map[Place(0, 1) := Seat(Admin, true), Place(0, 2) := Seat(Admin, true)], {1, 2}, map[])
  }

  /** ... and nobody need be promoted: a guard keeps the lock of a row it has dropped, which may be another's target. */
  lemma DemotedTargetDeadlocks() returns (e: World)
    ensures Reaches(Both(), e) && OneTable(e) && Deadlocked(e, {10, 20})
  {
    hide Reaches, Deadlocked, OneTable, Agreed, Tx.Next;
    var d := Both();
    Stay(d);
    assert d.LiveAdmins(0) == {1, 2};
    Begin(d, d, 20, 0, 2, DEMOTE);
    e := Begun(d, 20, 0, 2, DEMOTE);
    e := DemotedMeanwhile(d, e);
    assert e.LiveAdmins(0) == {2};
    Begin(d, e, 10, 0, 1, LEAVE);
    e := Begun(e, 10, 0, 1, LEAVE);
    Grant(d, e, 20, 1);
    e := Granted(e, 20, 1);
    assert e.txs[20] == Tx(0, 2, DEMOTE, {1, 2}, {2}, None, {1}, {}, false);
    Grant(d, e, 10, 2);
    e := Granted(e, 10, 2);
    assert e.txs[10] == Tx(0, 1, LEAVE, {2}, {}, None, {2}, {2}, false);
    DemotedWait(e, e.txs[10], e.txs[20]);
  }

  lemma DemotedWait(e: World, g: Tx, h: Tx)
    requires g == Tx(0, 1, LEAVE, {2}, {}, None, {2}, {2}, false)
    requires h == Tx(0, 2, DEMOTE, {1, 2}, {2}, None, {1}, {}, false)
    requires e.txs == map[10 := g, 20 := h]
    ensures OneTable(e) && Deadlocked(e, {10, 20})
  {
    hide Deadlocked, WaitsFor, OneTable;
    assert 2 in g.held;
    assert g.Next(SeatOf(Place(0, 1)));
    assert h.Next(SeatOf(Place(0, 2)));
    hide Tx.Next;
    TwoWait(e, g, h, SeatOf(Place(0, 1)), SeatOf(Place(0, 2)));
    NoPersons(e, g, h);
  }

  /** A third guard demotes 1 while 20 has not locked anything. */
  lemma DemotedMeanwhile(d: World, e: World) returns (f: World)
    requires Reaches(d, e) && e.LiveAdmins(0) == {1, 2}
    requires e.txs == map[20 := Tx(0, 2, DEMOTE, {1, 2}, {1, 2}, None, {}, {}, false)]
    ensures Reaches(d, f) && f == e.(seats := e.seats[Place(0, 1) := Seat(Agent, true)])
  {
    hide Reaches, Deadlocked, OneTable, Agreed, Tx.Next;
    Begin(d, e, 5, 0, 1, DEMOTE);
    f := Begun(e, 5, 0, 1, DEMOTE);
    assert e.IsLive(0, 1) && e.IsLive(0, 2);
    Grant(d, f, 5, 1);
    f := Granted(f, 5, 1);
    assert f.txs[5] == Tx(0, 1, DEMOTE, {1, 2}, {2}, None, {1}, {1}, false);
    Grant(d, f, 5, 2);
    f := Granted(f, 5, 2);
    assert f.txs[5] == Tx(0, 1, DEMOTE, {1, 2}, {}, None, {1, 2}, {1, 2}, false);
    assert 2 in f.txs[5].held;
    Step(d, f, Finish(5));
    f := Apply(f, Finish(5));
    assert f.txs == e.txs;
  }

  /** User 3 is an administrator of desk 0 and an agent of desk 1; user 7 the other way round. */
  function TwoDesks(): World {
    World(
      map[Place(0, 3) := Seat(Admin, true), Place(0, 7) := Seat(Agent, true),
          Place(1, 3) := Seat(Agent, true), Place(1, 7) := Seat(Admin, true)],
      {3, 7}, map[])
  }

  /** One table at a time is needed: two desks each demote and rename the other's administrator. */
  lemma RenamesDeadlock() returns (e: World)
    ensures Reaches(TwoDesks(), e) && Agreed(e) && Deadlocked(e, {10, 20})
  {
    hide Reaches, Deadlocked, OneTable, Agreed, Tx.Next;
    var d := TwoDesks();
    Stay(d);
    assert d.LiveAdmins(0) == {3} && d.LiveAdmins(1) == {7};
    Begin(d, d, 10, 0, 7, RENAME_DEMOTE);
    e := Begun(d, 10, 0, 7, RENAME_DEMOTE);
    Grant(d, e, 10, 3);
    e := Granted(e, 10, 3);
    assert e.txs[10] == Tx(0, 7, RENAME_DEMOTE, {3}, {}, None, {3}, {3}, false);
    assert e.LiveAdmins(1) == {7};
    Begin(d, e, 20, 1, 3, RENAME_DEMOTE);
    e := Begun(e, 20, 1, 3, RENAME_DEMOTE);
    Grant(d, e, 20, 7);
    e := Granted(e, 20, 7);
    assert e.txs[20] == Tx(1, 3, RENAME_DEMOTE, {7}, {}, None, {7}, {7}, false);
    RenamesWait(e, e.txs[10], e.txs[20]);
  }

  lemma RenamesWait(e: World, g: Tx, h: Tx)
    requires g == Tx(0, 7, RENAME_DEMOTE, {3}, {}, None, {3}, {3}, false)
    requires h == Tx(1, 3, RENAME_DEMOTE, {7}, {}, None, {7}, {7}, false)
    requires e.txs == map[10 := g, 20 := h]
    ensures Agreed(e) && Deadlocked(e, {10, 20})
  {
    hide Deadlocked, WaitsFor, Agreed;
    assert 3 in g.held && 7 in h.held;
    assert g.Next(AccountOf(7));
    assert h.Next(AccountOf(3));
    hide Tx.Next;
    TwoWait(e, g, h, AccountOf(7), AccountOf(3));
    TwoAgree(e, g, h);
  }

  /**
   ... on one desk too: an administrator's own profile is written account first, and a guard locks membership
   first.
   */
  lemma ProfileDeadlocks() returns (e: World)
    ensures Reaches(Pair(), e) && Agreed(e) && Deadlocked(e, {10, 20})
  {
    hide Reaches, Deadlocked, OneTable, Agreed, Tx.Next;
    var d := Pair();
    Stay(d);
    assert d.LiveAdmins(0) == {3};
    Step(d, d, Read(10, 0, 3, MY_PROFILE));
    e := Apply(d, Read(10, 0, 3, MY_PROFILE));
    Step(d, e, WritePerson(10));
    e := Apply(e, WritePerson(10));
    assert e.LiveAdmins(0) == {3};
    Begin(d, e, 20, 0, 2, DEMOTE);
    e := Begun(e, 20, 0, 2, DEMOTE);
    Step(d, e, LockSeat(20, 3));
    e := Apply(e, LockSeat(20, 3));
    ProfileWaits(e, e.txs[10], e.txs[20]);
  }

  lemma ProfileWaits(e: World, g: Tx, h: Tx)
    requires g == Tx(0, 3, MY_PROFILE, {}, {}, None, {}, {}, true)
    requires h == Tx(0, 2, DEMOTE, {3}, {3}, Some(3), {}, {}, false)
    requires e.txs == map[10 := g, 20 := h]
    ensures Agreed(e) && Deadlocked(e, {10, 20})
  {
    hide Deadlocked, WaitsFor, Agreed;
    assert g.Next(SeatOf(Place(0, 3)));
    assert h.Next(AccountOf(3));
    hide Tx.Next;
    TwoWait(e, g, h, SeatOf(Place(0, 3)), AccountOf(3));
    TwoAgree(e, g, h);
  }
}
