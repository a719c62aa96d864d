/**
 Invitations to a desk (`backend/src/invitations/invitations.service.ts` and
 `invitation-state.ts`): invite, re-invite, revoke and accept as interleaved transactions.

 Each transaction is one step, except that an accept is two: the reads that decide whether it may
 go on, and the transaction that claims the invitation. Rows carry surrogate ids; the uniqueness of
 emails, seats and outstanding invitations is proved, not built into the tables.
 */
module Invitations {
  import opened Options

  datatype Role = Agent | Lead | Admin

  datatype Invitation =
    Invitation(desk: nat, email: string, role: Role, expiresAt: int, acceptedBy: Option<nat>, revoked: bool)
  {
    predicate Outstanding() { acceptedBy.None? && !revoked }
  }

  datatype Account = Account(email: string, hash: string, active: bool)

  datatype Seat = Seat(desk: nat, user: nat, active: bool, role: Role)

  // ---- the state of an invitation ----------------------------------------------------

  datatype State = Valid | WorkspaceInactive | Accepted | Revoked | Expired

  /** `invitationState`: the order of the tests is the design. */
  function StateOf(inv: Invitation, deskActive: bool, now: int): State {
    if !deskActive then WorkspaceInactive
    else if inv.acceptedBy.Some? then Accepted
    else if inv.revoked then Revoked
    else if inv.expiresAt <= now then Expired
    else Valid
  }

  /**
   An accept that has passed its early reads: the invitation, a password hash if it needs to open an account, and
   when it read.
   */
  datatype Pending = Pending(invitation: nat, hash: Option<string>, readAt: int)

  /** A committed accept: when its early reads were, and when it claimed. */
  datatype Acceptance = Acceptance(invitation: nat, readAt: int, claimedAt: int)

  /** The seat is an active one on the desk, of the account with the address. */
  predicate Seats(seat: Seat, users: map<nat, Account>, desk: nat, email: string) {
    seat.active && seat.desk == desk && seat.user in users && users[seat.user].email == email
  }

  datatype World = World(
    invitations: map<nat, Invitation>,
    users: map<nat, Account>,
    seats: map<nat, Seat>,
    accepting: map<nat, Pending>,
    accepts: seq<Acceptance>)
  {
    predicate Member(desk: nat, email: string) {
      exists s :: s in seats && Seats(seats[s], users, desk, email)
    }

    predicate HasUser(email: string) { exists u :: u in users && users[u].email == email }

    ghost function UserOf(email: string): nat
      requires HasUser(email)
    {
      var u :| u in users && users[u].email == email; u
    }

    predicate HasSeat(desk: nat, user: nat) { exists s :: s in seats && seats[s].desk == desk && seats[s].user == user }

    ghost function SeatOf(desk: nat, user: nat): nat
      requires HasSeat(desk, user)
    {
      var s :| s in seats && seats[s].desk == desk && seats[s].user == user; s
    }
  }

  // ---- the transactions -------------------------------------------------------------------

  function RevokePending(invitations: map<nat, Invitation>, desk: nat, email: string): map<nat, Invitation> {
    map i | i in invitations ::
      if invitations[i].Outstanding() && invitations[i].desk == desk && invitations[i].email == email
      then invitations[i].(revoked := true) else invitations[i]
  }

  /** `create`: refused for a member; otherwise the outstanding invitation is withdrawn and a new one inserted. */
  function Invited(w: World, id: nat, desk: nat, email: string, role: Role, expiresAt: int): World {
    if w.Member(desk, email) then w
    else
      var issued := Invitation(desk, email, role, expiresAt, None, false);
      w.(invitations := RevokePending(w.invitations, desk, email)[id := issued])
  }

  /** `revoke`: a conditional update. */
  function Withdrawn(w: World, id: nat): World {
    if id in w.invitations && w.invitations[id].Outstanding()
    then w.(invitations := w.invitations[id := w.invitations[id].(revoked := true)]) else w
  }

  /** The account step of an accept: the row found, or one inserted, or a refusal. */
  ghost function Opened(w: World, email: string, hash: Option<string>, newUser: nat): Option<(map<nat, Account>, nat)> {
    if w.HasUser(email) then
      var u := w.UserOf(email);
      if w.users[u].active then Some((w.users, u)) else None
    else if hash.Some? then Some((w.users[newUser := Account(email, hash.value, true)], newUser))
    else None
  }

  /** The seat step: reactivated, inserted, or a refusal when it is already held. */
  ghost function Seated(w: World, desk: nat, user: nat, role: Role, newSeat: nat): Option<map<nat, Seat>> {
    if w.HasSeat(desk, user) then
      var s := w.SeatOf(desk, user);
      if w.seats[s].active then None else Some(w.seats[s := Seat(desk, user, true, role)])
    else Some(w.seats[newSeat := Seat(desk, user, true, role)])
  }

  /** The transaction of an accept; a refusal at any point rolls all of it back. */
  ghost function Claimed(w: World, p: Pending, newUser: nat, newSeat: nat, now: int): World {
    if p.invitation !in w.invitations then w else
    var inv := w.invitations[p.invitation];
    match Opened(w, inv.email, p.hash, newUser)
    case None => w
    case Some((users, user)) =>
      if !inv.Outstanding() then w else
      match Seated(w, inv.desk, user, inv.role, newSeat)
      case None => w
      case Some(seats) =>
        w.(invitations := w.invitations[p.invitation := inv.(acceptedBy := Some(user))],
           users := users, seats := seats, accepts := w.accepts + [Acceptance(p.invitation, p.readAt, now)])
  }

  // ---- the same transactions, statement by statement ----------------------------------------

  class Tables {
    var invitations: map<nat, Invitation>
    var users: map<nat, Account>
    var seats: map<nat, Seat>
    ghost var accepting: map<nat, Pending>
    ghost var accepts: seq<Acceptance>

    ghost function View(): World
      reads this
    {
      World(invitations, users, seats, accepting, accepts)
    }

    method Create(id: nat, desk: nat, email: string, role: Role, expiresAt: int) returns (ok: bool)
      modifies this`invitations
      ensures View() == Invited(old(View()), id, desk, email, role, expiresAt)
      ensures ok <==> !old(View()).Member(desk, email)
    {
      if s :| s in seats && Seats(seats[s], users, desk, email) {
        return false;
      }
      ok := true;
      invitations := RevokePending(invitations, desk, email);
      invitations := invitations[id := Invitation(desk, email, role, expiresAt, None, false)];
    }

    method Revoke(id: nat)
      modifies this`invitations
      ensures View() == Withdrawn(old(View()), id)
    {
      if id !in invitations || invitations[id].acceptedBy.Some? || invitations[id].revoked { return; }
      invitations := invitations[id := invitations[id].(revoked := true)];
    }

    /** The accept transaction; `false` is a rollback. Fresh row ids come from the database. */
    method Accept(p: Pending, newUser: nat, newSeat: nat, now: int) returns (ok: bool)
      requires UniqueRows(View())
      modifies this`invitations, this`users, this`seats, this`accepts
      ensures View() == Claimed(old(View()), p, newUser, newSeat, now)
      ensures ok <==> accepts != old(accepts)
    {
      ok := false;
      if p.invitation !in invitations { return; }
      var inv := invitations[p.invitation];
      var user := newUser;
      var isNew := true;
      if u :| u in users && users[u].email == inv.email {
        if !users[u].active { return; }
        user, isNew := u, false;
      } else if p.hash.None? {
        return;
      }
      if inv.acceptedBy.Some? || inv.revoked { return; }
      assert !isNew ==> user == View().UserOf(inv.email);
      ghost var found := View().HasSeat(inv.desk, user);
      if s :| s in seats && seats[s].desk == inv.desk && seats[s].user == user {
        assert s == View().SeatOf(inv.desk, user);
        if seats[s].active { return; }
        seats := seats[s := Seat(inv.desk, user, true, inv.role)];
      } else {
        seats := seats[newSeat := Seat(inv.desk, user, true, inv.role)];
      }
      if isNew {
        users := users[newUser := Account(inv.email, p.hash.value, true)];
      }
      invitations := invitations[p.invitation := inv.(acceptedBy := Some(user))];
      accepts := accepts + [Acceptance(p.invitation, p.readAt, now)];
      ok := true;
    }
  }

  // ---- what every state keeps -------------------------------------------------------------------

  predicate SameSeat(a: Seat, b: Seat) { a.desk == b.desk && a.user == b.user }

  /** One account an address, one seat a person and desk. */
  ghost predicate UniqueRows(w: World) {
    && (forall u, v :: u in w.users && v in w.users && w.users[u].email == w.users[v].email ==> u == v)
    && (forall s, t :: s in w.seats && t in w.seats && SameSeat(w.seats[s], w.seats[t]) ==> s == t)
    && (forall s :: s in w.seats ==> w.seats[s].user in w.users)
  }

  predicate Rivals(a: Invitation, b: Invitation) {
    a.Outstanding() && b.Outstanding() && a.desk == b.desk && a.email == b.email
  }

  ghost predicate OneOutstanding(w: World) {
    forall i, j :: i in w.invitations && j in w.invitations && Rivals(w.invitations[i], w.invitations[j]) ==> i == j
  }

  /**
   Accepted and revoked exclude each other, and every accept went to the account with its address, which has the
   seat.
   */
  ghost predicate AcceptedProperly(w: World) {
    forall i :: i in w.invitations && w.invitations[i].acceptedBy.Some? ==>
      var inv := w.invitations[i];
      var u := inv.acceptedBy.value;
      && !inv.revoked
      && u in w.users && w.users[u].email == inv.email && w.HasSeat(inv.desk, u)
  }

  predicate Logged(accepts: seq<Acceptance>, id: nat) {
    exists k :: 0 <= k < |accepts| && accepts[k].invitation == id
  }

  /** The log of committed accepts names each accepted invitation once. */
  ghost predicate AcceptedOnce(w: World) {
    && (forall j, k :: 0 <= j < k < |w.accepts| ==> w.accepts[j].invitation != w.accepts[k].invitation)
    && (forall i :: Logged(w.accepts, i) <==> i in w.invitations && w.invitations[i].acceptedBy.Some?)
  }

  predicate InTime(w: World, id: nat, readAt: int) {
    id in w.invitations && readAt < w.invitations[id].expiresAt
  }

  /** Every accept, committed or in flight, read its invitation before that expired. */
  ghost predicate ReadInTime(w: World) {
    && (forall tx :: tx in w.accepting ==> InTime(w, w.accepting[tx].invitation, w.accepting[tx].readAt))
    && (forall k :: 0 <= k < |w.accepts| ==>
          InTime(w, w.accepts[k].invitation, w.accepts[k].readAt) && w.accepts[k].readAt <= w.accepts[k].claimedAt)
  }

  ghost predicate Inv(w: World) {
    UniqueRows(w) && OneOutstanding(w) && AcceptedProperly(w) && AcceptedOnce(w) && ReadInTime(w)
  }

  /** `Hire` is an administrator's own creation of an account and its seat, which a taken address fails. */
  datatype Action =
    | Invite(id: nat, desk: nat, email: string, role: Role, expiresAt: int)
    | Revoke(id: nat)
    | Look(tx: nat, id: nat, hash: Option<string>, now: int)
    | Claim(tx: nat, newUser: nat, newSeat: nat, now: int)
    | Offboard(seat: nat)
    | Disable(user: nat)
    | Hire(user: nat, seat: nat, desk: nat, email: string, password: string, role: Role)

  ghost predicate Enabled(w: World, a: Action) {
    match a
    case Invite(id, _, _, _, _) => id !in w.invitations
    case Look(tx, id, hash, now) =>
      && tx !in w.accepting && id in w.invitations && StateOf(w.invitations[id], true, now) == Valid
      && (if w.HasUser(w.invitations[id].email) then w.users[w.UserOf(w.invitations[id].email)].active
        && hash.None? else hash.Some?)
    case Claim(tx, newUser, newSeat, now) =>
      tx in w.accepting && w.accepting[tx].readAt <= now && newUser !in w.users && newSeat !in w.seats
    case Offboard(seat) => seat in w.seats
    case Disable(user) => user in w.users
    case Hire(user, seat, _, _, _, _) => user !in w.users && seat !in w.seats
    case Revoke(_) => true
  }

  ghost function Apply(w: World, a: Action): World
    requires Enabled(w, a)
  {
    match a
    case Invite(id, desk, email, role, expiresAt) => Invited(w, id, desk, email, role, expiresAt)
    case Revoke(id) => Withdrawn(w, id)
    case Look(tx, id, hash, now) => w.(accepting := w.accepting[tx := Pending(id, hash, now)])
    case Claim(tx, newUser, newSeat, now) =>
      Claimed(w, w.accepting[tx], newUser, newSeat, now).(accepting := w.accepting - {tx})
    case Offboard(seat) => w.(seats := w.seats[seat := w.seats[seat].(active := false)])
    case Disable(user) => w.(users := w.users[user := w.users[user].(active := false)])
    case Hire(user, seat, desk, email, hash, role) =>
      if w.HasUser(email) then w else
      w.(users := w.users[user := Account(email, hash, true)], seats := w.seats[seat := Seat(desk, user, true, role)])
  }

  /** What no step undoes: accounts with their passwords, withdrawals, and acceptances. */
  ghost predicate Keeps(w: World, v: World) {
    && (forall u :: u in w.users ==>
          u in v.users && v.users[u].email == w.users[u].email && v.users[u].hash == w.users[u].hash)
    && (forall i :: i in w.invitations ==>
          && i in v.invitations
          && v.invitations[i].email == w.invitations[i].email && v.invitations[i].desk == w.invitations[i].desk
          && v.invitations[i].expiresAt == w.invitations[i].expiresAt
          && (w.invitations[i].revoked ==> v.invitations[i] == w.invitations[i])
          && (w.invitations[i].acceptedBy.Some? ==> v.invitations[i] == w.invitations[i]))
    && w.accepts <= v.accepts
  }

  ghost predicate SeatOfAccepted(w: World, inv: Invitation) {
    inv.acceptedBy.Some? ==>
      && !inv.revoked && inv.acceptedBy.value in w.users && w.users[inv.acceptedBy.value].email == inv.email
      && w.HasSeat(inv.desk, inv.acceptedBy.value)
  }

  /** Accounts and seats may change as long as they stay where they are. */
  lemma StaysSeated(w: World, v: World, inv: Invitation)
    requires SeatOfAccepted(w, inv)
    requires forall u :: u in w.users ==> u in v.users && v.users[u].email == w.users[u].email
    requires forall s :: s in w.seats ==> s in v.seats && SameSeat(v.seats[s], w.seats[s])
    ensures SeatOfAccepted(v, inv)
  {
    if inv.acceptedBy.Some? {
      var s :| s in w.seats && w.seats[s].desk == inv.desk && w.seats[s].user == inv.acceptedBy.value;
      assert s in v.seats;
    }
  }

  /** The rows of accounts and seats stay, whatever becomes of their flags and roles. */
  ghost predicate RowsStay(w: World, v: World) {
    && w.users.Keys <= v.users.Keys && w.seats.Keys <= v.seats.Keys
    && (forall u :: u in w.users ==> v.users[u].email == w.users[u].email && v.users[u].hash == w.users[u].hash)
    && (forall s :: s in w.seats ==> SameSeat(v.seats[s], w.seats[s]))
  }

  /** Invitations stay, except that outstanding ones may be withdrawn and new ones be added. */
  ghost predicate InvitationsStay(w: World, v: World) {
    && v.accepts == w.accepts
    && (forall i :: i in w.invitations ==>
          i in v.invitations &&
          (v.invitations[i] == w.invitations[i]
            || (w.invitations[i].Outstanding() && v.invitations[i] == w.invitations[i].(revoked := true))))
    && (forall i :: i in v.invitations && i !in w.invitations ==> v.invitations[i].Outstanding())
  }

  lemma StayUnique(w: World, v: World)
    requires UniqueRows(w) && RowsStay(w, v) && v.users.Keys == w.users.Keys && v.seats.Keys == w.seats.Keys
    ensures UniqueRows(v)
  {
  }

  lemma StayAccepted(w: World, v: World)
    requires AcceptedProperly(w) && RowsStay(w, v) && InvitationsStay(w, v)
    ensures AcceptedProperly(v)
  {
    hide World.HasSeat;
    forall i | i in v.invitations ensures SeatOfAccepted(v, v.invitations[i]) {
      if v.invitations[i].acceptedBy.Some? {
        assert SeatOfAccepted(w, w.invitations[i]);
        StaysSeated(w, v, w.invitations[i]);
      }
    }
  }

  lemma StayAcceptedOnce(w: World, v: World)
    requires AcceptedOnce(w) && InvitationsStay(w, v)
    ensures AcceptedOnce(v)
  {
  }

  /** Expiry dates stay, so what was read in time stays so. */
  lemma StayInTime(w: World, v: World)
    requires ReadInTime(w) && InvitationsStay(w, v)
    requires forall tx :: tx in v.accepting ==>
      || (tx in w.accepting && v.accepting[tx] == w.accepting[tx])
      || InTime(w, v.accepting[tx].invitation, v.accepting[tx].readAt)
    ensures ReadInTime(v)
  {
  }

  lemma StayKept(w: World, v: World)
    requires RowsStay(w, v) && InvitationsStay(w, v)
    ensures Keeps(w, v)
  {
  }

  /** A step that accepts nothing keeps everything but, perhaps, the rule about outstanding invitations. */
  lemma NothingAccepted(w: World, v: World)
    requires Inv(w) && RowsStay(w, v) && InvitationsStay(w, v) && OneOutstanding(v) && UniqueRows(v)
    requires forall tx :: tx in v.accepting ==>
      || (tx in w.accepting && v.accepting[tx] == w.accepting[tx])
      || InTime(w, v.accepting[tx].invitation, v.accepting[tx].readAt)
    ensures Inv(v) && Keeps(w, v)
  {
    hide InTime, ReadInTime, UniqueRows, AcceptedProperly, AcceptedOnce, RowsStay, InvitationsStay;
    hide OneOutstanding, Keeps;
    StayAccepted(w, v);
    StayAcceptedOnce(w, v);
    StayInTime(w, v);
    StayKept(w, v);
  }

  lemma InviteStep(w: World, a: Action)
    requires Inv(w) && Enabled(w, a) && a.Invite?
    ensures Inv(Apply(w, a)) && Keeps(w, Apply(w, a))
  {
    hide AcceptedProperly, OneOutstanding, UniqueRows, AcceptedOnce, ReadInTime, Keeps, World.Member;
    InviteOutstanding(w, a);
    StayUnique(w, Apply(w, a));
    NothingAccepted(w, Apply(w, a));
  }

  lemma InviteOutstanding(w: World, a: Action)
    requires OneOutstanding(w) && a.Invite? && Enabled(w, a)
    ensures OneOutstanding(Invited(w, a.id, a.desk, a.email, a.role, a.expiresAt))
  {
    var v := Invited(w, a.id, a.desk, a.email, a.role, a.expiresAt);
    forall i, j | i in v.invitations && j in v.invitations && Rivals(v.invitations[i], v.invitations[j])
      ensures i == j
    {
      if i != a.id && j != a.id { assert i in w.invitations && j in w.invitations; }
    }
  }

  lemma RevokeStep(w: World, id: nat)
    requires Inv(w)
    ensures Inv(Withdrawn(w, id)) && Keeps(w, Withdrawn(w, id))
  {
    hide AcceptedProperly, OneOutstanding, UniqueRows, AcceptedOnce, ReadInTime, Keeps;
    RevokeOutstanding(w, id);
    StayUnique(w, Withdrawn(w, id));
    NothingAccepted(w, Withdrawn(w, id));
  }

  lemma RevokeOutstanding(w: World, id: nat)
    requires OneOutstanding(w)
    ensures OneOutstanding(Withdrawn(w, id))
  {
    var v := Withdrawn(w, id);
    forall i, j | i in v.invitations && j in v.invitations && Rivals(v.invitations[i], v.invitations[j])
      ensures i == j
    {
      assert Rivals(w.invitations[i], w.invitations[j]);
    }
  }

  lemma SmallStep(w: World, a: Action)
    requires Inv(w) && Enabled(w, a) && (a.Look? || a.Offboard? || a.Disable?)
    ensures Inv(Apply(w, a)) && Keeps(w, Apply(w, a))
  {
    hide AcceptedProperly, UniqueRows, AcceptedOnce, ReadInTime, Keeps;
    StayUnique(w, Apply(w, a));
    NothingAccepted(w, Apply(w, a));
  }

  lemma HireStep(w: World, a: Action)
    requires Inv(w) && Enabled(w, a) && a.Hire?
    ensures Inv(Apply(w, a)) && Keeps(w, Apply(w, a))
  {
    hide AcceptedProperly, AcceptedOnce, ReadInTime, OneOutstanding, UniqueRows, Keeps, RowsStay;
    var v := Apply(w, a);
    HireRows(w, a);
    SameOutstanding(w, v);
    NothingAccepted(w, v);
  }

  lemma SameOutstanding(w: World, v: World)
    requires w.invitations == v.invitations
    ensures OneOutstanding(w) == OneOutstanding(v)
  {
  }

  lemma HireRows(w: World, a: Action)
    requires UniqueRows(w) && Enabled(w, a) && a.Hire?
    ensures UniqueRows(Apply(w, a)) && RowsStay(w, Apply(w, a))
  {
    if !w.HasUser(a.email) {
      var account, seat := Account(a.email, a.password, true), Seat(a.desk, a.user, true, a.role);
      assert forall u :: u in w.users ==> w.users[u].email != a.email;
      hide World.HasUser;
      FreshRows(w, Apply(w, a), a.user, account, a.seat, seat);
    }
  }

  lemma FreshRows(w: World, v: World, user: nat, account: Account, row: nat, seat: Seat)
    requires UniqueRows(w) && user !in w.users && row !in w.seats && seat.user == user
    requires forall u :: u in w.users ==> w.users[u].email != account.email
    requires v.users == w.users[user := account] && v.seats == w.seats[row := seat]
    ensures UniqueRows(v) && RowsStay(w, v)
  {
    assert forall s :: s in w.seats ==> w.seats[s].user != user;
  }

  /** A claim that went through, with the account and the seat row it used. */
  ghost predicate WentThrough(w: World, v: World, p: Pending, user: nat, seat: nat, now: int) {
    && p.invitation in w.invitations
    && var inv := w.invitations[p.invitation];
    && inv.Outstanding()
    && v.invitations == w.invitations[p.invitation := inv.(acceptedBy := Some(user))]
    && v.accepts == w.accepts + [Acceptance(p.invitation, p.readAt, now)]
    && v.accepting == w.accepting
    && user in v.users && v.users[user].email == inv.email
    && (v.users == w.users || (user !in w.users && !w.HasUser(inv.email) && v.users == w.users[user := v.users[user]]))
    && v.seats == w.seats[seat := Seat(inv.desk, user, true, inv.role)]
    && (if seat in w.seats then w.seats[seat].desk == inv.desk
      && w.seats[seat].user == user else !w.HasSeat(inv.desk, user))
  }

  lemma ClaimOutcome(w: World, p: Pending, newUser: nat, newSeat: nat, now: int) returns (user: nat, seat: nat)
    requires newUser !in w.users && newSeat !in w.seats
    ensures var v := Claimed(w, p, newUser, newSeat, now); v == w || WentThrough(w, v, p, user, seat, now)
  {
    user, seat := newUser, newSeat;
    if p.invitation in w.invitations {
      var inv := w.invitations[p.invitation];
      if w.HasUser(inv.email) { user := w.UserOf(inv.email); }
      if w.HasSeat(inv.desk, user) { seat := w.SeatOf(inv.desk, user); }
    }
  }

  lemma ClaimKeepsRows(w: World, v: World, p: Pending, user: nat, seat: nat, now: int)
    requires UniqueRows(w) && WentThrough(w, v, p, user, seat, now)
    ensures UniqueRows(v)
  {
    var inv := w.invitations[p.invitation];
    assert forall s :: s in w.seats && s != seat ==> w.seats[s].desk != inv.desk || w.seats[s].user != user;
    assert user !in w.users ==> forall u :: u in w.users ==> w.users[u].email != inv.email;
  }

  lemma ClaimKeepsInvitations(w: World, v: World, p: Pending, user: nat, seat: nat, now: int)
    requires OneOutstanding(w) && AcceptedProperly(w) && WentThrough(w, v, p, user, seat, now)
    ensures OneOutstanding(v) && AcceptedProperly(v)
  {
    var id := p.invitation;
    forall i | i in v.invitations ensures SeatOfAccepted(v, v.invitations[i]) {
      if i == id {
        assert seat in v.seats;
      } else {
        assert SeatOfAccepted(w, w.invitations[i]);
        StaysSeated(w, v, w.invitations[i]);
      }
    }
    forall i, j | i in v.invitations && j in v.invitations && Rivals(v.invitations[i], v.invitations[j])
      ensures i == j
    {
      assert Rivals(w.invitations[i], w.invitations[j]);
    }
  }

  lemma ClaimKeepsLog(w: World, v: World, p: Pending, user: nat, seat: nat, now: int)
    requires AcceptedOnce(w) && ReadInTime(w) && WentThrough(w, v, p, user, seat, now)
    requires InTime(w, p.invitation, p.readAt) && p.readAt <= now
    ensures AcceptedOnce(v) && ReadInTime(v)
  {
    assert !Logged(w.accepts, p.invitation);
    forall i ensures Logged(v.accepts, i) <==> Logged(w.accepts, i) || i == p.invitation {
      if Logged(w.accepts, i) {
        var k :| 0 <= k < |w.accepts| && w.accepts[k].invitation == i;
        assert v.accepts[k].invitation == i;
      }
      if i == p.invitation { assert v.accepts[|w.accepts|].invitation == i; }
    }
  }

  lemma ClaimUndoesNothing(w: World, v: World, p: Pending, user: nat, seat: nat, now: int)
    requires v == w || WentThrough(w, v, p, user, seat, now)
    ensures Keeps(w, v) && v.accepting == w.accepting
  {
  }

  lemma ClaimStep(w: World, a: Action)
    requires Inv(w) && Enabled(w, a) && a.Claim?
    ensures Inv(Apply(w, a)) && Keeps(w, Apply(w, a))
  {
    hide AcceptedOnce, AcceptedProperly, OneOutstanding, UniqueRows, Claimed, Keeps, WentThrough;
    var p := w.accepting[a.tx];
    var v := Claimed(w, p, a.newUser, a.newSeat, a.now);
    var user, seat := ClaimOutcome(w, p, a.newUser, a.newSeat, a.now);
    if v != w {
      ClaimKeepsRows(w, v, p, user, seat, a.now);
      ClaimKeepsInvitations(w, v, p, user, seat, a.now);
      ClaimKeepsLog(w, v, p, user, seat, a.now);
    }
    ClaimUndoesNothing(w, v, p, user, seat, a.now);
    SameTables(v, Apply(w, a));
  }

  /** Of the accepts in flight, some may be gone. */
  lemma SameTables(w: World, v: World)
    requires forall tx :: tx in v.accepting ==> tx in w.accepting && v.accepting[tx] == w.accepting[tx]
    requires v.invitations == w.invitations && v.users == w.users && v.seats == w.seats && v.accepts == w.accepts
    ensures Inv(w) ==> Inv(v)
    ensures forall x :: Keeps(x, w) ==> Keeps(x, v)
  {
    hide Logged, UniqueRows;
    if Inv(w) {
      SameRows(w, v);
      forall i | i in v.invitations ensures SeatOfAccepted(v, v.invitations[i]) {
        assert SeatOfAccepted(w, w.invitations[i]);
        StaysSeated(w, v, w.invitations[i]);
      }
    }
  }

  lemma SameRows(w: World, v: World)
    requires w.users == v.users && w.seats == v.seats
    ensures UniqueRows(w) == UniqueRows(v)
  {
  }

  // ---- whole runs -------------------------------------------------------------------------------------

  ghost predicate Possible(w: World, run: seq<Action>)
    decreases |run|
  {
    run == [] || (Enabled(w, run[0]) && Possible(Apply(w, run[0]), run[1..]))
  }

  ghost function After(w: World, run: seq<Action>): World
    requires Possible(w, run)
    decreases |run|
  {
    if run == [] then w else After(Apply(w, run[0]), run[1..])
  }

  /**
   Under any interleaving of invites, re-invites, revocations and accepts: no invitation is both
   accepted and revoked, at most one is outstanding for a desk and address, each is accepted at most
   once, a person has one account and one seat per desk, a withdrawn invitation stays withdrawn, and
   no existing password changes.
   */
  lemma {:induction false} RunsKeepInvitations(w: World, run: seq<Action>)
    requires Inv(w) && Possible(w, run)
    ensures Inv(After(w, run)) && Keeps(w, After(w, run))
    decreases |run|
  {
    hide Inv, Keeps, Apply, Enabled;
    if run == [] {
      KeepsItself(w);
    } else {
      var v := Apply(w, run[0]);
      AnyStep(w, run[0]);
      RunsKeepInvitations(v, run[1..]);
      KeepsChains(w, v, After(v, run[1..]));
    }
  }

  lemma AnyStep(w: World, a: Action)
    requires Inv(w) && Enabled(w, a)
    ensures Inv(Apply(w, a)) && Keeps(w, Apply(w, a))
  {
    hide Inv, Keeps;
    match a
    case Invite(_, _, _, _, _) => InviteStep(w, a);
    case Revoke(id) => RevokeStep(w, id);
    case Claim(_, _, _, _) => ClaimStep(w, a);
    case Hire(_, _, _, _, _, _) => HireStep(w, a);
    case _ => SmallStep(w, a);
  }

  lemma KeepsItself(w: World)
    ensures Keeps(w, w)
  {
  }

  lemma KeepsChains(w: World, v: World, x: World)
    requires Keeps(w, v) && Keeps(v, x)
    ensures Keeps(w, x)
  {
  }

  // ---- expiry ---------------------------------------------------------------------------------------

  /** The claim commits: its invitation is still outstanding and nothing is refused. */
  ghost predicate GoesThrough(w: World, a: Action)
    requires a.Claim? && Enabled(w, a)
  {
    Apply(w, a).accepts != w.accepts
  }

  /** Over any run every accepted invitation was read before it expired, and before it was claimed. */
  lemma AcceptedWereReadInTime(w: World, run: seq<Action>, k: nat)
    requires Inv(w) && Possible(w, run) && k < |After(w, run).accepts|
    ensures var v := After(w, run);
      var a := v.accepts[k];
      && a.invitation in v.invitations && v.invitations[a.invitation].acceptedBy.Some?
      && a.readAt < v.invitations[a.invitation].expiresAt
      && a.readAt <= a.claimedAt
  {
    RunsKeepInvitations(w, run);
    var v := After(w, run);
    assert Logged(v.accepts, v.accepts[k].invitation);
  }

  /**
   A claim that goes through takes an expired invitation exactly when that expired between the accept's
   read and the claim; and the clock decides nothing about whether it goes through.
   */
  lemma LateIff(w: World, tx: nat, newUser: nat, newSeat: nat, now: int, other: int)
    requires Inv(w) && Enabled(w, Claim(tx, newUser, newSeat, now)) && Enabled(w, Claim(tx, newUser, newSeat, other))
    ensures GoesThrough(w, Claim(tx, newUser, newSeat, now)) <==> GoesThrough(w, Claim(tx, newUser, newSeat, other))
    ensures GoesThrough(w, Claim(tx, newUser, newSeat, now)) ==>
      var p := w.accepting[tx];
      p.invitation in w.invitations &&
      var inv := w.invitations[p.invitation];
      StateOf(inv, true, now) != Valid <==> p.readAt < inv.expiresAt <= now
  {
    hide AcceptedOnce, AcceptedProperly, OneOutstanding, UniqueRows;
    var user, seat := ClaimOutcome(w, w.accepting[tx], newUser, newSeat, now);
  }

  /** Such a claim is possible for every outstanding invitation to a new address. */
  lemma ClaimAfterExpiry(w: World, tx: nat, id: nat, hash: string, newUser: nat, newSeat: nat, now: int)
    requires Inv(w) && id in w.invitations && w.invitations[id].Outstanding() && w.invitations[id].expiresAt <= now
    requires tx !in w.accepting && newUser !in w.users && newSeat !in w.seats && !w.HasUser(w.invitations[id].email)
    ensures var look := Look(tx, id, Some(hash), w.invitations[id].expiresAt - 1);
      && Enabled(w, look)
      && var v := Apply(w, look);
      && Enabled(v, Claim(tx, newUser, newSeat, now)) && GoesThrough(v, Claim(tx, newUser, newSeat, now))
      && StateOf(v.invitations[id], true, now) == Expired
  {
    var look := Look(tx, id, Some(hash), w.invitations[id].expiresAt - 1);
    var v := Apply(w, look);
    assert v.invitations == w.invitations && v.users == w.users && v.seats == w.seats;
    assert !v.HasUser(w.invitations[id].email);
    assert forall s :: s in v.seats ==> v.seats[s].user != newUser;
    assert !v.HasSeat(w.invitations[id].desk, newUser);
  }

  // ---- what each transaction does -----------------------------------------------------------------------

  /**
   An invitation can be accepted exactly when its desk is active, nobody has accepted or withdrawn it, and it has
   not run out.
   */
  lemma ValidIff(inv: Invitation, deskActive: bool, now: int)
    ensures StateOf(inv, deskActive, now) == Valid
      <==> deskActive && inv.acceptedBy.None? && !inv.revoked && now < inv.expiresAt
    ensures deskActive && inv.acceptedBy.Some? ==> StateOf(inv, deskActive, now) == Accepted
    ensures deskActive && inv.acceptedBy.None? && inv.revoked ==> StateOf(inv, deskActive, now) == Revoked
    ensures !deskActive ==> StateOf(inv, deskActive, now) == WorkspaceInactive
  {
  }

  /** An invitation is issued as it was asked for, and is the only one outstanding for its desk and address. */
  lemma IssuedAlone(w: World, id: nat, desk: nat, email: string, role: Role, expiresAt: int)
    requires id !in w.invitations && !w.Member(desk, email)
    ensures var v := Invited(w, id, desk, email, role, expiresAt);
      && id in v.invitations
      && v.invitations[id] == Invitation(desk, email, role, expiresAt, None, false)
      && (forall i :: i in v.invitations && Rivals(v.invitations[i], v.invitations[id]) ==> i == id)
      && (forall i :: i in w.invitations && (w.invitations[i].desk != desk || w.invitations[i].email != email) ==>
            i in v.invitations && v.invitations[i] == w.invitations[i])
  {
  }

  /** A withdrawal withdraws its invitation and no other. */
  lemma RevokeWithdraws(w: World, id: nat)
    requires id in w.invitations && w.invitations[id].Outstanding()
    ensures var v := Withdrawn(w, id);
      && v.invitations.Keys == w.invitations.Keys
      && v.invitations[id].revoked && v.invitations[id].acceptedBy.None?
      && (forall i :: i in w.invitations && i != id ==> v.invitations[i] == w.invitations[i])
      && v.users == w.users && v.seats == w.seats
  {
  }

  /** A claim of a withdrawn or an accepted invitation changes nothing. */
  lemma ClaimNeedsOutstanding(w: World, p: Pending, newUser: nat, newSeat: nat, now: int)
    requires p.invitation in w.invitations && !w.invitations[p.invitation].Outstanding()
    ensures Claimed(w, p, newUser, newSeat, now) == w
  {
  }

  /**
   A withdrawn invitation stays withdrawn and unaccepted in every later run, whoever had read it before, and no
   claim of it goes through.
   */
  lemma RevokedForGood(w: World, id: nat, run: seq<Action>)
    requires Inv(w) && id in w.invitations && w.invitations[id].Outstanding()
    requires Possible(Withdrawn(w, id), run)
    ensures var e := After(Withdrawn(w, id), run);
      && id in e.invitations && e.invitations[id].revoked && !Logged(e.accepts, id)
      && (forall tx, u, s, now :: tx in e.accepting && e.accepting[tx].invitation == id ==>
            Claimed(e, e.accepting[tx], u, s, now) == e)
  {
    hide AcceptedOnce, AcceptedProperly, OneOutstanding, UniqueRows, ReadInTime, Claimed;
    var v := Withdrawn(w, id);
    RevokeWithdraws(w, id);
    RevokeStep(w, id);
    RunsKeepInvitations(v, run);
    var e := After(v, run);
    NotLogged(e, id);
    forall tx, u, s, now | tx in e.accepting && e.accepting[tx].invitation == id
      ensures Claimed(e, e.accepting[tx], u, s, now) == e
    {
      ClaimNeedsOutstanding(e, e.accepting[tx], u, s, now);
    }
  }

  lemma NotLogged(w: World, id: nat)
    requires AcceptedOnce(w) && id in w.invitations && w.invitations[id].acceptedBy.None?
    ensures !Logged(w.accepts, id)
  {
  }

  /** The address has an account that may be used, or a password to open one with. */
  predicate MayOpen(w: World, email: string, hash: Option<string>) {
    if w.HasUser(email) then exists u :: u in w.users && w.users[u].email == email && w.users[u].active else hash.Some?
  }

  /**
   A claim goes through exactly when its invitation is outstanding, the person can have an account, and has no
   active seat yet.
   */
  lemma ClaimGoesThroughIff(w: World, p: Pending, newUser: nat, newSeat: nat, now: int)
    requires UniqueRows(w) && p.invitation in w.invitations && newUser !in w.users && newSeat !in w.seats
    ensures var inv := w.invitations[p.invitation];
      Claimed(w, p, newUser, newSeat, now).accepts != w.accepts
      <==> inv.Outstanding() && MayOpen(w, inv.email, p.hash) && !w.Member(inv.desk, inv.email)
  {
    var inv := w.invitations[p.invitation];
    if w.HasUser(inv.email) {
      var u := w.UserOf(inv.email);
      assert MayOpen(w, inv.email, p.hash) <==> w.users[u].active;
      assert w.Member(inv.desk, inv.email) <==> w.HasSeat(inv.desk, u) && w.seats[w.SeatOf(inv.desk, u)].active by {
        MemberIff(w, inv.desk, inv.email, u);
      }
    } else {
      assert forall s :: s in w.seats ==> w.seats[s].user != newUser;
      assert !w.Member(inv.desk, inv.email);
    }
  }

  lemma MemberIff(w: World, desk: nat, email: string, u: nat)
    requires UniqueRows(w) && u in w.users && w.users[u].email == email
    ensures w.Member(desk, email) <==> w.HasSeat(desk, u) && w.seats[w.SeatOf(desk, u)].active
  {
    if w.Member(desk, email) {
      var s :| s in w.seats && Seats(w.seats[s], w.users, desk, email);
      assert w.seats[s].user == u;
    } else if w.HasSeat(desk, u) {
      assert !Seats(w.seats[w.SeatOf(desk, u)], w.users, desk, email);
    }
  }

  /**
   A claim that goes through seats the account of its address, in the role it was invited to: the account
   there was, untouched, or a new active one with the password that was sent. No other seat changes.
   */
  lemma ClaimSeats(w: World, p: Pending, newUser: nat, newSeat: nat, now: int) returns (user: nat, seat: nat)
    requires UniqueRows(w) && p.invitation in w.invitations && newUser !in w.users && newSeat !in w.seats
    requires Claimed(w, p, newUser, newSeat, now) != w
    ensures var inv := w.invitations[p.invitation];
      var v := Claimed(w, p, newUser, newSeat, now);
      && v.invitations == w.invitations[p.invitation := inv.(acceptedBy := Some(user))]
      && v.accepts == w.accepts + [Acceptance(p.invitation, p.readAt, now)]
      && v.seats == w.seats[seat := Seat(inv.desk, user, true, inv.role)]
      && (seat in w.seats ==> SameSeat(w.seats[seat], v.seats[seat]) && !w.seats[seat].active)
      && (if w.HasUser(inv.email) then v.users == w.users && user in w.users && w.users[user].email == inv.email
          else p.hash.Some? && user == newUser && v.users == w.users[newUser := Account(inv.email, p.hash.value, true)])
  {
    var inv := w.invitations[p.invitation];
    user := if w.HasUser(inv.email) then w.UserOf(inv.email) else newUser;
    seat := if w.HasSeat(inv.desk, user) then w.SeatOf(inv.desk, user) else newSeat;
  }
}
