/**
 Opening a chatbot conversation (`ChatService.openConversation` in `backend/src/chat/chat.module.ts`):
 overlapping and retried opens of one session.

 An open is two steps: the lookup, which appends when the session is there, and otherwise the insert
 of the customer, if there is none yet, and of the ticket and the session together. The unique indexes
 on customers and on sessions decide a race: the loser's insert fails the request's transaction, and the
 request with it. The digest that keys a retried message is an arbitrary function of its text, and the
 empty message stands for none.
 */
module ChatSessions {
  import opened Options

  /** The chatbot's key and its reference for the visitor's session. */
  type Session = (nat, string)

  type Digest = string -> string

  /** Written with the ticket, by a later open of the session, or by any other append. */
  datatype How = First | Retry | Other

  datatype Message = Message(ticket: nat, body: string, ref: Option<string>, how: How)

  /** What an open that succeeded was told. */
  datatype Answer = Answer(session: Session, message: string, ticket: nat, created: bool)

  /** Who is asking: an address, or what a chatbot calls its visitor. */
  datatype Customer = ByEmail(email: string) | ByVisitor(key: nat, ref: string)

  /** An open that found no session and has not inserted one yet; its customer may have been `known` by then. */
  datatype Opening = Opening(session: Session, message: string, customer: Customer, known: bool)

  datatype Desk = Desk(
    sessions: map<Session, nat>,
    customers: set<Customer>,
    tickets: set<nat>,
    messages: seq<Message>,
    opening: map<nat, Opening>,
    answers: seq<Answer>)

  function RefOf(digest: Digest, body: string): string { "open:" + digest(body) }

  predicate Seen(messages: seq<Message>, ticket: nat, ref: string) {
    exists i :: 0 <= i < |messages| && messages[i].ticket == ticket && messages[i].ref == Some(ref)
  }

  // ---- the steps --------------------------------------------------------------------

  /** A message whose reference the ticket already has is not stored again. */
  function Appended(messages: seq<Message>, m: Message): seq<Message> {
    if m.ref.Some? && Seen(messages, m.ticket, m.ref.value) then messages else messages + [m]
  }

  function Looked(digest: Digest, d: Desk, tx: nat, session: Session, message: string, customer: Customer): Desk {
    if session !in d.sessions
    then d.(opening := d.opening[tx := Opening(session, message, customer, customer in d.customers)]) else
    var t := d.sessions[session];
    d.(messages := if message == "" then d.messages
                   else Appended(d.messages, Message(t, message, Some(RefOf(digest, message)), Retry)),
       answers := d.answers + [Answer(session, message, t, false)])
  }

  /** Nobody has taken the session since it was looked up, nor inserted the customer if it was missing. */
  predicate Unbeaten(d: Desk, o: Opening) { o.session !in d.sessions && (o.known || o.customer !in d.customers) }

  /** The loser of a race fails: it writes nothing and is not answered. */
  function Inserted(d: Desk, tx: nat, newTicket: nat): Desk
    requires tx in d.opening
  {
    var o := d.opening[tx];
    var rest := d.(opening := d.opening - {tx});
    if !Unbeaten(d, o) then rest else
    rest.(
      customers := d.customers + {o.customer},
      sessions := d.sessions[o.session := newTicket],
      tickets := d.tickets + {newTicket},
      messages := if o.message == "" then d.messages else d.messages + [Message(newTicket, o.message, None, First)],
      answers := d.answers + [Answer(o.session, o.message, newTicket, true)])
  }

  function Posted(d: Desk, session: Session, body: string, ref: Option<string>): Desk {
    if session !in d.sessions then d
    else d.(messages := Appended(d.messages, Message(d.sessions[session], body, ref, Other)))
  }

  // ---- the tables, written in place ------------------------------------------------------

  class Chats {
    var sessions: map<Session, nat>
    var customers: set<Customer>
    var tickets: set<nat>
    var messages: seq<Message>
    ghost var opening: map<nat, Opening>
    ghost var answers: seq<Answer>

    ghost function View(): Desk
      reads this
    {
      Desk(sessions, customers, tickets, messages, opening, answers)
    }

    method AppendMessage(session: Session, body: string, ref: Option<string>, how: How)
      returns (found: bool, duplicate: bool)
      modifies this`messages
      ensures found <==> session in sessions
      ensures messages
        == if found then Appended(old(messages), Message(sessions[session], body, ref, how)) else old(messages)
      ensures duplicate <==> found && messages == old(messages)
    {
      if session !in sessions { return false, false; }
      var t := sessions[session];
      if ref.Some? {
        var i := 0;
        while i < |messages|
          invariant 0 <= i <= |messages|
          invariant forall k :: 0 <= k < i ==> messages[k].ticket != t || messages[k].ref != ref
        {
          if messages[i].ticket == t && messages[i].ref == ref { return true, true; }
          i := i + 1;
        }
      }
      messages := messages + [Message(t, body, ref, how)];
      return true, false;
    }

    /** The first half of an open; `ticket` is the session's, if it has one. */
    method Look(digest: Digest, tx: nat, session: Session, message: string, customer: Customer)
      returns (ticket: Option<nat>, known: bool)
      modifies this`messages, this`opening, this`answers
      ensures View() == Looked(digest, old(View()), tx, session, message, customer)
      ensures ticket == if session in old(sessions) then Some(old(sessions)[session]) else None
      ensures known <==> customer in customers
    {
      known := customer in customers;
      if session !in sessions {
        opening := opening[tx := Opening(session, message, customer, known)];
        return None, known;
      }
      answers := answers + [Answer(session, message, sessions[session], false)];
      if message != "" {
        var found, duplicate := AppendMessage(session, message, Some(RefOf(digest, message)), Retry);
      }
      return Some(sessions[session]), known;
    }

    /** The second half: `None` is the failure of a request that was beaten to the session or to the customer. */
    method Insert(tx: nat, session: Session, message: string, customer: Customer, known: bool, newTicket: nat)
      returns (ticket: Option<nat>)
      requires tx in opening && opening[tx] == Opening(session, message, customer, known)
      modifies this
      ensures View() == Inserted(old(View()), tx, newTicket)
      ensures ticket == if Unbeaten(old(View()), old(opening)[tx]) then Some(newTicket) else None
    {
      opening := opening - {tx};
      if !known && customer in customers { return None; }
      if session in sessions { return None; }
      customers := customers + {customer};
      tickets := tickets + {newTicket};
      if message != "" { messages := messages + [Message(newTicket, message, None, First)]; }
      sessions := sessions[session := newTicket];
      answers := answers + [Answer(session, message, newTicket, true)];
      return Some(newTicket);
    }
  }

  // ---- any interleaving ---------------------------------------------------------------------

  datatype Action =
    | Look(tx: nat, session: Session, message: string, customer: Customer)
    | Insert(tx: nat, newTicket: nat)
    | Post(session: Session, body: string, ref: Option<string>)
    | Meet(customer: Customer)

  predicate Enabled(d: Desk, a: Action) {
    match a
    case Look(tx, _, _, _) => tx !in d.opening
    case Insert(tx, newTicket) => tx in d.opening && newTicket !in d.tickets
    case Post(_, _, _) => true
    case Meet(_) => true
  }

  function Apply(digest: Digest, d: Desk, a: Action): Desk
    requires Enabled(d, a)
  {
    match a
    case Look(tx, session, message, customer) => Looked(digest, d, tx, session, message, customer)
    case Insert(tx, newTicket) => Inserted(d, tx, newTicket)
    case Post(session, body, ref) => Posted(d, session, body, ref)
    case Meet(customer) => d.(customers := d.customers + {customer})
  }

  /** Every ticket has exactly one session, so replies on it can be delivered. */
  ghost predicate NoOrphans(d: Desk) {
    && (forall t :: t in d.tickets ==> exists s :: s in d.sessions && d.sessions[s] == t)
    && (forall s :: s in d.sessions ==> d.sessions[s] in d.tickets)
    && (forall r, s :: r in d.sessions && s in d.sessions && d.sessions[r] == d.sessions[s] ==> r == s)
  }

  /** A reference is stored once per ticket, and a ticket's first message once. */
  predicate StoredOnce(digest: Digest, d: Desk) {
    && (forall i :: 0 <= i < |d.messages| ==> d.messages[i].ticket in d.tickets)
    && (forall i, j :: 0 <= i < j < |d.messages| && d.messages[i].ticket == d.messages[j].ticket ==>
          && (d.messages[i].ref.Some? ==> d.messages[i].ref != d.messages[j].ref)
          && (d.messages[i].how == First ==> d.messages[j].how != First))
    && (forall i :: 0 <= i < |d.messages| && d.messages[i].how == Retry ==>
      d.messages[i].ref == Some(RefOf(digest, d.messages[i].body)))
  }

  /** The text is on the ticket, or a message stored under its reference is. */
  predicate Recorded(digest: Digest, d: Desk, ticket: nat, body: string) {
    (exists i :: 0 <= i < |d.messages| && d.messages[i].ticket == ticket && d.messages[i].body == body)
    || Seen(d.messages, ticket, RefOf(digest, body))
  }

  /** Every answer names the session's one ticket, only one says it was created, and what was sent is on record. */
  ghost predicate Answered(digest: Digest, d: Desk) {
    && (forall i :: 0 <= i < |d.answers| ==>
          var a := d.answers[i];
          && a.session in d.sessions && d.sessions[a.session] == a.ticket
          && (a.message != "" ==> Recorded(digest, d, a.ticket, a.message)))
    && (forall i, j :: 0 <= i < j < |d.answers| && d.answers[i].session == d.answers[j].session ==>
      !d.answers[j].created)
  }

  ghost predicate Inv(digest: Digest, d: Desk) {
    NoOrphans(d) && StoredOnce(digest, d) && Answered(digest, d)
  }

  /** What no step undoes. */
  predicate Keeps(d: Desk, e: Desk) {
    && (forall s :: s in d.sessions ==> s in e.sessions && e.sessions[s] == d.sessions[s])
    && d.customers <= e.customers && d.messages <= e.messages && d.answers <= e.answers
  }

  lemma StaysRecorded(digest: Digest, d: Desk, e: Desk, ticket: nat, body: string)
    requires d.messages <= e.messages && Recorded(digest, d, ticket, body)
    ensures Recorded(digest, e, ticket, body)
  {
    if i :| 0 <= i < |d.messages| && d.messages[i].ticket == ticket && d.messages[i].body == body {
      assert e.messages[i] == d.messages[i];
    } else {
      var i :| 0 <= i < |d.messages| && d.messages[i].ticket == ticket
        && d.messages[i].ref == Some(RefOf(digest, body));
      assert e.messages[i] == d.messages[i];
    }
  }

  lemma AppendKeepsStored(digest: Digest, d: Desk, m: Message)
    requires StoredOnce(digest, d) && m.ticket in d.tickets && m.how != First
    requires m.how == Retry ==> m.ref == Some(RefOf(digest, m.body))
    ensures StoredOnce(digest, d.(messages := Appended(d.messages, m)))
    ensures m.how == Retry ==> Recorded(digest, d.(messages := Appended(d.messages, m)), m.ticket, m.body)
  {
    var next := Appended(d.messages, m);
    if next != d.messages {
      assert next[|d.messages|] == m;
    }
  }

  lemma StepKeepsInv(digest: Digest, d: Desk, a: Action)
    requires Inv(digest, d) && Enabled(d, a)
    ensures Inv(digest, Apply(digest, d, a)) && Keeps(d, Apply(digest, d, a))
  {
    hide Inv, Recorded, StoredOnce, NoOrphans, Answered, Seen;
    var e := Apply(digest, d, a);
    forall t, body | Recorded(digest, d, t, body) ensures Recorded(digest, e, t, body) {
      StaysRecorded(digest, d, e, t, body);
    }
    match a
    case Look(tx, session, message, customer) => LookKeepsInv(digest, d, tx, session, message, customer);
    case Insert(tx, newTicket) => InsertKeepsInv(digest, d, tx, newTicket);
    case Post(session, body, ref) => PostKeepsInv(digest, d, session, body, ref);
    case Meet(_) => MeetKeepsInv(digest, d, e);
  }

  lemma MeetKeepsInv(digest: Digest, d: Desk, e: Desk)
    requires Inv(digest, d) && e == d.(customers := e.customers)
    ensures Inv(digest, e)
  {
  }

  lemma LookKeepsInv(digest: Digest, d: Desk, tx: nat, session: Session, message: string, customer: Customer)
    requires Inv(digest, d)
    requires forall t, body :: Recorded(digest, d, t, body) ==>
      Recorded(digest, Looked(digest, d, tx, session, message, customer), t, body)
    ensures Inv(digest, Looked(digest, d, tx, session, message, customer))
  {
    hide Seen, Appended, Recorded;
    if session in d.sessions && message != "" {
      var m := Message(d.sessions[session], message, Some(RefOf(digest, message)), Retry);
      var next := d.(messages := Appended(d.messages, m));
      AppendKeepsStored(digest, d, m);
      SameMessages(digest, next, Looked(digest, d, tx, session, message, customer), m.ticket, message);
    }
  }

  lemma SameMessages(digest: Digest, d: Desk, e: Desk, ticket: nat, body: string)
    requires d.messages == e.messages && d.tickets == e.tickets
    ensures Recorded(digest, d, ticket, body) == Recorded(digest, e, ticket, body)
    ensures StoredOnce(digest, d) == StoredOnce(digest, e)
  {
  }

  lemma PostKeepsInv(digest: Digest, d: Desk, session: Session, body: string, ref: Option<string>)
    requires Inv(digest, d)
    requires forall t, text :: Recorded(digest, d, t, text) ==> Recorded(digest, Posted(d, session, body, ref), t, text)
    ensures Inv(digest, Posted(d, session, body, ref))
  {
    hide Seen, Appended, Recorded;
    if session in d.sessions {
      AppendKeepsStored(digest, d, Message(d.sessions[session], body, ref, Other));
    }
  }

  lemma InsertKeepsInv(digest: Digest, d: Desk, tx: nat, newTicket: nat)
    requires Inv(digest, d) && Enabled(d, Insert(tx, newTicket))
    requires forall t, body :: Recorded(digest, d, t, body) ==> Recorded(digest, Inserted(d, tx, newTicket), t, body)
    ensures Inv(digest, Inserted(d, tx, newTicket))
  {
    hide Seen, Recorded, NoOrphans, StoredOnce;
    var e := Inserted(d, tx, newTicket);
    var o := d.opening[tx];
    InsertKeepsSessions(d, tx, newTicket);
    InsertKeepsStored(digest, d, tx, newTicket);
    if Unbeaten(d, o) && o.message != "" {
      assert e.messages[|d.messages|] == Message(newTicket, o.message, None, First);
      OnTicket(digest, e, |d.messages|);
    }
  }

  lemma InsertKeepsSessions(d: Desk, tx: nat, newTicket: nat)
    requires NoOrphans(d) && Enabled(d, Insert(tx, newTicket))
    ensures NoOrphans(Inserted(d, tx, newTicket))
  {
    var e := Inserted(d, tx, newTicket);
    var o := d.opening[tx];
    if Unbeaten(d, o) {
      forall t | t in e.tickets ensures exists s :: s in e.sessions && e.sessions[s] == t {
        if t == newTicket {
          assert e.sessions[o.session] == t;
        } else {
          var s :| s in d.sessions && d.sessions[s] == t;
          assert e.sessions[s] == t;
        }
      }
    }
  }

  lemma InsertKeepsStored(digest: Digest, d: Desk, tx: nat, newTicket: nat)
    requires StoredOnce(digest, d) && Enabled(d, Insert(tx, newTicket))
    ensures StoredOnce(digest, Inserted(d, tx, newTicket))
  {
    hide RefOf;
  }

  lemma OnTicket(digest: Digest, d: Desk, i: nat)
    requires i < |d.messages|
    ensures Recorded(digest, d, d.messages[i].ticket, d.messages[i].body)
  {
  }

  predicate Possible(digest: Digest, d: Desk, run: seq<Action>)
    decreases |run|
  {
    run == [] || (Enabled(d, run[0]) && Possible(digest, Apply(digest, d, run[0]), run[1..]))
  }

  function After(digest: Digest, d: Desk, run: seq<Action>): Desk
    requires Possible(digest, d, run)
    decreases |run|
  {
    if run == [] then d else After(digest, Apply(digest, d, run[0]), run[1..])
  }

  /**
   Over any interleaving of opens, retries and other messages: a session has one ticket for good and
   every ticket has one session, at most one open is told it created it, a reference is stored once per
   ticket, and whatever an answered open sent is on record and stays there.
   */
  lemma {:induction false} RunsKeepSessions(digest: Digest, d: Desk, run: seq<Action>)
    requires Inv(digest, d) && Possible(digest, d, run)
    ensures Inv(digest, After(digest, d, run)) && Keeps(d, After(digest, d, run))
    decreases |run|
  {
    hide Inv, Enabled, Apply;
    if run != [] {
      StepKeepsInv(digest, d, run[0]);
      RunsKeepSessions(digest, Apply(digest, d, run[0]), run[1..]);
    }
  }

  // ---- the open that loses the race -----------------------------------------------------------

  /**
   An open is answered exactly when nobody beat it to the session or to a new customer; one that was
   beaten has changed nothing. If the session was taken, its retry is answered with the winner's ticket
   and has its message on record. If only the customer was, the retry finds it and can insert.
   */
  lemma LoserRetries(digest: Digest, d: Desk, tx: nat, newTicket: nat)
    requires Inv(digest, d) && Enabled(d, Insert(tx, newTicket))
    ensures var o := d.opening[tx];
      var e := Inserted(d, tx, newTicket);
      && (e.answers != d.answers <==> Unbeaten(d, o))
      && (!Unbeaten(d, o) ==>
            && e == d.(opening := d.opening - {tx})
            && var r := Looked(digest, e, tx, o.session, o.message, o.customer);
            if o.session in d.sessions then
              && r.answers == d.answers + [Answer(o.session, o.message, d.sessions[o.session], false)]
              && (o.message != "" ==> Recorded(digest, r, d.sessions[o.session], o.message))
            else
              && tx in r.opening
              && Inserted(r, tx, newTicket).answers == d.answers + [Answer(o.session, o.message, newTicket, true)])
  {
    var o := d.opening[tx];
    if o.session in d.sessions && o.message != "" {
      var m := Message(d.sessions[o.session], o.message, Some(RefOf(digest, o.message)), Retry);
      AppendKeepsStored(digest, d, m);
      var r := Looked(digest, Inserted(d, tx, newTicket), tx, o.session, o.message, o.customer);
      SameMessages(digest, d.(messages := Appended(d.messages, m)), r, m.ticket, o.message);
    }
  }

  // ---- retries ------------------------------------------------------------------------------------

  /**
   However often an open is retried, its text is stored at most twice: with the ticket, and once under its
   reference.
   */
  lemma AtMostTwoCopies(digest: Digest, d: Desk, i: nat, j: nat, k: nat)
    requires StoredOnce(digest, d) && i < j < k < |d.messages|
    requires d.messages[i].ticket == d.messages[j].ticket == d.messages[k].ticket
    requires d.messages[i].body == d.messages[j].body == d.messages[k].body
    ensures d.messages[i].how == Other || d.messages[j].how == Other || d.messages[k].how == Other
  {
  }

  /**
   An identical retry adds a message exactly when the ticket has none under its reference: the first one does,
   even right after the open it repeats.
   */
  lemma RetryAddsIff(digest: Digest, d: Desk, tx: nat, session: Session, message: string, customer: Customer)
    requires session in d.sessions && message != ""
    ensures var e := Looked(digest, d, tx, session, message, customer);
      && (e.messages != d.messages <==> !Seen(d.messages, d.sessions[session], RefOf(digest, message)))
      && Looked(digest, e, tx, session, message, customer).messages == e.messages
  {
    var e := Looked(digest, d, tx, session, message, customer);
    if e.messages != d.messages {
      assert e.messages[|d.messages|].ref == Some(RefOf(digest, message));
    }
  }

  lemma FirstRetryDuplicates(digest: Digest, d: Desk, tx: nat, newTicket: nat)
    requires Inv(digest, d) && Enabled(d, Insert(tx, newTicket)) && d.opening[tx].message != ""
      && Unbeaten(d, d.opening[tx])
    ensures var o := d.opening[tx];
      var e := Inserted(d, tx, newTicket);
      o.session in e.sessions &&
      Looked(digest, e, tx, o.session, o.message, o.customer).messages
        == d.messages + [Message(newTicket, o.message, None, First),
                         Message(newTicket, o.message, Some(RefOf(digest, o.message)), Retry)]
  {
    var e := Inserted(d, tx, newTicket);
    assert !Seen(e.messages, newTicket, RefOf(digest, d.opening[tx].message));
  }

  // ---- different texts --------------------------------------------------------------------------

  /** No two texts have one digest, and only opens use references of their form. */
  ghost predicate NoClash(digest: Digest, d: Desk) {
    && (forall a, b :: digest(a) == digest(b) ==> a == b)
    && (forall i, body :: 0 <= i < |d.messages| && d.messages[i].how == Other ==>
      d.messages[i].ref != Some(RefOf(digest, body)))
  }

  /** The text itself is on the ticket. */
  predicate OnTicketAs(d: Desk, ticket: nat, body: string) {
    exists i :: 0 <= i < |d.messages| && d.messages[i].ticket == ticket && d.messages[i].body == body
  }

  /** Then what is on record is there as it was sent: a reference stands for its own text only. */
  lemma RecordedIsStored(digest: Digest, d: Desk, ticket: nat, body: string)
    requires StoredOnce(digest, d) && FirstsUnmarked(d) && NoClash(digest, d) && Recorded(digest, d, ticket, body)
    ensures OnTicketAs(d, ticket, body)
  {
    if Seen(d.messages, ticket, RefOf(digest, body)) {
      var i :| 0 <= i < |d.messages| && d.messages[i].ticket == ticket
        && d.messages[i].ref == Some(RefOf(digest, body));
      assert d.messages[i].how == Retry;
      SameRef(digest, d.messages[i].body, body);
    }
  }

  /** A ticket's first message has no reference. */
  predicate FirstsUnmarked(d: Desk) {
    forall i :: 0 <= i < |d.messages| && d.messages[i].how == First ==> d.messages[i].ref.None?
  }

  lemma SameRef(digest: Digest, a: string, b: string)
    requires RefOf(digest, a) == RefOf(digest, b)
    ensures digest(a) == digest(b)
  {
    assert RefOf(digest, a)[5..] == digest(a) && RefOf(digest, b)[5..] == digest(b);
  }

  /** Two opens of a session with different texts store both of them. */
  lemma DifferentTextsAreStored(digest: Digest, d: Desk, tx: nat, session: Session, m1: string, m2: string, c: Customer)
    requires Inv(digest, d) && FirstsUnmarked(d) && NoClash(digest, d)
    requires session in d.sessions && m1 != "" && m2 != ""
    ensures var e := Looked(digest, Looked(digest, d, tx, session, m1, c), tx, session, m2, c);
      OnTicketAs(e, d.sessions[session], m1) && OnTicketAs(e, d.sessions[session], m2)
  {
    var t := d.sessions[session];
    var e1 := Looked(digest, d, tx, session, m1, c);
    var e2 := Looked(digest, e1, tx, session, m2, c);
    OpenStores(digest, d, tx, session, m1, c);
    OpenStores(digest, e1, tx, session, m2, c);
    RecordedIsStored(digest, e1, t, m1);
    var i :| 0 <= i < |e1.messages| && e1.messages[i].ticket == t && e1.messages[i].body == m1;
    assert e2.messages[i] == e1.messages[i];
    RecordedIsStored(digest, e2, t, m2);
  }

  lemma OpenStores(digest: Digest, d: Desk, tx: nat, session: Session, message: string, c: Customer)
    requires StoredOnce(digest, d) && FirstsUnmarked(d) && NoClash(digest, d)
    requires session in d.sessions && d.sessions[session] in d.tickets && message != ""
    ensures var e := Looked(digest, d, tx, session, message, c);
      && StoredOnce(digest, e) && FirstsUnmarked(e) && NoClash(digest, e)
      && e.sessions == d.sessions && e.tickets == d.tickets && d.messages <= e.messages
      && Recorded(digest, e, d.sessions[session], message)
  {
    hide Seen, RefOf;
    var m := Message(d.sessions[session], message, Some(RefOf(digest, message)), Retry);
    AppendKeepsStored(digest, d, m);
    var e := Looked(digest, d, tx, session, message, c);
    SameMessages(digest, d.(messages := Appended(d.messages, m)), e, m.ticket, message);
  }

  /** Any other message to a known session is stored, unless its reference is. */
  lemma PostStores(d: Desk, session: Session, body: string, ref: Option<string>)
    requires session in d.sessions
    ensures ref.None? || !Seen(d.messages, d.sessions[session], ref.value) ==>
      Posted(d, session, body, ref).messages == d.messages + [Message(d.sessions[session], body, ref, Other)]
    ensures ref.Some? && Seen(d.messages, d.sessions[session], ref.value) ==> Posted(d, session, body, ref) == d
  {
  }

  /**
   An open that wins inserts everything it needs: the customer, the ticket, the session and, as the first, its
   message.
   */
  lemma OpenCreates(d: Desk, tx: nat, newTicket: nat)
    requires Enabled(d, Insert(tx, newTicket)) && Unbeaten(d, d.opening[tx])
    ensures var o := d.opening[tx];
      var e := Inserted(d, tx, newTicket);
      && e.customers == d.customers + {o.customer} && e.tickets == d.tickets + {newTicket}
      && e.sessions == d.sessions[o.session := newTicket]
      && (o.message == "" ==> e.messages == d.messages)
      && (o.message != "" ==> e.messages == d.messages + [Message(newTicket, o.message, None, First)])
  {
  }

  /** Opening a known session without a message only asks for its ticket. */
  lemma SilentOpen(digest: Digest, d: Desk, tx: nat, session: Session, customer: Customer)
    requires session in d.sessions
    ensures Looked(digest, d, tx, session, "", customer)
      == d.(answers := d.answers + [Answer(session, "", d.sessions[session], false)])
  {
  }
}
