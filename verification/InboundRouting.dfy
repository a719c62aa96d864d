/**
 Which desk an inbound email belongs to (`routeInbound`, `acceptDesk` and `baseAddress` in
 `backend/src/email/email.service.ts`).
 */
module InboundRouting {
  import opened Options

  type Address = string

  datatype Desk = Desk(id: nat, slug: string, active: bool)

  datatype Route = Route(workspaceId: nat, workspaceSlug: string, address: Address)

  // ---- subaddressing -----------------------------------------------------------------

  /** `indexOf`, -1 when absent. */
  function IndexOf(s: string, c: char): (i: int)
    ensures -1 <= i < |s|
    ensures i >= 0 ==> s[i] == c
    ensures forall j :: 0 <= j < (if i == -1 then |s| else i) ==> s[j] != c
  {
    if s == "" then -1 else
    var i := IndexOf(s[..|s| - 1], c);
    if i >= 0 then i else if s[|s| - 1] == c then |s| - 1 else -1
  }

  /** `lastIndexOf`, -1 when absent. */
  function LastIndexOf(s: string, c: char): (i: int)
    ensures -1 <= i < |s|
    ensures i >= 0 ==> s[i] == c
    ensures forall j :: i < j < |s| ==> s[j] != c
  {
    if s == "" then -1 else if s[|s| - 1] == c then |s| - 1 else LastIndexOf(s[..|s| - 1], c)
  }

  function BaseAddress(a: Address): Address {
    var at := LastIndexOf(a, '@');
    var plus := IndexOf(a, '+');
    if 0 < plus < at then a[..plus] + a[at..] else a
  }

  /** A base address has no subaddress left to strip. */
  lemma BaseIsStable(a: Address)
    ensures BaseAddress(BaseAddress(a)) == BaseAddress(a)
  {
    var at := LastIndexOf(a, '@');
    var plus := IndexOf(a, '+');
    if 0 < plus < at {
      var b := a[..plus] + a[at..];
      assert b[plus] == '@';
      assert forall k :: plus < k < |b| ==> b[k] == a[at + k - plus];
      assert forall k :: 0 <= k < plus ==> b[k] == a[k];
    }
  }

  // ---- the rules ---------------------------------------------------------------------------

  /** The receiving addresses of the desks; one desk an address. */
  type Directory = map<Address, Desk>

  /** A matched desk still has to be open for business. */
  function AcceptDesk(desk: Desk, address: Address): Option<Route> {
    if desk.active then Some(Route(desk.id, desk.slug, address)) else None
  }

  predicate Resolves(a: Address, dir: Directory) { a in dir || BaseAddress(a) in dir }

  /** Exact before base. */
  function DeskOf(a: Address, dir: Directory): Desk
    requires Resolves(a, dir)
  {
    if a in dir then dir[a] else dir[BaseAddress(a)]
  }

  /** The first delivery address that resolves. */
  function ByDelivery(delivery: seq<Address>, dir: Directory): (a: Option<Address>)
    ensures a.Some? ==> a.value in delivery && Resolves(a.value, dir)
  {
    if delivery == [] then None
    else if Resolves(delivery[0], dir) then Some(delivery[0])
    else ByDelivery(delivery[1..], dir)
  }

  datatype Form = Exact | Base {
    function Of(a: Address): Address { if this == Exact then a else BaseAddress(a) }
  }

  datatype Naming = Naming(desk: Desk, address: Address)

  /** The desks that To and Cc name in one form, with the last address that names each. */
  function Named(form: Form, headers: seq<Address>, dir: Directory): map<nat, Naming> {
    if headers == [] then map[] else
    var n := |headers| - 1;
    var before := Named(form, headers[..n], dir);
    var key := form.Of(headers[n]);
    if key in dir then before[dir[key].id := Naming(dir[key], headers[n])] else before
  }

  function Only(named: map<nat, Naming>): Option<Route>
    requires |named| == 1
  {
    OnlyKey(named.Keys);
    var id :| id in named;
    AcceptDesk(named[id].desk, named[id].address)
  }

  lemma OnlyKey(keys: set<nat>)
    requires |keys| == 1
    ensures forall a, b :: a in keys && b in keys ==> a == b
    ensures exists a :: a in keys
  {
    var a :| a in keys;
    assert |keys - {a}| == 0;
    forall b | b in keys ensures a == b {
      assert a != b ==> b in keys - {a};
    }
  }

  function ByHeaders(headers: seq<Address>, dir: Directory): Option<Route> {
    var exact := Named(Exact, headers, dir);
    if |exact| > 1 then None else if |exact| == 1 then Only(exact) else
    var base := Named(Base, headers, dir);
    if |base| == 1 then Only(base) else None
  }

  function RouteOf(delivery: seq<Address>, headers: seq<Address>, dir: Directory): Option<Route> {
    match ByDelivery(delivery, dir)
    case Some(a) => AcceptDesk(DeskOf(a, dir), a)
    case None => ByHeaders(headers, dir)
  }

  // ---- the router as the source runs it --------------------------------------------------------

  method RouteInbound(delivery: seq<Address>, headers: seq<Address>, dir: Directory) returns (route: Option<Route>)
    ensures route == RouteOf(delivery, headers, dir)
  {
    if |delivery| == 0 && |headers| == 0 {
      return None;
    }
    var i := 0;
    while i < |delivery|
      invariant 0 <= i <= |delivery|
      invariant ByDelivery(delivery[i..], dir) == ByDelivery(delivery, dir)
    {
      assert delivery[i..][1..] == delivery[i + 1..];
      var address := delivery[i];
      if address in dir { return AcceptDesk(dir[address], address); }
      if BaseAddress(address) in dir { return AcceptDesk(dir[BaseAddress(address)], address); }
      i := i + 1;
    }
    var exact := Collect(Exact, headers, dir);
    if |exact| > 1 { return None; }
    if |exact| == 1 { return Only(exact); }
    var base := Collect(Base, headers, dir);
    if |base| > 1 { return None; }
    if |base| == 1 { return Only(base); }
    return None;
  }

  method Collect(form: Form, headers: seq<Address>, dir: Directory) returns (named: map<nat, Naming>)
    ensures named == Named(form, headers, dir)
  {
    named := map[];
    var i := 0;
    while i < |headers|
      invariant 0 <= i <= |headers|
      invariant named == Named(form, headers[..i], dir)
    {
      assert headers[..i + 1][..i] == headers[..i];
      var key := form.Of(headers[i]);
      if key in dir { named := named[dir[key].id := Naming(dir[key], headers[i])]; }
      i := i + 1;
    }
    assert headers[..i] == headers;
  }

  // ---- what a route means ---------------------------------------------------------------------------

  /** The ids of the desks named in a form: a set, so the order of the headers is forgotten. */
  function Desks(form: Form, headers: set<Address>, dir: Directory): set<nat> {
    set a | a in headers && form.Of(a) in dir :: dir[form.Of(a)].id
  }

  function SetOf(headers: seq<Address>): set<Address> { set a | a in headers }

  lemma {:induction false} NamedDesks(form: Form, headers: seq<Address>, dir: Directory)
    ensures Named(form, headers, dir).Keys == Desks(form, SetOf(headers), dir)
    ensures forall id :: id in Named(form, headers, dir) ==>
      var n := Named(form, headers, dir)[id];
      n.address in headers && form.Of(n.address) in dir && dir[form.Of(n.address)] == n.desk && n.desk.id == id
  {
    if headers != [] {
      var n := |headers| - 1;
      NamedDesks(form, headers[..n], dir);
      assert SetOf(headers) == SetOf(headers[..n]) + {headers[n]} by {
        assert headers == headers[..n] + [headers[n]];
      }
    }
  }

  /** Of several addresses that name a desk the last one stands for it. */
  lemma {:induction false} LastNameStands(form: Form, headers: seq<Address>, dir: Directory, k: nat)
    requires k < |headers| && form.Of(headers[k]) in dir
    requires forall i :: k < i < |headers| && form.Of(headers[i]) in dir ==>
      dir[form.Of(headers[i])].id != dir[form.Of(headers[k])].id
    ensures var id := dir[form.Of(headers[k])].id;
      id in Named(form, headers, dir) && Named(form, headers, dir)[id].address == headers[k]
  {
    var n := |headers| - 1;
    if k < n { LastNameStands(form, headers[..n], dir, k); }
  }

  /** If any delivery address resolves, what the sender typed changes nothing. */
  lemma {:induction false} DeliveryDecides(
    delivery: seq<Address>, a: Address, h1: seq<Address>, h2: seq<Address>, dir: Directory)
    requires a in delivery && Resolves(a, dir)
    ensures RouteOf(delivery, h1, dir) == RouteOf(delivery, h2, dir)
    ensures ByDelivery(delivery, dir).Some?
  {
    if delivery[0] != a && !Resolves(delivery[0], dir) {
      assert a in delivery[1..];
      DeliveryDecides(delivery[1..], a, h1, h2, dir);
    }
  }

  /** The first delivery address that resolves is the answer, by its own desk before its base's. */
  lemma {:induction false} DeliveryInOrder(delivery: seq<Address>, i: nat, headers: seq<Address>, dir: Directory)
    requires i < |delivery| && Resolves(delivery[i], dir)
    requires forall j :: 0 <= j < i ==> !Resolves(delivery[j], dir)
    ensures RouteOf(delivery, headers, dir)
      == AcceptDesk(if delivery[i] in dir then dir[delivery[i]] else dir[BaseAddress(delivery[i])], delivery[i])
  {
    if i > 0 {
      DeliveryInOrder(delivery[1..], i - 1, headers, dir);
    }
  }

  lemma {:induction false} NoDelivery(delivery: seq<Address>, dir: Directory)
    requires forall a :: a in delivery ==> !Resolves(a, dir)
    ensures ByDelivery(delivery, dir) == None
  {
    if delivery != [] { NoDelivery(delivery[1..], dir); }
  }

  /** A workspace is one row, whichever address finds it. */
  ghost predicate Consistent(dir: Directory) {
    forall a, b :: a in dir && b in dir && dir[a].id == dir[b].id ==> dir[a] == dir[b]
  }

  predicate IsActive(dir: Directory, id: nat) { exists a :: a in dir && dir[a].id == id && dir[a].active }

  lemma Chosen(form: Form, headers: seq<Address>, dir: Directory, id: nat)
    requires Consistent(dir)
    ensures var named := Named(form, headers, dir);
      |named| == 1 ==>
        (Only(named).Some? && Only(named).value.workspaceId == id <==> named.Keys == {id} && IsActive(dir, id))
  {
    var named := Named(form, headers, dir);
    NamedDesks(form, headers, dir);
    if |named| == 1 {
      OnlyKey(named.Keys);
      var k :| k in named;
      assert named.Keys == {k};
    }
  }

  lemma SingletonSize(named: map<nat, Naming>, id: nat)
    ensures named.Keys == {id} ==> |named| == 1
    ensures named.Keys == {} <==> |named| == 0
  {
    assert |named| == |named.Keys|;
  }

  /**
   When no delivery address resolves, the route is to desk `id` exactly when it is active and is the
   one desk that To and Cc name exactly - or they name none exactly and it is the one they name by base
   address. Two competing desks are refused, and only the set of addresses matters, not their order.
   */
  lemma HeadersChooseIff(delivery: seq<Address>, headers: seq<Address>, dir: Directory, id: nat)
    requires Consistent(dir) && forall a :: a in delivery ==> !Resolves(a, dir)
    ensures var route := RouteOf(delivery, headers, dir);
      var exact, base := Desks(Exact, SetOf(headers), dir), Desks(Base, SetOf(headers), dir);
      (route.Some? && route.value.workspaceId == id) <==>
      ((exact == {id} || (exact == {} && base == {id})) && IsActive(dir, id))
  {
    hide Only, Desks, Named, IsActive, Consistent;
    NoDelivery(delivery, dir);
    NamedDesks(Exact, headers, dir);
    NamedDesks(Base, headers, dir);
    Chosen(Exact, headers, dir, id);
    Chosen(Base, headers, dir, id);
    SingletonSize(Named(Exact, headers, dir), id);
    SingletonSize(Named(Base, headers, dir), id);
  }

  /** Whatever the order of To and Cc, the same workspace is chosen. */
  lemma HeaderOrderIrrelevant(delivery: seq<Address>, h1: seq<Address>, h2: seq<Address>, dir: Directory)
    requires Consistent(dir) && SetOf(h1) == SetOf(h2)
    ensures var r1, r2 := RouteOf(delivery, h1, dir), RouteOf(delivery, h2, dir);
      r1.Some? == r2.Some? && (r1.Some? ==> r1.value.workspaceId == r2.value.workspaceId)
  {
    hide RouteOf, Desks, IsActive, Consistent;
    if a :| a in delivery && Resolves(a, dir) {
      DeliveryDecides(delivery, a, h1, h2, dir);
    } else {
      var r1, r2 := RouteOf(delivery, h1, dir), RouteOf(delivery, h2, dir);
      if r1.Some? {
        HeadersChooseIff(delivery, h1, dir, r1.value.workspaceId);
        HeadersChooseIff(delivery, h2, dir, r1.value.workspaceId);
      }
      if r2.Some? {
        HeadersChooseIff(delivery, h1, dir, r2.value.workspaceId);
        HeadersChooseIff(delivery, h2, dir, r2.value.workspaceId);
      }
    }
  }

  /** A route names an active desk, and an address of the message that finds it. */
  lemma RouteIsFound(delivery: seq<Address>, headers: seq<Address>, dir: Directory)
    ensures var route := RouteOf(delivery, headers, dir);
      route.Some? ==>
        var r := route.value;
        && (r.address in delivery || r.address in headers) && Resolves(r.address, dir)
        && IsActive(dir, r.workspaceId) && Desk(r.workspaceId, r.workspaceSlug, true) in dir.Values
        && (ByDelivery(delivery, dir).Some? ==> r.address in delivery && DeskOf(r.address, dir).id == r.workspaceId)
  {
    NamedDesks(Exact, headers, dir);
    NamedDesks(Base, headers, dir);
  }

  // ---- subaddresses as they are written ------------------------------------------------------

  /** The tag of a subaddress is left out, whatever it holds; a tag needs a name before it. */
  lemma Subaddress(name: string, tag: string, domain: string)
    requires '+' !in name && '@' !in domain
    ensures name != "" ==> BaseAddress(name + "+" + tag + "@" + domain) == name + "@" + domain
    ensures name == "" ==> BaseAddress(name + "+" + tag + "@" + domain) == name + "+" + tag + "@" + domain
  {
    var a := name + "+" + tag + "@" + domain;
    var plus, at := |name|, |name| + 1 + |tag|;
    assert a[plus] == '+' && forall i :: 0 <= i < plus ==> a[i] == name[i];
    assert a[at] == '@' && forall i :: at < i < |a| ==> a[i] == domain[i - at - 1];
    assert IndexOf(a, '+') == plus && LastIndexOf(a, '@') == at;
    assert a[..plus] == name && a[at..] == "@" + domain;
  }

  /** Any other address is its own base. */
  lemma PlainAddress(name: string, domain: string)
    requires '+' !in name && '@' !in domain
    ensures BaseAddress(name + "@" + domain) == name + "@" + domain
  {
    var a := name + "@" + domain;
    var at := |name|;
    assert a[at] == '@' && forall i :: at < i < |a| ==> a[i] == domain[i - at - 1];
    assert forall i :: 0 <= i < at ==> a[i] == name[i];
    assert LastIndexOf(a, '@') == at;
  }
}
