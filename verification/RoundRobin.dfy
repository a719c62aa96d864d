/**
 Automatic assignment (`roundRobinAssignee` in `backend/src/tickets/tickets.service.ts`): the
 roster is sorted by open tickets and the first agent takes the new one.
 */
module RoundRobin {
  import opened Options

  /** Open tickets per agent; agents without any are absent. */
  type Load = map<nat, nat>

  /** `load.get(a) ?? 0` */
  function Of(load: Load, a: nat): nat { if a in load then load[a] else 0 }

  predicate SortedByLoad(agents: seq<nat>, load: Load) {
    forall i, j :: 0 <= i < j < |agents| ==> Of(load, agents[i]) <= Of(load, agents[j])
  }

  /** The agents with `n` open tickets, in order. */
  function WithLoad(agents: seq<nat>, load: Load, n: nat): seq<nat> {
    if agents == [] then [] else
    var last := agents[|agents| - 1];
    WithLoad(agents[..|agents| - 1], load, n) + (if Of(load, last) == n then [last] else [])
  }

  lemma {:induction false} WithLoadConcat(a: seq<nat>, b: seq<nat>, load: Load, n: nat)
    ensures WithLoad(a + b, load, n) == WithLoad(a, load, n) + WithLoad(b, load, n)
  {
    if b == [] {
      assert a + b == a;
    } else {
      assert (a + b)[..|a + b| - 1] == a + b[..|b| - 1];
      WithLoadConcat(a, b[..|b| - 1], load, n);
    }
  }

  /** Agents of equal load keep their order, and nobody comes or goes. */
  ghost predicate Stable(before: seq<nat>, after: seq<nat>, load: Load) {
    multiset(after) == multiset(before) && forall n :: WithLoad(after, load, n) == WithLoad(before, load, n)
  }

  /** Two neighbours of different load may change places. */
  lemma SwapIsStable(s: seq<nat>, k: nat, load: Load)
    requires 0 < k < |s| && Of(load, s[k - 1]) != Of(load, s[k])
    ensures Stable(s, s[..k - 1] + [s[k], s[k - 1]] + s[k + 1..], load)
  {
    var a, b, c := s[..k - 1], [s[k - 1], s[k]], s[k + 1..];
    var swapped := [s[k], s[k - 1]];
    assert s == a + b + c;
    forall n ensures WithLoad(a + swapped + c, load, n) == WithLoad(s, load, n) {
      WithLoadConcat(a + swapped, c, load, n);
      WithLoadConcat(a, swapped, load, n);
      WithLoadConcat(a + b, c, load, n);
      WithLoadConcat(a, b, load, n);
      TwoNeighbours(s[k - 1], s[k], load, n);
    }
  }

  lemma TwoNeighbours(x: nat, y: nat, load: Load, n: nat)
    requires Of(load, x) != Of(load, y)
    ensures WithLoad([x, y], load, n) == WithLoad([y, x], load, n)
  {
    assert [x, y][..1] == [x] && [y, x][..1] == [y] && [x][..0] == [] && [y][..0] == [];
  }

  method SwapDown(agents: array<nat>, load: Load, k: nat)
    requires 0 < k < agents.Length && Of(load, agents[k - 1]) != Of(load, agents[k])
    modifies agents
    ensures agents[k - 1] == old(agents[k]) && agents[k] == old(agents[k - 1])
    ensures forall i :: 0 <= i < agents.Length && i != k - 1 && i != k ==> agents[i] == old(agents[i])
    ensures Stable(old(agents[..]), agents[..], load)
  {
    hide Stable, Of;
    ghost var was := agents[..];
    SwapIsStable(was, k, load);
    agents[k - 1], agents[k] := agents[k], agents[k - 1];
    assert agents[..] == was[..k - 1] + [was[k], was[k - 1]] + was[k + 1..];
  }

  lemma StableChains(a: seq<nat>, b: seq<nat>, c: seq<nat>, load: Load)
    ensures Stable(a, a, load)
    ensures Stable(a, b, load) && Stable(b, c, load) ==> Stable(a, c, load)
  {
  }

  /** Moves the agent at `n` down to its place among the first `n`, already sorted. */
  method Insert(agents: array<nat>, load: Load, n: nat)
    requires n < agents.Length && SortedByLoad(agents[..n], load)
    modifies agents
    ensures SortedByLoad(agents[..n + 1], load)
    ensures Stable(old(agents[..]), agents[..], load)
  {
    hide Of, Stable;
    var k := n;
    StableChains(agents[..], agents[..], agents[..], load);
    assert forall i, j :: 0 <= i < j < n ==> agents[i] == agents[..n][i] && agents[j] == agents[..n][j];
    while k > 0 && Of(load, agents[k - 1]) > Of(load, agents[k])
      invariant 0 <= k <= n
      invariant forall i, j :: 0 <= i < j <= n && j != k ==> Of(load, agents[i]) <= Of(load, agents[j])
      invariant Stable(old(agents[..]), agents[..], load)
    {
      ghost var was := agents[..];
      SwapDown(agents, load, k);
      StableChains(old(agents[..]), was, agents[..], load);
      k := k - 1;
    }
  }

  /** `agents.sort((a, b) => load(a) - load(b))`, in place. */
  method SortByLoad(agents: array<nat>, load: Load)
    modifies agents
    ensures SortedByLoad(agents[..], load)
    ensures Stable(old(agents[..]), agents[..], load)
  {
    hide Of, Stable;
    var n := 0;
    StableChains(agents[..], agents[..], agents[..], load);
    while n < agents.Length
      invariant 0 <= n <= agents.Length
      invariant SortedByLoad(agents[..n], load)
      invariant Stable(old(agents[..]), agents[..], load)
    {
      ghost var was := agents[..];
      Insert(agents, load, n);
      StableChains(old(agents[..]), was, agents[..], load);
      n := n + 1;
    }
    assert agents[..n] == agents[..];
  }

  /** Nobody on the roster has fewer open tickets. */
  predicate LeastLoaded(roster: seq<nat>, load: Load, a: nat) {
    a in roster && forall b :: b in roster ==> Of(load, a) <= Of(load, b)
  }

  /** The first of the least loaded agents, in the order of the roster. */
  predicate FirstLeastLoaded(roster: seq<nat>, load: Load, a: nat) {
    LeastLoaded(roster, load, a) && [a] <= WithLoad(roster, load, Of(load, a))
  }

  /** What a stable sort puts first. */
  lemma HeadOfSorted(roster: seq<nat>, sorted: seq<nat>, load: Load)
    requires Stable(roster, sorted, load) && SortedByLoad(sorted, load) && sorted != []
    ensures FirstLeastLoaded(roster, load, sorted[0])
  {
    var a := sorted[0];
    assert a in multiset(roster);
    forall b | b in roster ensures Of(load, a) <= Of(load, b) {
      assert b in multiset(sorted);
      var j :| 0 <= j < |sorted| && sorted[j] == b;
    }
    assert sorted == [a] + sorted[1..];
    WithLoadConcat([a], sorted[1..], load, Of(load, a));
    assert [a][..0] == [];
    assert WithLoad([a], load, Of(load, a)) == [a];
  }

  method RoundRobinAssignee(agents: array<nat>, load: Load) returns (assignee: Option<nat>)
    modifies agents
    ensures assignee.None? <==> agents.Length == 0
    ensures assignee.Some? ==> FirstLeastLoaded(old(agents[..]), load, assignee.value)
  {
    if agents.Length == 0 {
      return None;
    }
    ghost var roster := agents[..];
    SortByLoad(agents, load);
    HeadOfSorted(roster, agents[..], load);
    return Some(agents[0]);
  }

  /** An agent without open tickets is taken before any that has one. */
  lemma IdleAgentFirst(roster: seq<nat>, load: Load, a: nat, idle: nat)
    requires LeastLoaded(roster, load, a) && idle in roster && idle !in load
    requires forall x :: x in load ==> load[x] >= 1
    ensures a !in load
  {
  }

  /** Of two agents with open tickets the one with fewer. */
  lemma FewerFirst(roster: seq<nat>, load: Load, a: nat, b: nat)
    requires LeastLoaded(roster, load, a) && a in load && b in roster && b in load
    ensures load[a] <= load[b]
  {
  }

  // ---- fairness -------------------------------------------------------------------------

  function Taken(load: Load, a: nat): Load { load[a := Of(load, a) + 1] }

  /** Each creation goes to a least loaded agent at that time. */
  predicate Assigned(roster: seq<nat>, load: Load, picks: seq<nat>)
    decreases |picks|
  {
    picks == [] || (LeastLoaded(roster, load, picks[0]) && Assigned(roster, Taken(load, picks[0]), picks[1..]))
  }

  function After(load: Load, picks: seq<nat>): Load
    decreases |picks|
  {
    if picks == [] then load else After(Taken(load, picks[0]), picks[1..])
  }

  /** Whoever has more than `top` tickets is within one of everybody. */
  predicate LevelAbove(roster: seq<nat>, load: Load, top: int) {
    forall a, b :: a in roster && b in roster ==> Of(load, a) <= top || Of(load, a) <= Of(load, b) + 1
  }

  lemma {:induction false} StaysLevelAbove(roster: seq<nat>, load: Load, picks: seq<nat>, top: int)
    requires Assigned(roster, load, picks) && LevelAbove(roster, load, top)
    ensures LevelAbove(roster, After(load, picks), top)
    decreases |picks|
  {
    if picks != [] {
      StaysLevelAbove(roster, Taken(load, picks[0]), picks[1..], top);
    }
  }

  /** The gap between any two agents is at most `gap`. */
  predicate Within(roster: seq<nat>, load: Load, gap: int) {
    forall a, b :: a in roster && b in roster ==> Of(load, a) <= Of(load, b) + gap
  }

  /** However many tickets are assigned, the gap stays within its first value, or one if that is larger. */
  lemma {:induction false} GapStays(roster: seq<nat>, load: Load, picks: seq<nat>, gap: int)
    requires Assigned(roster, load, picks) && Within(roster, load, gap) && gap >= 1
    ensures Within(roster, After(load, picks), gap)
    decreases |picks|
  {
    if picks != [] {
      GapStays(roster, Taken(load, picks[0]), picks[1..], gap);
    }
  }

  function Total(roster: seq<nat>, load: Load): nat {
    if roster == [] then 0 else Of(load, roster[0]) + Total(roster[1..], load)
  }

  predicate NoRepeats(roster: seq<nat>) { forall i, j :: 0 <= i < j < |roster| ==> roster[i] != roster[j] }

  lemma {:induction false} TakenElsewhere(roster: seq<nat>, load: Load, a: nat)
    requires a !in roster
    ensures Total(roster, Taken(load, a)) == Total(roster, load)
  {
    if roster != [] { TakenElsewhere(roster[1..], load, a); }
  }

  lemma {:induction false} TakenAddsOne(roster: seq<nat>, load: Load, a: nat)
    requires NoRepeats(roster) && a in roster
    ensures Total(roster, Taken(load, a)) == Total(roster, load) + 1
  {
    if roster[0] == a {
      TakenElsewhere(roster[1..], load, a);
    } else {
      TakenAddsOne(roster[1..], load, a);
    }
  }

  /** Every assignment adds one open ticket to the roster, and none is dropped. */
  lemma {:induction false} TicketsConserved(roster: seq<nat>, load: Load, picks: seq<nat>)
    requires NoRepeats(roster) && Assigned(roster, load, picks)
    ensures Total(roster, After(load, picks)) == Total(roster, load) + |picks|
    decreases |picks|
  {
    if picks != [] {
      TakenAddsOne(roster, load, picks[0]);
      TicketsConserved(roster, Taken(load, picks[0]), picks[1..]);
    }
  }

  lemma {:induction false} TotalBounded(roster: seq<nat>, load: Load, top: nat)
    requires forall a :: a in roster ==> Of(load, a) <= top
    ensures Total(roster, load) <= |roster| * top
  {
    if roster != [] {
      TotalBounded(roster[1..], load, top);
      assert |roster| * top == |roster[1..]| * top + top;
    }
  }

  /**
   Assignment evens the load out: once more tickets are open than the agents would hold at the first
   maximum each, no two agents differ by more than one, whatever the gap was at first.
   */
  lemma EventuallyLevel(roster: seq<nat>, load: Load, picks: seq<nat>, top: nat)
    requires NoRepeats(roster) && Assigned(roster, load, picks)
    requires forall a :: a in roster ==> Of(load, a) <= top
    requires Total(roster, load) + |picks| > |roster| * top
    ensures Within(roster, After(load, picks), 1)
  {
    var end := After(load, picks);
    StaysLevelAbove(roster, load, picks, top);
    TicketsConserved(roster, load, picks);
    if forall a :: a in roster ==> Of(end, a) <= top {
      TotalBounded(roster, end, top);
      assert false;
    }
    var busy :| busy in roster && Of(end, busy) > top;
  }
}
