/**
 Levelling a graph by peeling: the loop that both the task DAG and the subpipeline graph run.
 A node's level is the length of its longest dependency chain.
 */
module Levels {
  import opened Wrappers
  import opened Graph
  import opened Listing

  datatype Error<T> = UnknownDependency(node: T, dependency: T) | Cycle(nodes: set<T>)

  // ---------- edges counted with multiplicity ----------

  /** adj lists each edge of g once more, from the dependency to the dependent. */
  ghost predicate Transposed<T(!new)>(adj: Graph<T>, g: Graph<T>) {
    && adj.Keys == g.Keys
    && (forall d, x :: d in adj && x in adj[d] ==> x in g)
    && (forall d, n :: d in g && n in g ==> multiset(adj[d])[n] == multiset(g[n])[d])
  }

  lemma AddEdgeKeepsTransposed<T(!new)>(g: Graph<T>, adj: Graph<T>, name: T, dep: T)
    requires Transposed(adj, g) && name in g && dep in g
    ensures Transposed(adj[dep := adj[dep] + [name]], g[name := g[name] + [dep]])
  {
  }

  /** How many entries of a dependency list are not settled yet. */
  ghost function CountOutside<T>(s: seq<T>, S: set<T>): nat {
    if s == [] then 0
    else CountOutside(s[..|s| - 1], S) + if s[|s| - 1] in S then 0 else 1
  }

  lemma {:induction false} CountOutsideEmpty<T>(s: seq<T>)
    ensures CountOutside(s, {}) == |s|
  {
    if s != [] {
      CountOutsideEmpty(s[..|s| - 1]);
    }
  }

  lemma {:induction false} CountOutsideZero<T>(s: seq<T>, S: set<T>)
    ensures CountOutside(s, S) == 0 <==> forall d :: d in s ==> d in S
  {
    if s != [] {
      CountOutsideZero(s[..|s| - 1], S);
      assert s == s[..|s| - 1] + [s[|s| - 1]];
    }
  }

  lemma {:induction false} CountOutsideSettle<T>(s: seq<T>, S: set<T>, d: T)
    requires d !in S
    ensures CountOutside(s, S + {d}) == CountOutside(s, S) - multiset(s)[d]
  {
    if s != [] {
      CountOutsideSettle(s[..|s| - 1], S, d);
      assert s == s[..|s| - 1] + [s[|s| - 1]];
    }
  }

  /** The in-degree table when exactly the nodes of `settled` have been taken out. */
  ghost predicate CountsDown<T(!new)>(g: Graph<T>, inDegree: map<T, int>, settled: set<T>) {
    inDegree.Keys == g.Keys && forall n :: n in g ==> inDegree[n] == CountOutside(g[n], settled)
  }

  /** Takes one edge per entry of the list off its target's in-degree. */
  method DecrementAll<T(==,!new)>(inDegree: map<T, int>, neighbors: seq<T>) returns (r: map<T, int>)
    requires forall x :: x in neighbors ==> x in inDegree
    ensures r.Keys == inDegree.Keys
    ensures forall n :: n in inDegree ==> r[n] == inDegree[n] - multiset(neighbors)[n]
  {
    r := inDegree;
    for i := 0 to |neighbors|
      invariant r.Keys == inDegree.Keys
      invariant forall n :: n in inDegree ==> r[n] == inDegree[n] - multiset(neighbors[..i])[n]
    {
      assert neighbors[..i + 1] == neighbors[..i] + [neighbors[i]];
      r := r[neighbors[i] := r[neighbors[i]] - 1];
    }
    assert neighbors[..|neighbors|] == neighbors;
  }

  lemma SettleOne<T(!new)>(g: Graph<T>, adj: Graph<T>, before: map<T, int>, after: map<T, int>, settled: set<T>, d: T)
    requires Transposed(adj, g) && d in g && d !in settled
    requires CountsDown(g, before, settled)
    requires after.Keys == before.Keys
    requires forall n :: n in before ==> after[n] == before[n] - multiset(adj[d])[n]
    ensures CountsDown(g, after, settled + {d})
  {
    forall n | n in g
      ensures after[n] == CountOutside(g[n], settled + {d})
    {
      CountOutsideSettle(g[n], settled, d);
    }
  }

  // ---------- what a levelling is ----------

  /** The longest dependency chain from n has exactly k edges. */
  ghost predicate AtLevel<T(!new)>(g: Graph<T>, n: T, k: nat) {
    HasChain(g, n, k) && !HasChain(g, n, k + 1)
  }

  ghost function LevelSet<T(!new)>(g: Graph<T>, k: nat): set<T> {
    set n | n in g && AtLevel(g, n, k)
  }

  ghost function LevelAt<T(!new)>(order: seq<T>, g: Graph<T>, k: nat): seq<T> {
    Restrict(order, LevelSet(g, k))
  }

  /** Level k lists, in declaration order, the nodes whose longest chain has k edges. */
  ghost predicate IsLevelling<T(!new)>(order: seq<T>, g: Graph<T>, levels: seq<seq<T>>) {
    && LevelsSoFar(order, g, levels)
    && ChainSet(g, |levels|) == {}
  }

  /** A node of the level that is due: all its dependencies are settled. */
  lemma ReadyIsLevel<T(!new)>(g: Graph<T>, inDegree: map<T, int>, remaining: set<T>, k: nat)
    requires Closed(g) && remaining == ChainSet(g, k)
    requires CountsDown(g, inDegree, g.Keys - remaining)
    ensures remaining <= inDegree.Keys
    ensures (set n | n in remaining && inDegree[n] == 0) == LevelSet(g, k)
    ensures ChainSet(g, k + 1) == remaining - LevelSet(g, k)
  {
    forall n | n in g
      ensures n in ChainSet(g, k + 1) <==> DependsWithin(g, n, remaining)
      ensures n in ChainSet(g, k + 1) ==> n in remaining
      ensures inDegree[n] == 0 <==> !DependsWithin(g, n, remaining)
    {
      CountOutsideZero(g[n], g.Keys - remaining);
      if HasChain(g, n, k + 1) {
        ChainShorter(g, n, k);
      }
    }
  }

  /** Sorts a level by each name's position in the declaration. */
  method InDeclarationOrder<T(==,!new)>(order: seq<T>, level: seq<T>) returns (sorted: seq<T>)
    requires Distinct(order) && Distinct(level) && Elements(level) <= Elements(order)
    ensures sorted == Restrict(order, Elements(level))
  {
    var key: T -> int := n => if n in order then IndexOf(order, n) else |order|;
    sorted := SortBy(key, level);
    SortByElements(key, level);
    MultisetDistinct(level, sorted);
    forall i | 0 <= i < |order|
      ensures key(order[i]) == i
    {
      var j := IndexOf(order, order[i]);
      assert order[j] == order[i];
    }
    SortedByPosition(order, key, sorted);
  }

  /** Takes one node out of the graph. */
  method SettleNode<T(==,!new)>(
    ghost g: Graph<T>, adj: Graph<T>, name: T, inDegree: map<T, int>, ghost settled: set<T>
  ) returns (counts: map<T, int>)
    requires Transposed(adj, g) && name in g && name !in settled
    requires CountsDown(g, inDegree, settled)
    ensures CountsDown(g, counts, settled + {name})
  {
    counts := DecrementAll(inDegree, adj[name]);
    SettleOne(g, adj, inDegree, counts, settled, name);
  }

  /** Takes a whole level out of the graph. */
  method SettleLevel<T(==,!new)>(
    ghost g: Graph<T>, adj: Graph<T>, level: seq<T>, remaining: set<T>, inDegree: map<T, int>,
    ghost settled: set<T>
  ) returns (rest: set<T>, counts: map<T, int>)
    requires Transposed(adj, g) && CountsDown(g, inDegree, settled)
    requires Distinct(level) && Elements(level) <= remaining <= g.Keys && settled !! remaining
    ensures rest == remaining - Elements(level)
    ensures CountsDown(g, counts, settled + Elements(level))
  {
    rest, counts := remaining, inDegree;
    assert settled + Elements(level[..0]) == settled;
    for i := 0 to |level|
      invariant rest == remaining - Elements(level[..i])
      invariant CountsDown(g, counts, settled + Elements(level[..i]))
    {
      ElementsSnoc(level, i);
      rest := rest - {level[i]};
      counts := SettleNode(g, adj, level[i], counts, settled + Elements(level[..i]));
      assert settled + Elements(level[..i]) + {level[i]} == settled + Elements(level[..i + 1]);
    }
    assert level[..|level|] == level;
  }

  /** The nodes whose in-degree has dropped to zero, in declaration order. */
  method ReadyLevel<T(==,!new)>(
    ghost g: Graph<T>, order: seq<T>, remaining: set<T>, inDegree: map<T, int>, ghost k: nat
  ) returns (level: seq<T>)
    requires Closed(g) && Distinct(order) && Elements(order) == g.Keys
    requires remaining == ChainSet(g, k)
    requires CountsDown(g, inDegree, g.Keys - remaining)
    ensures level == LevelAt(order, g, k)
  {
    hide *;
    ReadyIsLevel(g, inDegree, remaining, k);
    ChainSetInside(g, k);
    var ready := Enumerate(set n | n in remaining && inDegree[n] == 0);
    level := InDeclarationOrder(order, ready);
    LevelAtIs(order, g, k);
  }

  /** Picks, sorts and settles the next level; the level is empty when no node is ready. */
  method NextLevel<T(==,!new)>(
    ghost g: Graph<T>, order: seq<T>, adj: Graph<T>, remaining: set<T>, inDegree: map<T, int>, ghost k: nat
  ) returns (level: seq<T>, rest: set<T>, counts: map<T, int>)
    requires Closed(g) && Distinct(order) && Elements(order) == g.Keys && Transposed(adj, g)
    requires remaining == ChainSet(g, k)
    requires CountsDown(g, inDegree, g.Keys - remaining)
    ensures level == LevelAt(order, g, k)
    ensures level == [] <==> LevelSet(g, k) == {}
    ensures level != [] ==> |rest| < |remaining|
    ensures rest == ChainSet(g, k + 1)
    ensures CountsDown(g, counts, g.Keys - rest)
  {
    hide *;
    ReadyIsLevel(g, inDegree, remaining, k);
    ChainSetInside(g, k);
    level := ReadyLevel(g, order, remaining, inDegree, k);
    LevelAtIs(order, g, k);
    RestrictMembers(order, LevelSet(g, k));
    rest, counts := SettleLevel(g, adj, level, remaining, inDegree, g.Keys - remaining);
    TakenOut(g.Keys, remaining, Elements(level));
    if level != [] {
      LevelShrinks(g, remaining, level);
    }
  }

  lemma TakenOut<T(!new)>(all: set<T>, remaining: set<T>, level: set<T>)
    requires level <= remaining <= all
    ensures all - remaining + level == all - (remaining - level)
  {
  }

  /**
   Peels the graph level by level. It fails exactly on cyclic graphs, and then reports the nodes
   that lie on a cycle or depend on one; otherwise the result is the one levelling of the graph.
   */
  method PeelLevels<T(==,!new)>(ghost g: Graph<T>, order: seq<T>, adj: Graph<T>, inDegree0: map<T, int>)
    returns (r: Result<seq<seq<T>>, Error<T>>)
    requires Closed(g) && Distinct(order) && Elements(order) == g.Keys && Transposed(adj, g)
    requires CountsDown(g, inDegree0, {})
    ensures r.Failure? <==> Cyclic(g)
    ensures r.Failure? ==> r.error == Cycle(Stuck(g))
    ensures r.Success? ==> IsLevelling(order, g, r.value)
  {
    hide *;
    var inDegree, remaining, levels := inDegree0, adj.Keys, [];
    EveryNodeRemains(g, adj);
    assert g.Keys - remaining == {};
    NoLevelsYet(order, g);
    while remaining != {}
      invariant remaining == ChainSet(g, |levels|)
      invariant CountsDown(g, inDegree, g.Keys - remaining)
      invariant LevelsSoFar(order, g, levels)
      decreases |remaining|
    {
      var level, rest, counts := NextLevel(g, order, adj, remaining, inDegree, |levels|);
      if level == [] {
        NoneReadyMeansCycle(g, remaining, |levels|);
        return Failure(Cycle(remaining));
      }
      OneMoreLevel(order, g, levels, level);
      levels, remaining, inDegree := levels + [level], rest, counts;
    }
    LevellingIsAcyclic(order, g, levels);
    r := Success(levels);
  }

  lemma EveryNodeRemains<T(!new)>(g: Graph<T>, adj: Graph<T>)
    requires Transposed(adj, g)
    ensures adj.Keys == g.Keys == ChainSet(g, 0)
  {
  }

  lemma ChainSetInside<T(!new)>(g: Graph<T>, k: nat)
    ensures ChainSet(g, k) <= g.Keys && LevelSet(g, k) <= ChainSet(g, k)
  {
  }

  lemma LevelAtIs<T(!new)>(order: seq<T>, g: Graph<T>, k: nat)
    ensures LevelAt(order, g, k) == Restrict(order, LevelSet(g, k))
  {
  }

  lemma NoLevelsYet<T(!new)>(order: seq<T>, g: Graph<T>)
    ensures LevelsSoFar(order, g, [])
  {
  }

  lemma OneMoreLevel<T(!new)>(order: seq<T>, g: Graph<T>, levels: seq<seq<T>>, level: seq<T>)
    requires LevelsSoFar(order, g, levels) && level == LevelAt(order, g, |levels|) && level != []
    ensures LevelsSoFar(order, g, levels + [level])
  {
  }

  ghost predicate LevelsSoFar<T(!new)>(order: seq<T>, g: Graph<T>, levels: seq<seq<T>>) {
    forall k :: 0 <= k < |levels| ==> levels[k] == LevelAt(order, g, k) && levels[k] != []
  }

  lemma LevelShrinks<T(!new)>(g: Graph<T>, remaining: set<T>, level: seq<T>)
    requires level != [] && Elements(level) <= remaining
    ensures |remaining - Elements(level)| < |remaining|
  {
    assert level[0] in Elements(level);
    SmallerSet(remaining - Elements(level), remaining, level[0]);
  }

  lemma RestrictMembers<T(!new)>(order: seq<T>, S: set<T>)
    requires Distinct(order) && S <= Elements(order)
    ensures Elements(Restrict(order, S)) == S && Distinct(Restrict(order, S))
    ensures Restrict(order, S) == [] <==> S == {}
  {
    RestrictDistinct(order, S);
    var r := Restrict(order, S);
    forall x | x in S
      ensures x in r
    {
      assert x in order;
    }
    if r != [] {
      assert r[0] in S;
    }
  }

  lemma NoneReadyMeansCycle<T(!new)>(g: Graph<T>, remaining: set<T>, k: nat)
    requires Closed(g) && remaining == ChainSet(g, k) && remaining != {}
    requires LevelSet(g, k) == {}
    ensures remaining == Stuck(g) && Cyclic(g)
  {
    forall n | n in remaining
      ensures DependsWithin(g, n, remaining)
    {
      assert n !in LevelSet(g, k);
      assert HasChain(g, n, k + 1);
    }
    forall n | n in remaining
      ensures LeadsToCycle(g, n)
    {
      var c := LeftoverHasCycle(g, remaining, n);
    }
    forall n | n in g && LeadsToCycle(g, n)
      ensures n in remaining
    {
      var c :| Reach(g, c, c) && (n == c || Reach(g, n, c));
      CycleHasEveryChain(g, c, k);
      if n != c {
        ReachLengthensChain(g, n, c, k);
        ChainShorter(g, n, k);
      }
    }
    CyclicIffStuck(g);
  }

  lemma EmptyChainSet<T(!new)>(g: Graph<T>, k: nat, n: T)
    requires ChainSet(g, k) == {}
    ensures !HasChain(g, n, k)
  {
    assert n !in ChainSet(g, k);
  }

  lemma LevellingIsAcyclic<T(!new)>(order: seq<T>, g: Graph<T>, levels: seq<seq<T>>)
    requires Closed(g) && LevelsSoFar(order, g, levels) && ChainSet(g, |levels|) == {}
    ensures IsLevelling(order, g, levels) && !Cyclic(g)
  {
    forall c
      ensures !Reach(g, c, c)
    {
      EmptyChainSet(g, |levels|, c);
      if Reach(g, c, c) {
        CycleHasEveryChain(g, c, |levels|);
      }
    }
  }

  // ---------- what a levelling promises ----------

  /** A graph has at most one levelling, so no iteration order can change the result. */
  lemma LevellingUnique<T(!new)>(order: seq<T>, g: Graph<T>, a: seq<seq<T>>, b: seq<seq<T>>)
    requires IsLevelling(order, g, a) && IsLevelling(order, g, b)
    ensures a == b
  {
    if |a| < |b| {
      LevelBeyondTop(order, g, a, b);
    } else if |b| < |a| {
      LevelBeyondTop(order, g, b, a);
    }
  }

  lemma EmptyLevel<T(!new)>(order: seq<T>, g: Graph<T>, k: nat)
    requires ChainSet(g, k) == {}
    ensures LevelAt(order, g, k) == []
  {
    assert forall n :: n in LevelSet(g, k) ==> n in ChainSet(g, k);
    RestrictToNothing(order, LevelSet(g, k));
  }

  lemma LevelBeyondTop<T(!new)>(order: seq<T>, g: Graph<T>, a: seq<seq<T>>, b: seq<seq<T>>)
    requires IsLevelling(order, g, a) && IsLevelling(order, g, b)
    ensures |b| <= |a|
  {
    EmptyLevel(order, g, |a|);
  }

  lemma InLevel<T(!new)>(order: seq<T>, g: Graph<T>, levels: seq<seq<T>>, k: nat, n: T)
    requires Elements(order) == g.Keys && IsLevelling(order, g, levels) && k < |levels|
    ensures n in levels[k] <==> n in g && AtLevel(g, n, k)
  {
  }

  lemma {:induction false} FindLevel<T(!new)>(g: Graph<T>, n: T, j: nat, top: nat) returns (k: nat)
    requires j <= top && HasChain(g, n, j) && !HasChain(g, n, top)
    ensures j <= k < top && AtLevel(g, n, k)
    decreases top - j
  {
    if HasChain(g, n, j + 1) {
      if j + 1 == top { assert false; }
      k := FindLevel(g, n, j + 1, top);
    } else {
      k := j;
    }
  }

  /** The levels partition the nodes: every node stands in exactly one level, once. */
  lemma LevellingPartitions<T(!new)>(order: seq<T>, g: Graph<T>, levels: seq<seq<T>>, n: T) returns (k: nat)
    requires Distinct(order) && Elements(order) == g.Keys && IsLevelling(order, g, levels) && n in g
    ensures k < |levels| && n in levels[k] && Distinct(levels[k]) && AtLevel(g, n, k)
    ensures forall j :: 0 <= j < |levels| && n in levels[j] ==> j == k
  {
    EmptyChainSet(g, |levels|, n);
    assert HasChain(g, n, 0);
    k := FindLevel(g, n, 0, |levels|);
    InLevel(order, g, levels, k, n);
    RestrictDistinct(order, LevelSet(g, k));
    forall j | 0 <= j < |levels| && n in levels[j]
      ensures j == k
    {
      InLevel(order, g, levels, j, n);
      LevelIsUnique(g, n, j, k);
    }
  }

  lemma LevelIsUnique<T(!new)>(g: Graph<T>, n: T, j: nat, k: nat)
    requires AtLevel(g, n, j) && AtLevel(g, n, k)
    ensures j == k
  {
    if j < k {
      ChainMonotone(g, n, j + 1, k);
    } else if k < j {
      ChainMonotone(g, n, k + 1, j);
    }
  }

  /** Whatever a node depends on, directly or transitively, stands in a strictly earlier level. */
  lemma DependencyIsEarlier<T(!new)>(g: Graph<T>, n: T, d: T, k: nat, j: nat)
    requires Reach(g, n, d) && AtLevel(g, n, k) && AtLevel(g, d, j)
    ensures j < k
  {
    ReachLengthensChain(g, n, d, j);
    if k <= j {
      ChainMonotone(g, n, k + 1, j + 1);
    }
  }

  /** A node above the first level waits for something in the level just before it. */
  lemma WaitsForPreviousLevel<T(!new)>(g: Graph<T>, n: T, k: nat) returns (d: T)
    requires AtLevel(g, n, k) && k > 0
    ensures d in g[n] && AtLevel(g, d, k - 1)
  {
    d :| d in g[n] && HasChain(g, d, k - 1);
    if HasChain(g, d, k) {
      ChainOnTop(g, n, d, k);
    }
  }

  lemma ChainOnTop<T(!new)>(g: Graph<T>, n: T, d: T, k: nat)
    requires n in g && d in g[n] && HasChain(g, d, k)
    ensures HasChain(g, n, k + 1)
  {
  }
}
