/** The runner's own levelling of subpipelines, and its recursive closure of dependents. */
module Subpipelines {
  import opened Wrappers
  import opened Graph
  import opened Listing
  import opened Levels
  import opened Dag

  /** The tables built so far: adjacency lists, in-degrees, and the graph they stand for. */
  ghost predicate Tables<T(!new)>(g: Graph<T>, adj: Graph<T>, inDegree: map<T, int>) {
    && Transposed(adj, g)
    && inDegree.Keys == g.Keys
    && forall n :: n in g ==> inDegree[n] == |g[n]|
  }

  lemma AddToTables<T(!new)>(g: Graph<T>, adj: Graph<T>, inDegree: map<T, int>, name: T, dep: T)
    requires Tables(g, adj, inDegree) && name in g && dep in g
    ensures Tables(g[name := g[name] + [dep]], adj[dep := adj[dep] + [name]], inDegree[name := inDegree[name] + 1])
  {
    AddEdgeKeepsTransposed(g, adj, name, dep);
    hide Transposed;
  }

  /** Enters one subpipeline's dependencies, stopping at the first unknown name. */
  method AddDependencies<T(==,!new)>(
    name: T, dependsOn: seq<T>, adj0: Graph<T>, inDegree0: map<T, int>, ghost g0: Graph<T>
  ) returns (unknown: Option<T>, adj: Graph<T>, inDegree: map<T, int>, ghost g: Graph<T>)
    requires Tables(g0, adj0, inDegree0) && name in g0 && g0[name] == []
    ensures unknown.None? <==> forall d :: d in dependsOn ==> d in g0
    ensures unknown.Some? ==> FirstOutside(dependsOn, g0.Keys, unknown.value)
    ensures unknown.None? ==> Tables(g, adj, inDegree) && g == g0[name := dependsOn]
  {
    hide Tables;
    TableKeys(g0, adj0, inDegree0);
    adj, inDegree, g, unknown := adj0, inDegree0, g0, None;
    assert g0 == g0[name := dependsOn[..0]];
    for j := 0 to |dependsOn|
      invariant Tables(g, adj, inDegree) && inDegree.Keys == adj.Keys == g.Keys == g0.Keys
      invariant g == g0[name := dependsOn[..j]]
      invariant forall d :: d in dependsOn[..j] ==> d in g0
      invariant unknown.None?
    {
      var dep := dependsOn[j];
      assert dependsOn[..j + 1] == dependsOn[..j] + [dep];
      if dep !in inDegree {
        unknown := Some(dep);
        return;
      }
      AddToTables(g, adj, inDegree, name, dep);
      adj, inDegree := adj[dep := adj[dep] + [name]], inDegree[name := inDegree[name] + 1];
      g := g[name := g[name] + [dep]];
    }
    assert dependsOn[..|dependsOn|] == dependsOn;
  }

  lemma TableKeys<T(!new)>(g: Graph<T>, adj: Graph<T>, inDegree: map<T, int>)
    requires Tables(g, adj, inDegree)
    ensures inDegree.Keys == adj.Keys == g.Keys
  {
  }

  lemma EmptyTables<T(!new)>(g: Graph<T>, adj: Graph<T>, inDegree: map<T, int>)
    requires adj.Keys == inDegree.Keys == g.Keys
    requires forall n :: n in g ==> g[n] == [] && adj[n] == [] && inDegree[n] == 0
    ensures Tables(g, adj, inDegree)
  {
  }

  lemma FullTables<T(!new)>(g: Graph<T>, adj: Graph<T>, inDegree: map<T, int>)
    requires Tables(g, adj, inDegree)
    ensures Transposed(adj, g) && CountsDown(g, inDegree, {})
  {
    forall n | n in g
      ensures inDegree[n] == CountOutside(g[n], {})
    {
      CountOutsideEmpty(g[n]);
    }
  }

  /** Levels the subpipelines, or reports an unknown dependency or a cycle. */
  method BuildSubpipelineLevels<T(==,!new)>(subs: seq<Decl<T>>) returns (r: Result<seq<seq<T>>, Error<T>>)
    requires Distinct(Names(subs))
    ensures r.Success? <==> KnownDependencies(subs) && !Cyclic(GraphFrom(subs))
    ensures r.Success? ==> IsLevelling(Names(subs), GraphFrom(subs), r.value)
    ensures r.Failure? && r.error.UnknownDependency? ==> IsFirstUnknown(subs, r.error.node, r.error.dependency)
    ensures r.Failure? && r.error.Cycle? ==> KnownDependencies(subs) && r.error == Cycle(Stuck(GraphFrom(subs)))
  {
    hide *;
    var order := Names(subs);
    var inDegree := map n | n in Elements(order) :: 0;
    var adjacency: map<T, seq<T>> := map n | n in Elements(order) :: [];
    ghost var g: map<T, seq<T>> := adjacency;
    EmptyTables(g, adjacency, inDegree);
    NothingConnected(subs, adjacency, g);
    for i := 0 to |subs|
      invariant Tables(g, adjacency, inDegree) && ConnectedUpTo(subs, i, g)
    {
      WaitsForItsTurn(subs, i, g);
      var unknown, adj, counts;
      ghost var h;
      unknown, adj, counts, h := AddDependencies(subs[i].name, subs[i].dependsOn, adjacency, inDegree, g);
      if unknown.Some? {
        FoundUnknown(subs, i, g, unknown.value);
        return Failure(UnknownDependency(subs[i].name, unknown.value));
      }
      ConnectOne(subs, i, g);
      adjacency, inDegree, g := adj, counts, h;
    }
    AllKnown(subs, g);
    OnlyGraphOf(subs, g);
    FullTables(g, adjacency, inDegree);
    GraphFromKeys(subs);
    r := PeelLevels(g, order, adjacency, inDegree);
  }

  /** A levelling ranks every subpipeline above what it depends on. */
  lemma LevellingRanks<T(!new)>(order: seq<T>, g: Graph<T>, levels: seq<seq<T>>) returns (rank: map<T, nat>)
    requires Closed(g) && Distinct(order) && Elements(order) == g.Keys && IsLevelling(order, g, levels)
    ensures Ranked(g, rank) && forall n :: n in rank ==> rank[n] < |levels| && n in levels[rank[n]]
  {
    forall n | n in g
      ensures exists k: nat :: k < |levels| && AtLevel(g, n, k)
    {
      var k := LevellingPartitions(order, g, levels, n);
    }
    rank := map n | n in g :: var k: nat :| k < |levels| && AtLevel(g, n, k); k;
    forall n | n in rank
      ensures n in levels[rank[n]]
    {
      InLevel(order, g, levels, rank[n], n);
    }
    forall n, d | n in g && d in g[n]
      ensures d in g && rank[d] < rank[n]
    {
      ReachEdge(g, n, d);
      DependencyIsEarlier(g, n, d, rank[n], rank[d]);
    }
  }

  /** The subpipelines found after looking at the first i declarations. */
  ghost predicate DependentOfFirst<T(!new)>(subs: seq<Decl<T>>, g: Graph<T>, i: nat, name: T, m: T) {
    exists j ::
      0 <= j < i && j < |subs| && name in subs[j].dependsOn && (m == subs[j].name || Reach(g, m, subs[j].name))
  }

  /**
   The recursion over declared dependents. It ends on every graph that can be ranked, and returns
   exactly the subpipelines that depend on the name directly or transitively.
   */
  method GetSubpipelineDependents<T(==,!new)>(
    subs: seq<Decl<T>>, name: T, ghost g: Graph<T>, ghost rank: map<T, nat>, ghost top: nat
  ) returns (r: set<T>)
    requires GraphOf(subs, g) && Ranked(g, rank) && forall n :: n in rank ==> rank[n] <= top
    ensures forall m :: m in r <==> Reach(g, m, name)
    decreases if name in rank then top - rank[name] else top + 1
  {
    r := {};
    for i := 0 to |subs|
      invariant forall m :: m in r <==> DependentOfFirst(subs, g, i, name, m)
    {
      hide Reach, Ranked, GraphOf;
      if name in subs[i].dependsOn {
        DependentRanksHigher(subs, g, rank, i, name);
        var more := GetSubpipelineDependents(subs, subs[i].name, g, rank, top);
        r := r + {subs[i].name} + more;
      }
    }
    AllDependents(subs, g, name);
  }

  lemma DependentRanksHigher<T(!new)>(subs: seq<Decl<T>>, g: Graph<T>, rank: map<T, nat>, i: nat, name: T)
    requires GraphOf(subs, g) && Ranked(g, rank) && i < |subs| && name in subs[i].dependsOn
    ensures name in rank && subs[i].name in rank && rank[name] < rank[subs[i].name]
  {
  }

  lemma AllDependents<T(!new)>(subs: seq<Decl<T>>, g: Graph<T>, name: T)
    requires GraphOf(subs, g)
    ensures forall m :: DependentOfFirst(subs, g, |subs|, name, m) <==> Reach(g, m, name)
  {
    forall m
      ensures DependentOfFirst(subs, g, |subs|, name, m) <==> Reach(g, m, name)
    {
      if DependentOfFirst(subs, g, |subs|, name, m) {
        var j :| 0 <= j < |subs| && name in subs[j].dependsOn && (m == subs[j].name || Reach(g, m, subs[j].name));
        ReachEdge(g, subs[j].name, name);
        if m != subs[j].name {
          ReachTransitive(g, m, subs[j].name, name);
        }
      }
      if Reach(g, m, name) {
        var b := ReachLast(g, m, name);
        assert b in Names(subs);
        var j :| 0 <= j < |subs| && Names(subs)[j] == b;
        assert subs[j].name == b;
      }
    }
  }
}
