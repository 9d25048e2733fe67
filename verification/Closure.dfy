/** Breadth-first closures, and how the closures of a graph and of its transpose relate. */
module Closure {
  import opened Graph
  import opened Listing
  import opened Levels

  /** Everything found is reachable, and only queued nodes still have unseen neighbours. */
  ghost predicate SearchState<T(!new)>(adj: Graph<T>, start: T, visited: set<T>, queue: seq<T>) {
    && (forall m :: m in visited ==> m in adj && Reach(adj, start, m))
    && (forall m :: m in queue ==> m == start || m in visited)
    && (forall m, x :: (m == start || m in visited) && m !in queue && m in adj && x in adj[m] ==> x in visited)
  }

  /** Queues the neighbours that were not seen before. */
  method Expand<T(==,!new)>(neighbors: seq<T>, visited0: set<T>, queue0: seq<T>)
    returns (visited: set<T>, queue: seq<T>)
    ensures visited == visited0 + Elements(neighbors)
    ensures forall x :: x in queue <==> x in queue0 || (x in neighbors && x !in visited0)
    ensures visited == visited0 ==> queue == queue0
  {
    visited, queue := visited0, queue0;
    for i := 0 to |neighbors|
      invariant visited == visited0 + Elements(neighbors[..i])
      invariant forall x :: x in queue <==> x in queue0 || (x in neighbors[..i] && x !in visited0)
      invariant visited == visited0 ==> queue == queue0
    {
      assert neighbors[..i + 1] == neighbors[..i] + [neighbors[i]];
      if neighbors[i] !in visited {
        visited := visited + {neighbors[i]};
        queue := queue + [neighbors[i]];
      }
    }
    assert neighbors[..|neighbors|] == neighbors;
  }

  lemma ExpandKeepsState<T(!new)>(
    adj: Graph<T>, start: T, visited0: set<T>, queue0: seq<T>, visited: set<T>, queue: seq<T>
  )
    requires Closed(adj) && SearchState(adj, start, visited0, queue0) && queue0 != []
    requires queue0[0] in adj && visited == visited0 + Elements(adj[queue0[0]])
    requires forall x :: x in queue <==> x in queue0[1..] || (x in adj[queue0[0]] && x !in visited0)
    ensures SearchState(adj, start, visited, queue)
  {
    var node := queue0[0];
    forall m | m in visited
      ensures m in adj && Reach(adj, start, m)
    {
      if m !in visited0 {
        ReachEdge(adj, node, m);
        if node != start {
          ReachTransitive(adj, start, node, m);
        }
      }
    }
    assert queue0 == [node] + queue0[1..];
  }

  lemma SearchDone<T(!new)>(adj: Graph<T>, start: T, visited: set<T>)
    requires SearchState(adj, start, visited, [])
    ensures forall m :: m in visited <==> Reach(adj, start, m)
  {
    forall m | Reach(adj, start, m)
      ensures m in visited
    {
      var k: nat :| k > 0 && Steps(adj, start, m, k);
      var b := StepsLast(adj, start, m, k);
      StepsStayInside(adj, visited + {start}, start, b, k - 1);
    }
  }

  /** The nodes reached from the start along one or more edges; empty for an unknown name. */
  method Search<T(==,!new)>(adj: Graph<T>, start: T) returns (visited: set<T>)
    requires Closed(adj)
    ensures forall m :: m in visited <==> Reach(adj, start, m)
  {
    visited := {};
    var queue := [start];
    while queue != []
      invariant SearchState(adj, start, visited, queue)
      invariant visited <= adj.Keys
      decreases |adj.Keys - visited|, |queue|
    {
      hide SearchState, Reach;
      var node := queue[0];
      if node in adj {
        ghost var visited0, queue0 := visited, queue;
        visited, queue := Expand(adj[node], visited, queue[1..]);
        ExpandKeepsState(adj, start, visited0, queue0, visited, queue);
        if visited != visited0 {
          FewerMembers(adj.Keys - visited, adj.Keys - visited0);
        }
      } else {
        SkipUnknown(adj, start, visited, queue);
        queue := queue[1..];
      }
    }
    SearchDone(adj, start, visited);
  }

  lemma SkipUnknown<T(!new)>(adj: Graph<T>, start: T, visited: set<T>, queue: seq<T>)
    requires SearchState(adj, start, visited, queue) && queue != [] && queue[0] !in adj
    ensures SearchState(adj, start, visited, queue[1..])
  {
  }

  lemma {:induction false} StepsTransposed<T(!new)>(adj: Graph<T>, g: Graph<T>, a: T, b: T, k: nat)
    requires Transposed(adj, g) && Closed(g) && Steps(adj, a, b, k)
    ensures Steps(g, b, a, k)
  {
    if k > 0 {
      var d :| d in adj[a] && Steps(adj, d, b, k - 1);
      StepsTransposed(adj, g, d, b, k - 1);
      EdgeTransposed(adj, g, a, d);
      assert Steps(g, a, a, 0);
      assert Steps(g, d, a, 1);
      StepsConcat(g, b, d, a, k - 1, 1);
    }
  }

  lemma EdgeTransposed<T(!new)>(adj: Graph<T>, g: Graph<T>, d: T, n: T)
    requires Transposed(adj, g) && Closed(g)
    ensures d in adj && n in adj[d] <==> n in g && d in g[n]
  {
  }

  lemma TransposeBack<T(!new)>(adj: Graph<T>, g: Graph<T>)
    requires Transposed(adj, g) && Closed(g)
    ensures Transposed(g, adj) && Closed(adj)
  {
  }

  /** Walking the adjacency lists is walking the dependencies backwards. */
  lemma ReachTransposed<T(!new)>(adj: Graph<T>, g: Graph<T>, a: T, b: T)
    requires Transposed(adj, g) && Closed(g)
    ensures Reach(adj, a, b) <==> Reach(g, b, a)
  {
    TransposeBack(adj, g);
    if Reach(adj, a, b) {
      var k: nat :| k > 0 && Steps(adj, a, b, k);
      StepsTransposed(adj, g, a, b, k);
    }
    if Reach(g, b, a) {
      var k: nat :| k > 0 && Steps(g, b, a, k);
      StepsTransposed(g, adj, b, a, k);
    }
  }
}
