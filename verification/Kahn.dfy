/** Kahn's algorithm over adjacency lists that may name an edge more than once. */
module Kahn {
  import opened Wrappers
  import opened Graph
  import opened Listing
  import opened Levels

  /** Each entry comes after everything it depends on. */
  ghost predicate PrefixOrdered<T>(g: Graph<T>, s: seq<T>) {
    forall i, d :: 0 <= i < |s| && s[i] in g && d in g[s[i]] ==> d in s[..i]
  }

  /** A permutation of all nodes in which dependencies come first. */
  ghost predicate IsTopologicalOrder<T(!new)>(g: Graph<T>, s: seq<T>) {
    Distinct(s) && Elements(s) == g.Keys && PrefixOrdered(g, s)
  }

  function ZeroSet<T(==,!new)>(inDegree: map<T, int>): set<T> {
    set n | n in inDegree && inDegree[n] == 0
  }

  /** Between rounds: the sorted and the queued nodes are exactly those that wait for nothing. */
  ghost predicate SortState<T(!new)>(g: Graph<T>, inDegree: map<T, int>, result: seq<T>, queue: seq<T>) {
    && CountsDown(g, inDegree, Elements(result))
    && Distinct(result + queue)
    && Elements(result + queue) == ZeroSet(inDegree)
    && PrefixOrdered(g, result)
  }

  /** Counts every edge into its target. */
  method IncrementAll<T(==,!new)>(inDegree: map<T, int>, neighbors: seq<T>) returns (r: map<T, int>)
    requires forall x :: x in neighbors ==> x in inDegree
    ensures r.Keys == inDegree.Keys
    ensures forall n :: n in inDegree ==> r[n] == inDegree[n] + multiset(neighbors)[n]
  {
    r := inDegree;
    for i := 0 to |neighbors|
      invariant r.Keys == inDegree.Keys
      invariant forall n :: n in inDegree ==> r[n] == inDegree[n] + multiset(neighbors[..i])[n]
    {
      assert neighbors[..i + 1] == neighbors[..i] + [neighbors[i]];
      r := r[neighbors[i] := r[neighbors[i]] + 1];
    }
    assert neighbors[..|neighbors|] == neighbors;
  }

  ghost predicate CountsUp<T(!new)>(g: Graph<T>, inDegree: map<T, int>, scanned: set<T>) {
    inDegree.Keys == g.Keys && forall n :: n in g ==> inDegree[n] == |g[n]| - CountOutside(g[n], scanned)
  }

  lemma ScanOne<T(!new)>(g: Graph<T>, adj: Graph<T>, before: map<T, int>, after: map<T, int>, scanned: set<T>, d: T)
    requires Transposed(adj, g) && d in g && d !in scanned && CountsUp(g, before, scanned)
    requires after.Keys == before.Keys
    requires forall n :: n in before ==> after[n] == before[n] + multiset(adj[d])[n]
    ensures CountsUp(g, after, scanned + {d})
  {
    forall n | n in g
      ensures after[n] == |g[n]| - CountOutside(g[n], scanned + {d})
    {
      CountOutsideSettle(g[n], scanned, d);
    }
  }

  lemma ScannedAll<T(!new)>(g: Graph<T>, inDegree: map<T, int>)
    requires Closed(g) && CountsUp(g, inDegree, g.Keys)
    ensures CountsDown(g, inDegree, {})
  {
    forall n | n in g
      ensures inDegree[n] == CountOutside(g[n], {})
    {
      CountOutsideZero(g[n], g.Keys);
      CountOutsideEmpty(g[n]);
    }
  }

  lemma NothingScanned<T(!new)>(g: Graph<T>, inDegree: map<T, int>)
    requires inDegree.Keys == g.Keys && forall n :: n in g ==> inDegree[n] == 0
    ensures CountsUp(g, inDegree, {})
  {
    forall n | n in g
      ensures inDegree[n] == |g[n]| - CountOutside(g[n], {})
    {
      CountOutsideEmpty(g[n]);
    }
  }

  method ScanNode<T(==,!new)>(
    ghost g: Graph<T>, adj: Graph<T>, name: T, inDegree: map<T, int>, ghost scanned: set<T>
  ) returns (counts: map<T, int>)
    requires Transposed(adj, g) && name in g && name !in scanned && CountsUp(g, inDegree, scanned)
    ensures CountsUp(g, counts, scanned + {name})
  {
    counts := IncrementAll(inDegree, adj[name]);
    ScanOne(g, adj, inDegree, counts, scanned, name);
  }

  /** The in-degree of every node, counted from the adjacency lists. */
  method CountInDegrees<T(==,!new)>(ghost g: Graph<T>, order: seq<T>, adj: Graph<T>) returns (inDegree: map<T, int>)
    requires Closed(g) && Transposed(adj, g) && Distinct(order) && Elements(order) == g.Keys == adj.Keys
    ensures CountsDown(g, inDegree, {})
  {
    hide Transposed, Closed, CountsDown, CountsUp, Distinct;
    inDegree := map n | n in adj.Keys :: 0;
    NothingScanned(g, inDegree);
    assert Elements(order[..0]) == {};
    for i := 0 to |order|
      invariant CountsUp(g, inDegree, Elements(order[..i]))
    {
      ElementsSnoc(order, i);
      inDegree := ScanNode(g, adj, order[i], inDegree, Elements(order[..i]));
    }
    assert order[..|order|] == order;
    ScannedAll(g, inDegree);
  }

  /** Takes a node's outgoing edges off, queueing each neighbour whose in-degree reaches zero. */
  method Relax<T(==,!new)>(inDegree: map<T, int>, neighbors: seq<T>, queue: seq<T>)
    returns (counts: map<T, int>, longer: seq<T>, ghost news: seq<T>)
    requires forall x :: x in neighbors ==> x in inDegree
    requires forall n :: n in inDegree ==> multiset(neighbors)[n] <= inDegree[n]
    ensures counts.Keys == inDegree.Keys
    ensures forall n :: n in inDegree ==> counts[n] == inDegree[n] - multiset(neighbors)[n]
    ensures longer == queue + news
    ensures Distinct(news) && Elements(news) == ZeroSet(counts) - ZeroSet(inDegree)
  {
    hide Relaxed;
    counts, longer, news := inDegree, queue, [];
    NothingRelaxed(inDegree, neighbors[..0]);
    for i := 0 to |neighbors|
      invariant longer == queue + news && counts.Keys == inDegree.Keys
      invariant Relaxed(inDegree, neighbors[..i], counts, news)
    {
      var x := neighbors[i];
      RelaxOne(inDegree, neighbors, i, counts, news);
      counts := counts[x := counts[x] - 1];
      if counts[x] == 0 {
        longer, news := longer + [x], news + [x];
      }
    }
    assert neighbors[..|neighbors|] == neighbors;
    RelaxedAll(inDegree, neighbors, counts, news);
  }

  /** Some edges are off; `news` lists what thereby reached zero. */
  ghost predicate Relaxed<T(!new)>(inDegree: map<T, int>, edges: seq<T>, counts: map<T, int>, news: seq<T>) {
    && counts.Keys == inDegree.Keys
    && (forall n :: n in inDegree ==> counts[n] == inDegree[n] - multiset(edges)[n])
    && Distinct(news)
    && (forall x :: x in news <==> x in inDegree && counts[x] == 0 && inDegree[x] != 0)
  }

  lemma NothingRelaxed<T(!new)>(inDegree: map<T, int>, edges: seq<T>)
    requires edges == []
    ensures Relaxed(inDegree, edges, inDegree, [])
  {
  }

  lemma RelaxOne<T(!new)>(inDegree: map<T, int>, neighbors: seq<T>, i: nat, counts: map<T, int>, news: seq<T>)
    requires i < |neighbors| && neighbors[i] in inDegree && counts.Keys == inDegree.Keys
    requires forall n :: n in inDegree ==> multiset(neighbors)[n] <= inDegree[n]
    requires Relaxed(inDegree, neighbors[..i], counts, news)
    ensures var x, less := neighbors[i], counts[neighbors[i] := counts[neighbors[i]] - 1];
      Relaxed(inDegree, neighbors[..i + 1], less, if less[x] == 0 then news + [x] else news)
  {
    MultisetPrefix(neighbors, i);
    var x := neighbors[i];
    assert counts[x] > 0 && inDegree[x] > 0;
    DistinctSnoc(news, x);
    hide Distinct;
  }

  lemma RelaxedAll<T(!new)>(inDegree: map<T, int>, neighbors: seq<T>, counts: map<T, int>, news: seq<T>)
    requires Relaxed(inDegree, neighbors, counts, news)
    ensures counts.Keys == inDegree.Keys
    ensures forall n :: n in inDegree ==> counts[n] == inDegree[n] - multiset(neighbors)[n]
    ensures Distinct(news) && Elements(news) == ZeroSet(counts) - ZeroSet(inDegree)
  {
  }

  lemma MultisetPrefix<T>(s: seq<T>, i: nat)
    requires i < |s|
    ensures multiset(s[..i + 1]) == multiset(s[..i]) + multiset{s[i]}
    ensures forall n :: multiset(s[..i + 1])[n] <= multiset(s)[n]
  {
    assert s[..i + 1] == s[..i] + [s[i]];
    assert s == s[..i + 1] + s[i + 1..];
  }

  lemma NonNegative<T(!new)>(g: Graph<T>, adj: Graph<T>, inDegree: map<T, int>, settled: set<T>, d: T)
    requires Transposed(adj, g) && CountsDown(g, inDegree, settled) && d in g && d !in settled
    ensures forall n :: n in inDegree ==> multiset(adj[d])[n] <= inDegree[n]
    ensures forall x :: x in adj[d] ==> x in inDegree
  {
    forall n | n in inDegree
      ensures multiset(adj[d])[n] <= inDegree[n]
    {
      CountOutsideSettle(g[n], settled, d);
    }
  }

  /** One round keeps the state: the node moves to the result, its freed neighbours to the queue. */
  lemma RoundKeepsState<T(!new)>(
    g: Graph<T>, inDegree: map<T, int>, counts: map<T, int>, result: seq<T>, queue: seq<T>, news: seq<T>
  )
    requires SortState(g, inDegree, result, queue) && queue != []
    requires CountsDown(g, counts, Elements(result) + {queue[0]})
    requires forall n :: n in counts ==> n in inDegree && counts[n] <= inDegree[n]
    requires Distinct(news) && Elements(news) == ZeroSet(counts) - ZeroSet(inDegree)
    requires ZeroSet(inDegree) <= ZeroSet(counts)
    ensures SortState(g, counts, result + [queue[0]], queue[1..] + news)
  {
    var node := queue[0];
    var longer := result + [node];
    assert Elements(longer) == Elements(result) + {node};
    var both, all := result + queue, longer + (queue[1..] + news);
    assert all == both + news;
    assert Elements(all) == Elements(both) + Elements(news);
    DistinctAppend(both, news);
    assert node in both;
    assert node in ZeroSet(inDegree);
    ZeroIsFree(g, inDegree, Elements(result), node);
    OrderedSnoc(g, result, node);
  }

  lemma ZeroIsFree<T(!new)>(g: Graph<T>, inDegree: map<T, int>, settled: set<T>, n: T)
    requires CountsDown(g, inDegree, settled) && n in g
    ensures inDegree[n] == 0 <==> forall d :: d in g[n] ==> d in settled
    ensures inDegree[n] >= 0
  {
    CountOutsideZero(g[n], settled);
  }

  lemma OrderedSnoc<T(!new)>(g: Graph<T>, s: seq<T>, n: T)
    requires PrefixOrdered(g, s) && n in g
    requires forall d :: d in g[n] ==> d in Elements(s)
    ensures PrefixOrdered(g, s + [n])
  {
    var r := s + [n];
    forall i, d | 0 <= i < |r| && r[i] in g && d in g[r[i]]
      ensures d in r[..i]
    {
      if i < |s| {
        assert r[..i] == s[..i];
      } else {
        assert r[..i] == s;
      }
    }
  }

  /** The round as the code runs it. */
  method Round<T(==,!new)>(
    ghost g: Graph<T>, adj: Graph<T>, inDegree: map<T, int>, ghost result: seq<T>, queue: seq<T>
  ) returns (counts: map<T, int>, rest: seq<T>)
    requires Transposed(adj, g) && SortState(g, inDegree, result, queue) && queue != []
    ensures SortState(g, counts, result + [queue[0]], rest)
  {
    hide *;
    ghost var settled := Elements(result);
    QueuedNode(g, inDegree, result, queue, adj);
    NonNegative(g, adj, inDegree, settled, queue[0]);
    ghost var news;
    counts, rest, news := Relax(inDegree, adj[queue[0]], queue[1..]);
    SettleOne(g, adj, inDegree, counts, settled, queue[0]);
    FreeStaysFree(g, inDegree, counts, settled, queue[0]);
    RoundKeepsState(g, inDegree, counts, result, queue, news);
  }

  lemma QueuedNode<T(!new)>(g: Graph<T>, inDegree: map<T, int>, result: seq<T>, queue: seq<T>, adj: Graph<T>)
    requires SortState(g, inDegree, result, queue) && queue != [] && Transposed(adj, g)
    ensures CountsDown(g, inDegree, Elements(result))
    ensures queue[0] in g && queue[0] in adj && queue[0] !in Elements(result) && inDegree.Keys == g.Keys
  {
    var all := result + queue;
    assert all[|result|] == queue[0];
    assert all[|result|] in ZeroSet(inDegree);
    forall i | 0 <= i < |result|
      ensures result[i] != queue[0]
    {
      assert all[i] == result[i];
    }
  }

  lemma FreeStaysFree<T(!new)>(g: Graph<T>, inDegree: map<T, int>, counts: map<T, int>, settled: set<T>, d: T)
    requires CountsDown(g, inDegree, settled) && CountsDown(g, counts, settled + {d})
    ensures ZeroSet(inDegree) <= ZeroSet(counts)
  {
    forall n | n in ZeroSet(inDegree)
      ensures n in ZeroSet(counts)
    {
      ZeroIsFree(g, inDegree, settled, n);
      ZeroIsFree(g, counts, settled + {d}, n);
    }
  }

  /**
   Kahn's algorithm: fails exactly on cyclic graphs, reporting the nodes on a cycle or depending on
   one; otherwise returns a permutation of the nodes with every dependency first.
   */
  method TopologicalSort<T(==,!new)>(ghost g: Graph<T>, order: seq<T>, adj: Graph<T>)
    returns (r: Result<seq<T>, Error<T>>)
    requires Closed(g) && Transposed(adj, g) && Distinct(order) && Elements(order) == g.Keys == adj.Keys
    ensures r.Failure? <==> Cyclic(g)
    ensures r.Failure? ==> r.error == Cycle(Stuck(g))
    ensures r.Success? ==> IsTopologicalOrder(g, r.value)
  {
    hide *;
    var inDegree := CountInDegrees(g, order, adj);
    var queue := Restrict(order, ZeroSet(inDegree));
    var result := [];
    FirstQueue(g, inDegree, order);
    while queue != []
      invariant SortState(g, inDegree, result, queue)
      decreases |g.Keys| - |result|
    {
      var node := queue[0];
      SortedSoFar(g, inDegree, result, queue);
      inDegree, queue := Round(g, adj, inDegree, result, queue);
      result := result + [node];
    }
    SortedAll(g, inDegree, result);
    if |result| != |adj.Keys| {
      return Failure(Cycle(adj.Keys - Elements(result)));
    }
    r := Success(result);
  }

  lemma FirstQueue<T(!new)>(g: Graph<T>, inDegree: map<T, int>, order: seq<T>)
    requires CountsDown(g, inDegree, {}) && Distinct(order) && Elements(order) == g.Keys
    ensures SortState(g, inDegree, [], Restrict(order, ZeroSet(inDegree)))
  {
    var queue := Restrict(order, ZeroSet(inDegree));
    RestrictMembers(order, ZeroSet(inDegree));
    assert [] + queue == queue;
    var nothing: seq<T> := [];
    assert Elements(nothing) == {};
  }

  lemma SortedSoFar<T(!new)>(g: Graph<T>, inDegree: map<T, int>, result: seq<T>, queue: seq<T>)
    requires SortState(g, inDegree, result, queue) && queue != []
    ensures |result| < |g.Keys|
  {
    var all := result + queue;
    ElementsSize(all);
    assert Elements(all) <= g.Keys;
    SubsetSize(Elements(all), g.Keys);
  }

  lemma SortedAll<T(!new)>(g: Graph<T>, inDegree: map<T, int>, result: seq<T>)
    requires Closed(g) && SortState(g, inDegree, result, [])
    ensures |result| == |g.Keys| <==> !Cyclic(g)
    ensures |result| == |g.Keys| ==> IsTopologicalOrder(g, result)
    ensures g.Keys - Elements(result) == Stuck(g)
  {
    assert result + [] == result;
    var R := g.Keys - Elements(result);
    var rank := map n | n in Elements(result) :: IndexOf(result, n);
    LeftoverOfSort(g, inDegree, result, rank);
    LeftoverIsStuck(g, R, rank);
    CyclicIffStuck(g);
    AllListed(g, result);
  }

  lemma AllListed<T(!new)>(g: Graph<T>, result: seq<T>)
    requires Distinct(result) && Elements(result) <= g.Keys
    ensures |result| == |g.Keys| <==> g.Keys - Elements(result) == {}
    ensures |result| == |g.Keys| ==> Elements(result) == g.Keys
  {
    ElementsSize(result);
    var R := g.Keys - Elements(result);
    assert g.Keys == R + Elements(result);
    assert |g.Keys| == |R| + |Elements(result)|;
  }

  lemma LeftoverOfSort<T(!new)>(g: Graph<T>, inDegree: map<T, int>, result: seq<T>, rank: map<T, nat>)
    requires Closed(g) && SortState(g, inDegree, result, []) && result + [] == result
    requires rank == map n | n in Elements(result) :: IndexOf(result, n)
    ensures LeftoverOf(g, g.Keys - Elements(result), rank)
  {
    var R := g.Keys - Elements(result);
    forall n | n in R
      ensures DependsWithin(g, n, R)
    {
      assert n !in ZeroSet(inDegree);
      ZeroIsFree(g, inDegree, Elements(result), n);
    }
    forall n, d | n in rank && d in g[n]
      ensures d in rank && rank[d] < rank[n]
    {
      var i := IndexOf(result, n);
      assert d in result[..i];
      var j :| 0 <= j < i && result[j] == d;
      var k := IndexOf(result, d);
      assert result[k] == result[j];
    }
  }
}
