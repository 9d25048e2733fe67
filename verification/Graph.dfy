/**
 Finite directed dependency graphs. A graph maps every node to the list of nodes it depends on;
 a list may name the same node more than once, so edges form a multiset.
 */
module Graph {
  import opened Listing

  type Graph<T> = map<T, seq<T>>

  /** Every dependency is itself a node. */
  ghost predicate Closed<T>(g: Graph<T>) {
    forall n, d :: n in g && d in g[n] ==> d in g
  }

  /** There is a walk of exactly k dependency edges from a to b. */
  ghost predicate Steps<T(!new)>(g: Graph<T>, a: T, b: T, k: nat) {
    if k == 0 then a == b else a in g && exists d :: d in g[a] && Steps(g, d, b, k - 1)
  }

  /** a depends on b, directly or transitively. */
  ghost predicate Reach<T(!new)>(g: Graph<T>, a: T, b: T) {
    exists k: nat :: k > 0 && Steps(g, a, b, k)
  }

  ghost predicate Cyclic<T(!new)>(g: Graph<T>) {
    exists a :: Reach(g, a, a)
  }

  /** A dependency chain of k edges starts at n. */
  ghost predicate HasChain<T(!new)>(g: Graph<T>, n: T, k: nat) {
    n in g && (k == 0 || exists d :: d in g[n] && HasChain(g, d, k - 1))
  }

  ghost function ChainSet<T(!new)>(g: Graph<T>, k: nat): set<T> {
    set n | n in g && HasChain(g, n, k)
  }

  /** n lies on a cycle, or depends on a node that does. */
  ghost predicate LeadsToCycle<T(!new)>(g: Graph<T>, n: T) {
    exists c :: Reach(g, c, c) && (n == c || Reach(g, n, c))
  }

  /** The nodes that can never be scheduled. */
  ghost function Stuck<T(!new)>(g: Graph<T>): set<T> {
    set n | n in g && LeadsToCycle(g, n)
  }

  // ---------- walks ----------

  lemma {:induction false} StepsConcat<T(!new)>(g: Graph<T>, a: T, b: T, c: T, j: nat, k: nat)
    requires Steps(g, a, b, j) && Steps(g, b, c, k)
    ensures Steps(g, a, c, j + k)
  {
    if j > 0 {
      var d :| d in g[a] && Steps(g, d, b, j - 1);
      StepsConcat(g, d, b, c, j - 1, k);
    }
  }

  lemma ReachTransitive<T(!new)>(g: Graph<T>, a: T, b: T, c: T)
    requires Reach(g, a, b) && Reach(g, b, c)
    ensures Reach(g, a, c)
  {
    var j: nat :| j > 0 && Steps(g, a, b, j);
    var k: nat :| k > 0 && Steps(g, b, c, k);
    StepsConcat(g, a, b, c, j, k);
  }

  lemma ReachEdge<T(!new)>(g: Graph<T>, a: T, b: T)
    requires a in g && b in g[a]
    ensures Reach(g, a, b)
  {
    assert Steps(g, b, b, 0);
    assert Steps(g, a, b, 1);
  }

  lemma {:induction false} StepsLast<T(!new)>(g: Graph<T>, a: T, c: T, k: nat) returns (b: T)
    requires k > 0 && Steps(g, a, c, k)
    ensures b in g && c in g[b] && Steps(g, a, b, k - 1)
  {
    var d :| d in g[a] && Steps(g, d, c, k - 1);
    if k == 1 {
      b := a;
    } else {
      b := StepsLast(g, d, c, k - 1);
    }
  }

  /** The last edge of a walk. */
  lemma ReachLast<T(!new)>(g: Graph<T>, a: T, c: T) returns (b: T)
    requires Reach(g, a, c)
    ensures b in g && c in g[b] && (a == b || Reach(g, a, b))
  {
    var k: nat :| k > 0 && Steps(g, a, c, k);
    b := StepsLast(g, a, c, k);
    if k == 1 {
    } else {
      assert Steps(g, a, b, k - 1);
    }
  }

  /** A walk that starts in a set closed under dependencies ends in it. */
  lemma {:induction false} StepsStayInside<T(!new)>(g: Graph<T>, S: set<T>, a: T, b: T, k: nat)
    requires forall n, d :: n in S && n in g && d in g[n] ==> d in S
    requires a in S && Steps(g, a, b, k)
    ensures b in S
  {
    if k > 0 {
      var d :| d in g[a] && Steps(g, d, b, k - 1);
      StepsStayInside(g, S, d, b, k - 1);
    }
  }

  lemma ReachInside<T(!new)>(g: Graph<T>, a: T, b: T)
    requires Closed(g) && Reach(g, a, b)
    ensures a in g && b in g
  {
    var k: nat :| k > 0 && Steps(g, a, b, k);
    StepsStayInside(g, g.Keys, a, b, k);
  }

  // ---------- ranks and cycles ----------

  /** Every dependency has a strictly smaller rank. */
  ghost predicate Ranked<T>(g: Graph<T>, rank: map<T, nat>) {
    rank.Keys == g.Keys && forall n, d :: n in g && d in g[n] ==> d in g && rank[d] < rank[n]
  }

  lemma {:induction false} StepsLowerRank<T(!new)>(g: Graph<T>, rank: map<T, nat>, a: T, b: T, k: nat)
    requires Ranked(g, rank) && a in g && Steps(g, a, b, k)
    ensures b in g && rank[b] + k <= rank[a]
  {
    if k > 0 {
      var d :| d in g[a] && Steps(g, d, b, k - 1);
      StepsLowerRank(g, rank, d, b, k - 1);
    }
  }

  lemma ReachLowersRank<T(!new)>(g: Graph<T>, rank: map<T, nat>, a: T, b: T)
    requires Ranked(g, rank) && Reach(g, a, b)
    ensures a in g && b in g && rank[b] < rank[a]
  {
    var k: nat :| k > 0 && Steps(g, a, b, k);
    StepsLowerRank(g, rank, a, b, k);
  }

  lemma RankedIsAcyclic<T(!new)>(g: Graph<T>, rank: map<T, nat>)
    requires Ranked(g, rank)
    ensures !Cyclic(g)
  {
    if a :| Reach(g, a, a) {
      ReachLowersRank(g, rank, a, a);
    }
  }

  ghost predicate DependsWithin<T>(g: Graph<T>, n: T, R: set<T>) {
    n in g && exists d :: d in g[n] && d in R
  }

  /** Every node of R still waits for a node of R. */
  ghost predicate AllBlocked<T>(g: Graph<T>, R: set<T>) {
    forall n {:trigger DependsWithin(g, n, R)} :: n in R ==> DependsWithin(g, n, R)
  }

  /**
   A non-empty leftover set in which every node still has a dependency contains a cycle: either the
   chosen node reaches itself, or the nodes it reaches form a smaller leftover set.
   */
  lemma {:induction false} LeftoverHasCycle<T(!new)>(g: Graph<T>, R: set<T>, a: T) returns (c: T)
    requires R <= g.Keys && a in R
    requires AllBlocked(g, R)
    ensures c in R && Reach(g, c, c) && (a == c || Reach(g, a, c))
    decreases |R|
  {
    if Reach(g, a, a) {
      return a;
    }
    var S := set n | n in R && Reach(g, a, n);
    forall n | n in S
      ensures DependsWithin(g, n, S)
    {
      assert DependsWithin(g, n, R);
      var d :| d in g[n] && d in R;
      ReachEdge(g, n, d);
      ReachTransitive(g, a, n, d);
    }
    assert DependsWithin(g, a, R);
    var b :| b in g[a] && b in R;
    ReachEdge(g, a, b);
    assert a !in S && S <= R;
    SmallerSet(S, R, a);
    c := LeftoverHasCycle(g, S, b);
  }

  /**
   How a scheduling loop stops: every leftover node in R still has a leftover dependency, and the
   other nodes are ranked by when they were scheduled.
   */
  ghost predicate LeftoverOf<T>(g: Graph<T>, R: set<T>, rank: map<T, nat>) {
    && R <= g.Keys
    && rank.Keys == g.Keys - R
    && AllBlocked(g, R)
    && (forall n, d :: n in rank && d in g[n] ==> d in rank && rank[d] < rank[n])
  }

  lemma ScheduledIsNotStuck<T(!new)>(g: Graph<T>, R: set<T>, rank: map<T, nat>, n: T)
    requires Closed(g) && LeftoverOf(g, R, rank)
    requires n in g && n !in R
    ensures !LeadsToCycle(g, n)
  {
    if LeadsToCycle(g, n) {
      var c :| Reach(g, c, c) && (n == c || Reach(g, n, c));
      if n != c {
        var j: nat :| j > 0 && Steps(g, n, c, j);
        StepsLowerRankOutside(g, R, rank, n, c, j);
      }
      var k: nat :| k > 0 && Steps(g, c, c, k);
      StepsLowerRankOutside(g, R, rank, c, c, k);
    }
  }

  /** The leftover of a scheduling loop is exactly the set of nodes that lead to a cycle. */
  lemma LeftoverIsStuck<T(!new)>(g: Graph<T>, R: set<T>, rank: map<T, nat>)
    requires Closed(g) && LeftoverOf(g, R, rank)
    ensures R == Stuck(g)
  {
    forall n | n in R
      ensures LeadsToCycle(g, n)
    {
      var c := LeftoverHasCycle(g, R, n);
    }
    forall n | n in g && n !in R
      ensures !LeadsToCycle(g, n)
    {
      ScheduledIsNotStuck(g, R, rank, n);
    }
  }

  /** A graph is cyclic exactly when some node is stuck. */
  lemma CyclicIffStuck<T(!new)>(g: Graph<T>)
    requires Closed(g)
    ensures Cyclic(g) <==> Stuck(g) != {}
  {
    if a :| Reach(g, a, a) {
      ReachInside(g, a, a);
      assert LeadsToCycle(g, a);
      assert a in Stuck(g);
    }
    if n :| n in Stuck(g) {
      var c :| Reach(g, c, c) && (n == c || Reach(g, n, c));
      assert Cyclic(g);
    }
  }

  lemma {:induction false} StepsLowerRankOutside<T(!new)>(g: Graph<T>, R: set<T>, rank: map<T, nat>, a: T, b: T, k: nat)
    requires Closed(g) && LeftoverOf(g, R, rank)
    requires a in rank && Steps(g, a, b, k)
    ensures b in rank && rank[b] + k <= rank[a]
  {
    if k > 0 {
      var d :| d in g[a] && Steps(g, d, b, k - 1);
      StepsLowerRankOutside(g, R, rank, d, b, k - 1);
    }
  }

  /** Without cycles, some node of every non-empty set depends on none of the set. */
  lemma SomeNodeIsFree<T(!new)>(g: Graph<T>, R: set<T>) returns (n: T)
    requires !Cyclic(g) && R <= g.Keys && R != {}
    ensures n in R && forall d :: d in g[n] ==> d !in R
  {
    if AllBlocked(g, R) {
      var a :| a in R;
      var c := LeftoverHasCycle(g, R, a);
    }
    n :| n in R && !DependsWithin(g, n, R);
  }

  /** Some nodes are ranked, each above everything it depends on, with ranks below their number. */
  ghost predicate RankedSoFar<T(!new)>(g: Graph<T>, rank: map<T, nat>) {
    && rank.Keys <= g.Keys
    && (forall n, d :: n in rank && d in g[n] ==> d in rank && rank[d] < rank[n])
    && (forall n :: n in rank ==> rank[n] < |rank.Keys|)
  }

  lemma RankOneMore<T(!new)>(g: Graph<T>, rank: map<T, nat>, n: T)
    requires RankedSoFar(g, rank) && n in g && n !in rank && forall d :: d in g[n] ==> d in rank
    ensures RankedSoFar(g, rank[n := |rank.Keys|])
  {
    var more := rank[n := |rank.Keys|];
    assert more.Keys == rank.Keys + {n};
    var top := |rank.Keys|;
    assert |more.Keys| == top + 1;
    forall m | m in more
      ensures more[m] < top + 1 && (m != n ==> more[m] == rank[m] && m in rank)
    {
    }
    forall m, d | m in more && d in g[m]
      ensures d in more && more[d] < more[m]
    {
      if m == n {
        assert d in rank && d != n;
      } else {
        assert d in rank && rank[d] < rank[m] && d != n;
      }
    }
  }

  lemma FewerToRank<T>(g: Graph<T>, rank: map<T, nat>, n: T, r: nat)
    requires n in g && n !in rank
    ensures |g.Keys - rank[n := r].Keys| < |g.Keys - rank.Keys|
  {
    SmallerSet(g.Keys - rank[n := r].Keys, g.Keys - rank.Keys, n);
  }

  lemma {:induction false} RankTheRest<T(!new)>(g: Graph<T>, rank0: map<T, nat>) returns (rank: map<T, nat>)
    requires Closed(g) && !Cyclic(g) && RankedSoFar(g, rank0)
    ensures Ranked(g, rank)
    decreases |g.Keys - rank0.Keys|
  {
    if rank0.Keys == g.Keys {
      return rank0;
    }
    assert g.Keys == rank0.Keys + (g.Keys - rank0.Keys);
    var n := SomeNodeIsFree(g, g.Keys - rank0.Keys);
    hide Cyclic, RankedSoFar;
    StillToRank(g, rank0, n);
    RankOneMore(g, rank0, n);
    FewerToRank(g, rank0, n, |rank0.Keys|);
    rank := RankTheRest(g, rank0[n := |rank0.Keys|]);
  }

  lemma StillToRank<T(!new)>(g: Graph<T>, rank: map<T, nat>, n: T)
    requires Closed(g) && RankedSoFar(g, rank) && n in g.Keys - rank.Keys
    requires forall d :: d in g[n] ==> d !in g.Keys - rank.Keys
    ensures forall d :: d in g[n] ==> d in rank
  {
  }

  /** Every graph without cycles can be ranked. */
  lemma AcyclicIsRanked<T(!new)>(g: Graph<T>) returns (rank: map<T, nat>)
    requires Closed(g) && !Cyclic(g)
    ensures Ranked(g, rank)
  {
    rank := RankTheRest(g, map[]);
  }

  // ---------- chains ----------

  lemma {:induction false} ChainShorter<T(!new)>(g: Graph<T>, n: T, k: nat)
    requires HasChain(g, n, k + 1)
    ensures HasChain(g, n, k)
  {
    if k > 0 {
      var d :| d in g[n] && HasChain(g, d, k);
      ChainShorter(g, d, k - 1);
    }
  }

  lemma {:induction false} ChainMonotone<T(!new)>(g: Graph<T>, n: T, j: nat, k: nat)
    requires j <= k && HasChain(g, n, k)
    ensures HasChain(g, n, j)
    decreases k - j
  {
    if j < k {
      ChainShorter(g, n, k - 1);
      ChainMonotone(g, n, j, k - 1);
    }
  }

  /** A chain grows by prefixing a walk. */
  lemma {:induction false} ChainAfterSteps<T(!new)>(g: Graph<T>, a: T, b: T, j: nat, k: nat)
    requires Steps(g, a, b, j) && HasChain(g, b, k)
    ensures HasChain(g, a, j + k)
  {
    if j > 0 {
      var d :| d in g[a] && Steps(g, d, b, j - 1);
      ChainAfterSteps(g, d, b, j - 1, k);
    }
  }

  lemma {:induction false} ReachLengthensChain<T(!new)>(g: Graph<T>, a: T, b: T, k: nat)
    requires Reach(g, a, b) && HasChain(g, b, k)
    ensures HasChain(g, a, k + 1)
  {
    var j: nat :| j > 0 && Steps(g, a, b, j);
    ChainAfterSteps(g, a, b, j, k);
    ChainMonotone(g, a, k + 1, j + k);
  }

  /** Nodes on a cycle have chains of every length. */
  lemma {:induction false} CycleHasEveryChain<T(!new)>(g: Graph<T>, c: T, k: nat)
    requires Closed(g) && Reach(g, c, c)
    ensures HasChain(g, c, k)
  {
    if k == 0 {
      ReachInside(g, c, c);
    } else {
      CycleHasEveryChain(g, c, k - 1);
      ReachLengthensChain(g, c, c, k - 1);
    }
  }
}
