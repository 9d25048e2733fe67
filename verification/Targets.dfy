/** Choosing what to retry: the requested tasks together with everything they depend on. */
module Targets {
  import opened Wrappers
  import opened Graph
  import opened Listing
  import opened Levels
  import opened Dag
  import opened Qualified
  import opened SubRun

  const UNPLACED := 999

  /** The first level from the i-th on that lists the name. */
  ghost predicate FirstListing<T>(levels: seq<seq<T>>, n: T, i: nat, k: int) {
    i <= k < |levels| && n in levels[k] && forall j :: i <= j < k ==> n !in levels[j]
  }

  /** The first level that lists the name. */
  function LevelIndex<T(==)>(levels: seq<seq<T>>, n: T): (k: int)
    ensures FirstListing(levels, n, 0, k) || (k == 999 && forall j :: 0 <= j < |levels| ==> n !in levels[j])
  {
    LevelIndexFrom(levels, n, 0)
  }

  function LevelIndexFrom<T(==)>(levels: seq<seq<T>>, n: T, i: nat): (k: int)
    requires i <= |levels|
    ensures FirstListing(levels, n, i, k) || (k == 999 && forall j :: i <= j < |levels| ==> n !in levels[j])
    decreases |levels| - i
  {
    if i == |levels| then UNPLACED
    else if n in levels[i] then i
    else LevelIndexFrom(levels, n, i + 1)
  }

  /** No entry depends on a later one. */
  ghost predicate DependenciesFirst<T(!new)>(g: Graph<T>, s: seq<T>) {
    forall i, j :: 0 <= i < j < |s| ==> !Reach(g, s[i], s[j])
  }

  /** Everything the requested tasks depend on. */
  method Upstream<T(==,!new)>(dag: DAG<T>, tasks: seq<T>) returns (upstream: set<T>)
    requires dag.Valid()
    ensures forall d :: d in upstream <==> exists t :: t in tasks && Reach(dag.reverseAdjacency, t, d)
  {
    upstream := {};
    for i := 0 to |tasks|
      invariant forall d :: d in upstream <==> exists t :: t in tasks[..i] && Reach(dag.reverseAdjacency, t, d)
    {
      hide Reach;
      assert tasks[..i + 1] == tasks[..i] + [tasks[i]];
      var more := dag.GetDependencies(tasks[i]);
      upstream := upstream + more;
    }
    assert tasks[..|tasks|] == tasks;
  }

  /** Puts the upstream tasks before the requested ones and sorts all of them by level. */
  method Arrange<T(==,!new)>(
    ghost g: Graph<T>, ghost order: seq<T>, levels: seq<seq<T>>, upstream: set<T>, tasks: seq<T>
  ) returns (targets: seq<T>)
    requires Closed(g) && Distinct(order) && Elements(order) == g.Keys && IsLevelling(order, g, levels)
    ensures Elements(targets) == upstream + Elements(tasks)
    ensures Distinct(tasks) ==> Distinct(targets)
    ensures DependenciesFirst(g, targets)
  {
    hide *;
    var listed := Enumerate(upstream - Elements(tasks));
    var key: T -> int := n => LevelIndex(levels, n);
    targets := SortBy(key, listed + tasks);
    SortByElements(key, listed + tasks);
    ElementsAppend(listed, tasks);
    if Distinct(tasks) {
      DistinctAppend(listed, tasks);
      MultisetDistinct(listed + tasks, targets);
    }
    SortedMeansFirst(g, order, levels, key, targets);
  }

  lemma SortedMeansFirst<T(!new)>(g: Graph<T>, order: seq<T>, levels: seq<seq<T>>, key: T -> int, s: seq<T>)
    requires Closed(g) && Distinct(order) && Elements(order) == g.Keys && IsLevelling(order, g, levels)
    requires SortedBy(key, s) && forall n :: key(n) == LevelIndex(levels, n)
    ensures DependenciesFirst(g, s)
  {
    hide IsLevelling, LevelIndex, Distinct, Closed, Reach, AtLevel;
    forall i, j | 0 <= i < j < |s|
      ensures !Reach(g, s[i], s[j])
    {
      if Reach(g, s[i], s[j]) {
        ReachInside(g, s[i], s[j]);
        KeyIsLevel(order, g, levels, s[i]);
        KeyIsLevel(order, g, levels, s[j]);
        assert key(s[i]) <= key(s[j]);
        DependencyIsEarlier(g, s[i], s[j], LevelIndex(levels, s[i]), LevelIndex(levels, s[j]));
      }
    }
  }

  lemma KeyIsLevel<T(!new)>(order: seq<T>, g: Graph<T>, levels: seq<seq<T>>, n: T)
    requires Distinct(order) && Elements(order) == g.Keys && IsLevelling(order, g, levels) && n in g
    ensures LevelIndex(levels, n) >= 0 && AtLevel(g, n, LevelIndex(levels, n))
  {
    var k := LevellingPartitions(order, g, levels, n);
  }

  /** The chosen set is closed: whatever a chosen task depends on is chosen too. */
  lemma ChosenIsClosed<T(!new)>(g: Graph<T>, tasks: set<T>, upstream: set<T>, n: T, d: T)
    requires forall m :: m in upstream <==> exists t :: t in tasks && Reach(g, t, m)
    requires n in tasks + upstream && Reach(g, n, d)
    ensures d in upstream
  {
    if n !in tasks {
      var t :| t in tasks && Reach(g, t, n);
      ReachTransitive(g, t, n, d);
    }
  }

  /**
   The retry targets with their upstream: closed under dependencies, listed with dependencies first,
   and nothing that was neither requested nor depended on.
   */
  method SelectTargets(subs: seq<Sub>, tasks: seq<string>) returns (r: Result<seq<string>, Error<string>>)
    requires Distinct(QualifiedNames(subs))
    ensures r.Success? <==> KnownDependencies(Flatten(subs)) && !Cyclic(GraphFrom(Flatten(subs)))
    ensures r.Failure? && KnownDependencies(Flatten(subs)) ==> r.error == Cycle(Stuck(GraphFrom(Flatten(subs))))
    ensures r.Failure? && !KnownDependencies(Flatten(subs)) ==>
      r.error.UnknownDependency? && IsFirstUnknown(Flatten(subs), r.error.node, r.error.dependency)
    ensures r.Success? ==>
      && DependenciesFirst(GraphFrom(Flatten(subs)), r.value)
      && (Distinct(tasks) ==> Distinct(r.value))
      && (forall n :: n in r.value <==> n in tasks || exists t :: t in tasks && Reach(GraphFrom(Flatten(subs)), t, n))
      && (forall n, d :: n in r.value && Reach(GraphFrom(Flatten(subs)), n, d) ==> d in r.value)
  {
    hide *;
    var qualified := BuildQualifiedTasks(subs);
    NamesOfFlat(subs);
    var dag := DAG<string>.Create(qualified, false);
    if dag.Failure? {
      return Failure(dag.error);
    }
    ghost var g := GraphFrom(Flatten(subs));
    var upstream := Upstream(dag.value, tasks);
    DagIsSound(dag.value);
    var levels := dag.value.GetExecutionLevels();
    if levels.Failure? {
      return Failure(levels.error);
    }
    var targets := Arrange(g, dag.value.taskOrder, levels.value, upstream, tasks);
    forall n, d | n in Elements(targets) && Reach(g, n, d)
      ensures d in Elements(targets)
    {
      ChosenIsClosed(g, Elements(tasks), upstream, n, d);
    }
    r := Success(targets);
  }
}
