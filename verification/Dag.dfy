/**
 The task DAG of one subpipeline. Building it rewrites the tasks it is given: with implicit
 sequencing, a task that declares no dependency is made to depend on the task before it.
 */
module Dag {
  import opened Wrappers
  import opened Graph
  import opened Listing
  import opened Levels
  import Closure
  import Kahn

  class ResolvedTask<T> {
    const name: T
    var dependsOn: seq<T>

    constructor (name: T, dependsOn: seq<T>)
      ensures this.name == name && this.dependsOn == dependsOn
    {
      this.name := name;
      this.dependsOn := dependsOn;
    }
  }

  // ---------- the declarations as values ----------

  datatype Decl<T> = Decl(name: T, dependsOn: seq<T>)

  ghost function Decls<T>(tasks: seq<ResolvedTask<T>>): (r: seq<Decl<T>>)
    reads tasks
    ensures |r| == |tasks|
    ensures forall i :: 0 <= i < |tasks| ==> r[i] == Decl(tasks[i].name, tasks[i].dependsOn)
  {
    if tasks == [] then []
    else Decls(tasks[..|tasks| - 1]) + [Decl(tasks[|tasks| - 1].name, tasks[|tasks| - 1].dependsOn)]
  }

  function Names<T>(decls: seq<Decl<T>>): seq<T> {
    seq(|decls|, i requires 0 <= i < |decls| => decls[i].name)
  }

  /** The declared dependency lists, indexed by task name. */
  ghost predicate GraphOf<T(!new)>(decls: seq<Decl<T>>, g: Graph<T>) {
    && g.Keys == Elements(Names(decls))
    && forall i :: 0 <= i < |decls| ==> decls[i].name in g && g[decls[i].name] == decls[i].dependsOn
  }

  /** The graph the declarations stand for; with distinct names it is the only one. */
  ghost function GraphFrom<T(!new)>(decls: seq<Decl<T>>): Graph<T> {
    map n | n in Elements(Names(decls)) :: decls[IndexOf(Names(decls), n)].dependsOn
  }

  lemma GraphFromIsGraphOf<T(!new)>(decls: seq<Decl<T>>)
    requires Distinct(Names(decls))
    ensures GraphOf(decls, GraphFrom(decls))
  {
    var names := Names(decls);
    forall i | 0 <= i < |decls|
      ensures decls[i].name in GraphFrom(decls) && GraphFrom(decls)[decls[i].name] == decls[i].dependsOn
    {
      assert names[i] == decls[i].name;
      var j := IndexOf(names, names[i]);
      assert names[j] == names[i];
    }
  }

  lemma GraphAt<T(!new)>(decls: seq<Decl<T>>, i: nat)
    requires Distinct(Names(decls)) && i < |decls|
    ensures decls[i].name in GraphFrom(decls) && GraphFrom(decls)[decls[i].name] == decls[i].dependsOn
  {
    GraphFromIsGraphOf(decls);
  }

  lemma GraphFromKeys<T(!new)>(decls: seq<Decl<T>>)
    ensures GraphFrom(decls).Keys == Elements(Names(decls))
  {
  }

  lemma LevellableIff<T(!new)>(decls: seq<Decl<T>>)
    ensures Levellable(decls) <==> KnownDependencies(decls) && !Cyclic(GraphFrom(decls))
  {
  }

  lemma OnlyGraphOf<T(!new)>(decls: seq<Decl<T>>, g: Graph<T>)
    requires Distinct(Names(decls)) && GraphOf(decls, g)
    ensures g == GraphFrom(decls)
  {
  }

  /** A task without dependencies waits for the task declared before it; the first waits for none. */
  function Chained<T>(decls: seq<Decl<T>>): (r: seq<Decl<T>>)
    ensures |r| == |decls|
  {
    seq(|decls|, i requires 0 <= i < |decls| =>
      if i > 0 && decls[i].dependsOn == [] then Decl(decls[i].name, [decls[i - 1].name]) else decls[i])
  }

  ghost predicate KnownDependencies<T>(decls: seq<Decl<T>>) {
    forall i, d :: 0 <= i < |decls| && d in decls[i].dependsOn ==> d in Names(decls)
  }

  /** The tasks can be put into levels. */
  ghost predicate Levellable<T(!new)>(decls: seq<Decl<T>>) {
    KnownDependencies(decls) && !Cyclic(GraphFrom(decls))
  }

  class DAG<T(==,!new)> {
    var tasks: map<T, ResolvedTask<T>>
    var taskOrder: seq<T>
    var adjacency: map<T, seq<T>>
    var reverseAdjacency: map<T, seq<T>>

    /** The dependency lists were transposed into the adjacency lists, and all names are known. */
    ghost predicate Valid()
      reads this
    {
      && Distinct(taskOrder)
      && Elements(taskOrder) == reverseAdjacency.Keys == tasks.Keys
      && Closed(reverseAdjacency)
      && Transposed(adjacency, reverseAdjacency)
    }

    constructor Init(tasks: seq<ResolvedTask<T>>)
      requires forall i, j :: 0 <= i < j < |tasks| ==> tasks[i].name != tasks[j].name
      ensures taskOrder == Names(Decls(tasks))
      ensures this.tasks.Keys == Elements(taskOrder)
      ensures forall i :: 0 <= i < |tasks| ==> tasks[i].name in this.tasks && this.tasks[tasks[i].name] == tasks[i]
      ensures Distinct(taskOrder)
    {
      hide Decls, Distinct;
      var byName: map<T, ResolvedTask<T>> := map[];
      for i := 0 to |tasks|
        invariant byName.Keys == Elements(Names(Decls(tasks))[..i])
        invariant forall j :: 0 <= j < i ==> tasks[j].name in byName && byName[tasks[j].name] == tasks[j]
      {
        assert Names(Decls(tasks))[..i + 1] == Names(Decls(tasks))[..i] + [tasks[i].name];
        byName := byName[tasks[i].name := tasks[i]];
      }
      this.tasks := byName;
      taskOrder := seq(|tasks|, i requires 0 <= i < |tasks| => tasks[i].name);
      adjacency := map[];
      reverseAdjacency := map[];
      assert Names(Decls(tasks))[..|tasks|] == Names(Decls(tasks));
      DistinctFromTasks(tasks);
    }

    /** Gives every task without a dependency the task declared before it. */
    static method ChainTasks(tasks: seq<ResolvedTask<T>>)
      requires forall i, j :: 0 <= i < j < |tasks| ==> tasks[i].name != tasks[j].name
      modifies tasks
      ensures Decls(tasks) == Chained(old(Decls(tasks)))
    {
      hide Decls;
      var i := 1;
      while i < |tasks|
        invariant 1 <= i
        invariant forall j :: 0 <= j < |tasks| && j < i ==>
          Decl(tasks[j].name, tasks[j].dependsOn) == Chained(old(Decls(tasks)))[j]
        invariant forall j :: i <= j < |tasks| ==> tasks[j].dependsOn == old(tasks[j].dependsOn)
      {
        if tasks[i].dependsOn == [] {
          tasks[i].dependsOn := [tasks[i - 1].name];
        }
        i := i + 1;
      }
    }

    /** Records one dependency in both directions. */
    method AddEdge(name: T, dep: T)
      requires Transposed(adjacency, reverseAdjacency)
      requires name in reverseAdjacency && dep in reverseAdjacency
      modifies this`adjacency, this`reverseAdjacency
      ensures Transposed(adjacency, reverseAdjacency)
      ensures reverseAdjacency == old(reverseAdjacency)[name := old(reverseAdjacency)[name] + [dep]]
    {
      AddEdgeKeepsTransposed(reverseAdjacency, adjacency, name, dep);
      hide Transposed;
      adjacency := adjacency[dep := adjacency[dep] + [name]];
      reverseAdjacency := reverseAdjacency[name := reverseAdjacency[name] + [dep]];
    }

    /** Records the dependencies of one task, stopping at the first unknown name. */
    method AddEdges(name: T, dependsOn: seq<T>) returns (unknown: Option<T>)
      requires Transposed(adjacency, reverseAdjacency)
      requires name in reverseAdjacency && reverseAdjacency[name] == []
      modifies this`adjacency, this`reverseAdjacency
      ensures Transposed(adjacency, reverseAdjacency)
      ensures reverseAdjacency.Keys == old(reverseAdjacency.Keys)
      ensures unknown.None? <==> forall d :: d in dependsOn ==> d in reverseAdjacency
      ensures unknown.Some? ==> FirstOutside(dependsOn, reverseAdjacency.Keys, unknown.value)
      ensures unknown.None? ==> reverseAdjacency == old(reverseAdjacency)[name := dependsOn]
    {
      hide Transposed;
      for j := 0 to |dependsOn|
        invariant Transposed(adjacency, reverseAdjacency)
        invariant reverseAdjacency == old(reverseAdjacency)[name := dependsOn[..j]]
        invariant forall d :: d in dependsOn[..j] ==> d in reverseAdjacency
      {
        assert dependsOn[..j + 1] == dependsOn[..j] + [dependsOn[j]];
        if dependsOn[j] !in reverseAdjacency {
          return Some(dependsOn[j]);
        }
        AddEdge(name, dependsOn[j]);
      }
      assert dependsOn[..|dependsOn|] == dependsOn;
      unknown := None;
    }

    lemma NowValid()
      requires Distinct(taskOrder) && Elements(taskOrder) == reverseAdjacency.Keys == tasks.Keys
      requires Closed(reverseAdjacency) && Transposed(adjacency, reverseAdjacency)
      ensures Valid()
    {
    }

    /** Transposes the dependency lists of all tasks, in declaration order. */
    method Connect(ghost decls: seq<Decl<T>>) returns (error: Option<Error<T>>)
      requires taskOrder == Names(decls) && Distinct(taskOrder)
      requires tasks.Keys == Elements(taskOrder)
      requires forall i :: 0 <= i < |decls| ==>
        decls[i].name in tasks && tasks[decls[i].name].dependsOn == decls[i].dependsOn
      modifies this`adjacency, this`reverseAdjacency
      ensures error.None? <==> KnownDependencies(decls)
      ensures error.Some? ==>
        error.value.UnknownDependency? && IsFirstUnknown(decls, error.value.node, error.value.dependency)
      ensures error.None? ==> Valid() && GraphOf(decls, reverseAdjacency)
    {
      hide *;
      adjacency := map n | n in tasks.Keys :: [];
      reverseAdjacency := map n | n in tasks.Keys :: [];
      NothingConnected(decls, adjacency, reverseAdjacency);
      for i := 0 to |taskOrder|
        invariant Transposed(adjacency, reverseAdjacency)
        invariant ConnectedUpTo(decls, i, reverseAdjacency)
      {
        var name := taskOrder[i];
        NameOf(decls, i);
        WaitsForItsTurn(decls, i, reverseAdjacency);
        ghost var before := reverseAdjacency;
        var unknown := AddEdges(name, tasks[name].dependsOn);
        if unknown.Some? {
          FoundUnknown(decls, i, before, unknown.value);
          return Some(UnknownDependency(name, unknown.value));
        }
        ConnectOne(decls, i, before);
      }
      AllKnown(decls, reverseAdjacency);
      error := None;
      NowValid();
    }

    /**
     Builds the DAG from the tasks, chaining them first if asked to. The tasks keep the chained
     dependencies even when building fails.
     */
    static method Create(tasks: seq<ResolvedTask<T>>, implicitSequential: bool)
      returns (r: Result<DAG<T>, Error<T>>)
      requires Distinct(Names(Decls(tasks)))
      modifies tasks
      ensures Decls(tasks) == if implicitSequential then Chained(old(Decls(tasks))) else old(Decls(tasks))
      ensures r.Success? <==> KnownDependencies(Decls(tasks))
      ensures r.Failure? ==>
        r.error.UnknownDependency? && IsFirstUnknown(Decls(tasks), r.error.node, r.error.dependency)
      ensures r.Success? ==>
        && fresh(r.value) && r.value.Valid()
        && r.value.taskOrder == Names(Decls(tasks))
        && r.value.reverseAdjacency == GraphFrom(Decls(tasks))
    {
      hide *;
      DistinctTasks(tasks);
      var dag := new DAG<T>.Init(tasks);
      if implicitSequential {
        ChainTasks(tasks);
      }
      ChainKeepsNames(old(Decls(tasks)));
      var error := dag.Connect(Decls(tasks));
      match error
      case Some(e) => r := Failure(e);
      case None =>
        OnlyGraphOf(Decls(tasks), dag.reverseAdjacency);
        r := Success(dag);
    }

    method TopologicalSort() returns (r: Result<seq<T>, Error<T>>)
      requires Valid()
      ensures r.Failure? <==> Cyclic(reverseAdjacency)
      ensures r.Failure? ==> r.error == Cycle(Stuck(reverseAdjacency))
      ensures r.Success? ==> Kahn.IsTopologicalOrder(reverseAdjacency, r.value)
    {
      r := Kahn.TopologicalSort(reverseAdjacency, taskOrder, adjacency);
    }

    /** The in-degrees are the lengths of the dependency lists. */
    method GetExecutionLevels() returns (r: Result<seq<seq<T>>, Error<T>>)
      requires Valid()
      ensures r.Failure? <==> Cyclic(reverseAdjacency)
      ensures r.Failure? ==> r.error == Cycle(Stuck(reverseAdjacency))
      ensures r.Success? ==> IsLevelling(taskOrder, reverseAdjacency, r.value)
    {
      var inDegree := map n | n in reverseAdjacency :: |reverseAdjacency[n]|;
      forall n | n in reverseAdjacency
        ensures inDegree[n] == CountOutside(reverseAdjacency[n], {})
      {
        CountOutsideEmpty(reverseAdjacency[n]);
      }
      r := PeelLevels(reverseAdjacency, taskOrder, adjacency, inDegree);
    }

    method GetDependents(name: T) returns (r: set<T>)
      requires Valid()
      ensures forall m :: m in r <==> Reach(reverseAdjacency, m, name)
    {
      Closure.TransposeBack(adjacency, reverseAdjacency);
      r := Closure.Search(adjacency, name);
      forall m
        ensures Reach(adjacency, name, m) <==> Reach(reverseAdjacency, m, name)
      {
        Closure.ReachTransposed(adjacency, reverseAdjacency, name, m);
      }
    }

    method GetDependencies(name: T) returns (r: set<T>)
      requires Valid()
      ensures forall m :: m in r <==> Reach(reverseAdjacency, name, m)
    {
      r := Closure.Search(reverseAdjacency, name);
    }
  }

  lemma DistinctFromTasks<T>(tasks: seq<ResolvedTask<T>>)
    requires forall i, j :: 0 <= i < j < |tasks| ==> tasks[i].name != tasks[j].name
    ensures Distinct(Names(Decls(tasks)))
  {
  }

  lemma DistinctTasks<T>(tasks: seq<ResolvedTask<T>>)
    requires Distinct(Names(Decls(tasks)))
    ensures forall i, j :: 0 <= i < j < |tasks| ==> tasks[i].name != tasks[j].name
  {
    hide Decls, Names, Distinct;
    DistinctDeclarations(Decls(tasks));
    forall i, j | 0 <= i < j < |tasks|
      ensures tasks[i].name != tasks[j].name
    {
      assert Decls(tasks)[i].name == tasks[i].name && Decls(tasks)[j].name == tasks[j].name;
    }
  }

  lemma DistinctDeclarations<T>(decls: seq<Decl<T>>)
    requires Distinct(Names(decls))
    ensures forall i, j :: 0 <= i < j < |decls| ==> decls[i].name != decls[j].name
  {
    var names := Names(decls);
    assert forall i :: 0 <= i < |decls| ==> names[i] == decls[i].name;
  }

  /** The first entry of the list that is not among the known names. */
  ghost predicate FirstOutside<T(!new)>(deps: seq<T>, known: set<T>, dep: T) {
    exists k :: 0 <= k < |deps| && deps[k] == dep && dep !in known && forall d :: d in deps[..k] ==> d in known
  }

  /** The task is the first one with an unknown dependency, and the dependency its first unknown one. */
  ghost predicate IsFirstUnknown<T(!new)>(decls: seq<Decl<T>>, name: T, dep: T) {
    exists i :: 0 <= i < |decls| && decls[i].name == name &&
      FirstOutside(decls[i].dependsOn, Elements(Names(decls)), dep) &&
      forall j, d :: 0 <= j < i && d in decls[j].dependsOn ==> d in Names(decls)
  }

  /** The first i dependency lists are recorded, the others are still empty. */
  ghost predicate ConnectedUpTo<T(!new)>(decls: seq<Decl<T>>, i: nat, g: Graph<T>) {
    && g.Keys == Elements(Names(decls))
    && (forall j :: 0 <= j < |decls| ==>
      decls[j].name in g && g[decls[j].name] == if j < i then decls[j].dependsOn else [])
    && (forall j, d :: 0 <= j < |decls| && j < i && d in decls[j].dependsOn ==> d in g)
  }

  lemma NameOf<T(!new)>(decls: seq<Decl<T>>, i: nat)
    requires i < |decls|
    ensures |Names(decls)| == |decls| && Names(decls)[i] == decls[i].name
    ensures decls[i].name in Elements(Names(decls))
  {
  }

  lemma NothingConnected<T(!new)>(decls: seq<Decl<T>>, adj: Graph<T>, g: Graph<T>)
    requires adj.Keys == g.Keys == Elements(Names(decls))
    requires forall n :: n in g ==> g[n] == [] && adj[n] == []
    ensures Transposed(adj, g) && ConnectedUpTo(decls, 0, g)
    ensures |Names(decls)| == |decls|
  {
    forall j | 0 <= j < |decls|
      ensures decls[j].name in g
    {
      NameOf(decls, j);
    }
  }

  lemma WaitsForItsTurn<T(!new)>(decls: seq<Decl<T>>, i: nat, g: Graph<T>)
    requires i < |decls| && ConnectedUpTo(decls, i, g)
    ensures decls[i].name in g && g[decls[i].name] == []
    ensures g.Keys == Elements(Names(decls))
  {
  }

  lemma ConnectOne<T(!new)>(decls: seq<Decl<T>>, i: nat, g: Graph<T>)
    requires i < |decls| && Distinct(Names(decls)) && ConnectedUpTo(decls, i, g)
    requires forall d :: d in decls[i].dependsOn ==> d in g
    ensures ConnectedUpTo(decls, i + 1, g[decls[i].name := decls[i].dependsOn])
  {
    forall j | 0 <= j < |decls| && j != i
      ensures decls[j].name != decls[i].name
    {
      NameOf(decls, i);
      NameOf(decls, j);
    }
    NameOf(decls, i);
  }

  lemma FoundUnknown<T(!new)>(decls: seq<Decl<T>>, i: nat, g: Graph<T>, dep: T)
    requires i < |decls| && ConnectedUpTo(decls, i, g)
    requires FirstOutside(decls[i].dependsOn, g.Keys, dep)
    ensures IsFirstUnknown(decls, decls[i].name, dep) && !KnownDependencies(decls)
  {
  }

  lemma AllKnown<T(!new)>(decls: seq<Decl<T>>, g: Graph<T>)
    requires ConnectedUpTo(decls, |decls|, g)
    ensures KnownDependencies(decls) && Closed(g) && GraphOf(decls, g)
  {
  }

  lemma KnownIsClosed<T(!new)>(decls: seq<Decl<T>>)
    requires Distinct(Names(decls)) && KnownDependencies(decls)
    ensures GraphOf(decls, GraphFrom(decls)) && Closed(GraphFrom(decls))
    ensures Elements(Names(decls)) == GraphFrom(decls).Keys
  {
    GraphFromIsGraphOf(decls);
    var g := GraphFrom(decls);
    forall n, d | n in g && d in g[n]
      ensures d in g
    {
      assert n in Names(decls);
      var i :| 0 <= i < |decls| && Names(decls)[i] == n;
      assert decls[i].name == n;
    }
  }

  // ---------- chaining twice is chaining once ----------

  /** After a first chained build, a second build on the same tasks changes no dependency. */
  lemma ChainedAgain<T>(decls: seq<Decl<T>>)
    ensures Chained(Chained(decls)) == Chained(decls)
  {
  }

  /**
   A run validates a subpipeline's tasks with a chained DAG and later builds a second DAG on the
   same task objects. Whatever the strategy, an accepted subpipeline is levelled without error, and
   on exactly the dependencies it was accepted with.
   */
  method AcceptThenLevel<T(==,!new)>(tasks: seq<ResolvedTask<T>>, parallel: bool)
    returns (accepted: Result<seq<T>, Error<T>>, levels: Result<seq<seq<T>>, Error<T>>)
    requires Distinct(Names(Decls(tasks)))
    modifies tasks
    ensures Decls(tasks) == Chained(old(Decls(tasks)))
    ensures accepted.Success? <==> levels.Success?
    ensures accepted.Success? ==> Kahn.IsTopologicalOrder(GraphFrom(Decls(tasks)), accepted.value)
    ensures levels.Success? ==> IsLevelling(Names(Decls(tasks)), GraphFrom(Decls(tasks)), levels.value)
  {
    hide *;
    var first := DAG<T>.Create(tasks, true);
    ChainKeepsNames(old(Decls(tasks)));
    ChainedAgain(old(Decls(tasks)));
    var second := DAG<T>.Create(tasks, !parallel);
    if first.Failure? {
      return Failure(first.error), Failure(second.error);
    }
    accepted := first.value.TopologicalSort();
    levels := second.value.GetExecutionLevels();
  }

  lemma ChainKeepsNames<T>(decls: seq<Decl<T>>)
    ensures Names(Chained(decls)) == Names(decls)
  {
  }

  // ---------- a pipeline that declares no dependency ----------

  ghost predicate IsLine<T(!new)>(order: seq<T>, g: Graph<T>) {
    && Distinct(order) && Elements(order) == g.Keys
    && forall i {:trigger Previous(order, i)} ::
      0 <= i < |order| ==> order[i] in g && g[order[i]] == Previous(order, i)
  }

  function Previous<T>(order: seq<T>, i: nat): seq<T>
    requires i < |order|
  {
    if i == 0 then [] else [order[i - 1]]
  }

  lemma {:induction false} LineChain<T(!new)>(order: seq<T>, g: Graph<T>, i: nat, k: nat)
    requires IsLine(order, g) && i < |order|
    ensures HasChain(g, order[i], k) <==> k <= i
    decreases k
  {
    var before := Previous(order, i);
    if k > 0 && i > 0 {
      LineChain(order, g, i - 1, k - 1);
      assert order[i - 1] in before && forall d :: d in before ==> d == order[i - 1];
    } else if k > 0 {
      assert before == [];
    }
  }

  /** With no declared dependency the levels are single tasks in declaration order. */
  lemma ChainRunsOneByOne<T(!new)>(decls: seq<Decl<T>>, g: Graph<T>, levels: seq<seq<T>>)
    requires Distinct(Names(decls)) && forall i :: 0 <= i < |decls| ==> decls[i].dependsOn == []
    requires g == GraphFrom(Chained(decls)) && IsLevelling(Names(decls), g, levels)
    ensures levels == seq(|decls|, i requires 0 <= i < |decls| => [decls[i].name])
  {
    var order := Names(decls);
    ChainKeepsNames(decls);
    var line := seq(|order|, i requires 0 <= i < |order| => [order[i]]);
    ChainedIsLine(decls, g);
    hide IsLine, Chained, Distinct;
    forall k | 0 <= k < |line|
      ensures line[k] == LevelAt(order, g, k)
    {
      SingletonLevel(order, g, k);
    }
    TopOfLine(order, g);
    LevellingUnique(order, g, levels, line);
  }

  lemma ChainedIsLine<T(!new)>(decls: seq<Decl<T>>, g: Graph<T>)
    requires Distinct(Names(decls)) && forall i :: 0 <= i < |decls| ==> decls[i].dependsOn == []
    requires g == GraphFrom(Chained(decls))
    ensures IsLine(Names(decls), g)
  {
    var order := Names(decls);
    ChainKeepsNames(decls);
    GraphFromIsGraphOf(Chained(decls));
    hide Distinct;
    forall i | 0 <= i < |order|
      ensures order[i] in g && g[order[i]] == Previous(order, i)
    {
      assert Chained(decls)[i].name == order[i];
    }
  }

  lemma SingletonLevel<T(!new)>(order: seq<T>, g: Graph<T>, k: nat)
    requires IsLine(order, g) && k < |order|
    ensures LevelAt(order, g, k) == [order[k]]
  {
    forall n | n in g
      ensures n in LevelSet(g, k) <==> n == order[k]
    {
      var i :| 0 <= i < |order| && order[i] == n;
      LineChain(order, g, i, k);
      LineChain(order, g, i, k + 1);
    }
    assert LevelSet(g, k) == {order[k]};
    RestrictToOne(order, k);
  }

  lemma {:induction false} RestrictToOne<T(!new)>(order: seq<T>, k: nat)
    requires Distinct(order) && k < |order|
    ensures Restrict(order, {order[k]}) == [order[k]]
  {
    var front := order[..|order| - 1];
    if k < |front| {
      RestrictToOne(front, k);
    } else {
      RestrictIgnores(front, {order[k]}, {});
      RestrictToNothing(front, {});
    }
  }

  lemma TopOfLine<T(!new)>(order: seq<T>, g: Graph<T>)
    requires IsLine(order, g)
    ensures ChainSet(g, |order|) == {}
  {
    forall n | n in g
      ensures !HasChain(g, n, |order|)
    {
      var i :| 0 <= i < |order| && order[i] == n;
      LineChain(order, g, i, |order|);
    }
  }

  // ---------- chaining only adds dependencies ----------

  lemma {:induction false} StepsInLarger<T(!new)>(g: Graph<T>, h: Graph<T>, a: T, b: T, k: nat)
    requires forall n, d :: n in g && d in g[n] ==> n in h && d in h[n]
    requires Steps(g, a, b, k)
    ensures Steps(h, a, b, k)
  {
    if k > 0 {
      var d :| d in g[a] && Steps(g, d, b, k - 1);
      StepsInLarger(g, h, d, b, k - 1);
    }
  }

  /** Chaining keeps every declared dependency. */
  lemma ChainKeepsEdges<T(!new)>(decls: seq<Decl<T>>)
    requires Distinct(Names(decls))
    ensures var g, h := GraphFrom(decls), GraphFrom(Chained(decls));
      forall n, d :: n in g && d in g[n] ==> n in h && d in h[n]
  {
    hide Distinct, GraphFrom;
    ChainKeepsNames(decls);
    GraphFromIsGraphOf(decls);
    GraphFromIsGraphOf(Chained(decls));
    var g, h := GraphFrom(decls), GraphFrom(Chained(decls));
    forall n, d | n in g && d in g[n]
      ensures n in h && d in h[n]
    {
      assert n in Names(decls);
      var i :| 0 <= i < |decls| && Names(decls)[i] == n;
      assert decls[i].name == n && Chained(decls)[i].name == n;
      assert d in Chained(decls)[i].dependsOn;
    }
  }

  lemma ChainedKnown<T(!new)>(decls: seq<Decl<T>>)
    requires KnownDependencies(Chained(decls))
    ensures KnownDependencies(decls)
  {
    ChainKeepsNames(decls);
    forall i, d | 0 <= i < |decls| && d in decls[i].dependsOn
      ensures d in Names(decls)
    {
      assert d in Chained(decls)[i].dependsOn;
    }
  }

  /** Tasks that are acyclic when chained are acyclic as declared. */
  lemma ChainedAcyclicIsAcyclic<T(!new)>(decls: seq<Decl<T>>)
    requires Distinct(Names(decls))
    requires KnownDependencies(Chained(decls)) && !Cyclic(GraphFrom(Chained(decls)))
    ensures KnownDependencies(decls) && !Cyclic(GraphFrom(decls))
  {
    hide *;
    ChainKeepsEdges(decls);
    ChainedKnown(decls);
    LargerAcyclic(GraphFrom(decls), GraphFrom(Chained(decls)));
  }

  lemma LargerAcyclic<T(!new)>(g: Graph<T>, h: Graph<T>)
    requires forall n, d :: n in g && d in g[n] ==> n in h && d in h[n]
    requires !Cyclic(h)
    ensures !Cyclic(g)
  {
    if c :| c in g && Reach(g, c, c) {
      ReachInLarger(g, h, c, c);
    }
  }

  lemma ReachInLarger<T(!new)>(g: Graph<T>, h: Graph<T>, a: T, b: T)
    requires forall n, d :: n in g && d in g[n] ==> n in h && d in h[n]
    requires Reach(g, a, b)
    ensures Reach(h, a, b)
  {
    var k: nat :| k > 0 && Steps(g, a, b, k);
    StepsInLarger(g, h, a, b, k);
  }
}
