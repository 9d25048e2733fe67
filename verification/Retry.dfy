/** Retrying chosen tasks of a finished run, level by level over the flattened task graph. */
module Retry {
  import opened Wrappers
  import opened Graph
  import opened Listing
  import opened Levels
  import opened Dag
  import opened Trace
  import opened SubRun
  import opened Qualified

  datatype RetryError<T> = Graph(error: Error<T>) | NegativeLimit

  /** The planned levels: pairwise disjoint, and nothing waits for a later level or its own. */
  ghost predicate PlanLevels<T(!new)>(g: Graph<T>, S: set<T>, levels: seq<seq<T>>) {
    && (forall i :: 0 <= i < |levels| ==> Distinct(levels[i]))
    && (forall i, j, n :: 0 <= i < j < |levels| && n in levels[i] ==> n !in levels[j])
    && (forall i, j, n, d :: 0 <= i <= j < |levels| && n in levels[i] && d in levels[j] ==> !Reach(g, n, d))
    && (forall n :: n in S && n in g <==> Planned(levels, n))
  }

  ghost predicate Planned<T>(levels: seq<seq<T>>, n: T) {
    exists i :: 0 <= i < |levels| && n in levels[i]
  }

  /** The levels so far, restricted to the plan: everything planned below level k, in order. */
  ghost predicate PlannedBelow<T(!new)>(g: Graph<T>, S: set<T>, k: nat, planned: seq<seq<T>>) {
    && (forall i :: 0 <= i < |planned| ==> Distinct(planned[i]))
    && (forall i, j, n :: 0 <= i < j < |planned| && n in planned[i] ==> n !in planned[j])
    && (forall i, j, n, d :: 0 <= i <= j < |planned| && n in planned[i] && d in planned[j] ==> !Reach(g, n, d))
    && (forall n :: n in S && n in Below(g, k) <==> Planned(planned, n))
  }

  /** Keeps the planned names of every level, and drops levels without any. */
  method FilterLevels<T(==,!new)>(ghost g: Graph<T>, ghost order: seq<T>, levels: seq<seq<T>>, plan: seq<T>)
    returns (planned: seq<seq<T>>)
    requires Closed(g) && Distinct(order) && Elements(order) == g.Keys && IsLevelling(order, g, levels)
    ensures PlanLevels(g, Elements(plan), planned)
  {
    hide *;
    planned := [];
    NothingPlanned(g, Elements(plan));
    for k := 0 to |levels|
      invariant PlannedBelow(g, Elements(plan), k, planned)
    {
      LevelFacts(order, g, levels, k);
      var kept := Restrict(levels[k], Elements(plan));
      RestrictDistinct(levels[k], Elements(plan));
      PlanOne(g, Elements(plan), k, levels[k], planned, kept);
      if kept != [] {
        planned := planned + [kept];
      }
    }
    EverythingBelow(order, g, levels);
    PlanComplete(g, Elements(plan), |levels|, planned);
  }

  lemma NothingPlanned<T(!new)>(g: Graph<T>, S: set<T>)
    ensures PlannedBelow(g, S, 0, [])
  {
  }

  lemma PlanComplete<T(!new)>(g: Graph<T>, S: set<T>, k: nat, planned: seq<seq<T>>)
    requires PlannedBelow(g, S, k, planned) && Below(g, k) == g.Keys
    ensures PlanLevels(g, S, planned)
  {
  }

  lemma PlanOne<T(!new)>(g: Graph<T>, S: set<T>, k: nat, level: seq<T>, planned: seq<seq<T>>, kept: seq<T>)
    requires PlannedBelow(g, S, k, planned) && kept == Restrict(level, S) && Distinct(kept)
    requires Elements(level) == LevelSet(g, k) && Below(g, k + 1) == Below(g, k) + LevelSet(g, k)
    requires NextBatch(g, Below(g, k), LevelSet(g, k))
    ensures PlannedBelow(g, S, k + 1, if kept == [] then planned else planned + [kept])
  {
    hide Below, LevelSet, Reach, Distinct, Restrict;
    var longer := if kept == [] then planned else planned + [kept];
    forall n
      ensures Planned(longer, n) <==> Planned(planned, n) || n in kept
    {
      PlannedSnoc(planned, kept, n);
    }
    assert forall n :: n in kept <==> n in Elements(level) && n in S;
    assert forall n :: Planned(planned, n) ==> n in Below(g, k);
    assert forall i, n :: 0 <= i < |planned| && n in planned[i] ==> Planned(planned, n);
  }

  lemma PlannedSnoc<T>(planned: seq<seq<T>>, kept: seq<T>, n: T)
    ensures Planned(planned + [kept], n) <==> Planned(planned, n) || n in kept
    ensures kept == [] ==> n !in kept
  {
    var longer := planned + [kept];
    if Planned(planned, n) {
      var i :| 0 <= i < |planned| && n in planned[i];
      assert longer[i] == planned[i];
    }
    if n in kept {
      assert longer[|planned|] == kept;
    }
  }

  // ---------- running ----------

  /** Every task waits for the semaphore, runs, or has its result; the trace agrees. */
  ghost predicate Gathering<T(!new), R>(
    tasks: set<T>, waiting: set<T>, running: set<T>, results: map<T, R>, trace: seq<Event<T>>, limit: nat,
    oracle: T -> R
  ) {
    && Shared(tasks, waiting, running, results.Keys) && |running| <= limit
    && Shown(tasks, running, results.Keys, trace, limit)
    && (forall n :: n in results ==> results[n] == oracle(n))
  }

  ghost predicate Shared<T>(tasks: set<T>, waiting: set<T>, running: set<T>, done: set<T>) {
    waiting !! running && done !! waiting && done !! running && waiting + running + done == tasks
  }

  ghost predicate Shown<T(!new)>(tasks: set<T>, running: set<T>, done: set<T>, trace: seq<Event<T>>, limit: nat) {
    && WellFormed(trace) && OnlyTasks(trace, tasks) && AtMostInFlight(trace, limit) && InFlight(trace) == |running|
    && Listed(running, done, trace)
  }

  ghost predicate Listed<T(!new)>(running: set<T>, done: set<T>, trace: seq<Event<T>>) {
    && (forall n :: Start(n) in trace <==> n in running || n in done)
    && (forall n :: Finish(n) in trace <==> n in done)
  }

  lemma ListedStart<T(!new)>(running: set<T>, done: set<T>, trace: seq<Event<T>>, n: T)
    requires Listed(running, done, trace) && n !in running && n !in done
    ensures Start(n) !in trace && Listed(running + {n}, done, trace + [Start(n)])
    ensures |running + {n}| == |running| + 1
  {
  }

  lemma ListedFinish<T(!new)>(running: set<T>, done: set<T>, trace: seq<Event<T>>, n: T)
    requires Listed(running, done, trace) && n in running && n !in done
    ensures Start(n) in trace && Finish(n) !in trace && Listed(running - {n}, done + {n}, trace + [Finish(n)])
    ensures |running - {n}| == |running| - 1
  {
  }

  lemma GatherNothing<T(!new), R>(tasks: set<T>, limit: nat, oracle: T -> R)
    ensures Gathering(tasks, tasks, {}, map[], [], limit, oracle)
  {
  }

  lemma ShownStart<T(!new)>(tasks: set<T>, running: set<T>, done: set<T>, trace: seq<Event<T>>, limit: nat, n: T)
    requires Shown(tasks, running, done, trace, limit) && n in tasks && n !in running && n !in done && |running| < limit
    ensures Shown(tasks, running + {n}, done, trace + [Start(n)], limit)
  {
    hide WellFormed, AtMostInFlight, InFlight, OnlyTasks, Listed;
    ListedStart(running, done, trace, n);
    StartSnoc(trace, n);
    BoundSnoc(trace, Start(n), limit);
    OnlyTasksSnoc(tasks, trace, Start(n));
  }

  lemma ShownFinish<T(!new)>(tasks: set<T>, running: set<T>, done: set<T>, trace: seq<Event<T>>, limit: nat, n: T)
    requires Shown(tasks, running, done, trace, limit) && n in tasks && n in running && n !in done && |running| <= limit
    ensures Shown(tasks, running - {n}, done + {n}, trace + [Finish(n)], limit)
  {
    hide WellFormed, AtMostInFlight, InFlight, OnlyTasks, Listed;
    ListedFinish(running, done, trace, n);
    FinishSnoc(trace, n);
    BoundSnoc(trace, Finish(n), limit);
    OnlyTasksSnoc(tasks, trace, Finish(n));
  }

  lemma GatherStart<T(!new), R>(
    tasks: set<T>, waiting: set<T>, running: set<T>, results: map<T, R>, trace: seq<Event<T>>, limit: nat,
    oracle: T -> R, n: T
  )
    requires Gathering(tasks, waiting, running, results, trace, limit, oracle) && n in waiting && |running| < limit
    ensures Gathering(tasks, waiting - {n}, running + {n}, results, trace + [Start(n)], limit, oracle)
  {
    hide Shown, Shared;
    SharedStart(tasks, waiting, running, results.Keys, n);
    ShownStart(tasks, running, results.Keys, trace, limit, n);
    assert |running + {n}| == |running| + 1;
  }

  lemma SharedStart<T>(tasks: set<T>, waiting: set<T>, running: set<T>, done: set<T>, n: T)
    requires Shared(tasks, waiting, running, done) && n in waiting
    ensures Shared(tasks, waiting - {n}, running + {n}, done) && n in tasks && n !in running && n !in done
  {
  }

  lemma GatherFinish<T(!new), R>(
    tasks: set<T>, waiting: set<T>, running: set<T>, results: map<T, R>, trace: seq<Event<T>>, limit: nat,
    oracle: T -> R, n: T
  )
    requires Gathering(tasks, waiting, running, results, trace, limit, oracle) && n in running
    ensures Gathering(tasks, waiting, running - {n}, results[n := oracle(n)], trace + [Finish(n)], limit, oracle)
  {
    hide Shown, Shared;
    SharedFinish(tasks, waiting, running, results.Keys, n);
    ShownFinish(tasks, running, results.Keys, trace, limit, n);
    assert results[n := oracle(n)].Keys == results.Keys + {n};
    assert |running - {n}| <= limit;
  }

  lemma SharedFinish<T>(tasks: set<T>, waiting: set<T>, running: set<T>, done: set<T>, n: T)
    requires Shared(tasks, waiting, running, done) && n in running
    ensures Shared(tasks, waiting, running - {n}, done + {n}) && n in tasks && n !in done
  {
  }

  lemma GatherDone<T(!new), R>(tasks: set<T>, results: map<T, R>, trace: seq<Event<T>>, limit: nat, oracle: T -> R)
    requires Gathering(tasks, {}, {}, results, trace, limit, oracle)
    ensures IsBatch(trace, tasks) && AtMostInFlight(trace, limit) && InFlight(trace) == 0
    ensures results.Keys == tasks && forall n :: n in tasks ==> Start(n) in trace && results[n] == oracle(n)
  {
  }

  /** Gathers all tasks of a level, at most `limit` of them past the semaphore at any moment. */
  method Gather<T(==,!new), R>(tasks: seq<T>, limit: nat, oracle: T -> R)
    returns (results: map<T, R>, ghost trace: seq<Event<T>>)
    requires Distinct(tasks) && limit >= 1
    ensures IsBatch(trace, Elements(tasks)) && AtMostInFlight(trace, limit) && InFlight(trace) == 0
    ensures results.Keys == Elements(tasks) && forall n :: n in tasks ==> results[n] == oracle(n)
    ensures forall n :: n in tasks ==> Start(n) in trace
  {
    hide Gathering, WellFormed, AtMostInFlight, InFlight, Distinct;
    ghost var all := Elements(tasks);
    var waiting, running := Elements(tasks), {};
    results, trace := map[], [];
    GatherNothing(all, limit, oracle);
    while waiting != {} || running != {}
      invariant Gathering(all, waiting, running, results, trace, limit, oracle)
      decreases |waiting|, |running|
    {
      var start: bool := *;
      if waiting != {} && |running| < limit && (start || running == {}) {
        var n :| n in waiting;
        GatherStart(all, waiting, running, results, trace, limit, oracle, n);
        trace := trace + [Start(n)];
        waiting, running := waiting - {n}, running + {n};
      } else {
        var n :| n in running;
        GatherFinish(all, waiting, running, results, trace, limit, oracle, n);
        trace := trace + [Finish(n)];
        running, results := running - {n}, results[n := oracle(n)];
      }
    }
    GatherDone(all, results, trace, limit, oracle);
  }

  /** Where the retry stands: the tasks of `done` have run, in order. */
  ghost predicate Progress<T(!new), R>(
    g: Graph<T>, done: set<T>, results: map<T, R>, trace: seq<Event<T>>, oracle: T -> R, limit: nat
  ) {
    && IsBatch(trace, done) && Ordered(g, trace) && AtMostInFlight(trace, limit) && InFlight(trace) == 0
    && results.Keys == done && forall n :: n in done ==> Start(n) in trace && results[n] == oracle(n)
  }

  lemma NoProgress<T(!new), R>(g: Graph<T>, oracle: T -> R, limit: nat)
    ensures Progress(g, {}, map[], [], oracle, limit)
  {
  }

  lemma ProgressGrows<T(!new), R>(
    g: Graph<T>, done: set<T>, results: map<T, R>, trace: seq<Event<T>>, oracle: T -> R, limit: nat,
    batch: set<T>, news: map<T, R>, more: seq<Event<T>>
  )
    requires Progress(g, done, results, trace, oracle, limit) && NextBatch(g, done, batch)
    requires IsBatch(more, batch) && AtMostInFlight(more, limit) && InFlight(more) == 0
    requires news.Keys == batch && forall n :: n in batch ==> Start(n) in more && news[n] == oracle(n)
    ensures Progress(g, done + batch, results + news, trace + more, oracle, limit)
  {
    hide WellFormed, AtMostInFlight, InFlight, IsBatch, NextBatch;
    BatchKeepsOrder(g, trace, done, more, batch);
    BoundConcat(trace, more, limit);
    hide Ordered;
  }

  /** Runs the tasks one after another, each a batch of its own. */
  method RunOneByOne<T(==,!new), R>(
    ghost g: Graph<T>, tasks: seq<T>, oracle: T -> R, limit: nat,
    done: set<T>, results0: map<T, R>, ghost trace0: seq<Event<T>>
  ) returns (results: map<T, R>, ghost trace: seq<Event<T>>)
    requires limit >= 1 && Distinct(tasks) && Progress(g, done, results0, trace0, oracle, limit)
    requires NextBatch(g, done, Elements(tasks))
    ensures Progress(g, done + Elements(tasks), results, trace, oracle, limit)
    ensures results.Keys == done + Elements(tasks) && forall n :: n in results ==> results[n] == oracle(n)
  {
    hide *;
    results, trace := results0, trace0;
    PrefixIsEmpty(tasks);
    assert done + Elements(tasks[..0]) == done;
    for i := 0 to |tasks|
      invariant Progress(g, done + Elements(tasks[..i]), results, trace, oracle, limit)
    {
      NextIsSingle(g, done, tasks, i);
      var news;
      ghost var more;
      news, more := Gather([tasks[i]], limit, oracle);
      SingleElements(tasks[i]);
      ProgressGrows(g, done + Elements(tasks[..i]), results, trace, oracle, limit, {tasks[i]}, news, more);
      ElementsSnoc(tasks, i);
      assert done + Elements(tasks[..i]) + {tasks[i]} == done + Elements(tasks[..i + 1]);
      results, trace := results + news, trace + more;
    }
    assert tasks[..|tasks|] == tasks;
    ProgressMeans(g, done + Elements(tasks), results, trace, oracle, limit);
  }

  lemma PrefixIsEmpty<T(!new)>(tasks: seq<T>)
    ensures Elements(tasks[..0]) == {}
  {
  }

  lemma SingleElements<T(!new)>(n: T)
    ensures Elements([n]) == {n} && Distinct([n]) && forall m :: m in [n] <==> m == n
  {
  }

  lemma NextIsSingle<T(!new)>(g: Graph<T>, done: set<T>, tasks: seq<T>, i: nat)
    requires i < |tasks| && Distinct(tasks) && NextBatch(g, done, Elements(tasks))
    ensures NextBatch(g, done + Elements(tasks[..i]), {tasks[i]})
    ensures Distinct([tasks[i]])
  {
  }

  /** The planned nodes of the first i planned levels. */
  ghost predicate Reached<T(!new)>(planned: seq<seq<T>>, i: nat, done: set<T>) {
    i <= |planned| && forall n :: n in done <==> Planned(planned[..i], n)
  }

  lemma NextPlanned<T(!new)>(g: Graph<T>, S: set<T>, planned: seq<seq<T>>, i: nat, done: set<T>)
    requires PlanLevels(g, S, planned) && Reached(planned, i, done) && i < |planned|
    ensures Distinct(planned[i]) && NextBatch(g, done, Elements(planned[i]))
    ensures Reached(planned, i + 1, done + Elements(planned[i]))
  {
  }

  lemma PlanReached<T(!new)>(g: Graph<T>, S: set<T>, planned: seq<seq<T>>, done: set<T>)
    requires PlanLevels(g, S, planned) && Reached(planned, |planned|, done)
    ensures forall n :: n in done <==> n in S && n in g
  {
  }

  lemma NoneReached<T(!new)>(planned: seq<seq<T>>)
    ensures Reached(planned, 0, {})
  {
  }

  /** Names the graph does not know depend on nothing and nothing depends on them. */
  lemma StrangersAreFree<T(!new)>(g: Graph<T>, done: set<T>, strangers: seq<T>)
    requires Closed(g) && done !! Elements(strangers) && forall n :: n in strangers ==> n !in g
    ensures NextBatch(g, done, Elements(strangers))
  {
    forall n, d | d in Elements(strangers)
      ensures !Reach(g, n, d)
    {
      if Reach(g, n, d) {
        ReachInside(g, n, d);
      }
    }
  }

  /** Runs the planned levels in order, then the planned names that stand in no level. */
  method ExecutePlan<T(==,!new), R>(
    ghost g: Graph<T>, planned: seq<seq<T>>, plan: seq<T>, sequential: bool, limit: nat, oracle: T -> R
  ) returns (results: map<T, R>, ghost trace: seq<Event<T>>)
    requires Closed(g) && Distinct(plan) && limit >= 1 && (sequential ==> limit == 1)
    requires PlanLevels(g, Elements(plan), planned)
    ensures Progress(g, Elements(plan), results, trace, oracle, limit)
    ensures results.Keys == Elements(plan) && forall n :: n in plan ==> results[n] == oracle(n)
  {
    hide *;
    results, trace := map[], [];
    var done := {};
    NoProgress(g, oracle, limit);
    NoneReached(planned);
    for i := 0 to |planned|
      invariant Progress(g, done, results, trace, oracle, limit) && Reached(planned, i, done)
    {
      NextPlanned(g, Elements(plan), planned, i, done);
      if sequential {
        results, trace := RunOneByOne(g, planned[i], oracle, limit, done, results, trace);
      } else {
        var news;
        ghost var more;
        news, more := Gather(planned[i], limit, oracle);
        ProgressGrows(g, done, results, trace, oracle, limit, Elements(planned[i]), news, more);
        results, trace := results + news, trace + more;
      }
      done := done + Elements(planned[i]);
    }
    PlanReached(g, Elements(plan), planned, done);
    var rest := Without(plan, done);
    assert forall n :: n in rest ==> n in Elements(rest);
    StrangersAreFree(g, done, rest);
    results, trace := RunOneByOne(g, rest, oracle, limit, done, results, trace);
    assert done + Elements(rest) == Elements(plan);
  }

  /** How many retried tasks may run at once: a missing or zero setting means ten. */
  function RetryLimit(maxParallel: Option<int>): (limit: int)
    ensures limit != 0
    ensures maxParallel == Some(limit) || (limit == 10 && (maxParallel.None? || maxParallel == Some(0)))
  {
    if maxParallel.Some? && maxParallel.value != 0 then maxParallel.value else 10
  }

  /**
   Retries the planned tasks. Each runs exactly once, never before a planned task it depends on has
   finished, however many unplanned tasks lie between the two.
   */
  method RetryTasks<R>(
    subs: seq<Sub>, plan: seq<string>, sequential: bool, maxParallel: Option<int>, oracle: string -> R
  ) returns (r: Result<map<string, R>, RetryError<string>>, ghost trace: seq<Event<string>>)
    requires Distinct(plan) && Distinct(QualifiedNames(subs))
    ensures r.Success? <==>
      && KnownDependencies(Flatten(subs)) && !Cyclic(GraphFrom(Flatten(subs)))
      && RetryLimit(maxParallel) > 0
    ensures r.Failure? ==> trace == []
    ensures r.Failure? ==>
      (r.error.NegativeLimit? <==> KnownDependencies(Flatten(subs)) && !Cyclic(GraphFrom(Flatten(subs))))
    ensures r.Failure? && r.error.Graph? && KnownDependencies(Flatten(subs)) ==>
      r.error.error == Cycle(Stuck(GraphFrom(Flatten(subs))))
    ensures r.Failure? && r.error.Graph? && !KnownDependencies(Flatten(subs)) ==>
      r.error.error.UnknownDependency?
      && IsFirstUnknown(Flatten(subs), r.error.error.node, r.error.error.dependency)
    ensures r.Success? ==>
      && IsBatch(trace, Elements(plan)) && Ordered(GraphFrom(Flatten(subs)), trace)
      && AtMostInFlight(trace, if sequential then 1 else RetryLimit(maxParallel))
      && r.value.Keys == Elements(plan)
      && forall n :: n in Elements(plan) ==> Start(n) in trace && r.value[n] == oracle(n)
  {
    hide *;
    trace := [];
    var qualified := BuildQualifiedTasks(subs);
    NamesOfFlat(subs);
    var dag := DAG<string>.Create(qualified, false);
    if dag.Failure? {
      return Failure(RetryError.Graph(dag.error)), trace;
    }
    var levels := dag.value.GetExecutionLevels();
    if levels.Failure? {
      return Failure(RetryError.Graph(levels.error)), trace;
    }
    DagIsSound(dag.value);
    ghost var g := GraphFrom(Flatten(subs));
    var planned := FilterLevels(g, dag.value.taskOrder, levels.value, plan);
    var limit := RetryLimit(maxParallel);
    if limit < 0 {
      return Failure(NegativeLimit), trace;
    }
    var results;
    results, trace := ExecutePlan(g, planned, plan, sequential, if sequential then 1 else limit, oracle);
    ProgressMeans(g, Elements(plan), results, trace, oracle, if sequential then 1 else limit);
    r := Success(results);
  }

  lemma ProgressMeans<T(!new), R>(
    g: Graph<T>, done: set<T>, results: map<T, R>, trace: seq<Event<T>>, oracle: T -> R, limit: nat
  )
    requires Progress(g, done, results, trace, oracle, limit)
    ensures IsBatch(trace, done) && Ordered(g, trace) && AtMostInFlight(trace, limit)
    ensures results.Keys == done && forall n :: n in done ==> Start(n) in trace && results[n] == oracle(n)
  {
  }

  /**
   A pipeline whose subpipelines were accepted, with chained tasks, and can be levelled can always be
   retried, provided no subpipeline's prefix matches a foreign task.
   */
  lemma AcceptedCanBeRetried(subs: seq<Sub>)
    requires DistinctSubs(subs) && Distinct(QualifiedNames(subs)) && NoForeignPrefix(subs)
    requires forall i :: 0 <= i < |subs| ==> Accepted(subs[i])
    requires !Cyclic(GraphFrom(SubDecls(subs)))
    ensures KnownDependencies(Flatten(subs)) && !Cyclic(GraphFrom(Flatten(subs)))
  {
    hide Distinct, NoForeignPrefix, GraphFrom, Cyclic, Flatten;
    forall i | 0 <= i < |subs|
      ensures SoundSub(subs[i])
    {
      assert Accepted(subs[i]);
      ChainedAcyclicIsAcyclic(subs[i].tasks);
    }
    FlattenedIsAcyclic(subs);
  }

  /** What run creation checks of one subpipeline. */
  ghost predicate Accepted(sub: Sub) {
    && Distinct(Names(sub.tasks))
    && KnownDependencies(Chained(sub.tasks)) && !Cyclic(GraphFrom(Chained(sub.tasks)))
  }
}
