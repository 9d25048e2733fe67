/**
 The run of a whole pipeline: its subpipelines level by level, each executed task by task, failures
 passed on to dependents, up to the status the run ends with.
 */
module PipelineRun {
  import opened Wrappers
  import opened Graph
  import opened Listing
  import opened Levels
  import opened Dag
  import opened Scheduler
  import opened Subpipelines
  import opened Trace
  import opened SubRun

  /** The failure policy holds for the subpipeline itself, and for tasks without one of their own. */
  datatype Config<T> = Config(
    parallel: bool, maxConcurrentTasks: Option<int>, onFailure: string, taskPolicies: map<T, string>
  )

  datatype Subpipeline<S, T> = Subpipeline(
    name: S, dependsOn: seq<S>, tasks: seq<ResolvedTask<T>>, config: Config<T>
  )

  function SubDecls<S, T>(subs: seq<Subpipeline<S, T>>): (r: seq<Decl<S>>)
    ensures |r| == |subs|
    ensures forall i :: 0 <= i < |subs| ==> r[i].name == subs[i].name && r[i].dependsOn == subs[i].dependsOn
  {
    seq(|subs|, i requires 0 <= i < |subs| => Decl(subs[i].name, subs[i].dependsOn))
  }

  /** How a subpipeline's execution comes back: it succeeds, reports failure, or raises. */
  datatype SubResult = Succeeded | ReportedFailure | RaisedError

  function ResultOf<T>(o: SubOutcome<T>): SubResult {
    if o.Escaped? then RaisedError else if o.Succeeded() then Succeeded else ReportedFailure
  }

  datatype Status = SUCCESS | PARTIAL | FAILED | CANCELLED

  /** The sets the run keeps; a subpipeline may be marked failed before its level comes up. */
  datatype Books<T> = Books(failed: set<T>, completed: set<T>)

  datatype Policy<!T(==)> = Policy(continues: set<T>, outcome: T -> SubResult) {
    /** A failure that takes all dependents down with it. */
    predicate Fatal(s: T) {
      outcome(s).RaisedError? || (outcome(s).ReportedFailure? && s !in continues)
    }
  }

  /** n depends, directly or transitively, on an executed subpipeline that failed fatally. */
  ghost predicate Doomed<T(!new)>(g: Graph<T>, policy: Policy<T>, executed: set<T>, n: T) {
    exists d :: d in executed && policy.Fatal(d) && Reach(g, n, d)
  }

  /** What the two sets hold, given which subpipelines have executed. */
  ghost predicate Kept<T(!new)>(g: Graph<T>, policy: Policy<T>, executed: set<T>, books: Books<T>) {
    && (forall n :: n in books.failed <==>
      Doomed(g, policy, executed, n) || (n in executed && !policy.outcome(n).Succeeded?))
    && (forall n :: n in books.completed <==> n in executed && policy.outcome(n).Succeeded?)
    && (forall n :: n in executed ==> n in g && !Doomed(g, policy, executed, n))
  }

  /** All subpipelines of the set are either executed or doomed. */
  ghost predicate Covered<T(!new)>(g: Graph<T>, policy: Policy<T>, executed: set<T>, visited: set<T>) {
    executed <= visited && forall n :: n in visited ==> n in executed || Doomed(g, policy, executed, n)
  }

  /** No subpipeline that ran can depend on one of the level that is running now. */
  ghost predicate NothingAbove<T(!new)>(g: Graph<T>, executed: set<T>, s: T) {
    s in g && !Reach(g, s, s) && forall n :: n in executed ==> !Reach(g, n, s)
  }

  lemma DoomedGrows<T(!new)>(g: Graph<T>, policy: Policy<T>, executed: set<T>, s: T, n: T)
    ensures Doomed(g, policy, executed + {s}, n) <==>
      Doomed(g, policy, executed, n) || (policy.Fatal(s) && Reach(g, n, s))
  {
  }

  /** Two policies that do not differ on what has executed. */
  ghost predicate AgreeOn<T(!new)>(a: Policy<T>, b: Policy<T>, executed: set<T>) {
    a.continues == b.continues && forall s :: s in executed ==> a.outcome(s) == b.outcome(s)
  }

  lemma AgreedDoom<T(!new)>(g: Graph<T>, a: Policy<T>, b: Policy<T>, executed: set<T>, n: T)
    requires AgreeOn(a, b, executed)
    ensures Doomed(g, a, executed, n) <==> Doomed(g, b, executed, n)
  {
    if Doomed(g, a, executed, n) {
      var d :| d in executed && a.Fatal(d) && Reach(g, n, d);
      assert b.Fatal(d);
    }
    if Doomed(g, b, executed, n) {
      var d :| d in executed && b.Fatal(d) && Reach(g, n, d);
      assert a.Fatal(d);
    }
  }

  /** What the books say depends on the outcomes of the executed subpipelines only. */
  lemma AgreedBooks<T(!new)>(
    g: Graph<T>, a: Policy<T>, b: Policy<T>, executed: set<T>, books: Books<T>, visited: set<T>
  )
    requires AgreeOn(a, b, executed)
    ensures Kept(g, a, executed, books) <==> Kept(g, b, executed, books)
    ensures Covered(g, a, executed, visited) <==> Covered(g, b, executed, visited)
    ensures forall n :: Doomed(g, a, executed, n) <==> Doomed(g, b, executed, n)
  {
    forall n
      ensures Doomed(g, a, executed, n) <==> Doomed(g, b, executed, n)
    {
      AgreedDoom(g, a, b, executed, n);
    }
    hide Doomed;
  }

  /** Books one executed subpipeline. */
  method BookOne<T(==,!new)>(
    runner: PipelineRunner, subs: seq<Decl<T>>, ghost g: Graph<T>, ghost rank: map<T, nat>, ghost top: nat,
    ghost policy: Policy<T>, s: T, result: SubResult, continues: bool, books: Books<T>, ghost executed: set<T>
  ) returns (after: Books<T>)
    requires GraphOf(subs, g) && Ranked(g, rank) && forall n :: n in rank ==> rank[n] <= top
    requires Kept(g, policy, executed, books) && NothingAbove(g, executed, s)
    requires s !in executed && !Doomed(g, policy, executed, s)
    requires policy.outcome(s) == result && (s in policy.continues <==> continues)
    modifies runner`unexpectedError
    ensures Kept(g, policy, executed + {s}, after)
    ensures runner.unexpectedError <==> old(runner.unexpectedError) || result.RaisedError?
  {
    hide GraphOf, Ranked, Reach, Doomed;
    forall n
      ensures Doomed(g, policy, executed + {s}, n) <==>
        Doomed(g, policy, executed, n) || (policy.Fatal(s) && Reach(g, n, s))
    {
      DoomedGrows(g, policy, executed, s, n);
    }
    match result
    case RaisedError =>
      runner.unexpectedError := true;
      var dependents := GetSubpipelineDependents(subs, s, g, rank, top);
      after := books.(failed := books.failed + {s} + dependents);
    case ReportedFailure =>
      after := books.(failed := books.failed + {s});
      if !continues {
        var dependents := GetSubpipelineDependents(subs, s, g, rank, top);
        after := after.(failed := after.failed + dependents);
      }
    case Succeeded =>
      after := books.(completed := books.completed + {s});
  }

  /** Where the run stands between levels. */
  ghost predicate At<T(!new)>(
    g: Graph<T>, policy: Policy<T>, k: nat, executed: set<T>, books: Books<T>, cancelled: bool
  ) {
    && Kept(g, policy, executed, books) && executed <= Below(g, k)
    && (cancelled || Covered(g, policy, executed, Below(g, k)))
  }

  /** Members of the current batch neither reach each other nor are reached from what ran before. */
  lemma BatchNothingAbove<T(!new)>(
    g: Graph<T>, policy: Policy<T>, before: set<T>, batch: set<T>, executed0: set<T>, more: set<T>, s: T
  )
    requires NextBatch(g, before, batch) && executed0 <= before && more <= batch && s in batch && s in g
    requires !Doomed(g, policy, executed0, s)
    ensures NothingAbove(g, executed0 + more, s) && !Doomed(g, policy, executed0 + more, s)
  {
  }

  lemma Runnable<T(!new)>(g: Graph<T>, policy: Policy<T>, k: nat, executed: set<T>, books: Books<T>, batch: set<T>)
    requires At(g, policy, k, executed, books, false) && batch == LevelSet(g, k)
    requires NextBatch(g, Below(g, k), batch)
    ensures Below(g, k) !! batch
    ensures executed <= Below(g, k) && Kept(g, policy, executed, books)
    ensures forall s :: s in batch ==>
      s in g && (s !in books.failed <==> !Doomed(g, policy, executed, s)) && s !in executed
  {
  }

  lemma LevelDone<T(!new)>(
    g: Graph<T>, policy: Policy<T>, before: set<T>, batch: set<T>, executed: set<T>, more: set<T>, toRun: seq<T>,
    books: Books<T>, after: Books<T>, cancelled: bool
  )
    requires executed <= before && Covered(g, policy, executed, before)
    requires Elements(toRun) == batch - books.failed && more <= Elements(toRun)
    requires forall s :: s in batch ==> s in books.failed ==> Doomed(g, policy, executed, s)
    requires cancelled || more == Elements(toRun)
    ensures executed + more <= before + batch
    ensures cancelled || Covered(g, policy, executed + more, before + batch)
  {
  }

  /** Whatever happened, the sets tell what was executed; without cancellation nothing is left over. */
  ghost predicate Ended<T(!new)>(
    g: Graph<T>, policy: Policy<T>, executed: set<T>, books: Books<T>, cancelled: bool
  ) {
    Kept(g, policy, executed, books) && executed <= g.Keys && (cancelled || Covered(g, policy, executed, g.Keys))
  }

  lemma NothingRun<T(!new)>(g: Graph<T>, policy: Policy<T>, cancelled: bool)
    ensures At(g, policy, 0, {}, Books({}, {}), cancelled)
  {
  }

  lemma AtLater<T(!new)>(
    g: Graph<T>, policy: Policy<T>, k: nat, executed: set<T>, books: Books<T>, was: bool, now: bool
  )
    requires At(g, policy, k, executed, books, was) && (was ==> now)
    ensures At(g, policy, k, executed, books, now)
  {
  }

  lemma CancelledEnd<T(!new)>(g: Graph<T>, policy: Policy<T>, k: nat, executed: set<T>, books: Books<T>)
    requires At(g, policy, k, executed, books, true)
    ensures Ended(g, policy, executed, books, true)
  {
  }

  lemma FullEnd<T(!new)>(
    g: Graph<T>, policy: Policy<T>, k: nat, executed: set<T>, books: Books<T>, cancelled: bool
  )
    requires At(g, policy, k, executed, books, cancelled) && Below(g, k) == g.Keys
    ensures Ended(g, policy, executed, books, cancelled)
  {
  }

  lemma EndedLater<T(!new)>(g: Graph<T>, policy: Policy<T>, executed: set<T>, books: Books<T>, was: bool, now: bool)
    requires Ended(g, policy, executed, books, was) && (was ==> now)
    ensures Ended(g, policy, executed, books, now)
  {
  }

  lemma SomeSub<T(!new)>(subs: seq<Decl<T>>)
    requires subs != []
    ensures Elements(Names(subs)) != {}
  {
    assert Names(subs)[0] in Elements(Names(subs));
  }

  /** The statuses in terms of what happened to the subpipelines. */
  lemma EndedMeans<T(!new)>(subs: seq<Decl<T>>, policy: Policy<T>, executed: set<T>, books: Books<T>, cancelled: bool)
    requires Ended(GraphFrom(subs), policy, executed, books, cancelled)
    ensures books.failed !! books.completed
    ensures !cancelled ==> books.failed + books.completed == Elements(Names(subs))
    ensures (exists s :: s in executed && policy.outcome(s).RaisedError?) ==> books.failed != {}
    ensures !cancelled && books.failed == {} ==> books.completed == Elements(Names(subs))
  {
  }

  /**
   In an uncancelled run a subpipeline is skipped exactly when something it depends on raised, or
   failed under a policy other than continue.
   */
  lemma SkippedIffDoomed<T(!new)>(g: Graph<T>, policy: Policy<T>, executed: set<T>, books: Books<T>, n: T)
    requires Ended(g, policy, executed, books, false) && n in g
    ensures n !in executed <==> Doomed(g, policy, executed, n)
    ensures n !in executed ==> n in books.failed
    ensures n in books.completed <==> n in executed && policy.outcome(n).Succeeded?
  {
  }

  /** Two runs in which whatever both execute ends the same way. */
  ghost predicate SameWhereBoth<T(!new)>(a: Policy<T>, b: Policy<T>, ea: set<T>, eb: set<T>) {
    AgreeOn(a, b, ea * eb)
  }

  lemma {:induction false} SameExecution<T(!new)>(
    g: Graph<T>, rank: map<T, nat>, a: Policy<T>, ea: set<T>, ba: Books<T>, b: Policy<T>, eb: set<T>, bb: Books<T>, n: T
  )
    requires Ended(g, a, ea, ba, false) && Ended(g, b, eb, bb, false) && Ranked(g, rank) && n in g
    requires SameWhereBoth(a, b, ea, eb)
    ensures n in ea <==> n in eb
    decreases rank[n]
  {
    forall d | Reach(g, n, d)
      ensures d in ea <==> d in eb
    {
      ReachLowersRank(g, rank, n, d);
      SameExecution(g, rank, a, ea, ba, b, eb, bb, d);
    }
    SkippedIffDoomed(g, a, ea, ba, n);
    SkippedIffDoomed(g, b, eb, bb, n);
    SameDoom(g, a, ea, b, eb, n);
  }

  lemma SameDoom<T(!new)>(g: Graph<T>, a: Policy<T>, ea: set<T>, b: Policy<T>, eb: set<T>, n: T)
    requires SameWhereBoth(a, b, ea, eb) && forall d :: Reach(g, n, d) ==> (d in ea <==> d in eb)
    ensures Doomed(g, a, ea, n) <==> Doomed(g, b, eb, n)
  {
    if Doomed(g, a, ea, n) {
      var d :| d in ea && a.Fatal(d) && Reach(g, n, d);
      assert d in ea * eb && b.Fatal(d);
    }
    if Doomed(g, b, eb, n) {
      var d :| d in eb && b.Fatal(d) && Reach(g, n, d);
      assert d in ea * eb && a.Fatal(d);
    }
  }

  /** What an uncancelled run executes, and how it ends up, follows from the outcomes and policies alone. */
  lemma RunIsDetermined<T(!new)>(
    g: Graph<T>, a: Policy<T>, ea: set<T>, ba: Books<T>, b: Policy<T>, eb: set<T>, bb: Books<T>
  )
    requires Closed(g) && !Cyclic(g)
    requires Ended(g, a, ea, ba, false) && Ended(g, b, eb, bb, false) && SameWhereBoth(a, b, ea, eb)
    ensures ea == eb && ba == bb
  {
    var rank := AcyclicIsRanked(g);
    forall n
      ensures n in ea <==> n in eb
    {
      if n in g {
        SameExecution(g, rank, a, ea, ba, b, eb, bb, n);
      }
    }
    assert ea == eb;
    SameBooks(g, a, ba, b, bb, ea);
  }

  lemma SameBooks<T(!new)>(g: Graph<T>, a: Policy<T>, ba: Books<T>, b: Policy<T>, bb: Books<T>, executed: set<T>)
    requires Kept(g, a, executed, ba) && Kept(g, b, executed, bb) && AgreeOn(a, b, executed)
    ensures ba == bb
  {
    forall n
      ensures Doomed(g, a, executed, n) <==> Doomed(g, b, executed, n)
    {
      AgreedDoom(g, a, b, executed, n);
    }
    hide Doomed;
    assert ba.failed == bb.failed && ba.completed == bb.completed;
  }

  // ---------- the whole pipeline's trace ----------

  /** What the execution of the subpipelines has left behind: their outcomes, and one trace for all. */
  datatype Log<S, T> = Log(outcomes: map<S, SubOutcome<T>>, trace: seq<Event<(S, T)>>)

  ghost predicate ContinuesAfter<S, T>(subs: seq<Subpipeline<S, T>>, s: S) {
    exists i :: 0 <= i < |subs| && subs[i].name == s && subs[i].config.onFailure == "continue"
  }

  ghost function Continuing<S(!new), T>(subs: seq<Subpipeline<S, T>>): set<S> {
    set s | s in Elements(Names(SubDecls(subs))) && ContinuesAfter(subs, s)
  }

  ghost function PolicyOf<S(!new), T>(subs: seq<Subpipeline<S, T>>, outcomes: map<S, SubOutcome<T>>): Policy<S> {
    Policy(Continuing(subs), s => if s in outcomes then ResultOf(outcomes[s]) else Succeeded)
  }

  /** The dependencies a subpipeline executes with. */
  ghost function Effective<S, T>(sub: Subpipeline<S, T>, declared: seq<Decl<T>>): (r: seq<Decl<T>>)
    ensures |r| == |declared|
  {
    if sub.config.parallel then declared else Chained(declared)
  }

  function LimitOf<T>(runner: PipelineRunner, config: Config<T>): (limit: nat)
    ensures limit == InFlightLimit(config.parallel, config.maxConcurrentTasks, runner.TaskPermits())
  {
    InFlightLimit(config.parallel, config.maxConcurrentTasks, runner.TaskPermits())
  }

  /** A task waits for those its own subpipeline orders before it, and for all of every subpipeline before its own. */
  ghost predicate WaitsFor<S(!new), T(!new)>(
    subs: seq<Subpipeline<S, T>>, declared: seq<seq<Decl<T>>>, a: (S, T), b: (S, T)
  )
    requires |declared| == |subs|
  {
    || Reach(GraphFrom(SubDecls(subs)), a.0, b.0)
    || (a.0 == b.0 && WaitsInside(subs, declared, a.0, a.1, b.1))
  }

  ghost predicate WaitsInside<S(!new), T(!new)>(
    subs: seq<Subpipeline<S, T>>, declared: seq<seq<Decl<T>>>, s: S, t: T, u: T
  )
    requires |declared| == |subs|
  {
    exists i :: 0 <= i < |subs| && subs[i].name == s && Reach(GraphFrom(Effective(subs[i], declared[i])), t, u)
  }

  /** No task starts before everything it waits for, that runs at all, has finished. */
  ghost predicate OrderedAcross<S(!new), T(!new)>(
    subs: seq<Subpipeline<S, T>>, declared: seq<seq<Decl<T>>>, trace: seq<Event<(S, T)>>
  )
    requires |declared| == |subs|
  {
    forall i, b ::
      0 <= i < |trace| && trace[i].Start? && WaitsFor(subs, declared, trace[i].task, b) && Start(b) in trace ==>
        Finish(b) in trace[..i]
  }

  /** The tasks' own outcomes explain what the subpipeline reports. */
  ghost predicate Explains<S(!new), T(!new)>(
    s: S, decls: seq<Decl<T>>, oracle: T -> Outcome, outcome: SubOutcome<T>, trace: seq<Event<(S, T)>>, cancelled: bool
  ) {
    && (forall t :: Start((s, t)) in trace ==> t in Names(decls))
    && (outcome.DagFailed? <==> !Levellable(decls))
    && (outcome.DagFailed? ==> forall t :: Start((s, t)) !in trace)
    && (outcome.Escaped? ==> exists t :: Start((s, t)) in trace && Fails(oracle(t)))
    && (outcome.Done? && !cancelled ==> TasksBooked(s, decls, oracle, outcome.ledger, trace))
  }

  /** Every task is in one of the two sets; it completed exactly when it ran and its outcome does not fail. */
  ghost predicate TasksBooked<S(!new), T(!new)>(
    s: S, decls: seq<Decl<T>>, oracle: T -> Outcome, ledger: Ledger<T>, trace: seq<Event<(S, T)>>
  ) {
    && ledger.failed + ledger.completed == Elements(Names(decls)) && ledger.failed !! ledger.completed
    && (forall t :: t in ledger.completed <==> t in Names(decls) && Start((s, t)) in trace && !Fails(oracle(t)))
  }

  /** The tasks of one subpipeline that a trace shows to have started. */
  ghost function StartedOf<S(!new), T(!new)>(s: S, trace: seq<Event<(S, T)>>): set<T> {
    set e | e in trace && e.Start? && e.task.0 == s :: e.task.1
  }

  ghost function StartedIn<T(!new)>(trace: seq<Event<T>>): set<T> {
    set e | e in trace && e.Start? :: e.task
  }

  /** The subpipeline has ended in the one way that its tasks, its configuration and the outcomes determine. */
  ghost predicate EndsByConfig<S, T(!new)>(
    sub: Subpipeline<S, T>, declared: seq<Decl<T>>, oracle: T -> Outcome, outcome: SubOutcome<T>, started: set<T>
  ) {
    exists results: map<T, Outcome> ::
      && EndsAs(declared, sub.config.parallel, sub.config.taskPolicies, sub.config.onFailure, oracle, outcome, results)
      && (outcome.Done? ==> results.Keys == started)
  }

  ghost predicate Explained<S(!new), T(!new)>(
    subs: seq<Subpipeline<S, T>>, declared: seq<seq<Decl<T>>>, oracle: S -> T -> Outcome, log: Log<S, T>,
    cancelled: bool
  )
    requires |declared| == |subs|
  {
    forall i :: 0 <= i < |subs| && subs[i].name in log.outcomes ==>
      && Explains(subs[i].name, Effective(subs[i], declared[i]), oracle(subs[i].name), log.outcomes[subs[i].name],
           log.trace, cancelled)
      && (cancelled || EndsByConfig(subs[i], declared[i], oracle(subs[i].name), log.outcomes[subs[i].name],
            StartedOf(subs[i].name, log.trace)))
  }

  /** The trace so far: nothing runs twice, nothing is left in flight, the bound and the order hold. */
  ghost predicate TraceSound<S(!new), T(!new)>(
    subs: seq<Subpipeline<S, T>>, declared: seq<seq<Decl<T>>>, log: Log<S, T>, limit: nat
  )
    requires |declared| == |subs|
  {
    && WellFormed(log.trace) && AllFinished(log.trace) && (forall e :: e in log.trace ==> e.task.0 in log.outcomes)
    && AtMostInFlight(log.trace, limit) && InFlight(log.trace) == 0
    && OrderedAcross(subs, declared, log.trace)
  }

  ghost predicate Told<S(!new), T(!new)>(
    subs: seq<Subpipeline<S, T>>, declared: seq<seq<Decl<T>>>, oracle: S -> T -> Outcome, log: Log<S, T>,
    limit: nat, cancelled: bool
  )
    requires |declared| == |subs|
  {
    TraceSound(subs, declared, log, limit) && Explained(subs, declared, oracle, log, cancelled)
  }

  /** Every task of the pipeline ran, and none of their outcomes fails. */
  ghost predicate EveryTaskSucceeded<S(!new), T(!new)>(
    subs: seq<Subpipeline<S, T>>, declared: seq<seq<Decl<T>>>, oracle: S -> T -> Outcome, trace: seq<Event<(S, T)>>
  )
    requires |declared| == |subs|
  {
    forall i, t :: 0 <= i < |subs| && t in Names(declared[i]) ==>
      Start((subs[i].name, t)) in trace && !Fails(oracle(subs[i].name)(t))
  }

  // ---------- a further subpipeline's trace ----------

  /** Appending the trace of a subpipeline on which nothing that ran depends keeps the order. */
  lemma SegmentKeepsOrder<S(!new), T(!new)>(
    subs: seq<Subpipeline<S, T>>, declared: seq<seq<Decl<T>>>, log: Log<S, T>, i: nat, more: seq<Event<T>>
  )
    requires |declared| == |subs| && i < |subs| && Distinct(Names(SubDecls(subs)))
    requires OrderedAcross(subs, declared, log.trace) && AllFinished(log.trace)
    requires forall e :: e in log.trace ==> e.task.0 in log.outcomes
    requires NothingAbove(GraphFrom(SubDecls(subs)), log.outcomes.Keys, subs[i].name) && subs[i].name !in log.outcomes
    requires Ordered(GraphFrom(Effective(subs[i], declared[i])), more)
    ensures OrderedAcross(subs, declared, log.trace + Tagged(subs[i].name, more))
  {
    hide WaitsFor, NothingAbove, Ordered, AllFinished, Tagged, Distinct, Names, SubDecls, Effective, GraphFrom;
    var all := log.trace + Tagged(subs[i].name, more);
    forall k, b | 0 <= k < |all| && all[k].Start? && WaitsFor(subs, declared, all[k].task, b) && Start(b) in all
      ensures Finish(b) in all[..k]
    {
      StartInEither(subs, declared, log, i, more, k, b);
    }
  }

  lemma StartInEither<S(!new), T(!new)>(
    subs: seq<Subpipeline<S, T>>, declared: seq<seq<Decl<T>>>, log: Log<S, T>, i: nat, more: seq<Event<T>>,
    k: nat, b: (S, T)
  )
    requires |declared| == |subs| && i < |subs| && Distinct(Names(SubDecls(subs)))
    requires OrderedAcross(subs, declared, log.trace) && AllFinished(log.trace)
    requires forall e :: e in log.trace ==> e.task.0 in log.outcomes
    requires NothingAbove(GraphFrom(SubDecls(subs)), log.outcomes.Keys, subs[i].name) && subs[i].name !in log.outcomes
    requires Ordered(GraphFrom(Effective(subs[i], declared[i])), more)
    requires var all := log.trace + Tagged(subs[i].name, more);
      k < |all| && all[k].Start? && WaitsFor(subs, declared, all[k].task, b) && Start(b) in all
    ensures Finish(b) in (log.trace + Tagged(subs[i].name, more))[..k]
  {
    hide *;
    var new_ := Tagged(subs[i].name, more);
    if k < |log.trace| {
      assert (log.trace + new_)[k] == log.trace[k];
      EarlierStart(subs, declared, log, i, more, k, b);
    } else {
      assert (log.trace + new_)[k] == new_[k - |log.trace|];
      LaterStart(subs, declared, log, i, more, k - |log.trace|, b);
    }
  }

  /** A start in the earlier part: what it waits for is there too. */
  lemma EarlierStart<S(!new), T(!new)>(
    subs: seq<Subpipeline<S, T>>, declared: seq<seq<Decl<T>>>, log: Log<S, T>, i: nat, more: seq<Event<T>>,
    k: nat, b: (S, T)
  )
    requires |declared| == |subs| && i < |subs| && OrderedAcross(subs, declared, log.trace)
    requires forall e :: e in log.trace ==> e.task.0 in log.outcomes
    requires NothingAbove(GraphFrom(SubDecls(subs)), log.outcomes.Keys, subs[i].name) && subs[i].name !in log.outcomes
    requires k < |log.trace| && log.trace[k].Start? && WaitsFor(subs, declared, log.trace[k].task, b)
    requires Start(b) in log.trace + Tagged(subs[i].name, more)
    ensures Finish(b) in (log.trace + Tagged(subs[i].name, more))[..k]
  {
    var s := subs[i].name;
    TaggedMembers(s, more);
    assert log.trace[k] in log.trace;
    EarlierWaitsForOld(subs, declared, log, s, log.trace[k].task, b);
    hide WaitsFor, NothingAbove, Tagged;
    assert Start(b).task.0 != s;
    assert (log.trace + Tagged(s, more))[..k] == log.trace[..k];
  }

  /** A start in the new part: what it waits for has finished before the part began, or inside it. */
  lemma LaterStart<S(!new), T(!new)>(
    subs: seq<Subpipeline<S, T>>, declared: seq<seq<Decl<T>>>, log: Log<S, T>, i: nat, more: seq<Event<T>>,
    k: nat, b: (S, T)
  )
    requires |declared| == |subs| && i < |subs| && Distinct(Names(SubDecls(subs))) && AllFinished(log.trace)
    requires NothingAbove(GraphFrom(SubDecls(subs)), log.outcomes.Keys, subs[i].name)
    requires Ordered(GraphFrom(Effective(subs[i], declared[i])), more)
    requires k < |Tagged(subs[i].name, more)| && Tagged(subs[i].name, more)[k].Start?
    requires WaitsFor(subs, declared, Tagged(subs[i].name, more)[k].task, b)
    requires Start(b) in log.trace + Tagged(subs[i].name, more)
    ensures Finish(b) in (log.trace + Tagged(subs[i].name, more))[..|log.trace| + k]
  {
    hide WaitsFor, NothingAbove, Ordered, Tagged, Distinct, Names, SubDecls, Effective, GraphFrom;
    var new_ := Tagged(subs[i].name, more);
    assert (log.trace + new_)[..|log.trace| + k] == log.trace + new_[..k];
    if Start(b) !in log.trace {
      NewWaitsInside(subs, declared, i, log.outcomes.Keys, more, k, b);
    }
  }

  /** What ran before does not wait for the new subpipeline. */
  lemma EarlierWaitsForOld<S(!new), T(!new)>(
    subs: seq<Subpipeline<S, T>>, declared: seq<seq<Decl<T>>>, log: Log<S, T>, s: S, a: (S, T), b: (S, T)
  )
    requires |declared| == |subs| && a.0 in log.outcomes && s !in log.outcomes
    requires NothingAbove(GraphFrom(SubDecls(subs)), log.outcomes.Keys, s) && WaitsFor(subs, declared, a, b)
    ensures b.0 != s
  {
  }

  /** Inside the new subpipeline the order is its own. */
  lemma NewWaitsInside<S(!new), T(!new)>(
    subs: seq<Subpipeline<S, T>>, declared: seq<seq<Decl<T>>>, i: nat, executed: set<S>, more: seq<Event<T>>,
    k: nat, b: (S, T)
  )
    requires |declared| == |subs| && i < |subs| && Distinct(Names(SubDecls(subs)))
    requires k < |Tagged(subs[i].name, more)| && Tagged(subs[i].name, more)[k].Start?
    requires NothingAbove(GraphFrom(SubDecls(subs)), executed, subs[i].name)
    requires Ordered(GraphFrom(Effective(subs[i], declared[i])), more)
    requires WaitsFor(subs, declared, Tagged(subs[i].name, more)[k].task, b) && Start(b) in Tagged(subs[i].name, more)
    ensures Finish(b) in Tagged(subs[i].name, more)[..k]
  {
    var s := subs[i].name;
    TaggedMembers(s, more);
    assert b.0 == s && Tag(s, Start(b.1)) == Start(b);
    assert Start(b.1) in more;
    var j :|
      0 <= j < |subs| && subs[j].name == s && Reach(GraphFrom(Effective(subs[j], declared[j])), more[k].task, b.1);
    SameIndex(subs, i, j);
    assert Finish(b.1) in more[..k];
    TaggedPrefix(s, more, k);
    TaggedMembers(s, more[..k]);
    assert Tag(s, Finish(b.1)) in Tagged(s, more[..k]);
  }

  lemma SameIndex<S(!new), T(!new)>(subs: seq<Subpipeline<S, T>>, i: nat, j: nat)
    requires Distinct(Names(SubDecls(subs))) && i < |subs| && j < |subs| && subs[i].name == subs[j].name
    ensures i == j
  {
    DistinctDeclarations(SubDecls(subs));
    assert SubDecls(subs)[i].name == SubDecls(subs)[j].name;
  }

  // ---------- executing one subpipeline ----------

  /** What executing one subpipeline promises about its own trace. */
  ghost predicate OwnTrace<T(!new)>(
    decls: seq<Decl<T>>, oracle: T -> Outcome, outcome: SubOutcome<T>, more: seq<Event<T>>, limit: nat, cancelled: bool
  ) {
    && WellFormed(more) && AllFinished(more) && (forall t :: Start(t) in more ==> t in Names(decls))
    && AtMostInFlight(more, limit) && InFlight(more) == 0 && Ordered(GraphFrom(decls), more)
    && (outcome.DagFailed? <==> !Levellable(decls))
    && (outcome.DagFailed? ==> more == [])
    && (outcome.Escaped? ==> SomeRaised(more, oracle))
    && (outcome.Done? && !cancelled ==> OwnBooks(decls, oracle, outcome.ledger, more))
  }

  ghost predicate OwnBooks<T(!new)>(
    decls: seq<Decl<T>>, oracle: T -> Outcome, ledger: Ledger<T>, more: seq<Event<T>>
  ) {
    && ledger.failed + ledger.completed == Elements(Names(decls)) && ledger.failed !! ledger.completed
    && (forall t :: t in ledger.completed <==> t in Names(decls) && Start(t) in more && !Fails(oracle(t)))
  }

  lemma FinalIsOwnBooks<T(!new)>(
    decls: seq<Decl<T>>, spec: Spec<T>, oracle: T -> Outcome, ledger: Ledger<T>, results: map<T, Outcome>,
    more: seq<Event<T>>
  )
    requires spec.graph.Keys == Elements(Names(decls)) && FinalBooks(spec, oracle, ledger, results)
    requires forall n :: n in results ==> Honest(n, results[n], oracle, more, false)
    requires forall n :: Start(n) in more ==> n in results
    ensures OwnBooks(decls, oracle, ledger, more)
  {
    forall t | t in spec.graph.Keys
      ensures t in ledger.completed <==> Start(t) in more && !Fails(oracle(t))
    {
      assert Settled(spec, t, ledger, results);
    }
  }

  /** Executes a subpipeline, whatever the state of the books. */
  method ExecuteOne<S, T(==,!new)>(
    runner: PipelineRunner, sub: Subpipeline<S, T>, oracle: T -> Outcome, ghost declared: seq<Decl<T>>, ghost limit: nat
  ) returns (outcome: SubOutcome<T>, ghost more: seq<Event<T>>)
    requires declared == Decls(sub.tasks) && Distinct(Names(declared)) && LimitOf(runner, sub.config) <= limit
    modifies sub.tasks, runner`cancelled
    ensures old(runner.cancelled) ==> runner.cancelled
    ensures runner.cancelled ==> old(runner.cancelled) || runner.requested
    ensures OwnTrace(Effective(sub, declared), oracle, outcome, more, limit, runner.cancelled)
    ensures runner.cancelled || EndsByConfig(sub, declared, oracle, outcome, StartedIn(more))
    ensures old(runner.cancelled) ==> more == []
    ensures !sub.config.parallel && !outcome.DagFailed? ==>
      LevelByLevel(Names(Effective(sub, declared)), GraphFrom(Effective(sub, declared)), TasksOf(more))
  {
    hide *;
    ghost var results, settled;
    outcome, settled, results, more := ExecuteSubpipeline(runner, sub.tasks, sub.config.taskPolicies,
      sub.config.onFailure, sub.config.parallel, sub.config.maxConcurrentTasks, oracle);
    EffectiveIs(sub, declared);
    GraphFromKeys(Effective(sub, declared));
    if outcome.Done? && !runner.cancelled {
      SpecOfIs(declared, sub.config.parallel, sub.config.taskPolicies, sub.config.onFailure);
      EndMeans(declared, sub.config.parallel, sub.config.taskPolicies, sub.config.onFailure, oracle, outcome.ledger,
        results);
      FinalIsOwnBooks(Effective(sub, declared),
        SpecOf(declared, sub.config.parallel, sub.config.taskPolicies, sub.config.onFailure),
        oracle, outcome.ledger, results, more);
    }
    if !runner.cancelled {
      EndsByConfigFrom(sub, declared, oracle, outcome, results, more);
    }
    LimitIs(runner, sub.config);
    BoundWider(more, LimitOf(runner, sub.config), limit);
    OwnTraceIs(Effective(sub, declared), oracle, outcome, more, limit, runner.cancelled);
  }

  lemma EndsByConfigFrom<S, T(!new)>(
    sub: Subpipeline<S, T>, declared: seq<Decl<T>>, oracle: T -> Outcome, outcome: SubOutcome<T>,
    results: map<T, Outcome>, more: seq<Event<T>>
  )
    requires EndsAs(declared, sub.config.parallel, sub.config.taskPolicies, sub.config.onFailure, oracle, outcome,
      results)
    requires outcome.Done? ==> forall n :: n in results ==> Honest(n, results[n], oracle, more, false)
    requires outcome.Done? ==> forall n :: Start(n) in more ==> n in results
    ensures EndsByConfig(sub, declared, oracle, outcome, StartedIn(more))
  {
    hide EndsAs;
    if outcome.Done? {
      forall n
        ensures n in results <==> n in StartedIn(more)
      {
        if n in results {
          assert Start(n) in more && Start(n).task == n;
        }
        if n in StartedIn(more) {
          var e :| e in more && e.Start? && e.task == n;
          assert e == Start(n);
        }
      }
      assert results.Keys == StartedIn(more);
    }
  }

  lemma EffectiveIs<S, T>(sub: Subpipeline<S, T>, declared: seq<Decl<T>>)
    ensures Effective(sub, declared) == if sub.config.parallel then declared else Chained(declared)
  {
  }

  lemma LimitIs<T>(runner: PipelineRunner, config: Config<T>)
    ensures LimitOf(runner, config) ==
      InFlightLimit(config.parallel, config.maxConcurrentTasks, runner.TaskPermits())
    ensures LimitOf(runner, config) <= runner.TaskPermits()
  {
  }

  lemma OwnTraceIs<T(!new)>(
    decls: seq<Decl<T>>, oracle: T -> Outcome, outcome: SubOutcome<T>, more: seq<Event<T>>, limit: nat, cancelled: bool
  )
    requires GraphFrom(decls).Keys == Elements(Names(decls))
    requires AtMostInFlight(more, limit) && InFlight(more) == 0
    requires outcome.DagFailed? <==> !Levellable(decls)
    requires outcome.DagFailed? ==> more == []
    requires !outcome.DagFailed? ==> IsBatch(more, GraphFrom(decls).Keys) && Ordered(GraphFrom(decls), more)
    requires outcome.Escaped? ==> SomeRaised(more, oracle)
    requires outcome.Done? && !cancelled ==> OwnBooks(decls, oracle, outcome.ledger, more)
    ensures OwnTrace(decls, oracle, outcome, more, limit, cancelled)
  {
    hide GraphFrom, Levellable, AtMostInFlight, InFlight, OwnBooks, SomeRaised, Names;
    if !outcome.DagFailed? {
      forall t | Start(t) in more
        ensures t in Names(decls)
      {
        assert Start(t).task in GraphFrom(decls).Keys;
      }
    }
  }

  // ---------- keeping the log ----------

  /** The subpipelines of the events, in the order of the events. */
  ghost function OwnersOf<S, T>(trace: seq<Event<(S, T)>>): (r: seq<S>)
    ensures |r| == |trace| && forall i :: 0 <= i < |trace| ==> r[i] == trace[i].task.0
  {
    seq(|trace|, i requires 0 <= i < |trace| => trace[i].task.0)
  }

  /** A trace that goes on with the subpipelines of a level alone, in the level's order. */
  ghost predicate GoesOnWith<S(!new), T(!new)>(trace: seq<Event<(S, T)>>, longer: seq<Event<(S, T)>>, level: seq<S>) {
    exists owners :: MoreOwners(trace, longer, owners) && Follows(level, owners) && Elements(owners) <= Elements(level)
  }

  ghost predicate MoreOwners<S(!new), T(!new)>(
    trace: seq<Event<(S, T)>>, longer: seq<Event<(S, T)>>, owners: seq<S>
  ) {
    OwnersOf(longer) == OwnersOf(trace) + owners
  }

  ghost predicate OneOwner<S(!new), T(!new)>(trace: seq<Event<(S, T)>>, longer: seq<Event<(S, T)>>, s: S) {
    exists owners :: MoreOwners(trace, longer, owners) && forall i :: 0 <= i < |owners| ==> owners[i] == s
  }

  lemma OwnersAppended<S(!new), T(!new)>(log: Log<S, T>, s: S, outcome: SubOutcome<T>, more: seq<Event<T>>)
    ensures OneOwner(log.trace, Extended(log, s, outcome, more).trace, s)
  {
    var owners := OwnersOf(Tagged(s, more));
    forall i | 0 <= i < |owners|
      ensures owners[i] == s
    {
      TaggedMembers(s, more);
      assert Tagged(s, more)[i] in Tagged(s, more);
    }
    assert MoreOwners(log.trace, Extended(log, s, outcome, more).trace, owners);
  }

  /** One more subpipeline of the level. */
  lemma OneMoreOwner<S(!new), T(!new)>(
    trace: seq<Event<(S, T)>>, mid: seq<Event<(S, T)>>, longer: seq<Event<(S, T)>>, toRun: seq<S>, i: nat
  )
    requires Distinct(toRun) && i < |toRun|
    requires GoesOnInto(trace, mid, toRun, i) && OneOwner(mid, longer, toRun[i])
    ensures GoesOnInto(trace, longer, toRun, i + 1)
  {
    hide Follows, Distinct, Elements;
    var owners :| MoreOwners(trace, mid, owners) && Follows(toRun, owners) && Elements(owners) <= Elements(toRun[..i]);
    var t :| MoreOwners(mid, longer, t) && forall i' :: 0 <= i' < |t| ==> t[i'] == toRun[i];
    FollowsOneMore(toRun, i, owners, t);
    assert MoreOwners(trace, longer, owners + t);
  }

  /** It goes on with the first i subpipelines of the list. */
  ghost predicate GoesOnInto<S(!new), T(!new)>(
    trace: seq<Event<(S, T)>>, longer: seq<Event<(S, T)>>, toRun: seq<S>, i: nat
  )
    requires i <= |toRun|
  {
    exists owners ::
      MoreOwners(trace, longer, owners) && Follows(toRun, owners) && Elements(owners) <= Elements(toRun[..i])
  }

  lemma NoOwnerYet<S(!new), T(!new)>(trace: seq<Event<(S, T)>>, toRun: seq<S>)
    ensures GoesOnInto(trace, trace, toRun, 0)
  {
    assert MoreOwners(trace, trace, []);
  }

  lemma GoesOnInLevel<S(!new), T(!new)>(
    trace: seq<Event<(S, T)>>, longer: seq<Event<(S, T)>>, level: seq<S>, toRun: seq<S>, i: nat
  )
    requires i <= |toRun| && GoesOnInto(trace, longer, toRun, i)
    requires Distinct(level) && Follows(level, toRun) && Elements(toRun) <= Elements(level)
    ensures GoesOnWith(trace, longer, level)
  {
    hide Follows, Distinct;
    var owners :|
      MoreOwners(trace, longer, owners) && Follows(toRun, owners) && Elements(owners) <= Elements(toRun[..i]);
    assert Elements(owners) <= Elements(toRun);
    FollowsThrough(level, toRun, owners);
  }

  lemma LevelsGoOn<S(!new), T(!new)>(
    levels: seq<seq<S>>, k: nat, trace: seq<Event<(S, T)>>, longer: seq<Event<(S, T)>>
  )
    requires k < |levels| && Distinct(Flat(levels)) && InLevels(levels, k, OwnersOf(trace))
    requires GoesOnWith(trace, longer, levels[k])
    ensures InLevels(levels, k + 1, OwnersOf(longer))
  {
    hide Follows, Distinct, Elements, Flat, InLevels;
    var owners :|
      MoreOwners(trace, longer, owners) && Follows(levels[k], owners) && Elements(owners) <= Elements(levels[k]);
    NextLevelInOrder(levels, k, OwnersOf(trace), owners);
  }

  ghost function Extended<S, T>(
    log: Log<S, T>, s: S, outcome: SubOutcome<T>, more: seq<Event<T>>
  ): Log<S, T> {
    Log(log.outcomes[s := outcome], log.trace + Tagged(s, more))
  }

  lemma ExtendedTrace<S(!new), T(!new)>(
    subs: seq<Subpipeline<S, T>>, declared: seq<seq<Decl<T>>>, oracle: T -> Outcome, log: Log<S, T>, limit: nat,
    i: nat, outcome: SubOutcome<T>, more: seq<Event<T>>, cancelled: bool
  )
    requires |declared| == |subs| && i < |subs| && Distinct(Names(SubDecls(subs)))
    requires TraceSound(subs, declared, log, limit)
    requires NothingAbove(GraphFrom(SubDecls(subs)), log.outcomes.Keys, subs[i].name) && subs[i].name !in log.outcomes
    requires OwnTrace(Effective(subs[i], declared[i]), oracle, outcome, more, limit, cancelled)
    ensures TraceSound(subs, declared, Extended(log, subs[i].name, outcome, more), limit)
  {
    hide *;
    var s := subs[i].name;
    SoundTrace(subs, declared, log, limit);
    OwnTraceParts(Effective(subs[i], declared[i]), oracle, outcome, more, limit, cancelled);
    SegmentKeepsOrder(subs, declared, log, i, more);
    TaggedWellFormed(s, more);
    TaggedInFlight(s, more);
    TaggedBound(s, more, limit);
    BoundConcat(log.trace, Tagged(s, more), limit);
    TracesApart(log, s, more);
    ExtendedIs(log, s, outcome, more);
    SoundTraceFrom(subs, declared, Extended(log, s, outcome, more), limit);
  }

  lemma ExtendedIs<S(!new), T>(log: Log<S, T>, s: S, outcome: SubOutcome<T>, more: seq<Event<T>>)
    ensures Extended(log, s, outcome, more).outcomes == log.outcomes[s := outcome]
    ensures Extended(log, s, outcome, more).trace == log.trace + Tagged(s, more)
  {
  }

  lemma SoundTrace<S(!new), T(!new)>(
    subs: seq<Subpipeline<S, T>>, declared: seq<seq<Decl<T>>>, log: Log<S, T>, limit: nat
  )
    requires |declared| == |subs| && TraceSound(subs, declared, log, limit)
    ensures WellFormed(log.trace) && AllFinished(log.trace) && (forall e :: e in log.trace ==> e.task.0 in log.outcomes)
    ensures AtMostInFlight(log.trace, limit) && InFlight(log.trace) == 0
    ensures OrderedAcross(subs, declared, log.trace)
  {
  }

  lemma SoundTraceFrom<S(!new), T(!new)>(
    subs: seq<Subpipeline<S, T>>, declared: seq<seq<Decl<T>>>, log: Log<S, T>, limit: nat
  )
    requires |declared| == |subs|
    requires WellFormed(log.trace) && AllFinished(log.trace) && forall e :: e in log.trace ==> e.task.0 in log.outcomes
    requires AtMostInFlight(log.trace, limit) && InFlight(log.trace) == 0
    requires OrderedAcross(subs, declared, log.trace)
    ensures TraceSound(subs, declared, log, limit)
  {
  }

  lemma OwnTraceParts<T(!new)>(
    decls: seq<Decl<T>>, oracle: T -> Outcome, outcome: SubOutcome<T>, more: seq<Event<T>>, limit: nat, cancelled: bool
  )
    requires OwnTrace(decls, oracle, outcome, more, limit, cancelled)
    ensures WellFormed(more) && AllFinished(more) && AtMostInFlight(more, limit) && InFlight(more) == 0
    ensures Ordered(GraphFrom(decls), more)
  {
  }

  /** The new subpipeline's events are all new. */
  lemma TracesApart<S(!new), T(!new)>(log: Log<S, T>, s: S, more: seq<Event<T>>)
    requires WellFormed(log.trace) && AllFinished(log.trace) && s !in log.outcomes
    requires forall e :: e in log.trace ==> e.task.0 in log.outcomes
    requires WellFormed(Tagged(s, more)) && AllFinished(Tagged(s, more))
    ensures WellFormed(log.trace + Tagged(s, more)) && AllFinished(log.trace + Tagged(s, more))
    ensures forall e :: e in log.trace + Tagged(s, more) ==> e.task.0 in log.outcomes || e.task.0 == s
  {
    var before, batch := set e | e in log.trace :: e.task, set e | e in Tagged(s, more) :: e.task;
    TaggedMembers(s, more);
    assert OnlyTasks(log.trace, before) && OnlyTasks(Tagged(s, more), batch);
    BatchesTogether(log.trace, before, Tagged(s, more), batch);
  }

  /** Which starts a tagged trace adds. */
  lemma StartsAppended<S(!new), T(!new)>(trace: seq<Event<(S, T)>>, s: S, more: seq<Event<T>>)
    ensures forall t :: Start((s, t)) in trace + Tagged(s, more) <==> Start((s, t)) in trace || Start(t) in more
    ensures forall r, t :: r != s ==> (Start((r, t)) in trace + Tagged(s, more) <==> Start((r, t)) in trace)
  {
    TaggedMembers(s, more);
    hide Tagged;
    forall t
      ensures Start((s, t)) in Tagged(s, more) <==> Start(t) in more
    {
      assert Tag(s, Start(t)) == Start((s, t));
    }
    forall r, t | r != s
      ensures Start((r, t)) !in Tagged(s, more)
    {
      assert Start((r, t)).task.0 != s;
    }
  }

  /** Another subpipeline's trace explains nothing away. */
  lemma ExplainsLater<S(!new), T(!new)>(
    s: S, decls: seq<Decl<T>>, oracle: T -> Outcome, outcome: SubOutcome<T>, trace: seq<Event<(S, T)>>,
    other: S, more: seq<Event<T>>, was: bool, now: bool
  )
    requires Explains(s, decls, oracle, outcome, trace, was) && s != other && (was ==> now)
    ensures Explains(s, decls, oracle, outcome, trace + Tagged(other, more), now)
  {
    hide Tagged, Names, GraphFrom, Levellable;
    StartsAppended(trace, other, more);
  }

  lemma StartedAppended<S(!new), T(!new)>(r: S, trace: seq<Event<(S, T)>>, s: S, more: seq<Event<T>>)
    ensures r != s ==> StartedOf(r, trace + Tagged(s, more)) == StartedOf(r, trace)
    ensures r == s && StartedOf(r, trace) == {} ==> StartedOf(r, trace + Tagged(s, more)) == StartedIn(more)
  {
    hide Tagged;
    StartsAppended(trace, s, more);
    var all := trace + Tagged(s, more);
    forall t
      ensures t in StartedOf(r, all) <==> t in StartedOf(r, trace) || (r == s && t in StartedIn(more))
    {
      StartedIff(r, all, t);
      StartedIff(r, trace, t);
      StartedInIff(more, t);
    }
  }

  lemma StartedIff<S(!new), T(!new)>(s: S, trace: seq<Event<(S, T)>>, t: T)
    ensures t in StartedOf(s, trace) <==> Start((s, t)) in trace
  {
    if t in StartedOf(s, trace) {
      var e :| e in trace && e.Start? && e.task.0 == s && e.task.1 == t;
      assert e == Start((s, t));
    }
    if Start((s, t)) in trace {
      assert Start((s, t)).Start? && Start((s, t)).task.0 == s;
    }
  }

  lemma StartedInIff<T(!new)>(trace: seq<Event<T>>, t: T)
    ensures t in StartedIn(trace) <==> Start(t) in trace
  {
    if t in StartedIn(trace) {
      var e :| e in trace && e.Start? && e.task == t;
      assert e == Start(t);
    }
    if Start(t) in trace {
      assert Start(t).Start? && Start(t).task == t;
    }
  }

  lemma NothingStarted<S(!new), T(!new)>(s: S, trace: seq<Event<(S, T)>>)
    requires forall e :: e in trace ==> e.task.0 != s
    ensures StartedOf(s, trace) == {}
  {
  }

  lemma NotYetStarted<S(!new), T(!new)>(s: S, trace: seq<Event<(S, T)>>)
    requires forall e :: e in trace ==> e.task.0 != s
    ensures forall t :: Start((s, t)) !in trace
  {
    forall t
      ensures Start((s, t)) !in trace
    {
      assert Start((s, t)).task.0 == s;
    }
  }

  /** A subpipeline's own trace explains its outcome. */
  lemma ExplainsItself<S(!new), T(!new)>(
    s: S, decls: seq<Decl<T>>, oracle: T -> Outcome, outcome: SubOutcome<T>, trace: seq<Event<(S, T)>>,
    more: seq<Event<T>>, limit: nat, cancelled: bool
  )
    requires OwnTrace(decls, oracle, outcome, more, limit, cancelled)
    requires forall e :: e in trace ==> e.task.0 != s
    ensures Explains(s, decls, oracle, outcome, trace + Tagged(s, more), cancelled)
  {
    hide Tagged, Names, GraphFrom, Levellable;
    hide Ordered, WellFormed, AllFinished, AtMostInFlight, InFlight;
    StartsAppended(trace, s, more);
    NotYetStarted(s, trace);
    if outcome.Escaped? {
      var t :| Start(t) in more && !oracle(t).Finished?;
      assert Start((s, t)) in trace + Tagged(s, more) && Fails(oracle(t));
    }
  }

  lemma ExtendedExplained<S(!new), T(!new)>(
    subs: seq<Subpipeline<S, T>>, declared: seq<seq<Decl<T>>>, oracle: S -> T -> Outcome, log: Log<S, T>, limit: nat,
    i: nat, outcome: SubOutcome<T>, more: seq<Event<T>>, was: bool, now: bool
  )
    requires |declared| == |subs| && i < |subs| && Distinct(Names(SubDecls(subs)))
    requires Explained(subs, declared, oracle, log, was) && (was ==> now)
    requires forall e :: e in log.trace ==> e.task.0 in log.outcomes
    requires subs[i].name !in log.outcomes
    requires OwnTrace(Effective(subs[i], declared[i]), oracle(subs[i].name), outcome, more, limit, now)
    requires now || EndsByConfig(subs[i], declared[i], oracle(subs[i].name), outcome, StartedIn(more))
    ensures Explained(subs, declared, oracle, Extended(log, subs[i].name, outcome, more), now)
  {
    hide OwnTrace, Explains, Distinct, Effective, Tagged, EndsByConfig, StartedOf, StartedIn;
    var s := subs[i].name;
    forall j | 0 <= j < |subs| && subs[j].name in log.outcomes[s := outcome]
      ensures Explains(subs[j].name, Effective(subs[j], declared[j]), oracle(subs[j].name),
        log.outcomes[s := outcome][subs[j].name], log.trace + Tagged(s, more), now)
      ensures now || EndsByConfig(subs[j], declared[j], oracle(subs[j].name), log.outcomes[s := outcome][subs[j].name],
        StartedOf(subs[j].name, log.trace + Tagged(s, more)))
    {
      StartedAppended(subs[j].name, log.trace, s, more);
      if subs[j].name == s {
        SameIndex(subs, i, j);
        NothingStarted(s, log.trace);
        ExplainsItself(s, Effective(subs[i], declared[i]), oracle(s), outcome, log.trace, more, limit, now);
      } else {
        ExplainsLater(subs[j].name, Effective(subs[j], declared[j]), oracle(subs[j].name),
          log.outcomes[subs[j].name], log.trace, s, more, was, now);
      }
    }
  }

  lemma ToldLater<S(!new), T(!new)>(
    subs: seq<Subpipeline<S, T>>, declared: seq<seq<Decl<T>>>, oracle: S -> T -> Outcome, log: Log<S, T>, limit: nat,
    was: bool, now: bool
  )
    requires |declared| == |subs| && Told(subs, declared, oracle, log, limit, was) && (was ==> now)
    ensures Told(subs, declared, oracle, log, limit, now)
  {
    hide TraceSound;
  }

  // ---------- the run ----------

  /** What the run's loops leave alone: the names, and the tasks of subpipelines that have not run. */
  ghost predicate Prepared<S(!new), T(!new)>(subs: seq<Subpipeline<S, T>>, declared: seq<seq<Decl<T>>>) {
    && |declared| == |subs| && Distinct(Names(SubDecls(subs)))
    && (forall i :: 0 <= i < |subs| ==> Distinct(Names(declared[i])))
    && (forall i, j, t :: 0 <= i < j < |subs| && t in subs[i].tasks ==> t !in subs[j].tasks)
  }

  /** The tasks of every subpipeline that has not run are as declared. */
  ghost predicate Untouched<S(!new), T(!new)>(
    subs: seq<Subpipeline<S, T>>, declared: seq<seq<Decl<T>>>, executed: set<S>
  )
    requires |declared| == |subs|
    reads TaskObjects(subs)
  {
    forall j :: 0 <= j < |subs| && subs[j].name !in executed ==>
      && |subs[j].tasks| == |declared[j]|
      && forall m :: 0 <= m < |declared[j]| ==>
        && subs[j].tasks[m] in subs[j].tasks
        && subs[j].tasks[m].name == declared[j][m].name
        && subs[j].tasks[m].dependsOn == declared[j][m].dependsOn
  }

  ghost function TaskObjects<S, T>(subs: seq<Subpipeline<S, T>>): (r: set<ResolvedTask<T>>)
    ensures forall i, t :: 0 <= i < |subs| && t in subs[i].tasks ==> t in r
  {
    set i, t | 0 <= i < |subs| && t in subs[i].tasks :: t
  }

  lemma PreparedSize<S(!new), T(!new)>(subs: seq<Subpipeline<S, T>>, declared: seq<seq<Decl<T>>>)
    requires Prepared(subs, declared)
    ensures |declared| == |subs| && Distinct(Names(SubDecls(subs)))
  {
  }

  /** The graph the run follows, ranked. */
  ghost predicate Levelled<S(!new)>(decls: seq<Decl<S>>, rank: map<S, nat>, top: nat) {
    GraphOf(decls, GraphFrom(decls)) && Ranked(GraphFrom(decls), rank) && forall n :: n in rank ==> rank[n] <= top
  }

  ghost predicate SomeEscaped<S(!new), T>(outcomes: map<S, SubOutcome<T>>) {
    exists s :: s in outcomes && outcomes[s].Escaped?
  }

  lemma EscapedOneMore<S(!new), T>(outcomes: map<S, SubOutcome<T>>, s: S, outcome: SubOutcome<T>)
    requires s !in outcomes
    ensures SomeEscaped(outcomes[s := outcome]) <==> SomeEscaped(outcomes) || outcome.Escaped?
  {
    var more := outcomes[s := outcome];
    if n :| n in outcomes && outcomes[n].Escaped? {
      assert n in more && more[n].Escaped?;
    }
    if outcome.Escaped? {
      assert s in more && more[s].Escaped?;
    }
  }

  lemma PolicyOneMore<S(!new), T>(
    subs: seq<Subpipeline<S, T>>, outcomes: map<S, SubOutcome<T>>, s: S, outcome: SubOutcome<T>
  )
    requires s !in outcomes
    ensures AgreeOn(PolicyOf(subs, outcomes), PolicyOf(subs, outcomes[s := outcome]), outcomes.Keys)
    ensures PolicyOf(subs, outcomes[s := outcome]).outcome(s) == ResultOf(outcome)
  {
  }

  lemma ContinuesIff<S(!new), T>(subs: seq<Subpipeline<S, T>>, outcomes: map<S, SubOutcome<T>>, i: nat)
    requires i < |subs| && Distinct(Names(SubDecls(subs)))
    ensures subs[i].name in PolicyOf(subs, outcomes).continues <==> subs[i].config.onFailure == "continue"
  {
    DistinctDeclarations(SubDecls(subs));
    assert forall j :: 0 <= j < |subs| ==> SubDecls(subs)[j].name == subs[j].name;
    assert Names(SubDecls(subs))[i] == subs[i].name;
    hide Distinct, Names, SubDecls;
  }

  /** The subpipeline of a name. */
  lemma SubAt<S(!new), T>(subs: seq<Subpipeline<S, T>>, name: S)
    requires name in Names(SubDecls(subs))
    ensures IndexOf(Names(SubDecls(subs)), name) < |subs|
    ensures subs[IndexOf(Names(SubDecls(subs)), name)].name == name
  {
  }

  /** Executes one subpipeline that is due and books its result. */
  method RunSub<S(==,!new), T(==,!new)>(
    runner: PipelineRunner, subs: seq<Subpipeline<S, T>>, ghost declared: seq<seq<Decl<T>>>,
    ghost rank: map<S, nat>, ghost top: nat, oracle: S -> T -> Outcome, ghost limit: nat,
    name: S, books: Books<S>, ghost log: Log<S, T>
  ) returns (after: Books<S>, outcome: SubOutcome<T>, ghost log': Log<S, T>)
    requires Prepared(subs, declared) && Levelled(SubDecls(subs), rank, top)
    requires forall i :: 0 <= i < |subs| ==> LimitOf(runner, subs[i].config) <= limit
    requires Untouched(subs, declared, log.outcomes.Keys) && Told(subs, declared, oracle, log, limit, runner.cancelled)
    requires Kept(GraphFrom(SubDecls(subs)), PolicyOf(subs, log.outcomes), log.outcomes.Keys, books)
    requires name in Names(SubDecls(subs)) && name !in log.outcomes
    requires NothingAbove(GraphFrom(SubDecls(subs)), log.outcomes.Keys, name)
    requires !Doomed(GraphFrom(SubDecls(subs)), PolicyOf(subs, log.outcomes), log.outcomes.Keys, name)
    requires runner.unexpectedError <==> SomeEscaped(log.outcomes)
    modifies runner, TaskObjects(subs)
    ensures old(runner.cancelled) ==> runner.cancelled
    ensures runner.cancelled ==> old(runner.cancelled) || runner.requested
    ensures log'.outcomes == log.outcomes[name := outcome]
    ensures Untouched(subs, declared, log'.outcomes.Keys) && Told(subs, declared, oracle, log', limit, runner.cancelled)
    ensures Kept(GraphFrom(SubDecls(subs)), PolicyOf(subs, log'.outcomes), log'.outcomes.Keys, after)
    ensures AgreeOn(PolicyOf(subs, log.outcomes), PolicyOf(subs, log'.outcomes), log.outcomes.Keys)
    ensures runner.unexpectedError <==> SomeEscaped(log'.outcomes)
    ensures OneOwner(log.trace, log'.trace, name)
  {
    hide *;
    var i := IndexOf(Names(SubDecls(subs)), name);
    SubAt(subs, name);
    PreparedAt(subs, declared, log.outcomes.Keys, i);
    TasksApart(subs, declared, i);
    UntouchedMeans(subs, declared, log.outcomes.Keys);
    ghost var was := runner.cancelled;
    ghost var more;
    label Before:
    outcome, more := ExecuteOne(runner, subs[i], oracle(name), declared[i], limit);
    ToldParts(subs, declared, oracle, log, limit, was);
    SoundTrace(subs, declared, log, limit);
    ExtendedTrace(subs, declared, oracle(name), log, limit, i, outcome, more, runner.cancelled);
    ExtendedExplained(subs, declared, oracle, log, limit, i, outcome, more, was, runner.cancelled);
    ExtendedIs(log, name, outcome, more);
    log' := Extended(log, name, outcome, more);
    OwnersAppended(log, name, outcome, more);
    ToldFrom(subs, declared, oracle, log', limit, runner.cancelled);
    ghost var g, before := GraphFrom(SubDecls(subs)), PolicyOf(subs, log.outcomes);
    ghost var policy := PolicyOf(subs, log'.outcomes);
    PolicyOneMore(subs, log.outcomes, name, outcome);
    AgreedBooks(g, before, policy, log.outcomes.Keys, books, {});
    ContinuesIff(subs, log'.outcomes, i);
    LevelledParts(SubDecls(subs), rank, top);
    EscapedOneMore(log.outcomes, name, outcome);
    EscapedIff(outcome);
    after := BookOne(runner, SubDecls(subs), g, rank, top, policy, name, ResultOf(outcome),
      subs[i].config.onFailure == "continue", books, log.outcomes.Keys);
    assert log'.outcomes.Keys == log.outcomes.Keys + {name};
    UntouchedMeans(subs, declared, log.outcomes.Keys + {name});
  }

  lemma EscapedIff<T>(outcome: SubOutcome<T>)
    ensures ResultOf(outcome).RaisedError? <==> outcome.Escaped?
  {
  }

  lemma LevelledParts<S(!new)>(decls: seq<Decl<S>>, rank: map<S, nat>, top: nat)
    requires Levelled(decls, rank, top)
    ensures GraphOf(decls, GraphFrom(decls)) && Ranked(GraphFrom(decls), rank)
    ensures forall n :: n in rank ==> rank[n] <= top
  {
  }

  lemma PreparedAt<S(!new), T(!new)>(
    subs: seq<Subpipeline<S, T>>, declared: seq<seq<Decl<T>>>, executed: set<S>, i: nat
  )
    requires Prepared(subs, declared) && Untouched(subs, declared, executed) && i < |subs| && subs[i].name !in executed
    ensures |declared| == |subs| && Distinct(Names(SubDecls(subs)))
    ensures Decls(subs[i].tasks) == declared[i] && Distinct(Names(declared[i]))
    ensures forall t :: t in subs[i].tasks ==> t in TaskObjects(subs)
  {
  }

  /** No other subpipeline shares a task with this one. */
  lemma TasksApart<S(!new), T(!new)>(subs: seq<Subpipeline<S, T>>, declared: seq<seq<Decl<T>>>, i: nat)
    requires Prepared(subs, declared) && i < |subs|
    ensures forall j, t :: 0 <= j < |subs| && j != i && t in subs[j].tasks ==> t !in subs[i].tasks
  {
  }

  lemma UntouchedMeans<S(!new), T(!new)>(
    subs: seq<Subpipeline<S, T>>, declared: seq<seq<Decl<T>>>, executed: set<S>
  )
    requires |declared| == |subs|
    ensures Untouched(subs, declared, executed) <==>
      forall j :: 0 <= j < |subs| && subs[j].name !in executed ==>
        && |subs[j].tasks| == |declared[j]|
        && forall m :: 0 <= m < |declared[j]| ==>
          && subs[j].tasks[m] in subs[j].tasks
          && subs[j].tasks[m].name == declared[j][m].name
          && subs[j].tasks[m].dependsOn == declared[j][m].dependsOn
  {
  }

  lemma ToldParts<S(!new), T(!new)>(
    subs: seq<Subpipeline<S, T>>, declared: seq<seq<Decl<T>>>, oracle: S -> T -> Outcome, log: Log<S, T>, limit: nat,
    cancelled: bool
  )
    requires |declared| == |subs| && Told(subs, declared, oracle, log, limit, cancelled)
    ensures TraceSound(subs, declared, log, limit) && Explained(subs, declared, oracle, log, cancelled)
  {
  }

  lemma ToldFrom<S(!new), T(!new)>(
    subs: seq<Subpipeline<S, T>>, declared: seq<seq<Decl<T>>>, oracle: S -> T -> Outcome, log: Log<S, T>, limit: nat,
    cancelled: bool
  )
    requires |declared| == |subs|
    requires TraceSound(subs, declared, log, limit) && Explained(subs, declared, oracle, log, cancelled)
    ensures Told(subs, declared, oracle, log, limit, cancelled)
  {
  }

  lemma AgreeChain<T(!new)>(a: Policy<T>, b: Policy<T>, c: Policy<T>, fewer: set<T>, more: set<T>)
    requires AgreeOn(a, b, fewer) && AgreeOn(b, c, more) && fewer <= more
    ensures AgreeOn(a, c, fewer)
  {
  }

  lemma AgreeWithItself<T(!new)>(a: Policy<T>, executed: set<T>)
    ensures AgreeOn(a, a, executed)
  {
  }

  /** Nothing of the level that is due has run, and what is not marked failed is not doomed. */
  lemma DueNow<S(!new), T>(
    subs: seq<Subpipeline<S, T>>, outcomes: map<S, SubOutcome<T>>, policy: Policy<S>, k: nat, books: Books<S>,
    executed: set<S>, toRun: seq<S>, i: nat
  )
    requires Distinct(toRun) && i < |toRun| && GraphFrom(SubDecls(subs)).Keys == Elements(Names(SubDecls(subs)))
    requires At(GraphFrom(SubDecls(subs)), policy, k, executed, books, false)
    requires var g := GraphFrom(SubDecls(subs)); NextBatch(g, Below(g, k), LevelSet(g, k))
    requires Elements(toRun) == LevelSet(GraphFrom(SubDecls(subs)), k) - books.failed
    requires AgreeOn(policy, PolicyOf(subs, outcomes), executed)
    requires outcomes.Keys == executed + Elements(toRun[..i])
    ensures toRun[i] in Names(SubDecls(subs)) && toRun[i] !in outcomes
    ensures NothingAbove(GraphFrom(SubDecls(subs)), outcomes.Keys, toRun[i])
    ensures !Doomed(GraphFrom(SubDecls(subs)), PolicyOf(subs, outcomes), outcomes.Keys, toRun[i])
  {
    hide *;
    var g, batch := GraphFrom(SubDecls(subs)), LevelSet(GraphFrom(SubDecls(subs)), k);
    Runnable(g, policy, k, executed, books, batch);
    ElementsSnoc(toRun, i);
    PrefixElements(toRun, i);
    AgreedBooks(g, policy, PolicyOf(subs, outcomes), executed, books, {});
    assert toRun[i] in batch - books.failed;
    BatchNothingAbove(g, PolicyOf(subs, outcomes), Below(g, k), batch, executed, Elements(toRun[..i]), toRun[i]);
  }

  /** The level is over: everything that was due has run, or the run is cancelled. */
  lemma LevelOver<S(!new), T>(
    subs: seq<Subpipeline<S, T>>, outcomes: map<S, SubOutcome<T>>, policy: Policy<S>, k: nat, books: Books<S>,
    executed: set<S>, toRun: seq<S>, i: nat, after: Books<S>, cancelled: bool
  )
    requires At(GraphFrom(SubDecls(subs)), policy, k, executed, books, false)
    requires var g := GraphFrom(SubDecls(subs)); NextBatch(g, Below(g, k), LevelSet(g, k))
    requires Below(GraphFrom(SubDecls(subs)), k + 1) ==
      Below(GraphFrom(SubDecls(subs)), k) + LevelSet(GraphFrom(SubDecls(subs)), k)
    requires Elements(toRun) == LevelSet(GraphFrom(SubDecls(subs)), k) - books.failed && i <= |toRun|
    requires AgreeOn(policy, PolicyOf(subs, outcomes), executed)
    requires outcomes.Keys == executed + Elements(toRun[..i]) && (cancelled || i == |toRun|)
    requires Kept(GraphFrom(SubDecls(subs)), PolicyOf(subs, outcomes), outcomes.Keys, after)
    ensures At(GraphFrom(SubDecls(subs)), PolicyOf(subs, outcomes), k + 1, outcomes.Keys, after, cancelled)
  {
    hide *;
    var g := GraphFrom(SubDecls(subs));
    var before, batch := Below(g, k), LevelSet(g, k);
    Runnable(g, policy, k, executed, books, batch);
    PrefixElements(toRun, i);
    AtParts(g, policy, k, executed, books);
    AgreedBooks(g, policy, PolicyOf(subs, outcomes), executed, books, before);
    LevelDone(g, PolicyOf(subs, outcomes), before, batch, executed, Elements(toRun[..i]), toRun, books, after,
      cancelled);
    AtFrom(g, PolicyOf(subs, outcomes), k + 1, outcomes.Keys, after, cancelled);
  }

  lemma AtParts<T(!new)>(g: Graph<T>, policy: Policy<T>, k: nat, executed: set<T>, books: Books<T>)
    requires At(g, policy, k, executed, books, false)
    ensures Kept(g, policy, executed, books) && executed <= Below(g, k) && Covered(g, policy, executed, Below(g, k))
  {
  }

  lemma AtFrom<T(!new)>(
    g: Graph<T>, policy: Policy<T>, k: nat, executed: set<T>, books: Books<T>, cancelled: bool
  )
    requires Kept(g, policy, executed, books) && executed <= Below(g, k)
    requires cancelled || Covered(g, policy, executed, Below(g, k))
    ensures At(g, policy, k, executed, books, cancelled)
  {
  }

  /** Executes the subpipelines of one level that are not marked failed, one at a time. */
  method RunLevel<S(==,!new), T(==,!new)>(
    runner: PipelineRunner, subs: seq<Subpipeline<S, T>>, ghost declared: seq<seq<Decl<T>>>,
    ghost rank: map<S, nat>, ghost top: nat, oracle: S -> T -> Outcome, ghost limit: nat,
    level: seq<S>, books: Books<S>, ghost k: nat, ghost log: Log<S, T>
  ) returns (after: Books<S>, ghost log': Log<S, T>)
    requires Prepared(subs, declared) && Levelled(SubDecls(subs), rank, top)
    requires forall i :: 0 <= i < |subs| ==> LimitOf(runner, subs[i].config) <= limit
    requires Untouched(subs, declared, log.outcomes.Keys) && Told(subs, declared, oracle, log, limit, runner.cancelled)
    requires At(GraphFrom(SubDecls(subs)), PolicyOf(subs, log.outcomes), k, log.outcomes.Keys, books, false)
    requires Distinct(level) && Elements(level) == LevelSet(GraphFrom(SubDecls(subs)), k)
    requires Below(GraphFrom(SubDecls(subs)), k + 1) ==
      Below(GraphFrom(SubDecls(subs)), k) + LevelSet(GraphFrom(SubDecls(subs)), k)
    requires var g := GraphFrom(SubDecls(subs)); NextBatch(g, Below(g, k), LevelSet(g, k))
    requires runner.unexpectedError <==> SomeEscaped(log.outcomes)
    modifies runner, TaskObjects(subs)
    ensures old(runner.cancelled) ==> runner.cancelled
    ensures runner.cancelled ==> old(runner.cancelled) || runner.requested
    ensures Untouched(subs, declared, log'.outcomes.Keys) && Told(subs, declared, oracle, log', limit, runner.cancelled)
    ensures At(GraphFrom(SubDecls(subs)), PolicyOf(subs, log'.outcomes), k + 1, log'.outcomes.Keys, after,
      runner.cancelled)
    ensures runner.unexpectedError <==> SomeEscaped(log'.outcomes)
    ensures old(runner.cancelled) ==> log' == log
    ensures GoesOnWith(log.trace, log'.trace, level)
  {
    hide *;
    ghost var policy, executed := PolicyOf(subs, log.outcomes), log.outcomes.Keys;
    PreparedSize(subs, declared);
    UntouchedMeans(subs, declared, executed);
    var toRun := Without(level, books.failed);
    UntouchedMeans(subs, declared, executed);
    after, log' := books, log;
    AtParts(GraphFrom(SubDecls(subs)), policy, k, executed, books);
    AgreeWithItself(policy, executed);
    GraphFromKeys(SubDecls(subs));
    NoneYet(toRun);
    NoOwnerYet(log.trace, toRun);
    for i := 0 to |toRun|
      invariant old(runner.cancelled) ==> runner.cancelled
      invariant runner.cancelled ==> old(runner.cancelled) || runner.requested
      invariant log'.outcomes.Keys == executed + Elements(toRun[..i])
      invariant Untouched(subs, declared, log'.outcomes.Keys)
      invariant Told(subs, declared, oracle, log', limit, runner.cancelled)
      invariant Kept(GraphFrom(SubDecls(subs)), PolicyOf(subs, log'.outcomes), log'.outcomes.Keys, after)
      invariant AgreeOn(policy, PolicyOf(subs, log'.outcomes), executed)
      invariant runner.unexpectedError <==> SomeEscaped(log'.outcomes)
      invariant old(runner.cancelled) ==> log' == log
      invariant GoesOnInto(log.trace, log'.trace, toRun, i)
    {
      ElementsSnoc(toRun, i);
      ghost var was := runner.cancelled;
      UntouchedMeans(subs, declared, log'.outcomes.Keys);
      var cancelled := runner.CheckCancelSignal();
      UntouchedMeans(subs, declared, log'.outcomes.Keys);
      ToldLater(subs, declared, oracle, log', limit, was, cancelled);
      if cancelled {
        LevelOver(subs, log'.outcomes, policy, k, books, executed, toRun, i, after, true);
        GoesOnInLevel(log.trace, log'.trace, level, toRun, i);
        return;
      }
      DueNow(subs, log'.outcomes, policy, k, books, executed, toRun, i);
      ghost var earlier := log';
      var outcome;
      after, outcome, log' := RunSub(runner, subs, declared, rank, top, oracle, limit, toRun[i], after, log');
      AgreeChain(policy, PolicyOf(subs, earlier.outcomes), PolicyOf(subs, log'.outcomes), executed,
        earlier.outcomes.Keys);
      OneMoreOwner(log.trace, earlier.trace, log'.trace, toRun, i);
    }
    GoesOnInLevel(log.trace, log'.trace, level, toRun, |toRun|);
    LevelOver(subs, log'.outcomes, policy, k, books, executed, toRun, |toRun|, after, runner.cancelled);
  }

  lemma NoneYet<T(!new)>(s: seq<T>)
    ensures Elements(s[..0]) == {}
  {
  }

  // ---------- the whole run ----------

  /** The level loop: a cancellation seen at a check ends it. */
  method RunLevels<S(==,!new), T(==,!new)>(
    runner: PipelineRunner, subs: seq<Subpipeline<S, T>>, ghost declared: seq<seq<Decl<T>>>,
    levels: seq<seq<S>>, oracle: S -> T -> Outcome, ghost limit: nat
  ) returns (books: Books<S>, ghost log: Log<S, T>)
    requires Prepared(subs, declared) && KnownDependencies(SubDecls(subs))
    requires IsLevelling(Names(SubDecls(subs)), GraphFrom(SubDecls(subs)), levels)
    requires forall i :: 0 <= i < |subs| ==> LimitOf(runner, subs[i].config) <= limit
    requires Untouched(subs, declared, {}) && !runner.unexpectedError
    modifies runner, TaskObjects(subs)
    ensures old(runner.cancelled) ==> runner.cancelled
    ensures runner.cancelled ==> old(runner.cancelled) || runner.requested
    ensures Told(subs, declared, oracle, log, limit, runner.cancelled)
    ensures Ended(GraphFrom(SubDecls(subs)), PolicyOf(subs, log.outcomes), log.outcomes.Keys, books, runner.cancelled)
    ensures runner.unexpectedError <==> SomeEscaped(log.outcomes)
    ensures old(runner.cancelled) ==> log == Log(map[], [])
    ensures LevelByLevel(Names(SubDecls(subs)), GraphFrom(SubDecls(subs)), OwnersOf(log.trace))
  {
    hide *;
    ghost var decls := SubDecls(subs);
    PreparedSize(subs, declared);
    KnownIsClosed(decls);
    ghost var rank := LevellingRanks(Names(decls), GraphFrom(decls), levels);
    LevelledFrom(decls, rank, |levels|);
    books, log := Books({}, {}), Log(map[], []);
    assert log.outcomes.Keys == {};
    NothingTold(subs, declared, oracle, limit, runner.cancelled);
    NothingRun(GraphFrom(decls), PolicyOf(subs, map[]), runner.cancelled);
    FlatIsDistinct(Names(decls), GraphFrom(decls), levels);
    NothingInOrder(levels);
    assert OwnersOf(log.trace) == [];
    for k := 0 to |levels|
      invariant old(runner.cancelled) ==> runner.cancelled
      invariant runner.cancelled ==> old(runner.cancelled) || runner.requested
      invariant Untouched(subs, declared, log.outcomes.Keys)
      invariant Told(subs, declared, oracle, log, limit, runner.cancelled)
      invariant At(GraphFrom(decls), PolicyOf(subs, log.outcomes), k, log.outcomes.Keys, books, runner.cancelled)
      invariant runner.unexpectedError <==> SomeEscaped(log.outcomes)
      invariant old(runner.cancelled) ==> log == Log(map[], [])
      invariant InLevels(levels, k, OwnersOf(log.trace))
    {
      ghost var was := runner.cancelled;
      UntouchedMeans(subs, declared, log.outcomes.Keys);
      var cancelled := runner.CheckCancelSignal();
      UntouchedMeans(subs, declared, log.outcomes.Keys);
      ToldLater(subs, declared, oracle, log, limit, was, cancelled);
      AtLater(GraphFrom(decls), PolicyOf(subs, log.outcomes), k, log.outcomes.Keys, books, was, cancelled);
      if cancelled {
        CancelledEnd(GraphFrom(decls), PolicyOf(subs, log.outcomes), k, log.outcomes.Keys, books);
        InLevelsMeans(levels, k, OwnersOf(log.trace));
        InThatOrder(Names(decls), GraphFrom(decls), levels, OwnersOf(log.trace));
        return;
      }
      LevelFacts(Names(decls), GraphFrom(decls), levels, k);
      ghost var earlier := log;
      books, log := RunLevel(runner, subs, declared, rank, |levels|, oracle, limit, levels[k], books, k, log);
      LevelsGoOn(levels, k, earlier.trace, log.trace);
    }
    InLevelsMeans(levels, |levels|, OwnersOf(log.trace));
    InThatOrder(Names(decls), GraphFrom(decls), levels, OwnersOf(log.trace));
    EverythingBelow(Names(decls), GraphFrom(decls), levels);
    FullEnd(GraphFrom(decls), PolicyOf(subs, log.outcomes), |levels|, log.outcomes.Keys, books, runner.cancelled);
  }

  lemma LevelledFrom<S(!new)>(decls: seq<Decl<S>>, rank: map<S, nat>, top: nat)
    requires GraphOf(decls, GraphFrom(decls)) && Ranked(GraphFrom(decls), rank)
    requires forall n :: n in rank ==> rank[n] < top
    ensures Levelled(decls, rank, top)
  {
  }

  lemma NothingTold<S(!new), T(!new)>(
    subs: seq<Subpipeline<S, T>>, declared: seq<seq<Decl<T>>>, oracle: S -> T -> Outcome, limit: nat, cancelled: bool
  )
    requires |declared| == |subs|
    ensures Told(subs, declared, oracle, Log(map[], []), limit, cancelled)
    ensures !SomeEscaped<S, T>(map[])
  {
  }

  /** Under an account that covers everything, a pipeline all of whose tasks succeeded has completed. */
  lemma SucceededSub<S(!new), T(!new)>(
    subs: seq<Subpipeline<S, T>>, declared: seq<seq<Decl<T>>>, oracle: S -> T -> Outcome, log: Log<S, T>, i: nat
  )
    requires |declared| == |subs| && i < |subs| && subs[i].name in log.outcomes
    requires Explained(subs, declared, oracle, log, false) && EveryTaskSucceeded(subs, declared, oracle, log.trace)
    ensures ResultOf(log.outcomes[subs[i].name]).Succeeded?
  {
    var s, decls := subs[i].name, Effective(subs[i], declared[i]);
    SameTaskNames(subs[i], declared[i]);
    assert Explains(s, decls, oracle(s), log.outcomes[s], log.trace, false);
    hide Explained, Effective, Names, GraphFrom;
    match log.outcomes[s]
    case DagFailed => BadDagHasTasks(decls);
    case Escaped =>
    case Done(ledger) =>
      forall t
        ensures t !in ledger.failed
      {
      }
  }

  lemma SameTaskNames<S, T>(sub: Subpipeline<S, T>, declared: seq<Decl<T>>)
    ensures Names(Effective(sub, declared)) == Names(declared)
  {
    ChainKeepsNames(declared);
  }

  /** Without tasks there is no unknown dependency and no cycle. */
  lemma BadDagHasTasks<T(!new)>(decls: seq<Decl<T>>)
    requires !Levellable(decls)
    ensures exists t :: t in Names(decls)
  {
    if decls == [] {
      if a :| Reach(GraphFrom(decls), a, a) {
        ReachInside(GraphFrom(decls), a, a);
      }
    } else {
      assert Names(decls)[0] in Names(decls);
    }
  }

  /** A completed subpipeline ran all of its tasks, and none of them fails. */
  lemma CompletedSub<S(!new), T(!new)>(
    subs: seq<Subpipeline<S, T>>, declared: seq<seq<Decl<T>>>, oracle: S -> T -> Outcome, log: Log<S, T>, i: nat, t: T
  )
    requires |declared| == |subs| && i < |subs| && subs[i].name in log.outcomes && t in Names(declared[i])
    requires Explained(subs, declared, oracle, log, false) && ResultOf(log.outcomes[subs[i].name]).Succeeded?
    ensures Start((subs[i].name, t)) in log.trace && !Fails(oracle(subs[i].name)(t))
  {
    var s, decls := subs[i].name, Effective(subs[i], declared[i]);
    SameTaskNames(subs[i], declared[i]);
    assert Explains(s, decls, oracle(s), log.outcomes[s], log.trace, false);
    hide Explained, Effective, Names, GraphFrom;
    assert t in Elements(Names(decls));
  }

  /**
   Without cancellation, all subpipelines have completed exactly when every task of every subpipeline
   ran and none of their outcomes fails.
   */
  lemma CompletedIffTasksSucceeded<S(!new), T(!new)>(
    subs: seq<Subpipeline<S, T>>, declared: seq<seq<Decl<T>>>, oracle: S -> T -> Outcome, log: Log<S, T>,
    books: Books<S>
  )
    requires |declared| == |subs| && Explained(subs, declared, oracle, log, false)
    requires Ended(GraphFrom(SubDecls(subs)), PolicyOf(subs, log.outcomes), log.outcomes.Keys, books, false)
    ensures books.completed == Elements(Names(SubDecls(subs))) <==>
      EveryTaskSucceeded(subs, declared, oracle, log.trace)
  {
    var g, policy := GraphFrom(SubDecls(subs)), PolicyOf(subs, log.outcomes);
    GraphFromKeys(SubDecls(subs));
    hide Explained, GraphFrom, Ended, Effective;
    if books.completed == g.Keys {
      forall i, t | 0 <= i < |subs| && t in Names(declared[i])
        ensures Start((subs[i].name, t)) in log.trace && !Fails(oracle(subs[i].name)(t))
      {
        NameIsListed(subs, i);
        SkippedIffDoomed(g, policy, log.outcomes.Keys, books, subs[i].name);
        CompletedSub(subs, declared, oracle, log, i, t);
      }
    }
    if EveryTaskSucceeded(subs, declared, oracle, log.trace) {
      hide EveryTaskSucceeded;
      forall s | s in log.outcomes && s in g
        ensures policy.outcome(s).Succeeded?
      {
        SubAt(subs, s);
        SucceededSub(subs, declared, oracle, log, IndexOf(Names(SubDecls(subs)), s));
      }
      AllCompleted(g, policy, log.outcomes.Keys, books);
    }
  }

  lemma NameIsListed<S(!new), T>(subs: seq<Subpipeline<S, T>>, i: nat)
    requires i < |subs|
    ensures subs[i].name in Elements(Names(SubDecls(subs)))
  {
    assert Names(SubDecls(subs))[i] == subs[i].name;
  }

  /** When everything that executed succeeded, everything executed. */
  lemma AllCompleted<T(!new)>(g: Graph<T>, policy: Policy<T>, executed: set<T>, books: Books<T>)
    requires Ended(g, policy, executed, books, false)
    requires forall s :: s in executed && s in g ==> policy.outcome(s).Succeeded?
    ensures books.completed == g.Keys
  {
    forall n | n in g
      ensures n in books.completed
    {
      SkippedIffDoomed(g, policy, executed, books, n);
    }
  }

  /**
   The run of a pipeline, up to the status it ends with. One trace covers all subpipelines: no task
   runs twice, none starts before everything it waits for has finished, in its own subpipeline and in
   those its subpipeline depends on, and at no moment are more in flight than the pipeline has permits, or
   than the largest subpipeline's limit.
   */
  method Run<S(==,!new), T(==,!new)>(
    runner: PipelineRunner, subs: seq<Subpipeline<S, T>>, ghost declared: seq<seq<Decl<T>>>,
    oracle: S -> T -> Outcome, ghost limit: nat
  ) returns (status: Status, books: Books<S>, ghost log: Log<S, T>)
    requires Prepared(subs, declared) && Untouched(subs, declared, {}) && !runner.unexpectedError
    requires forall i :: 0 <= i < |subs| ==> LimitOf(runner, subs[i].config) <= limit
    modifies runner, TaskObjects(subs)
    ensures old(runner.cancelled) ==> runner.cancelled
    ensures runner.cancelled ==> old(runner.cancelled) || runner.requested
    ensures |declared| == |subs|
    ensures Told(subs, declared, oracle, log, Smaller(limit, runner.TaskPermits()), runner.cancelled)
    ensures AtMostInFlight(log.trace, limit)
    ensures AtMostInFlight(log.trace, if runner.maxConcurrentTasks.Some? && runner.maxConcurrentTasks.value > 0
                                      then runner.maxConcurrentTasks.value else 5)
    ensures old(runner.cancelled) ==> log == Log(map[], [])
    ensures books.failed !! books.completed
    ensures log.trace == [] || LevelByLevel(Names(SubDecls(subs)), GraphFrom(SubDecls(subs)), OwnersOf(log.trace))
    ensures Levellable(SubDecls(subs)) ==>
      Ended(GraphFrom(SubDecls(subs)), PolicyOf(subs, log.outcomes), log.outcomes.Keys, books, runner.cancelled)
    ensures !Levellable(SubDecls(subs)) ==> log == Log(map[], []) && books == Books({}, {})
    ensures Levellable(SubDecls(subs)) && !runner.cancelled ==> forall n :: n in Names(SubDecls(subs)) ==>
      (n !in log.outcomes <==> exists i ::
        && 0 <= i < |subs| && subs[i].name in log.outcomes && Reach(GraphFrom(SubDecls(subs)), n, subs[i].name)
        && var outcome := log.outcomes[subs[i].name];
           || outcome.Escaped?
           || ((outcome.DagFailed? || outcome.ledger.failed != {}) && subs[i].config.onFailure != "continue"))
    ensures Levellable(SubDecls(subs)) && !runner.cancelled ==> forall n ::
      n in books.completed <==> n in log.outcomes && log.outcomes[n].Done? && log.outcomes[n].ledger.failed == {}
    ensures Levellable(SubDecls(subs)) && !runner.cancelled ==> forall n ::
      n in books.failed <==> n in Names(SubDecls(subs)) && n !in books.completed
    ensures runner.unexpectedError <==> !Levellable(SubDecls(subs)) || SomeEscaped(log.outcomes)
    ensures subs == [] ==> status == SUCCESS
    ensures subs != [] ==> (status == CANCELLED <==> runner.cancelled)
    ensures status == PARTIAL ==> books.failed != {} && books.completed != {}
    ensures subs != [] && !runner.cancelled ==>
      (status == FAILED <==> runner.unexpectedError || books.completed == {})
    ensures !runner.cancelled ==>
      (status == SUCCESS <==>
        Levellable(SubDecls(subs)) && EveryTaskSucceeded(subs, declared, oracle, log.trace))
  {
    hide *;
    PreparedSize(subs, declared);
    books, log := Books({}, {}), Log(map[], []);
    assert log.outcomes.Keys == {};
    ghost var bound := Smaller(limit, runner.TaskPermits());
    BelowPermits(runner, subs, limit);
    NothingTold(subs, declared, oracle, bound, runner.cancelled);
    ToldParts(subs, declared, oracle, log, bound, runner.cancelled);
    LevellableIff(SubDecls(subs));
    if subs == [] {
      EmptyRun(subs, declared, oracle, runner.cancelled);
      SoundTrace(subs, declared, log, bound);
      BoundWider(log.trace, bound, limit);
      BoundWider(log.trace, bound, runner.TaskPermits());
      return SUCCESS, books, log;
    }
    UntouchedMeans(subs, declared, {});
    var levels := BuildSubpipelineLevels(SubDecls(subs));
    UntouchedMeans(subs, declared, {});
    if levels.Failure? {
      runner.unexpectedError := true;
    } else {
      books, log := RunLevels(runner, subs, declared, levels.value, oracle, bound);
    }
    ghost var was := runner.cancelled;
    if runner.requested && !runner.cancelled {
      runner.cancelled := *;
    }
    ToldLater(subs, declared, oracle, log, bound, was, runner.cancelled);
    ToldParts(subs, declared, oracle, log, bound, runner.cancelled);
    SoundTrace(subs, declared, log, bound);
    BoundWider(log.trace, bound, limit);
    BoundWider(log.trace, bound, runner.TaskPermits());
    ghost var g, policy := GraphFrom(SubDecls(subs)), PolicyOf(subs, log.outcomes);
    if levels.Success? {
      EndedLater(g, policy, log.outcomes.Keys, books, was, runner.cancelled);
      EndedMeans(SubDecls(subs), policy, log.outcomes.Keys, books, runner.cancelled);
      EscapedFails(subs, log.outcomes, books, runner.cancelled);
      if !runner.cancelled {
        CompletedIffTasksSucceeded(subs, declared, oracle, log, books);
        PreparedNames(subs, declared);
        WhoWasExecuted(subs, log.outcomes, books);
      }
    }
    SomeSub(SubDecls(subs));
    if runner.cancelled {
      status := CANCELLED;
    } else if runner.unexpectedError {
      status := FAILED;
    } else if books.failed != {} {
      status := if books.completed != {} then PARTIAL else FAILED;
    } else {
      status := SUCCESS;
    }
  }

  lemma PreparedNames<S(!new), T(!new)>(subs: seq<Subpipeline<S, T>>, declared: seq<seq<Decl<T>>>)
    requires Prepared(subs, declared)
    ensures Distinct(Names(SubDecls(subs)))
  {
  }

  /** The policy that is read off a subpipeline and its outcome, spelled out. */
  lemma FatalMeans<S(!new), T>(subs: seq<Subpipeline<S, T>>, outcomes: map<S, SubOutcome<T>>, i: nat)
    requires Distinct(Names(SubDecls(subs))) && i < |subs| && subs[i].name in outcomes
    ensures PolicyOf(subs, outcomes).Fatal(subs[i].name) <==>
      var outcome := outcomes[subs[i].name];
      || outcome.Escaped?
      || ((outcome.DagFailed? || outcome.ledger.failed != {}) && subs[i].config.onFailure != "continue")
  {
    assert Names(SubDecls(subs))[i] == subs[i].name;
    forall j | 0 <= j < |subs| && subs[j].name == subs[i].name
      ensures j == i
    {
      assert Names(SubDecls(subs))[j] == subs[j].name;
    }
  }

  /**
   In an uncancelled run, who was executed, who completed and who failed, told from the outcomes and the
   configured policies: a subpipeline is left out exactly when one that it depends on, directly or transitively,
   was left by an exception, or did not succeed and its policy is not to continue.
   */
  lemma WhoWasExecuted<S(!new), T>(subs: seq<Subpipeline<S, T>>, outcomes: map<S, SubOutcome<T>>, books: Books<S>)
    requires Distinct(Names(SubDecls(subs)))
    requires Ended(GraphFrom(SubDecls(subs)), PolicyOf(subs, outcomes), outcomes.Keys, books, false)
    ensures forall n :: n in Names(SubDecls(subs)) ==>
      (n !in outcomes <==> exists i ::
        && 0 <= i < |subs| && subs[i].name in outcomes && Reach(GraphFrom(SubDecls(subs)), n, subs[i].name)
        && var outcome := outcomes[subs[i].name];
           || outcome.Escaped?
           || ((outcome.DagFailed? || outcome.ledger.failed != {}) && subs[i].config.onFailure != "continue"))
    ensures forall n :: n in books.completed <==> n in outcomes && outcomes[n].Done? && outcomes[n].ledger.failed == {}
    ensures forall n :: n in books.failed <==> n in Names(SubDecls(subs)) && n !in books.completed
  {
    var g, policy := GraphFrom(SubDecls(subs)), PolicyOf(subs, outcomes);
    GraphFromKeys(SubDecls(subs));
    CompletedMeans(subs, outcomes, books);
    forall n | n in Names(SubDecls(subs))
      ensures n !in outcomes <==> exists i ::
        && 0 <= i < |subs| && subs[i].name in outcomes && Reach(g, n, subs[i].name)
        && var outcome := outcomes[subs[i].name];
           || outcome.Escaped?
           || ((outcome.DagFailed? || outcome.ledger.failed != {}) && subs[i].config.onFailure != "continue")
    {
      hide Reach, GraphFrom, Distinct, Kept, Covered;
      SkippedIffDoomed(g, policy, outcomes.Keys, books, n);
      LeftOutMeans(subs, outcomes, n);
    }
  }

  lemma CompletedMeans<S(!new), T>(subs: seq<Subpipeline<S, T>>, outcomes: map<S, SubOutcome<T>>, books: Books<S>)
    requires Ended(GraphFrom(SubDecls(subs)), PolicyOf(subs, outcomes), outcomes.Keys, books, false)
    ensures forall n :: n in books.completed <==> n in outcomes && outcomes[n].Done? && outcomes[n].ledger.failed == {}
    ensures forall n :: n in books.failed <==> n in Names(SubDecls(subs)) && n !in books.completed
  {
    EndedMeans(SubDecls(subs), PolicyOf(subs, outcomes), outcomes.Keys, books, false);
  }

  lemma LeftOutMeans<S(!new), T>(subs: seq<Subpipeline<S, T>>, outcomes: map<S, SubOutcome<T>>, n: S)
    requires Distinct(Names(SubDecls(subs))) && outcomes.Keys <= Elements(Names(SubDecls(subs)))
    ensures Doomed(GraphFrom(SubDecls(subs)), PolicyOf(subs, outcomes), outcomes.Keys, n) <==> exists i ::
      && 0 <= i < |subs| && subs[i].name in outcomes && Reach(GraphFrom(SubDecls(subs)), n, subs[i].name)
      && var outcome := outcomes[subs[i].name];
         || outcome.Escaped?
         || ((outcome.DagFailed? || outcome.ledger.failed != {}) && subs[i].config.onFailure != "continue")
  {
    var g, policy := GraphFrom(SubDecls(subs)), PolicyOf(subs, outcomes);
    forall i | 0 <= i < |subs| && subs[i].name in outcomes
      ensures policy.Fatal(subs[i].name) <==>
        var outcome := outcomes[subs[i].name];
        || outcome.Escaped?
        || ((outcome.DagFailed? || outcome.ledger.failed != {}) && subs[i].config.onFailure != "continue")
    {
      FatalMeans(subs, outcomes, i);
    }
    hide Reach, GraphFrom, Distinct;
    if Doomed(g, policy, outcomes.Keys, n) {
      var d :| d in outcomes.Keys && policy.Fatal(d) && Reach(g, n, d);
      var i :| 0 <= i < |Names(SubDecls(subs))| && Names(SubDecls(subs))[i] == d;
      assert subs[i].name == d;
    }
  }

  /**
   An uncancelled run is determined by the pipeline and its tasks' outcomes: which subpipelines execute, how each
   of them ends, which of its tasks run, and what the books say; whatever the limits and the completion orders.
   */
  lemma WholeRunIsDetermined<S(!new), T(!new)>(
    subs: seq<Subpipeline<S, T>>, declared: seq<seq<Decl<T>>>, oracle: S -> T -> Outcome,
    la: Log<S, T>, ba: Books<S>, lb: Log<S, T>, bb: Books<S>
  )
    requires |declared| == |subs| && Distinct(Names(SubDecls(subs))) && Levellable(SubDecls(subs))
    requires forall i :: 0 <= i < |subs| ==> Distinct(Names(declared[i]))
    requires Explained(subs, declared, oracle, la, false) && Explained(subs, declared, oracle, lb, false)
    requires Ended(GraphFrom(SubDecls(subs)), PolicyOf(subs, la.outcomes), la.outcomes.Keys, ba, false)
    requires Ended(GraphFrom(SubDecls(subs)), PolicyOf(subs, lb.outcomes), lb.outcomes.Keys, bb, false)
    ensures la.outcomes == lb.outcomes && ba == bb
    ensures forall s :: s in la.outcomes && la.outcomes[s].Done? ==> StartedOf(s, la.trace) == StartedOf(s, lb.trace)
  {
    hide *;
    var g := GraphFrom(SubDecls(subs));
    SameWhereBothRan(subs, declared, oracle, la, ba, lb);
    PoliciesAgree(subs, la.outcomes, lb.outcomes);
    LevellableIff(SubDecls(subs));
    KnownIsClosed(SubDecls(subs));
    RunIsDetermined(g, PolicyOf(subs, la.outcomes), la.outcomes.Keys, ba, PolicyOf(subs, lb.outcomes),
      lb.outcomes.Keys, bb);
    assert la.outcomes.Keys == lb.outcomes.Keys;
  }

  lemma PoliciesAgree<S(!new), T>(
    subs: seq<Subpipeline<S, T>>, a: map<S, SubOutcome<T>>, b: map<S, SubOutcome<T>>
  )
    requires forall s :: s in a && s in b ==> a[s] == b[s]
    ensures SameWhereBoth(PolicyOf(subs, a), PolicyOf(subs, b), a.Keys, b.Keys)
  {
  }

  lemma SameWhereBothRan<S(!new), T(!new)>(
    subs: seq<Subpipeline<S, T>>, declared: seq<seq<Decl<T>>>, oracle: S -> T -> Outcome,
    la: Log<S, T>, ba: Books<S>, lb: Log<S, T>
  )
    requires |declared| == |subs|
    requires forall i :: 0 <= i < |subs| ==> Distinct(Names(declared[i]))
    requires Explained(subs, declared, oracle, la, false) && Explained(subs, declared, oracle, lb, false)
    requires Ended(GraphFrom(SubDecls(subs)), PolicyOf(subs, la.outcomes), la.outcomes.Keys, ba, false)
    ensures forall s :: s in la.outcomes && s in lb.outcomes ==> la.outcomes[s] == lb.outcomes[s]
    ensures forall s :: s in la.outcomes && s in lb.outcomes && la.outcomes[s].Done? ==>
      StartedOf(s, la.trace) == StartedOf(s, lb.trace)
  {
    GraphFromKeys(SubDecls(subs));
    EndedInside(GraphFrom(SubDecls(subs)), PolicyOf(subs, la.outcomes), la.outcomes.Keys, ba);
    hide Explained, Ended, PolicyOf, GraphFrom, StartedOf, Distinct;
    forall s | s in la.outcomes && s in lb.outcomes
      ensures la.outcomes[s] == lb.outcomes[s]
      ensures la.outcomes[s].Done? ==> StartedOf(s, la.trace) == StartedOf(s, lb.trace)
    {
      var i :| 0 <= i < |Names(SubDecls(subs))| && Names(SubDecls(subs))[i] == s;
      assert subs[i].name == s;
      SameSubEnd(subs, declared, oracle, la, lb, i);
    }
  }

  lemma EndedInside<T(!new)>(g: Graph<T>, policy: Policy<T>, executed: set<T>, books: Books<T>)
    requires Ended(g, policy, executed, books, false)
    ensures executed <= g.Keys
  {
  }

  lemma SameSubEnd<S(!new), T(!new)>(
    subs: seq<Subpipeline<S, T>>, declared: seq<seq<Decl<T>>>, oracle: S -> T -> Outcome,
    la: Log<S, T>, lb: Log<S, T>, i: nat
  )
    requires |declared| == |subs| && i < |subs| && Distinct(Names(declared[i]))
    requires Explained(subs, declared, oracle, la, false) && Explained(subs, declared, oracle, lb, false)
    requires subs[i].name in la.outcomes && subs[i].name in lb.outcomes
    ensures la.outcomes[subs[i].name] == lb.outcomes[subs[i].name]
    ensures la.outcomes[subs[i].name].Done? ==>
      StartedOf(subs[i].name, la.trace) == StartedOf(subs[i].name, lb.trace)
  {
    var s, config := subs[i].name, subs[i].config;
    assert EndsByConfig(subs[i], declared[i], oracle(s), la.outcomes[s], StartedOf(s, la.trace));
    assert EndsByConfig(subs[i], declared[i], oracle(s), lb.outcomes[s], StartedOf(s, lb.trace));
    hide Explained, EndsAs, StartedOf;
    var o, r := EndsOneWay(declared[i], config.parallel, config.taskPolicies, config.onFailure, oracle(s));
  }

  /** A subpipeline that raised is in the failed set. */
  lemma EscapedFails<S(!new), T>(
    subs: seq<Subpipeline<S, T>>, outcomes: map<S, SubOutcome<T>>, books: Books<S>, cancelled: bool
  )
    requires Ended(GraphFrom(SubDecls(subs)), PolicyOf(subs, outcomes), outcomes.Keys, books, cancelled)
    ensures SomeEscaped(outcomes) ==> books.failed != {}
  {
    if s :| s in outcomes && outcomes[s].Escaped? {
      assert PolicyOf(subs, outcomes).outcome(s).RaisedError?;
      assert s in books.failed;
    }
  }

  lemma BelowPermits<S, T>(runner: PipelineRunner, subs: seq<Subpipeline<S, T>>, limit: nat)
    requires forall i :: 0 <= i < |subs| ==> LimitOf(runner, subs[i].config) <= limit
    ensures forall i :: 0 <= i < |subs| ==> LimitOf(runner, subs[i].config) <= Smaller(limit, runner.TaskPermits())
  {
  }

  lemma EmptyRun<S(!new), T(!new)>(
    subs: seq<Subpipeline<S, T>>, declared: seq<seq<Decl<T>>>, oracle: S -> T -> Outcome, cancelled: bool
  )
    requires |declared| == |subs| && subs == []
    ensures Levellable(SubDecls(subs)) && EveryTaskSucceeded(subs, declared, oracle, []) && Names(SubDecls(subs)) == []
    ensures Ended(GraphFrom(SubDecls(subs)), PolicyOf(subs, map[]), {}, Books({}, {}), cancelled)
  {
    var g := GraphFrom(SubDecls(subs));
    if a :| Reach(g, a, a) {
      ReachInside(g, a, a);
    }
  }
}
